/**
 Path normalisation by a component stack, for the keys of the endpoint storage. The stack loop is
 compared with a denotational directory walk, of which it computes the canonical form.
 */
module PathClean {
  import opened Wrappers

  // ---------------------------------------------------------------- Components

  datatype Component = RootDir | CurDir | ParentDir | Normal(name: string)

  function Split(s: string): (r: seq<string>)
    ensures |r| > 0
  {
    if s == "" then [""]
    else
      var r := Split(s[1..]);
      if s[0] == '/' then [""] + r else [[s[0]] + r[0]] + r[1..]
  }

  function PartsToComponents(parts: seq<string>): seq<Component> {
    if parts == [] then []
    else
      var rest := PartsToComponents(parts[1..]);
      if parts[0] == "" || parts[0] == "." then rest
      else [if parts[0] == ".." then ParentDir else Normal(parts[0])] + rest
  }

  /** The components of a path: a root first, a current directory only at the very start. */
  function Components(path: string): seq<Component> {
    var parts := Split(path);
    (if path != "" && path[0] == '/' then [RootDir] else if parts[0] == "." then [CurDir] else [])
    + PartsToComponents(parts)
  }

  /** No root but at the start. */
  ghost predicate RootFirst(comps: seq<Component>) {
    forall i :: 0 < i < |comps| ==> comps[i] != RootDir
  }

  lemma {:induction false} PartsHaveNoRoot(parts: seq<string>)
    ensures forall i :: 0 <= i < |PartsToComponents(parts)| ==>
              PartsToComponents(parts)[i].ParentDir? || PartsToComponents(parts)[i].Normal?
  {
    if parts != [] {
      PartsHaveNoRoot(parts[1..]);
    }
  }

  lemma ComponentsRootFirst(path: string)
    ensures RootFirst(Components(path))
  {
    PartsHaveNoRoot(Split(path));
  }

  // ---------------------------------------------------------------- Cleaning

  function Push(out: seq<Component>, comp: Component): seq<Component> {
    match comp
    case CurDir => out
    case ParentDir =>
      if out == [] then [ParentDir]
      else (match out[|out| - 1]
            case RootDir => out
            case Normal(_) => out[..|out| - 1]
            case _ => out + [ParentDir])
    case _ => out + [comp]
  }

  function Clean(comps: seq<Component>): seq<Component> {
    if comps == [] then [] else Push(Clean(comps[..|comps| - 1]), comps[|comps| - 1])
  }

  /** root? parent* normal*, without a parent after a root. */
  ghost predicate IsClean(out: seq<Component>) {
    && (forall i :: 0 <= i < |out| ==> out[i] != CurDir)
    && (forall i :: 0 < i < |out| ==> out[i] != RootDir)
    && (forall i, j :: 0 <= j < i < |out| && out[i] == ParentDir ==> out[j] == ParentDir)
  }

  /** The stack loop keeps the shape and ends with the specified list. */
  method CleanUtf8(comps: seq<Component>) returns (out: seq<Component>)
    requires RootFirst(comps)
    ensures out == Clean(comps) && IsClean(out)
  {
    out := [];
    for i := 0 to |comps|
      invariant out == Clean(comps[..i]) && IsClean(out)
      invariant i == 0 ==> out == []
    {
      assert comps[..i + 1][..i] == comps[..i];
      match comps[i] {
        case CurDir =>
        case ParentDir =>
          if out == [] {
            out := [ParentDir];
          } else {
            match out[|out| - 1] {
              case RootDir =>
              case Normal(_) => out := out[..|out| - 1];
              case CurDir => out := out + [ParentDir];
              case ParentDir => out := out + [ParentDir];
            }
          }
        case RootDir => out := out + [RootDir];
        case Normal(n) => out := out + [Normal(n)];
      }
    }
    assert comps[..|comps|] == comps;
  }

  lemma {:induction false} CleanIsClean(comps: seq<Component>)
    requires RootFirst(comps)
    ensures IsClean(Clean(comps))
  {
    if comps != [] {
      CleanIsClean(comps[..|comps| - 1]);
    }
  }

  lemma PrefixIsClean(out: seq<Component>, k: nat)
    requires IsClean(out) && k <= |out|
    ensures IsClean(out[..k])
  {
  }

  lemma PushFixesClean(out: seq<Component>, k: nat)
    requires IsClean(out) && k + 1 == |out|
    ensures Push(out[..k], out[k]) == out
  {
    assert out == out[..k] + [out[k]];
    assert out[k] == ParentDir && k > 0 ==> out[..k][k - 1] == ParentDir;
  }

  lemma {:induction false} CleanFixesClean(out: seq<Component>)
    requires IsClean(out)
    ensures Clean(out) == out
  {
    if out != [] {
      var k := |out| - 1;
      PrefixIsClean(out, k);
      CleanFixesClean(out[..k]);
      PushFixesClean(out, k);
    }
  }

  /** Cleaning twice is cleaning once. */
  lemma CleanIdempotent(comps: seq<Component>)
    requires RootFirst(comps)
    ensures Clean(Clean(comps)) == Clean(comps)
  {
    CleanIsClean(comps);
    CleanFixesClean(Clean(comps));
  }

  // ---------------------------------------------------------------- Directory walk

  /** A directory as the names on the way to it from the root. */
  type Dir = seq<string>

  function Walk(dir: Dir, comp: Component): Dir {
    match comp
    case RootDir => []
    case CurDir => dir
    case ParentDir => if dir == [] then [] else dir[..|dir| - 1]
    case Normal(n) => dir + [n]
  }

  /** Where a path leads from a directory. */
  function Resolve(dir: Dir, comps: seq<Component>): Dir {
    if comps == [] then dir else Walk(Resolve(dir, comps[..|comps| - 1]), comps[|comps| - 1])
  }

  lemma ResolveSnoc(dir: Dir, comps: seq<Component>, c: Component)
    ensures Resolve(dir, comps + [c]) == Walk(Resolve(dir, comps), c)
  {
    assert (comps + [c])[..|comps|] == comps;
  }

  lemma PushPreserves(dir: Dir, out: seq<Component>, c: Component)
    requires IsClean(out)
    ensures Resolve(dir, Push(out, c)) == Walk(Resolve(dir, out), c)
  {
    ResolveSnoc(dir, out, c);
    if c == ParentDir && out != [] {
      var k := |out| - 1;
      assert out == out[..k] + [out[k]];
      ResolveSnoc(dir, out[..k], out[k]);
      if out[k].Normal? {
        assert (Resolve(dir, out[..k]) + [out[k].name])[..|Resolve(dir, out[..k])|] == Resolve(dir, out[..k]);
      }
    } else if c == ParentDir {
      assert out + [c] == [ParentDir];
    }
  }

  /** The cleaned path leads where the path leads, from every directory. */
  lemma {:induction false} CleanPreservesMeaning(comps: seq<Component>, dir: Dir)
    requires RootFirst(comps)
    ensures Resolve(dir, Clean(comps)) == Resolve(dir, comps)
  {
    if comps != [] {
      var k := |comps| - 1;
      CleanPreservesMeaning(comps[..k], dir);
      CleanIsClean(comps[..k]);
      PushPreserves(dir, Clean(comps[..k]), comps[k]);
    }
  }

  // ---------------------------------------------------------------- Canonical form

  function Normals(names: seq<string>): seq<Component> {
    seq(|names|, i requires 0 <= i < |names| => Normal(names[i]))
  }

  function Parents(k: nat): seq<Component> {
    seq(k, _ => ParentDir)
  }

  lemma ParentsForm(out: seq<Component>)
    requires forall i :: 0 <= i < |out| ==> out[i] == ParentDir
    ensures out == Form(false, |out|, [])
  {
    assert Parents(|out|) + Normals([]) == out;
  }

  lemma FormSnoc(root: bool, k: nat, names: seq<string>, x: string)
    ensures Form(root, k, names) + [Normal(x)] == Form(root, k, names + [x])
  {
    assert Normals(names) + [Normal(x)] == Normals(names + [x]);
  }

  /** A clean list is a root and names, or parents and names. */
  lemma {:induction false} CleanForm(out: seq<Component>) returns (root: bool, k: nat, names: seq<string>)
    requires IsClean(out)
    ensures root ==> k == 0
    ensures out == Form(root, k, names)
  {
    if out == [] {
      root, k, names := false, 0, [];
      ParentsForm(out);
    } else {
      var n := |out| - 1;
      match out[n] {
        case RootDir =>
          root, k, names := true, 0, [];
          assert out == [RootDir] + Normals([]);
        case ParentDir =>
          root, k, names := false, n + 1, [];
          ParentsForm(out);
        case Normal(x) =>
          PrefixIsClean(out, n);
          root, k, names := CleanForm(out[..n]);
          FormSnoc(root, k, names, x);
          assert out == out[..n] + [out[n]];
          names := names + [x];
      }
    }
  }

  lemma {:induction false} ResolveNormals(dir: Dir, pre: seq<Component>, names: seq<string>)
    ensures Resolve(dir, pre + Normals(names)) == Resolve(dir, pre) + names
  {
    if names == [] {
      assert pre + Normals(names) == pre;
    } else {
      var k := |names| - 1;
      assert pre + Normals(names) == (pre + Normals(names[..k])) + [Normal(names[k])];
      ResolveSnoc(dir, pre + Normals(names[..k]), Normal(names[k]));
      ResolveNormals(dir, pre, names[..k]);
      assert names == names[..k] + [names[k]];
    }
  }

  lemma {:induction false} ResolveParents(dir: Dir, k: nat)
    ensures Resolve(dir, Parents(k)) == if k <= |dir| then dir[..|dir| - k] else []
  {
    if k > 0 {
      assert Parents(k) == Parents(k - 1) + [ParentDir];
      ResolveSnoc(dir, Parents(k - 1), ParentDir);
      ResolveParents(dir, k - 1);
    }
  }

  function Form(root: bool, k: nat, names: seq<string>): seq<Component> {
    (if root then [RootDir] else Parents(k)) + Normals(names)
  }

  lemma ResolveForm(dir: Dir, root: bool, k: nat, names: seq<string>)
    ensures Resolve(dir, Form(root, k, names))
         == (if root || |dir| < k then [] else dir[..|dir| - k]) + names
  {
    var pre := if root then [RootDir] else Parents(k);
    ResolveNormals(dir, pre, names);
    ResolveParents(dir, k);
    if root {
      assert [RootDir][..0] == [];
    }
  }

  /** Two paths that lead to the same place from every directory. */
  ghost predicate SameMeaning(a: seq<Component>, b: seq<Component>) {
    forall dir: Dir :: Resolve(dir, a) == Resolve(dir, b)
  }

  /** A directory of `n` equal names. */
  function Deep(n: nat, name: string): Dir {
    seq(n, _ => name)
  }

  /** Relative forms that lead to the same place from every directory are equal. */
  lemma RelativeFormsDistinct(k: nat, x: seq<string>, l: nat, y: seq<string>)
    requires SameMeaning(Form(false, k, x), Form(false, l, y)) && k <= l
    ensures k == l && x == y
  {
    var other := if y == [] then "" else y[0] + "/";
    var dir := Deep(l, other);
    ResolveForm(dir, false, k, x);
    ResolveForm(dir, false, l, y);
    var a, b := dir[..l - k] + x, dir[..l - l] + y;
    assert a == b;
    assert b == y;
    assert a == x;
  }

  lemma AbsoluteAndRelativeDiffer(x: seq<string>, l: nat, y: seq<string>)
    ensures !SameMeaning(Form(true, 0, x), Form(false, l, y))
  {
    var dir := Deep(l + |x| + 1, "");
    ResolveForm(dir, true, 0, x);
    ResolveForm(dir, false, l, y);
    assert |Resolve(dir, Form(true, 0, x))| == |x|;
    assert |Resolve(dir, Form(false, l, y))| == |x| + 1 + |y|;
  }

  lemma CleanFormsDistinct(a: seq<Component>, b: seq<Component>)
    requires IsClean(a) && IsClean(b) && SameMeaning(a, b)
    ensures a == b
  {
    var ra, ka, na := CleanForm(a);
    var rb, kb, nb := CleanForm(b);
    assert a == Form(ra, ka, na) && b == Form(rb, kb, nb);
    if ra && rb {
      ResolveForm([], true, ka, na);
      ResolveForm([], true, kb, nb);
      assert [] + na == na && [] + nb == nb;
    } else if ra {
      AbsoluteAndRelativeDiffer(na, kb, nb);
    } else if rb {
      assert SameMeaning(b, a);
      AbsoluteAndRelativeDiffer(nb, ka, na);
    } else if ka <= kb {
      RelativeFormsDistinct(ka, na, kb, nb);
    } else {
      assert SameMeaning(b, a);
      RelativeFormsDistinct(kb, nb, ka, na);
    }
  }

  /** Two paths clean to the same list exactly when they lead to the same place from every directory. */
  lemma CleanIsCanonical(a: seq<Component>, b: seq<Component>)
    requires RootFirst(a) && RootFirst(b)
    ensures Clean(a) == Clean(b) <==> SameMeaning(a, b)
  {
    var x, y := Clean(a), Clean(b);
    CleanIsClean(a);
    CleanIsClean(b);
    if x == y {
      forall dir: Dir ensures Resolve(dir, a) == Resolve(dir, b) {
        CleanPreservesMeaning(a, dir);
        CleanPreservesMeaning(b, dir);
      }
    }
    if SameMeaning(a, b) {
      forall dir: Dir ensures Resolve(dir, x) == Resolve(dir, y) {
        CleanPreservesMeaning(a, dir);
        CleanPreservesMeaning(b, dir);
      }
      CleanFormsDistinct(x, y);
    }
  }

  // ---------------------------------------------------------------- Keys

  function Names(comps: seq<Component>): seq<string>
    requires forall i :: 0 <= i < |comps| ==> comps[i].Normal?
  {
    seq(|comps|, i requires 0 <= i < |comps| && comps[i].Normal? => comps[i].name)
  }

  /** Rejects what leads above or onto its start, and drops a leading root. */
  function NormalizeComponents(comps: seq<Component>): (r: Result<seq<Component>, ()>) {
    var c := Clean(comps);
    if c == [] || c[0] == ParentDir || c == [RootDir] then Err(())
    else if c[0] == RootDir then Ok(c[1..])
    else Ok(c)
  }

  function NormalizeKey(key: string): Result<seq<Component>, ()> {
    NormalizeComponents(Components(key))
  }

  lemma ResolveNames(dir: Dir, names: seq<string>)
    ensures Resolve(dir, Form(true, 0, names)) == names
    ensures Resolve(dir, Form(false, 0, names)) == dir + names
  {
    ResolveForm(dir, true, 0, names);
    ResolveForm(dir, false, 0, names);
    assert dir[..|dir|] == dir && [] + names == names;
  }

  /** The path leads to the same place from everywhere. */
  ghost predicate LeadsTo(comps: seq<Component>, names: seq<string>) {
    forall dir: Dir :: Resolve(dir, comps) == names
  }

  /** The path leads down along the names from everywhere. */
  ghost predicate LeadsBelow(comps: seq<Component>, names: seq<string>) {
    forall dir: Dir :: Resolve(dir, comps) == dir + names
  }

  lemma MeaningOfRooted(comps: seq<Component>, names: seq<string>)
    ensures SameMeaning(comps, Form(true, 0, names)) <==> LeadsTo(comps, names)
  {
    var f := Form(true, 0, names);
    if SameMeaning(comps, f) {
      forall dir: Dir ensures Resolve(dir, comps) == names {
        ResolveNames(dir, names);
      }
    }
    if LeadsTo(comps, names) {
      forall dir: Dir ensures Resolve(dir, comps) == Resolve(dir, f) {
        ResolveNames(dir, names);
      }
    }
  }

  lemma MeaningOfRelative(comps: seq<Component>, names: seq<string>)
    ensures SameMeaning(comps, Form(false, 0, names)) <==> LeadsBelow(comps, names)
  {
    var f := Form(false, 0, names);
    if SameMeaning(comps, f) {
      forall dir: Dir ensures Resolve(dir, comps) == dir + names {
        ResolveNames(dir, names);
      }
    }
    if LeadsBelow(comps, names) {
      forall dir: Dir ensures Resolve(dir, comps) == Resolve(dir, f) {
        ResolveNames(dir, names);
      }
    }
  }

  lemma CleanIsForm(comps: seq<Component>, root: bool, names: seq<string>)
    requires RootFirst(comps)
    ensures Clean(comps) == Form(root, 0, names) <==> SameMeaning(comps, Form(root, 0, names))
  {
    var f := Form(root, 0, names);
    assert IsClean(f);
    CleanFixesClean(f);
    CleanIsCanonical(comps, f);
  }

  lemma AcceptedForms(comps: seq<Component>, names: seq<string>)
    requires RootFirst(comps)
    ensures NormalizeComponents(comps) == Ok(Normals(names)) <==>
              names != [] && (Clean(comps) == Form(true, 0, names) || Clean(comps) == Form(false, 0, names))
  {
    var c, rel := Clean(comps), Normals(names);
    assert Form(true, 0, names) == [RootDir] + rel;
    assert Form(false, 0, names) == rel by {
      assert Parents(0) == [];
    }
    if c != [] && c[0] == RootDir {
      assert c == [RootDir] + c[1..];
    }
    assert rel != [] ==> rel[0].Normal?;
  }

  /**
   A key is accepted as `names` exactly when `names` is not empty and the key leads to it: from
   the root if the key is absolute, and below every directory otherwise.
   */
  lemma NormalizeExact(comps: seq<Component>, names: seq<string>)
    requires RootFirst(comps)
    ensures NormalizeComponents(comps) == Ok(Normals(names)) <==>
              names != [] && (LeadsTo(comps, names) || LeadsBelow(comps, names))
  {
    AcceptedForms(comps, names);
    CleanIsForm(comps, true, names);
    CleanIsForm(comps, false, names);
    MeaningOfRooted(comps, names);
    MeaningOfRelative(comps, names);
  }

  /** An accepted key consists of one or more names and nothing else. */
  lemma AcceptedIsNames(comps: seq<Component>)
    requires RootFirst(comps) && NormalizeComponents(comps).Ok?
    ensures NormalizeComponents(comps).value != []
    ensures forall i :: 0 <= i < |NormalizeComponents(comps).value| ==> NormalizeComponents(comps).value[i].Normal?
  {
    CleanIsClean(comps);
    var c := Clean(comps);
    forall i | 0 <= i < |c| && c[0] != ParentDir ensures c[i] != ParentDir {}
  }

  // ---------------------------------------------------------------- Stored paths

  /** An id that is one ordinary component. */
  predicate SingleName(id: string) {
    id != "" && id != "." && id != ".." && '/' !in id
  }

  lemma {:induction false} SplitFirst(x: string, rest: string)
    requires '/' !in x
    ensures Split(x + "/" + rest) == [x] + Split(rest)
  {
    var s := x + "/" + rest;
    if x == "" {
      assert s[1..] == rest;
    } else {
      assert s[1..] == x[1..] + "/" + rest;
      SplitFirst(x[1..], rest);
      assert [x[0]] + x[1..] == x;
    }
  }

  lemma {:induction false} SplitOne(x: string)
    requires '/' !in x
    ensures Split(x) == [x]
  {
    if x != "" {
      SplitOne(x[1..]);
      assert [x[0]] + x[1..] == x;
    }
  }

  predicate IsPrefix(a: seq<Component>, b: seq<Component>) {
    |a| <= |b| && b[..|a|] == a
  }

  /** The components of a stored key: the ids' path joined with the normalised key. */
  function S3Path(tenant: string, timeline: string, endpoint: string, key: string): Result<seq<Component>, ()> {
    match NormalizeKey(key)
    case Err(e) => Err(e)
    case Ok(names) => Ok(Components(tenant + "/" + timeline + "/" + endpoint) + names)
  }

  lemma PartsCons(x: string, rest: seq<string>)
    requires SingleName(x)
    ensures PartsToComponents([x] + rest) == [Normal(x)] + PartsToComponents(rest)
  {
    assert ([x] + rest)[1..] == rest;
  }

  lemma SinglePart(x: string)
    requires SingleName(x)
    ensures PartsToComponents(Split(x)) == [Normal(x)]
  {
    SplitOne(x);
    PartsCons(x, []);
    assert [x] + [] == [x];
  }

  lemma IdParts(tenant: string, timeline: string, endpoint: string)
    requires '/' !in tenant && '/' !in timeline
    ensures Split(tenant + "/" + timeline + "/" + endpoint) == [tenant] + ([timeline] + Split(endpoint))
  {
    var rest := timeline + "/" + endpoint;
    assert tenant + "/" + timeline + "/" + endpoint == tenant + "/" + rest;
    SplitFirst(tenant, rest);
    SplitFirst(timeline, endpoint);
  }

  lemma IdComponents(tenant: string, timeline: string, endpoint: string)
    requires SingleName(tenant) && SingleName(timeline)
    ensures Components(tenant + "/" + timeline + "/" + endpoint)
         == [Normal(tenant)] + ([Normal(timeline)] + PartsToComponents(Split(endpoint)))
  {
    IdParts(tenant, timeline, endpoint);
    PartsCons(tenant, [timeline] + Split(endpoint));
    PartsCons(timeline, Split(endpoint));
    assert tenant[0] in tenant;
  }

  lemma AcceptedKey(key: string) returns (names: seq<string>)
    requires NormalizeKey(key).Ok?
    ensures names != [] && NormalizeKey(key) == Ok(Normals(names))
  {
    ComponentsRootFirst(key);
    AcceptedIsNames(Components(key));
    var k := NormalizeKey(key).value;
    names := Names(k);
    assert k == Normals(names);
  }

  /** The components below tenant and timeline: those of the endpoint id, then names only. */
  lemma StoredBelowIds(tenant: string, timeline: string, endpoint: string, key: string) returns (names: seq<string>)
    requires SingleName(tenant) && SingleName(timeline)
    requires S3Path(tenant, timeline, endpoint, key).Ok?
    ensures names != []
    ensures S3Path(tenant, timeline, endpoint, key).value
         == Normals([tenant, timeline]) + (PartsToComponents(Split(endpoint)) + Normals(names))
  {
    IdComponents(tenant, timeline, endpoint);
    names := AcceptedKey(key);
    var e := PartsToComponents(Split(endpoint));
    assert Normals([tenant, timeline]) == [Normal(tenant), Normal(timeline)];
    assert [Normal(tenant)] + ([Normal(timeline)] + e) + Normals(names)
        == [Normal(tenant), Normal(timeline)] + (e + Normals(names));
  }

  /** With a one-component endpoint id the stored path starts with exactly the three ids. */
  lemma StoredUnderIds(tenant: string, timeline: string, endpoint: string, key: string)
    requires SingleName(tenant) && SingleName(timeline) && SingleName(endpoint)
    requires S3Path(tenant, timeline, endpoint, key).Ok?
    ensures IsPrefix(Normals([tenant, timeline, endpoint]), S3Path(tenant, timeline, endpoint, key).value)
  {
    IdComponents(tenant, timeline, endpoint);
    SinglePart(endpoint);
    assert [Normal(tenant)] + ([Normal(timeline)] + [Normal(endpoint)]) == Normals([tenant, timeline, endpoint]);
  }

  // ---------------------------------------------------------------- From the text

  /** Entering one segment of a path from a directory. */
  function Enter(dir: Dir, segment: string): Dir {
    if segment == "" || segment == "." then dir
    else if segment == ".." then (if dir == [] then [] else dir[..|dir| - 1])
    else dir + [segment]
  }

  /** Reading the text one character at a time, with the segment read so far. */
  function WalkText(dir: Dir, segment: string, text: string): Dir
    decreases |text|
  {
    if text == "" then Enter(dir, segment)
    else if text[0] == '/' then WalkText(Enter(dir, segment), "", text[1..])
    else WalkText(dir, segment + [text[0]], text[1..])
  }

  /** Where the text of a path leads: a leading slash starts from the root. */
  function TextWalk(dir: Dir, path: string): Dir {
    WalkText(if path != "" && path[0] == '/' then [] else dir, "", path)
  }

  function EnterAll(dir: Dir, parts: seq<string>): Dir
    decreases |parts|
  {
    if parts == [] then dir else EnterAll(Enter(dir, parts[0]), parts[1..])
  }

  lemma NothingBefore(parts: seq<string>)
    requires parts != []
    ensures ["" + parts[0]] + parts[1..] == parts
  {
    assert "" + parts[0] == parts[0];
  }

  lemma {:induction false} WalkTextIsEnterAll(dir: Dir, segment: string, text: string)
    ensures WalkText(dir, segment, text) == EnterAll(dir, [segment + Split(text)[0]] + Split(text)[1..])
    decreases |text|
  {
    var parts := Split(text);
    var joined := [segment + parts[0]] + parts[1..];
    assert joined[0] == segment + parts[0] && joined[1..] == parts[1..];
    if text == "" {
      assert segment + "" == segment && parts[1..] == [];
    } else if text[0] == '/' {
      WalkTextIsEnterAll(Enter(dir, segment), "", text[1..]);
      var rest := Split(text[1..]);
      NothingBefore(rest);
      assert segment + "" == segment && parts[1..] == rest;
    } else {
      WalkTextIsEnterAll(dir, segment + [text[0]], text[1..]);
      var rest := Split(text[1..]);
      assert (segment + [text[0]]) + rest[0] == segment + ([text[0]] + rest[0]);
      assert parts[1..] == rest[1..];
    }
  }

  lemma ResolveCons(dir: Dir, c: Component, rest: seq<Component>)
    ensures Resolve(dir, [c] + rest) == Resolve(Walk(dir, c), rest)
  {
    ResolveAppend(dir, [c], rest);
    assert [c][..0] == [];
  }

  lemma {:induction false} EnterAllIsResolve(dir: Dir, parts: seq<string>)
    ensures EnterAll(dir, parts) == Resolve(dir, PartsToComponents(parts))
    decreases |parts|
  {
    if parts != [] {
      var rest := PartsToComponents(parts[1..]);
      EnterAllIsResolve(Enter(dir, parts[0]), parts[1..]);
      if parts[0] == ".." {
        ResolveCons(dir, ParentDir, rest);
      } else if parts[0] != "" && parts[0] != "." {
        ResolveCons(dir, Normal(parts[0]), rest);
      }
    }
  }

  /** The components of a path lead where its text leads, from every directory. */
  lemma ComponentsFollowText(dir: Dir, path: string)
    ensures Resolve(dir, Components(path)) == TextWalk(dir, path)
  {
    var parts := Split(path);
    var start := if path != "" && path[0] == '/' then [] else dir;
    WalkTextIsEnterAll(start, "", path);
    NothingBefore(parts);
    EnterAllIsResolve(start, parts);
    var comps := PartsToComponents(parts);
    if path != "" && path[0] == '/' {
      ResolveCons(dir, RootDir, comps);
    } else if parts[0] == "." {
      ResolveCons(dir, CurDir, comps);
    } else {
      assert [] + comps == comps;
    }
  }

  ghost predicate NoSlash(parts: seq<string>) {
    forall i :: 0 <= i < |parts| ==> '/' !in parts[i]
  }

  lemma {:induction false} SplitHasNoSlash(s: string)
    ensures NoSlash(Split(s))
  {
    if s != "" {
      SplitHasNoSlash(s[1..]);
    }
  }

  lemma {:induction false} PartsAreSingle(parts: seq<string>)
    requires NoSlash(parts)
    ensures forall i :: 0 <= i < |PartsToComponents(parts)| && PartsToComponents(parts)[i].Normal? ==>
              SingleName(PartsToComponents(parts)[i].name)
  {
    if parts != [] {
      PartsAreSingle(parts[1..]);
    }
  }

  /** Every name among the components of a path is one ordinary component. */
  ghost predicate SingleNames(comps: seq<Component>) {
    forall i :: 0 <= i < |comps| && comps[i].Normal? ==> SingleName(comps[i].name)
  }

  lemma ComponentsAreSingle(path: string)
    ensures SingleNames(Components(path))
  {
    SplitHasNoSlash(path);
    PartsAreSingle(Split(path));
  }

  lemma {:induction false} CleanKeepsSingle(comps: seq<Component>)
    requires SingleNames(comps)
    ensures SingleNames(Clean(comps))
  {
    if comps != [] {
      CleanKeepsSingle(comps[..|comps| - 1]);
    }
  }

  /** The names of an accepted key are ordinary components: no separator, no dot and no double dot. */
  lemma AcceptedNamesAreSingle(key: string)
    requires NormalizeKey(key).Ok?
    ensures NormalizeKey(key).value != []
    ensures forall i :: 0 <= i < |NormalizeKey(key).value| ==>
              NormalizeKey(key).value[i].Normal? && SingleName(NormalizeKey(key).value[i].name)
  {
    ComponentsRootFirst(key);
    ComponentsAreSingle(key);
    CleanKeepsSingle(Components(key));
    AcceptedIsNames(Components(key));
  }

  /** The text leads to `names` from everywhere, or along `names` below every directory. */
  ghost predicate TextNames(key: string, names: seq<string>) {
    (forall dir: Dir :: TextWalk(dir, key) == names) || (forall dir: Dir :: TextWalk(dir, key) == dir + names)
  }

  lemma TextLeads(key: string, names: seq<string>)
    ensures TextNames(key, names) <==> LeadsTo(Components(key), names) || LeadsBelow(Components(key), names)
  {
    forall dir: Dir ensures Resolve(dir, Components(key)) == TextWalk(dir, key) {
      ComponentsFollowText(dir, key);
    }
  }

  /**
   A key is accepted as `names` exactly when `names` is not empty and the text of the key leads
   there: from the root, or below every directory.
   */
  lemma NormalizeKeyExact(key: string, names: seq<string>)
    ensures NormalizeKey(key) == Ok(Normals(names)) <==> names != [] && TextNames(key, names)
  {
    ComponentsRootFirst(key);
    NormalizeExact(Components(key), names);
    TextLeads(key, names);
  }

  /** A key is refused exactly when its text leads to no such place. */
  lemma KeyRefusedIff(key: string)
    ensures NormalizeKey(key).Err? <==> !exists names: seq<string> :: names != [] && TextNames(key, names)
  {
    if NormalizeKey(key).Ok? {
      var names := AcceptedKey(key);
      NormalizeKeyExact(key, names);
    } else {
      forall names: seq<string> ensures !(names != [] && TextNames(key, names)) {
        NormalizeKeyExact(key, names);
      }
    }
  }

  /** A stored path leads, from the root, along the text of its ids and then along the names of its key. */
  lemma StoredFollowsText(tenant: string, timeline: string, endpoint: string, key: string) returns (names: seq<string>)
    requires S3Path(tenant, timeline, endpoint, key).Ok?
    ensures names != [] && TextNames(key, names)
    ensures Resolve([], S3Path(tenant, timeline, endpoint, key).value)
         == TextWalk([], tenant + "/" + timeline + "/" + endpoint) + names
  {
    names := AcceptedKey(key);
    NormalizeKeyExact(key, names);
    var ids := tenant + "/" + timeline + "/" + endpoint;
    ResolveNormals([], Components(ids), names);
    ComponentsFollowText([], ids);
  }

  // ---------------------------------------------------------------- Staying below the ids

  ghost predicate NoRoot(comps: seq<Component>) {
    forall i :: 0 <= i < |comps| ==> comps[i] != RootDir
  }

  /** The cleaned path begins by leaving its directory. */
  predicate LeadsUp(comps: seq<Component>) {
    Clean(comps) != [] && Clean(comps)[0] == ParentDir
  }

  /** The walk from `dir` is below `dir` at every component. */
  ghost predicate StaysBelow(dir: Dir, comps: seq<Component>) {
    forall k :: 0 <= k <= |comps| ==> dir <= Resolve(dir, comps[..k])
  }

  lemma CleanSnoc(comps: seq<Component>, k: nat)
    requires k < |comps|
    ensures Clean(comps[..k + 1]) == Push(Clean(comps[..k]), comps[k])
  {
    assert comps[..k + 1][..k] == comps[..k];
  }

  lemma {:induction false} NoRootCleans(comps: seq<Component>)
    requires NoRoot(comps)
    ensures NoRoot(Clean(comps))
  {
    if comps != [] {
      NoRootCleans(comps[..|comps| - 1]);
    }
  }

  /** Once left, the directory is not entered again by cleaning. */
  lemma {:induction false} LeadsUpStays(comps: seq<Component>, k: nat)
    requires NoRoot(comps) && k <= |comps| && LeadsUp(comps[..k])
    ensures LeadsUp(comps)
    decreases |comps| - k
  {
    if k == |comps| {
      assert comps[..k] == comps;
    } else {
      CleanSnoc(comps, k);
      LeadsUpStays(comps, k + 1);
    }
  }

  /** A path that leads up has a point at which it has cleaned to just its parent. */
  lemma {:induction false} FirstStepUp(comps: seq<Component>) returns (k: nat)
    requires NoRoot(comps) && LeadsUp(comps)
    ensures k <= |comps| && Clean(comps[..k]) == [ParentDir]
  {
    var n := |comps| - 1;
    if LeadsUp(comps[..n]) {
      k := FirstStepUp(comps[..n]);
      assert comps[..n][..k] == comps[..k];
    } else {
      k := n + 1;
      assert comps[..k] == comps;
      NoRootCleans(comps[..n]);
    }
  }

  lemma FormHead(root: bool, k: nat, names: seq<string>)
    ensures root ==> |Form(root, k, names)| > 0 && Form(root, k, names)[0] == RootDir
    ensures !root && k > 0 ==> |Form(root, k, names)| > 0 && Form(root, k, names)[0] == ParentDir
  {}

  lemma CleanBelow(dir: Dir, comps: seq<Component>)
    requires NoRoot(comps) && !LeadsUp(comps)
    ensures dir <= Resolve(dir, comps)
  {
    CleanIsClean(comps);
    NoRootCleans(comps);
    CleanPreservesMeaning(comps, dir);
    var root, k, names := CleanForm(Clean(comps));
    FormHead(root, k, names);
    ResolveForm(dir, false, 0, names);
    assert dir[..|dir|] == dir;
  }

  /** The walk stays below a directory exactly when the cleaned path does not begin by leaving it. */
  lemma StaysBelowIff(dir: Dir, comps: seq<Component>)
    requires dir != [] && NoRoot(comps)
    ensures StaysBelow(dir, comps) <==> !LeadsUp(comps)
  {
    if LeadsUp(comps) {
      var k := FirstStepUp(comps);
      CleanPreservesMeaning(comps[..k], dir);
      ResolveParents(dir, 1);
      assert Parents(1) == [ParentDir];
      assert |Resolve(dir, comps[..k])| < |dir|;
    } else {
      forall k | 0 <= k <= |comps| ensures dir <= Resolve(dir, comps[..k]) {
        if LeadsUp(comps[..k]) {
          LeadsUpStays(comps, k);
        } else {
          CleanBelow(dir, comps[..k]);
        }
      }
    }
  }

  lemma {:induction false} CleanNames(comps: seq<Component>, names: seq<string>)
    ensures Clean(comps + Normals(names)) == Clean(comps) + Normals(names)
  {
    if names == [] {
      assert comps + Normals(names) == comps;
      assert Clean(comps) + Normals(names) == Clean(comps);
    } else {
      var k := |names| - 1;
      var whole, before := comps + Normals(names), comps + Normals(names[..k]);
      assert whole[..|whole| - 1] == before;
      CleanNames(comps, names[..k]);
      assert Clean(comps) + Normals(names[..k]) + [Normal(names[k])] == Clean(comps) + Normals(names);
    }
  }

  lemma {:induction false} ResolveAppend(dir: Dir, a: seq<Component>, b: seq<Component>)
    ensures Resolve(dir, a + b) == Resolve(Resolve(dir, a), b)
  {
    if b == [] {
      assert a + b == a;
    } else {
      assert (a + b)[..|a + b| - 1] == a + b[..|b| - 1];
      ResolveAppend(dir, a, b[..|b| - 1]);
    }
  }

  /**
   The stored path is walked from the root: it stays below its tenant and timeline at every
   component after them if and only if the endpoint id, cleaned, does not begin with a parent.
   */
  lemma StoredStaysBelowIff(tenant: string, timeline: string, endpoint: string, key: string)
    requires SingleName(tenant) && SingleName(timeline)
    requires S3Path(tenant, timeline, endpoint, key).Ok?
    ensures var p := S3Path(tenant, timeline, endpoint, key).value;
            (forall k :: 2 <= k <= |p| ==> [tenant, timeline] <= Resolve([], p[..k]))
            <==> !LeadsUp(PartsToComponents(Split(endpoint)))
  {
    var names := StoredBelowIds(tenant, timeline, endpoint, key);
    var e, p := PartsToComponents(Split(endpoint)), S3Path(tenant, timeline, endpoint, key).value;
    var rest := e + Normals(names);
    PartsHaveNoRoot(Split(endpoint));
    StaysBelowIff([tenant, timeline], rest);
    CleanNames(e, names);
    assert LeadsUp(rest) <==> LeadsUp(e);
    WalkFromIds([tenant, timeline], rest);
    assert p == Normals([tenant, timeline]) + rest;
  }

  lemma WalkFromIds(dir: Dir, rest: seq<Component>)
    ensures var p := Normals(dir) + rest;
            (forall k :: |dir| <= k <= |p| ==> dir <= Resolve([], p[..k])) <==> StaysBelow(dir, rest)
  {
    var p := Normals(dir) + rest;
    forall k | |dir| <= k <= |p| ensures Resolve([], p[..k]) == Resolve(dir, rest[..k - |dir|]) {
      assert p[..k] == Normals(dir) + rest[..k - |dir|];
      ResolveAppend([], Normals(dir), rest[..k - |dir|]);
      ResolveNormals([], [], dir);
      assert [] + Normals(dir) == Normals(dir) && [] + dir == dir;
    }
    if forall k :: |dir| <= k <= |p| ==> dir <= Resolve([], p[..k]) {
      forall k | 0 <= k <= |rest| ensures dir <= Resolve(dir, rest[..k]) {
        assert Resolve([], p[..k + |dir|]) == Resolve(dir, rest[..k + |dir| - |dir|]);
      }
    }
  }

  // ---------------------------------------------------------------- Delete prefixes

  /** Joining replaces the path by an absolute one and otherwise appends. */
  function Join(comps: seq<Component>, path: string): seq<Component> {
    if path != "" && path[0] == '/' then Components(path) else comps + PartsToComponents(Split(path))
  }

  /** The components of a delete prefix; an absent id joins the empty path. */
  function DeletePrefix(tenant: string, timeline: Option<string>, endpoint: Option<string>): seq<Component> {
    Join(Join(Components(tenant), if timeline.Some? then timeline.value else ""),
         if endpoint.Some? then endpoint.value else "")
  }

  lemma JoinSingle(comps: seq<Component>, x: string)
    requires SingleName(x)
    ensures Join(comps, x) == comps + [Normal(x)]
  {
    SinglePart(x);
    assert x[0] in x;
  }

  lemma JoinEmpty(comps: seq<Component>)
    ensures Join(comps, "") == comps
  {
    assert Split("") == [""];
    assert [""][1..] == [];
    assert PartsToComponents([""]) == [];
  }

  lemma TenantComponents(tenant: string)
    requires SingleName(tenant)
    ensures Components(tenant) == [Normal(tenant)]
  {
    SplitOne(tenant);
    SinglePart(tenant);
    assert tenant[0] in tenant;
  }

  function Given(id: Option<string>): seq<string> {
    if id.Some? then [id.value] else []
  }

  function GivenIds(tenant: string, timeline: Option<string>, endpoint: Option<string>): seq<string> {
    [tenant] + Given(timeline) + Given(endpoint)
  }

  lemma JoinGiven(comps: seq<Component>, id: Option<string>)
    requires id.Some? ==> SingleName(id.value)
    ensures Join(comps, if id.Some? then id.value else "") == comps + Normals(Given(id))
  {
    if id.Some? {
      JoinSingle(comps, id.value);
    } else {
      JoinEmpty(comps);
    }
  }

  lemma DeletePrefixIds(tenant: string, timeline: Option<string>, endpoint: Option<string>)
    requires SingleName(tenant) && (timeline.Some? ==> SingleName(timeline.value))
    requires endpoint.Some? ==> SingleName(endpoint.value)
    ensures DeletePrefix(tenant, timeline, endpoint) == Normals(GivenIds(tenant, timeline, endpoint))
  {
    TenantComponents(tenant);
    JoinGiven([Normal(tenant)], timeline);
    JoinGiven([Normal(tenant)] + Normals(Given(timeline)), endpoint);
    assert Normals([tenant]) == [Normal(tenant)];
  }

  lemma PrefixOfNames(given: seq<string>, ids: seq<string>, p: seq<Component>)
    requires |given| <= |ids| <= |p| && p[..|ids|] == Normals(ids)
    ensures IsPrefix(Normals(given), p) <==> given == ids[..|given|]
  {
    var d := Normals(given);
    forall i | 0 <= i < |given| ensures p[..|d|][i] == Normal(ids[i]) {
      assert p[i] == p[..|ids|][i];
    }
    if IsPrefix(d, p) {
      forall i | 0 <= i < |given| ensures given[i] == ids[i] {
        assert d[i] == p[..|d|][i];
      }
    }
  }

  lemma GivenMatch(tenant: string, timeline: Option<string>, endpoint: Option<string>, t: string, tl: string, ep: string)
    ensures var given := GivenIds(tenant, timeline, endpoint);
            given == [t, tl, ep][..|given|] <==>
              && tenant == t
              && (timeline.Some? ==> timeline.value == tl)
              && (endpoint.Some? ==> endpoint.value == if timeline.Some? then ep else tl)
  {
    var given, ids := GivenIds(tenant, timeline, endpoint), [t, tl, ep];
    assert given == ids[..|given|] <==> forall i :: 0 <= i < |given| ==> given[i] == ids[i];
    assert given[0] == tenant;
    assert timeline.Some? ==> given[1] == timeline.value;
    assert endpoint.Some? ==> given[|given| - 1] == endpoint.value;
  }

  /**
   A delete prefix covers a stored path exactly when the ids it names match, provided that an
   endpoint is only named together with its timeline; otherwise its endpoint is read as a timeline.
   */
  lemma DeletePrefixCovers(tenant: string, timeline: Option<string>, endpoint: Option<string>,
                           t: string, tl: string, ep: string, key: string)
    requires SingleName(tenant) && (timeline.Some? ==> SingleName(timeline.value))
    requires endpoint.Some? ==> SingleName(endpoint.value)
    requires SingleName(t) && SingleName(tl) && SingleName(ep) && S3Path(t, tl, ep, key).Ok?
    ensures var covers := IsPrefix(DeletePrefix(tenant, timeline, endpoint), S3Path(t, tl, ep, key).value);
            if timeline.None? && endpoint.Some? then covers <==> tenant == t && endpoint.value == tl
            else covers <==> tenant == t && (timeline.Some? ==> timeline.value == tl)
                             && (endpoint.Some? ==> endpoint.value == ep)
  {
    DeletePrefixIds(tenant, timeline, endpoint);
    StoredUnderIds(t, tl, ep, key);
    PrefixOfNames(GivenIds(tenant, timeline, endpoint), [t, tl, ep], S3Path(t, tl, ep, key).value);
    GivenMatch(tenant, timeline, endpoint, t, tl, ep);
  }

  lemma PrefixOfThree(ids: seq<string>, t: string, tl: string, ep: string)
    requires 1 <= |ids| <= 3
    ensures ids <= [t, tl, ep] <==> ids[0] == t && (|ids| >= 2 ==> ids[1] == tl) && (|ids| >= 3 ==> ids[2] == ep)
  {
    assert ids <= [t, tl, ep] <==> forall i :: 0 <= i < |ids| ==> ids[i] == [t, tl, ep][i];
  }

  /** The ids of a delete route after its tenant. */
  function RouteId(ids: seq<string>, i: nat): Option<string> {
    if i < |ids| then Some(ids[i]) else None
  }

  /**
   The delete routes name a tenant, then possibly a timeline, then possibly an endpoint, so a route
   covers a stored path exactly when its ids are the first ids of that path.
   */
  lemma DeleteRouteCovers(ids: seq<string>, t: string, tl: string, ep: string, key: string)
    requires 1 <= |ids| <= 3 && forall i :: 0 <= i < |ids| ==> SingleName(ids[i])
    requires SingleName(t) && SingleName(tl) && SingleName(ep) && S3Path(t, tl, ep, key).Ok?
    ensures IsPrefix(DeletePrefix(ids[0], RouteId(ids, 1), RouteId(ids, 2)), S3Path(t, tl, ep, key).value)
       <==> ids <= [t, tl, ep]
  {
    DeletePrefixCovers(ids[0], RouteId(ids, 1), RouteId(ids, 2), t, tl, ep, key);
    PrefixOfThree(ids, t, tl, ep);
  }
}
