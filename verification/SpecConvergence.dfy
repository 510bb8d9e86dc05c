/**
 Whole applies: the database phases run one after another, each executed before the next is
 planned. Repeating an apply converges under a condition on the spec alone.
 */
module SpecConvergence {
  import opened Wrappers
  import opened SpecApply

  datatype Applied = Refused | Applied(dbs: Mirror, ops: seq<Operation>, cat: Catalog)

  /** One apply from catalog `cat`; `order` is the order in which invalid databases are visited. */
  function Apply(spec: Spec, order: seq<string>, cat: Catalog): Applied {
    var p1 := DropInvalid(order, Load(cat));
    match ExecAll(p1.ops, cat)
    case None => Refused
    case Some(c1) =>
      var p2 := RenameAndDelete(spec.deltas, p1.dbs);
      if p2.Panic? then Refused else
      match ExecAll(p2.ops, c1)
      case None => Refused
      case Some(c2) =>
        var p3 := CreateAndAlter(spec.databases, p2.dbs);
        match ExecAll(p3.ops, c2)
        case None => Refused
        case Some(c3) => Applied(p3.dbs, p1.ops + p2.ops + p3.ops, c3)
  }

  predicate Plain(owner: string) {
    |owner| == 0 || owner[0] != '"'
  }

  /** No owner name, in the catalog or in the spec, starts with a double quote. */
  ghost predicate PlainOwners(spec: Spec, cat: Catalog) {
    && (forall n :: n in cat ==> Plain(cat[n].owner))
    && (forall i :: 0 <= i < |spec.databases| ==> Plain(spec.databases[i].owner))
  }

  ghost predicate PlainMirror(dbs: Mirror) {
    forall n :: n in dbs ==> Plain(dbs[n].owner)
  }

  lemma {:induction false} DeltasKeepFlags(deltas: seq<DeltaOp>, dbs: Mirror)
    requires RenameAndDelete(deltas, dbs).Plan?
    ensures var q := RenameAndDelete(deltas, dbs).dbs;
            && (PlainMirror(dbs) ==> PlainMirror(q))
            && ((forall n :: n in dbs ==> !dbs[n].invalid) ==> forall n :: n in q ==> !q[n].invalid)
  {
    if deltas != [] {
      DeltasKeepFlags(deltas[..|deltas| - 1], dbs);
    }
  }

  lemma {:induction false} ListingsKeepFlags(listed: seq<Listing>, dbs: Mirror)
    requires PlainMirror(dbs) && forall i :: 0 <= i < |listed| ==> Plain(listed[i].owner)
    ensures var q := CreateAndAlter(listed, dbs).dbs;
            && PlainMirror(q)
            && ((forall n :: n in dbs ==> !dbs[n].invalid) ==> forall n :: n in q ==> !q[n].invalid)
  {
    if listed != [] {
      ListingsKeepFlags(listed[..|listed| - 1], dbs);
    }
  }

  lemma PlainReadsPlain(listed: seq<Listing>, dbs: Mirror)
    requires PlainMirror(dbs) && forall i :: 0 <= i < |listed| ==> Plain(listed[i].owner)
    ensures OwnersReadPlain(listed, dbs)
  {
    forall i | 0 <= i < |listed|
      ensures !QuotedOwner(listed[i], CreateAndAlter(listed[..i], dbs).dbs)
    {
      ListingsKeepFlags(listed[..i], dbs);
    }
  }

  /** What holds between the phases of a successful apply. */
  lemma Phases(spec: Spec, order: seq<string>, cat: Catalog)
      returns (p1: Plan, c1: Catalog, p2: Plan, c2: Catalog)
    requires InvalidOrder(order, Load(cat)) && PlainOwners(spec, cat) && Apply(spec, order, cat).Applied?
    ensures p1 == DropInvalid(order, Load(cat)) && ExecAll(p1.ops, cat) == Some(c1) && Agree(p1.dbs, c1)
    ensures p2 == RenameAndDelete(spec.deltas, p1.dbs) && p2.Plan?
    ensures ExecAll(p2.ops, c1) == Some(c2) && Agree(p2.dbs, c2)
    ensures Agree(Apply(spec, order, cat).dbs, Apply(spec, order, cat).cat)
    ensures PlainMirror(Apply(spec, order, cat).dbs)
    ensures forall n :: n in Apply(spec, order, cat).dbs ==> !Apply(spec, order, cat).dbs[n].invalid
  {
    var a := Apply(spec, order, cat);
    LoadAgrees(cat, cat.Keys);
    p1 := DropInvalid(order, Load(cat));
    DropInvalidSimulates(order, Load(cat), cat);
    c1 := ExecAll(p1.ops, cat).value;
    p2 := RenameAndDelete(spec.deltas, p1.dbs);
    RenameAndDeleteSimulates(spec.deltas, p1.dbs, c1);
    DeltasKeepFlags(spec.deltas, p1.dbs);
    c2 := ExecAll(p2.ops, c1).value;
    PlainReadsPlain(spec.databases, p2.dbs);
    AgreeUpTo(spec.databases, |spec.databases|, p2.dbs, c2);
    assert spec.databases[..|spec.databases|] == spec.databases;
    ListingsKeepFlags(spec.databases, p2.dbs);
  }

  /** Simulation over a whole apply, for every spec and every list of delta operations. */
  lemma ApplySimulates(spec: Spec, order: seq<string>, cat: Catalog)
    requires InvalidOrder(order, Load(cat)) && PlainOwners(spec, cat)
    ensures var a := Apply(spec, order, cat); a.Applied? ==>
              Agree(a.dbs, a.cat) && forall n :: n in a.cat ==> !a.cat[n].invalid
  {
    if Apply(spec, order, cat).Applied? {
      var p1, c1, p2, c2 := Phases(spec, order, cat);
      var a := Apply(spec, order, cat);
      forall n | n in a.cat ensures !a.cat[n].invalid {
        assert Mirrors(n, a.dbs, a.cat);
      }
    }
  }

  // ---------------------------------------------------------------- Results of one apply

  function LastOwner(listed: seq<Listing>, n: string): Option<string> {
    if listed == [] then None
    else if listed[|listed| - 1].name == n then Some(listed[|listed| - 1].owner)
    else LastOwner(listed[..|listed| - 1], n)
  }

  lemma {:induction false} LastListingPlanned(listed: seq<Listing>, dbs: Mirror, n: string)
    ensures var q := CreateAndAlter(listed, dbs).dbs;
            match LastOwner(listed, n)
            case Some(o) => n in q && q[n].owner == o
            case None => (n in q <==> n in dbs) && (n in q ==> q[n] == dbs[n])
  {
    if listed != [] {
      LastListingPlanned(listed[..|listed| - 1], dbs, n);
    }
  }

  /** After a successful apply every listed database exists with the owner of its last listing. */
  lemma LastListingWins(spec: Spec, order: seq<string>, cat: Catalog, n: string)
    requires InvalidOrder(order, Load(cat)) && PlainOwners(spec, cat)
    requires Apply(spec, order, cat).Applied? && LastOwner(spec.databases, n).Some?
    ensures var a := Apply(spec, order, cat);
            n in a.cat && a.cat[n].owner == LastOwner(spec.databases, n).value
  {
    var p1, c1, p2, c2 := Phases(spec, order, cat);
    LastListingPlanned(spec.databases, p2.dbs, n);
    assert Mirrors(n, Apply(spec, order, cat).dbs, Apply(spec, order, cat).cat);
  }

  /**
   A name is created exactly when it is listed and absent from the mirror, and then only once,
   however often it is listed.
   */
  lemma {:induction false} CreatedOnce(listed: seq<Listing>, dbs: Mirror, n: string)
    ensures var ops := CreateAndAlter(listed, dbs).ops;
            && ((exists i :: 0 <= i < |ops| && ops[i].CreateDatabase? && ops[i].name == n)
                <==> Lists(listed, n) && n !in dbs)
            && (forall i, j :: 0 <= i < j < |ops| ==>
                  !(ops[i].CreateDatabase? && ops[j].CreateDatabase? && ops[i].name == ops[j].name == n))
  {
    if listed != [] {
      var k := |listed| - 1;
      var pre, d := listed[..k], listed[k];
      CreatedOnce(pre, dbs, n);
      ListedAreMirrored(pre, dbs, n);
      assert Lists(listed, n) <==> Lists(pre, n) || d.name == n by {
        if Lists(pre, n) { var i :| 0 <= i < k && pre[i].name == n; assert listed[i].name == n; }
        if d.name == n { assert listed[k].name == n; }
      }
      var p, q := CreateAndAlter(pre, dbs), CreateAndAlter(listed, dbs);
      assert p.ops <= q.ops;
      if d.name == n && n !in p.dbs {
        assert q.ops[|p.ops|] == CreateDatabase(n, d.owner);
      }
      if exists i :: 0 <= i < |p.ops| && p.ops[i].CreateDatabase? && p.ops[i].name == n {
        var i :| 0 <= i < |p.ops| && p.ops[i].CreateDatabase? && p.ops[i].name == n;
        assert q.ops[i] == p.ops[i];
      }
    }
  }

  lemma {:induction false} ListedAreMirrored(listed: seq<Listing>, dbs: Mirror, n: string)
    ensures n in CreateAndAlter(listed, dbs).dbs <==> n in dbs || Lists(listed, n)
  {
    if listed != [] {
      var k := |listed| - 1;
      ListedAreMirrored(listed[..k], dbs, n);
      forall i | 0 <= i < k ensures listed[..k][i] == listed[i] {}
      if Lists(listed, n) && listed[k].name != n {
        var i :| 0 <= i < |listed| && listed[i].name == n;
        assert listed[..k][i].name == n;
      }
    }
  }

  /** An operation that may change the row stored under `n`. */
  predicate Touches(op: Operation, n: string) {
    op.name == n || (op.RenameDatabase? && op.newName == n)
  }

  ghost predicate NoneTouch(ops: seq<Operation>, n: string) {
    forall i :: 0 <= i < |ops| ==> !Touches(ops[i], n)
  }

  lemma {:induction false} ExecFrame(ops: seq<Operation>, cat: Catalog, n: string)
    requires ExecAll(ops, cat).Some? && NoneTouch(ops, n)
    ensures var c := ExecAll(ops, cat).value; (n in c <==> n in cat) && (n in c ==> c[n] == cat[n])
  {
    if ops != [] {
      ExecFrame(ops[..|ops| - 1], cat, n);
      assert !Touches(ops[|ops| - 1], n);
    }
  }

  lemma {:induction false} DeltasTouch(deltas: seq<DeltaOp>, dbs: Mirror, n: string)
    requires forall i :: 0 <= i < |deltas| ==> !IsSource(deltas[i], n) && !IsTarget(deltas[i], n)
    ensures var p := RenameAndDelete(deltas, dbs);
            p.Plan? ==> NoneTouch(p.ops, n)
  {
    if deltas != [] {
      assert !IsSource(deltas[|deltas| - 1], n) && !IsTarget(deltas[|deltas| - 1], n);
      DeltasTouch(deltas[..|deltas| - 1], dbs, n);
    }
  }

  lemma {:induction false} ListingsTouch(listed: seq<Listing>, dbs: Mirror, n: string)
    requires forall i :: 0 <= i < |listed| ==> listed[i].name != n
    ensures NoneTouch(CreateAndAlter(listed, dbs).ops, n)
  {
    if listed != [] {
      assert listed[|listed| - 1].name != n;
      ListingsTouch(listed[..|listed| - 1], dbs, n);
    }
  }

  /** A valid database that the spec does not mention comes through an apply with its row unchanged. */
  lemma UnmentionedUntouched(spec: Spec, order: seq<string>, cat: Catalog, n: string)
    requires InvalidOrder(order, Load(cat)) && Apply(spec, order, cat).Applied?
    requires n in cat ==> !cat[n].invalid
    requires forall i :: 0 <= i < |spec.deltas| ==> !IsSource(spec.deltas[i], n) && !IsTarget(spec.deltas[i], n)
    requires forall i :: 0 <= i < |spec.databases| ==> spec.databases[i].name != n
    ensures var c := Apply(spec, order, cat).cat; (n in c <==> n in cat) && (n in c ==> c[n] == cat[n])
  {
    var p1 := DropInvalid(order, Load(cat));
    forall i | 0 <= i < |order| ensures !Touches(p1.ops[i], n) {
      assert order[i] in order;
    }
    ExecFrame(p1.ops, cat, n);
    var c1 := ExecAll(p1.ops, cat).value;
    var p2 := RenameAndDelete(spec.deltas, p1.dbs);
    DeltasTouch(spec.deltas, p1.dbs, n);
    ExecFrame(p2.ops, c1, n);
    ListingsTouch(spec.databases, p2.dbs, n);
    ExecFrame(CreateAndAlter(spec.databases, p2.dbs).ops, ExecAll(p2.ops, c1).value, n);
  }

  // ---------------------------------------------------------------- Convergence

  predicate IsSource(op: DeltaOp, n: string) {
    (op.action == "delete_db" || op.action == "rename_db") && op.name == n
  }

  predicate IsTarget(op: DeltaOp, n: string) {
    op.action == "rename_db" && op.newName == Some(n)
  }

  /**
   No deleted or renamed name is a rename target or listed, and no name is listed with two owners.
   */
  ghost predicate Convergent(spec: Spec) {
    && (forall i, j :: 0 <= i < |spec.deltas| && 0 <= j < |spec.deltas| ==>
          !exists n :: IsSource(spec.deltas[i], n) && IsTarget(spec.deltas[j], n))
    && (forall i, j :: 0 <= i < |spec.deltas| && 0 <= j < |spec.databases| ==>
          !IsSource(spec.deltas[i], spec.databases[j].name))
    && (forall i, j :: 0 <= i < |spec.databases| && 0 <= j < |spec.databases| ==>
          spec.databases[i].name != spec.databases[j].name || spec.databases[i].owner == spec.databases[j].owner)
  }

  /** A source that is never a target is gone once the renames and deletes are planned. */
  lemma {:induction false} SourceGone(deltas: seq<DeltaOp>, dbs: Mirror, n: string)
    requires RenameAndDelete(deltas, dbs).Plan?
    requires forall i :: 0 <= i < |deltas| ==> !IsTarget(deltas[i], n)
    ensures n !in dbs || (exists i :: 0 <= i < |deltas| && IsSource(deltas[i], n)) ==>
              n !in RenameAndDelete(deltas, dbs).dbs
  {
    if deltas != [] {
      var k := |deltas| - 1;
      SourceGone(deltas[..k], dbs, n);
      if (exists i :: 0 <= i < |deltas| && IsSource(deltas[i], n)) && !IsSource(deltas[k], n) {
        var i :| 0 <= i < |deltas| && IsSource(deltas[i], n);
        assert IsSource(deltas[..k][i], n);
      }
    }
  }

  predicate Quiet(op: Operation) {
    op.DropDatabase? || op.UnsetTemplate?
  }

  /** With every source absent, the delta operations plan only drops that change nothing. */
  lemma {:induction false} AbsentSourcesQuiet(deltas: seq<DeltaOp>, dbs: Mirror, cat: Catalog)
    requires dbs.Keys == cat.Keys
    requires forall i, n :: 0 <= i < |deltas| && IsSource(deltas[i], n) ==> n !in dbs
    ensures var p := RenameAndDelete(deltas, dbs);
            && p.Plan? && p.dbs == dbs && ExecAll(p.ops, cat) == Some(cat)
            && forall i :: 0 <= i < |p.ops| ==> Quiet(p.ops[i])
  {
    if deltas != [] {
      var k := |deltas| - 1;
      var op := deltas[k];
      forall i, n | 0 <= i < k && IsSource(deltas[..k][i], n) ensures n !in dbs {
        assert IsSource(deltas[i], n);
      }
      AbsentSourcesQuiet(deltas[..k], dbs, cat);
      assert op.action == "delete_db" || op.action == "rename_db" ==> IsSource(op, op.name);
      if op.action == "delete_db" {
        var x, y := UnsetTemplate(op.name), DropDatabase(op.name);
        ExecAllAppend(RenameAndDelete(deltas[..k], dbs).ops, [x, y], cat);
        ExecPair(x, y, cat);
        assert dbs - {op.name} == dbs;
        assert cat - {op.name} == cat;
      }
    }
  }

  /** Listings that the mirror already satisfies plan nothing. */
  lemma {:induction false} SatisfiedListingsQuiet(listed: seq<Listing>, dbs: Mirror)
    requires forall i :: 0 <= i < |listed| ==>
               listed[i].name in dbs && dbs[listed[i].name].owner == listed[i].owner && Plain(listed[i].owner)
    ensures CreateAndAlter(listed, dbs) == Plan(dbs, [])
  {
    if listed != [] {
      var k := |listed| - 1;
      SatisfiedListingsQuiet(listed[..k], dbs);
      var n := listed[k].name;
      assert dbs[n := dbs[n].(owner := listed[k].owner)] == dbs;
    }
  }

  lemma {:induction false} LastOwnerOf(listed: seq<Listing>, i: nat)
    requires i < |listed|
    requires forall a, b :: 0 <= a < |listed| && 0 <= b < |listed| ==>
               listed[a].name != listed[b].name || listed[a].owner == listed[b].owner
    ensures LastOwner(listed, listed[i].name) == Some(listed[i].owner)
  {
    if listed[|listed| - 1].name != listed[i].name {
      LastOwnerOf(listed[..|listed| - 1], i);
    }
  }

  /** After one apply of a convergent spec no source is left in the catalog. */
  lemma SourcesAbsent(spec: Spec, order: seq<string>, cat: Catalog, n: string)
    requires Convergent(spec) && PlainOwners(spec, cat) && InvalidOrder(order, Load(cat))
    requires Apply(spec, order, cat).Applied?
    requires exists i :: 0 <= i < |spec.deltas| && IsSource(spec.deltas[i], n)
    ensures n !in Apply(spec, order, cat).cat
  {
    var p1, c1, p2, c2 := Phases(spec, order, cat);
    var i :| 0 <= i < |spec.deltas| && IsSource(spec.deltas[i], n);
    SourceGone(spec.deltas, p1.dbs, n);
    ListedAreMirrored(spec.databases, p2.dbs, n);
  }

  // ---------------------------------------------------------------- The fixed points

  /** Nothing is left to do: a condition on the spec and the catalog that an apply starts from. */
  ghost predicate Settled(spec: Spec, cat: Catalog) {
    && (forall n :: n in cat ==> !cat[n].invalid)
    && (forall i, n :: 0 <= i < |spec.deltas| && IsSource(spec.deltas[i], n) ==> n !in cat)
    && (forall i :: 0 <= i < |spec.databases| ==> Satisfied(spec.databases[i], cat))
  }

  ghost predicate Satisfied(d: Listing, cat: Catalog) {
    d.name in cat && cat[d.name].owner == d.owner
  }

  ghost predicate AllQuiet(ops: seq<Operation>) {
    forall i :: 0 <= i < |ops| ==> Quiet(ops[i])
  }

  /** An apply that changes nothing and plans no create, rename, owner change or grant. */
  ghost predicate ChangesNothing(spec: Spec, order: seq<string>, cat: Catalog) {
    var a := Apply(spec, order, cat);
    a.Applied? && a.cat == cat && a.dbs == Load(cat) && AllQuiet(a.ops)
  }

  lemma {:induction false} QuietShrinks(ops: seq<Operation>, cat: Catalog)
    requires AllQuiet(ops) && ExecAll(ops, cat).Some?
    ensures ExecAll(ops, cat).value.Keys <= cat.Keys
  {
    if ops != [] {
      assert Quiet(ops[|ops| - 1]);
      QuietShrinks(ops[..|ops| - 1], cat);
    }
  }

  ghost predicate Sources(deltas: seq<DeltaOp>, n: string) {
    exists i :: 0 <= i < |deltas| && IsSource(deltas[i], n)
  }

  lemma SourcesSnoc(deltas: seq<DeltaOp>, n: string)
    requires deltas != []
    ensures Sources(deltas, n) <==> Sources(deltas[..|deltas| - 1], n) || IsSource(deltas[|deltas| - 1], n)
  {
    var k := |deltas| - 1;
    if Sources(deltas, n) && !IsSource(deltas[k], n) {
      var i :| 0 <= i < |deltas| && IsSource(deltas[i], n);
      assert IsSource(deltas[..k][i], n);
    }
    if Sources(deltas[..k], n) {
      var i :| 0 <= i < k && IsSource(deltas[..k][i], n);
      assert IsSource(deltas[i], n);
    }
  }

  lemma RenameIsLoud(op: DeltaOp, p: Plan)
    requires p.Plan? && DeltaStep(op, p).Plan? && op.action == "rename_db" && op.name in p.dbs
    ensures !AllQuiet(DeltaStep(op, p).ops)
  {
    assert !Quiet(DeltaStep(op, p).ops[|p.ops|]);
  }

  /** Delta operations that plan only drops leave exactly the names that are no source. */
  lemma {:induction false} QuietDeltasDropSources(deltas: seq<DeltaOp>, dbs: Mirror, n: string)
    requires RenameAndDelete(deltas, dbs).Plan? && AllQuiet(RenameAndDelete(deltas, dbs).ops)
    ensures n in RenameAndDelete(deltas, dbs).dbs <==> n in dbs && !Sources(deltas, n)
  {
    if deltas != [] {
      var k := |deltas| - 1;
      var p, q := RenameAndDelete(deltas[..k], dbs), RenameAndDelete(deltas, dbs);
      QuietPrefix(p.ops, q.ops);
      QuietDeltasDropSources(deltas[..k], dbs, n);
      SourcesSnoc(deltas, n);
      if deltas[k].action == "rename_db" && deltas[k].name in p.dbs {
        RenameIsLoud(deltas[k], p);
      }
    }
  }

  lemma QuietPrefix(a: seq<Operation>, b: seq<Operation>)
    requires a <= b && AllQuiet(b)
    ensures AllQuiet(a)
  {
    forall i | 0 <= i < |a| ensures Quiet(a[i]) {
      assert a[i] == b[i];
    }
  }

  lemma {:induction false} ListingOpsAreLoud(listed: seq<Listing>, dbs: Mirror)
    ensures AllQuiet(CreateAndAlter(listed, dbs).ops) <==> CreateAndAlter(listed, dbs).ops == []
  {
    if listed != [] {
      var p, q := CreateAndAlter(listed[..|listed| - 1], dbs), CreateAndAlter(listed, dbs);
      ListingOpsAreLoud(listed[..|listed| - 1], dbs);
      if q.ops != p.ops {
        assert !Quiet(q.ops[|q.ops| - 1]);
      }
    }
  }

  /** Listings that plan nothing were satisfied, and leave the mirror as it was. */
  lemma {:induction false} QuietListingsSatisfied(listed: seq<Listing>, dbs: Mirror)
    requires PlainMirror(dbs) && CreateAndAlter(listed, dbs).ops == []
    ensures CreateAndAlter(listed, dbs).dbs == dbs
    ensures forall i :: 0 <= i < |listed| ==> listed[i].name in dbs && dbs[listed[i].name].owner == listed[i].owner
  {
    if listed != [] {
      var k := |listed| - 1;
      assert CreateAndAlter(listed[..k], dbs).ops <= CreateAndAlter(listed, dbs).ops;
      QuietListingsSatisfied(listed[..k], dbs);
      assert Plain(dbs[listed[k].name].owner);
      assert dbs[listed[k].name := dbs[listed[k].name].(owner := listed[k].owner)] == dbs;
    }
  }

  lemma SettledChangesNothing(spec: Spec, order: seq<string>, cat: Catalog)
    requires InvalidOrder(order, Load(cat)) && PlainOwners(spec, cat) && Settled(spec, cat)
    ensures ChangesNothing(spec, order, cat)
  {
    var dbs := Load(cat);
    FirstIsInvalid(order, dbs);
    assert DropInvalid(order, dbs) == Plan(dbs, []);
    AbsentSourcesQuiet(spec.deltas, dbs, cat);
    forall i | 0 <= i < |spec.databases| ensures
      spec.databases[i].name in dbs && dbs[spec.databases[i].name].owner == spec.databases[i].owner
    {
      assert Satisfied(spec.databases[i], cat);
    }
    SatisfiedListingsQuiet(spec.databases, dbs);
  }

  /** The three plans of a successful apply, of which each is quiet if all operations are. */
  lemma QuietPhases(spec: Spec, order: seq<string>, cat: Catalog)
      returns (p1: Plan, c1: Catalog, p2: Plan, c2: Catalog)
    requires InvalidOrder(order, Load(cat)) && PlainOwners(spec, cat)
    requires Apply(spec, order, cat).Applied? && AllQuiet(Apply(spec, order, cat).ops)
    ensures p1 == DropInvalid(order, Load(cat)) && ExecAll(p1.ops, cat) == Some(c1) && Agree(p1.dbs, c1)
    ensures p2 == RenameAndDelete(spec.deltas, p1.dbs) && p2.Plan?
    ensures ExecAll(p2.ops, c1) == Some(c2) && Agree(p2.dbs, c2) && AllQuiet(p2.ops)
    ensures CreateAndAlter(spec.databases, p2.dbs).ops == [] && Apply(spec, order, cat).cat == c2
  {
    p1, c1, p2, c2 := Phases(spec, order, cat);
    var p3 := CreateAndAlter(spec.databases, p2.dbs);
    var ops := Apply(spec, order, cat).ops;
    assert ops == p1.ops + p2.ops + p3.ops;
    forall i | 0 <= i < |p2.ops| ensures Quiet(p2.ops[i]) {
      assert p2.ops[i] == ops[|p1.ops| + i];
    }
    forall i | 0 <= i < |p3.ops| ensures Quiet(p3.ops[i]) {
      assert p3.ops[i] == ops[|p1.ops| + |p2.ops| + i];
    }
    ListingOpsAreLoud(spec.databases, p2.dbs);
  }

  lemma NothingInvalid(spec: Spec, order: seq<string>, cat: Catalog, n: string)
    requires InvalidOrder(order, Load(cat)) && PlainOwners(spec, cat) && ChangesNothing(spec, order, cat)
    requires n in cat
    ensures !cat[n].invalid
  {
    var p1, c1, p2, c2 := QuietPhases(spec, order, cat);
    DropAll(order, cat);
    QuietShrinks(p2.ops, c1);
    assert n in Load(cat) && Load(cat)[n].invalid == cat[n].invalid;
    assert n in order <==> cat[n].invalid;
  }

  lemma NoSourceLeft(spec: Spec, order: seq<string>, cat: Catalog, i: nat, n: string)
    requires InvalidOrder(order, Load(cat)) && PlainOwners(spec, cat) && ChangesNothing(spec, order, cat)
    requires i < |spec.deltas| && IsSource(spec.deltas[i], n)
    ensures n !in cat
  {
    var p1, c1, p2, c2 := QuietPhases(spec, order, cat);
    QuietDeltasDropSources(spec.deltas, p1.dbs, n);
    assert Sources(spec.deltas, n);
  }

  lemma ListingsSatisfied(spec: Spec, order: seq<string>, cat: Catalog, i: nat)
    requires InvalidOrder(order, Load(cat)) && PlainOwners(spec, cat) && ChangesNothing(spec, order, cat)
    requires i < |spec.databases|
    ensures Satisfied(spec.databases[i], cat)
  {
    var p1, c1, p2, c2 := QuietPhases(spec, order, cat);
    forall n | n in p2.dbs ensures Plain(p2.dbs[n].owner) {
      assert Mirrors(n, p2.dbs, c2);
    }
    QuietListingsSatisfied(spec.databases, p2.dbs);
    assert Mirrors(spec.databases[i].name, p2.dbs, c2);
  }

  /** An apply changes nothing, and plans nothing but idle drops, if and only if the spec is settled. */
  lemma FixedPointIff(spec: Spec, order: seq<string>, cat: Catalog)
    requires InvalidOrder(order, Load(cat)) && PlainOwners(spec, cat)
    ensures ChangesNothing(spec, order, cat) <==> Settled(spec, cat)
  {
    if Settled(spec, cat) {
      SettledChangesNothing(spec, order, cat);
    }
    if ChangesNothing(spec, order, cat) {
      forall n | n in cat ensures !cat[n].invalid {
        NothingInvalid(spec, order, cat, n);
      }
      forall i, n | 0 <= i < |spec.deltas| && IsSource(spec.deltas[i], n) ensures n !in cat {
        NoSourceLeft(spec, order, cat, i, n);
      }
      forall i | 0 <= i < |spec.databases| ensures Satisfied(spec.databases[i], cat) {
        ListingsSatisfied(spec, order, cat, i);
      }
    }
  }

  lemma AppliedIsPlain(spec: Spec, order: seq<string>, cat: Catalog)
    requires InvalidOrder(order, Load(cat)) && PlainOwners(spec, cat) && Apply(spec, order, cat).Applied?
    ensures PlainOwners(spec, Apply(spec, order, cat).cat)
  {
    var p1, c1, p2, c2 := Phases(spec, order, cat);
    var a := Apply(spec, order, cat);
    forall n | n in a.cat ensures Plain(a.cat[n].owner) {
      assert Mirrors(n, a.dbs, a.cat);
    }
  }

  /** Every name is listed with the owner of its last listing. */
  ghost predicate OneOwnerEach(listed: seq<Listing>) {
    forall i :: 0 <= i < |listed| ==> LastOwner(listed, listed[i].name) == Some(listed[i].owner)
  }

  lemma {:induction false} ListedHasLastOwner(listed: seq<Listing>, i: nat)
    requires i < |listed|
    ensures LastOwner(listed, listed[i].name).Some?
  {
    if i < |listed| - 1 {
      ListedHasLastOwner(listed[..|listed| - 1], i);
    }
  }

  /** After one apply only two things can be unsettled: a source that is back, or a second owner. */
  lemma SettledAfterApply(spec: Spec, order: seq<string>, cat: Catalog)
    requires InvalidOrder(order, Load(cat)) && PlainOwners(spec, cat) && Apply(spec, order, cat).Applied?
    ensures var c := Apply(spec, order, cat).cat;
            Settled(spec, c) <==>
              && (forall i, n :: 0 <= i < |spec.deltas| && IsSource(spec.deltas[i], n) ==> n !in c)
              && OneOwnerEach(spec.databases)
  {
    var c := Apply(spec, order, cat).cat;
    ApplySimulates(spec, order, cat);
    forall i | 0 <= i < |spec.databases|
      ensures Satisfied(spec.databases[i], c)
         <==> LastOwner(spec.databases, spec.databases[i].name) == Some(spec.databases[i].owner)
    {
      ListedHasLastOwner(spec.databases, i);
      LastListingWins(spec, order, cat, spec.databases[i].name);
    }
  }

  /**
   Exactly when a second apply has nothing to do: no delta source is in the catalog that the first
   one left, and no name is listed with two owners.
   */
  lemma SecondApplyIff(spec: Spec, order: seq<string>, cat: Catalog, order': seq<string>)
    requires InvalidOrder(order, Load(cat)) && PlainOwners(spec, cat) && Apply(spec, order, cat).Applied?
    requires InvalidOrder(order', Load(Apply(spec, order, cat).cat))
    ensures var c := Apply(spec, order, cat).cat;
            ChangesNothing(spec, order', c) <==>
              && (forall i, n :: 0 <= i < |spec.deltas| && IsSource(spec.deltas[i], n) ==> n !in c)
              && OneOwnerEach(spec.databases)
  {
    AppliedIsPlain(spec, order, cat);
    FixedPointIff(spec, order', Apply(spec, order, cat).cat);
    SettledAfterApply(spec, order, cat);
  }

  // ---------------------------------------------------------------- In terms of the starting catalog

  /** Whether a database of that name is there after the delta operations, given the names before. */
  predicate PresentAfter(deltas: seq<DeltaOp>, names: set<string>, n: string) {
    if deltas == [] then n in names
    else
      var pre, op := deltas[..|deltas| - 1], deltas[|deltas| - 1];
      if IsSource(op, n) && !IsTarget(op, n) then false
      else if IsTarget(op, n) then PresentAfter(pre, names, op.name) || PresentAfter(pre, names, n)
      else PresentAfter(pre, names, n)
  }

  lemma {:induction false} PresentIsMirrored(deltas: seq<DeltaOp>, dbs: Mirror, n: string)
    requires RenameAndDelete(deltas, dbs).Plan?
    ensures n in RenameAndDelete(deltas, dbs).dbs <==> PresentAfter(deltas, dbs.Keys, n)
  {
    if deltas != [] {
      var pre, op := deltas[..|deltas| - 1], deltas[|deltas| - 1];
      PresentIsMirrored(pre, dbs, n);
      PresentIsMirrored(pre, dbs, op.name);
    }
  }

  /** The rename of a database that is there, without a new name. */
  predicate NamelessRename(deltas: seq<DeltaOp>, names: set<string>, i: nat)
    requires i < |deltas|
  {
    deltas[i].action == "rename_db" && deltas[i].newName.None? && PresentAfter(deltas[..i], names, deltas[i].name)
  }

  ghost predicate SomeNameless(deltas: seq<DeltaOp>, names: set<string>) {
    exists i: nat :: i < |deltas| && NamelessRename(deltas, names, i)
  }

  lemma NamelessSnoc(deltas: seq<DeltaOp>, names: set<string>)
    requires deltas != []
    ensures SomeNameless(deltas, names) <==>
              SomeNameless(deltas[..|deltas| - 1], names) || NamelessRename(deltas, names, |deltas| - 1)
  {
    var k := |deltas| - 1;
    var pre := deltas[..k];
    forall i: nat | i < k ensures NamelessRename(pre, names, i) <==> NamelessRename(deltas, names, i) {
      assert pre[..i] == deltas[..i];
    }
    if SomeNameless(pre, names) {
      var i: nat :| i < |pre| && NamelessRename(pre, names, i);
      assert NamelessRename(deltas, names, i);
    }
  }

  /** Planning panics exactly at a rename, of a database that is there by then, that gives no new name. */
  lemma {:induction false} PanicsIff(deltas: seq<DeltaOp>, dbs: Mirror)
    ensures RenameAndDelete(deltas, dbs).Panic? <==> SomeNameless(deltas, dbs.Keys)
  {
    if deltas != [] {
      var k := |deltas| - 1;
      PanicsIff(deltas[..k], dbs);
      NamelessSnoc(deltas, dbs.Keys);
      if RenameAndDelete(deltas[..k], dbs).Plan? {
        PresentIsMirrored(deltas[..k], dbs, deltas[k].name);
      }
    }
  }

  predicate Mentions(op: DeltaOp, n: string) {
    IsSource(op, n) || IsTarget(op, n)
  }

  /**
   The last mention of a name among the delta operations decides: after a delete or a rename of it
   the name is gone, and after a rename to it the name is there if the source or the name itself was.
   */
  lemma {:induction false} LastMentionDecides(deltas: seq<DeltaOp>, names: set<string>, n: string, k: nat)
    requires k < |deltas| && Mentions(deltas[k], n) && forall j :: k < j < |deltas| ==> !Mentions(deltas[j], n)
    ensures PresentAfter(deltas, names, n) <==>
              IsTarget(deltas[k], n) && (PresentAfter(deltas[..k], names, deltas[k].name) || PresentAfter(deltas[..k], names, n))
  {
    var last := |deltas| - 1;
    if k < last {
      assert !Mentions(deltas[last], n);
      LastMentionDecides(deltas[..last], names, n, k);
      assert deltas[..last][..k] == deltas[..k];
    }
  }

  /** The names that survive the drop of invalid databases. */
  function ValidNames(cat: Catalog): set<string> {
    set n | n in cat && !cat[n].invalid
  }

  /** Which databases a successful apply leaves, in terms of the spec and the catalog it started from. */
  lemma LeftIff(spec: Spec, order: seq<string>, cat: Catalog, n: string)
    requires InvalidOrder(order, Load(cat)) && PlainOwners(spec, cat) && Apply(spec, order, cat).Applied?
    ensures n in Apply(spec, order, cat).cat <==> Lists(spec.databases, n) || PresentAfter(spec.deltas, ValidNames(cat), n)
  {
    var p1, c1, p2, c2 := Phases(spec, order, cat);
    ListedAreMirrored(spec.databases, p2.dbs, n);
    PresentIsMirrored(spec.deltas, p1.dbs, n);
    forall m ensures m in p1.dbs <==> m in ValidNames(cat) {
      assert m in order <==> m in Load(cat) && Load(cat)[m].invalid;
    }
    assert p1.dbs.Keys == ValidNames(cat);
  }

  /** No delta source is listed or there again after the delta operations. */
  ghost predicate SourcesEnd(spec: Spec, names: set<string>) {
    forall n :: Sources(spec.deltas, n) ==> !Lists(spec.databases, n) && !PresentAfter(spec.deltas, names, n)
  }

  /** Exactly when a second apply has nothing to do, from the spec and the catalog the first starts from. */
  lemma SecondApplyFromStart(spec: Spec, order: seq<string>, cat: Catalog, order': seq<string>)
    requires InvalidOrder(order, Load(cat)) && PlainOwners(spec, cat) && Apply(spec, order, cat).Applied?
    requires InvalidOrder(order', Load(Apply(spec, order, cat).cat))
    ensures ChangesNothing(spec, order', Apply(spec, order, cat).cat) <==>
              SourcesEnd(spec, ValidNames(cat)) && OneOwnerEach(spec.databases)
  {
    var c := Apply(spec, order, cat).cat;
    SecondApplyIff(spec, order, cat, order');
    forall n ensures n in c <==> Lists(spec.databases, n) || PresentAfter(spec.deltas, ValidNames(cat), n) {
      LeftIff(spec, order, cat, n);
    }
    if SourcesEnd(spec, ValidNames(cat)) {
      forall i, n | 0 <= i < |spec.deltas| && IsSource(spec.deltas[i], n) ensures n !in c {
        assert Sources(spec.deltas, n);
      }
    }
  }

  /** A condition on the spec alone that suffices, whatever the catalog. */
  lemma ApplyConverges(spec: Spec, order: seq<string>, cat: Catalog, order': seq<string>)
    requires Convergent(spec) && PlainOwners(spec, cat) && InvalidOrder(order, Load(cat))
    requires Apply(spec, order, cat).Applied?
    requires InvalidOrder(order', Load(Apply(spec, order, cat).cat))
    ensures ChangesNothing(spec, order', Apply(spec, order, cat).cat)
  {
    var c := Apply(spec, order, cat).cat;
    forall i, n | 0 <= i < |spec.deltas| && IsSource(spec.deltas[i], n) ensures n !in c {
      SourcesAbsent(spec, order, cat, n);
    }
    forall i | 0 <= i < |spec.databases|
      ensures LastOwner(spec.databases, spec.databases[i].name) == Some(spec.databases[i].owner)
    {
      LastOwnerOf(spec.databases, i);
    }
    SecondApplyIff(spec, order, cat, order');
  }

  lemma FirstIsInvalid(order: seq<string>, dbs: Mirror)
    requires InvalidOrder(order, dbs)
    ensures order == [] || (order[0] in dbs && dbs[order[0]].invalid)
  {
    if order != [] {
      assert order[0] in order;
    }
  }

  /** The outcome of applying the same spec `k` more times. */
  function Reapply(spec: Spec, k: nat, cat: Catalog): Option<Catalog> {
    if k == 0 then Some(cat)
    else match Apply(spec, [], cat) case Refused => None case Applied(_, _, c) => Reapply(spec, k - 1, c)
  }

  /** A settled catalog stays as it is under any number of applies. */
  lemma {:induction false} ReapplySettled(spec: Spec, cat: Catalog, k: nat)
    requires PlainOwners(spec, cat) && Settled(spec, cat)
    ensures Reapply(spec, k, cat) == Some(cat)
  {
    if k > 0 {
      SettledChangesNothing(spec, [], cat);
      ReapplySettled(spec, cat, k - 1);
    }
  }

  /**
   The condition matters: a database that is listed and whose last mention among the delta
   operations is a delete is dropped and created anew by every apply, from any catalog.
   */
  lemma DeletedAndListedIsRecreated(spec: Spec, order: seq<string>, cat: Catalog, i: nat, j: nat)
    requires i < |spec.deltas| && spec.deltas[i].action == "delete_db"
    requires forall k :: i < k < |spec.deltas| ==> !IsTarget(spec.deltas[k], spec.deltas[i].name)
    requires j < |spec.databases| && spec.databases[j].name == spec.deltas[i].name
    requires Apply(spec, order, cat).Applied?
    ensures exists k, o :: 0 <= k < |Apply(spec, order, cat).ops|
              && Apply(spec, order, cat).ops[k] == CreateDatabase(spec.deltas[i].name, o)
  {
    var n := spec.deltas[i].name;
    var p1 := DropInvalid(order, Load(cat));
    var p2 := RenameAndDelete(spec.deltas, p1.dbs);
    DeletedStaysGone(spec.deltas, p1.dbs, i);
    var p3 := CreateAndAlter(spec.databases, p2.dbs);
    CreatedOnce(spec.databases, p2.dbs, n);
    assert Lists(spec.databases, n);
    var k :| 0 <= k < |p3.ops| && p3.ops[k].CreateDatabase? && p3.ops[k].name == n;
    var ops := p1.ops + p2.ops + p3.ops;
    assert ops[|p1.ops + p2.ops| + k] == CreateDatabase(n, p3.ops[k].owner);
  }

  lemma {:induction false} DeletedStaysGone(deltas: seq<DeltaOp>, dbs: Mirror, i: nat)
    requires i < |deltas| && deltas[i].action == "delete_db" && RenameAndDelete(deltas, dbs).Plan?
    requires forall k :: i < k < |deltas| ==> !IsTarget(deltas[k], deltas[i].name)
    ensures deltas[i].name !in RenameAndDelete(deltas, dbs).dbs
  {
    var k := |deltas| - 1;
    if i < k {
      DeletedStaysGone(deltas[..k], dbs, i);
    }
  }
}
