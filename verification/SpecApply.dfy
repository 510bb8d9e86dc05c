/**
 Spec application as a catalog transformation.

 `get_operations` plans SQL phase by phase against an in-memory mirror of pg_database
 and updates the mirror while planning; Postgres then executes the planned operations.
 The module gives the planned operations a catalog semantics and relates the two sides.
 */
module SpecApply {
  import opened Wrappers
  import opened Quoting

  // ---------------------------------------------------------------- Data model

  /** One entry of the mirror. */
  datatype Database = Database(name: string, owner: string, restrictConn: bool, invalid: bool)

  /** One database of the spec. The derived flags never come from a spec, so they are not here. */
  datatype Listing = Listing(name: string, owner: string)

  datatype DeltaOp = DeltaOp(action: string, name: string, newName: Option<string>)

  datatype Spec = Spec(deltas: seq<DeltaOp>, databases: seq<Listing>)

  datatype Operation =
    | DropDatabase(name: string)
    | UnsetTemplate(name: string)
    | RenameDatabase(name: string, newName: string)
    | ChangeOwner(name: string, owner: string)
    | CreateDatabase(name: string, owner: string)
    | GrantAll(name: string)

  type Mirror = map<string, Database>

  /** The mirror and the operations planned so far, or the panic of a rename without a new name. */
  datatype Plan = Panic | Plan(dbs: Mirror, ops: seq<Operation>)

  /** One row of pg_database. */
  datatype Row = Row(owner: string, restrictConn: bool, invalid: bool, isTemplate: bool)

  type Catalog = map<string, Row>

  // ---------------------------------------------------------------- Catalog semantics

  /** What Postgres does with one operation; `None` when it refuses. */
  function Exec(op: Operation, cat: Catalog): Option<Catalog> {
    match op
    case DropDatabase(n) =>
      if n in cat && cat[n].isTemplate then None else Some(cat - {n})
    case UnsetTemplate(n) =>
      Some(if n in cat then cat[n := cat[n].(isTemplate := false)] else cat)
    case RenameDatabase(n, m) =>
      if n in cat && m !in cat then Some((cat - {n})[m := cat[n]]) else None
    case ChangeOwner(n, o) =>
      if n in cat then Some(cat[n := cat[n].(owner := o)]) else None
    case CreateDatabase(n, o) =>
      if n in cat then None else Some(cat[n := Row(o, false, false, false)])
    case GrantAll(n) =>
      if n in cat then Some(cat) else None
  }

  function ExecAll(ops: seq<Operation>, cat: Catalog): Option<Catalog> {
    if ops == [] then Some(cat)
    else
      match ExecAll(ops[..|ops| - 1], cat)
      case None => None
      case Some(c) => Exec(ops[|ops| - 1], c)
  }

  lemma {:induction false} ExecAllAppend(a: seq<Operation>, b: seq<Operation>, cat: Catalog)
    ensures ExecAll(a + b, cat)
         == match ExecAll(a, cat) case None => None case Some(c) => ExecAll(b, c)
  {
    if b == [] {
      assert a + b == a;
    } else {
      var b' := b[..|b| - 1];
      assert (a + b)[..|a + b| - 1] == a + b';
      ExecAllAppend(a, b', cat);
    }
  }

  lemma ExecPair(x: Operation, y: Operation, cat: Catalog)
    ensures ExecAll([x, y], cat) == match Exec(x, cat) case None => None case Some(c) => Exec(y, c)
  {
    ExecAllAppend([x], [y], cat);
    assert [x] + [y] == [x, y];
    ExecOne(x, cat);
    if Exec(x, cat).Some? {
      ExecOne(y, Exec(x, cat).value);
    }
  }

  lemma ExecOne(x: Operation, cat: Catalog)
    ensures ExecAll([x], cat) == Exec(x, cat)
  {
    assert [x][..0] == [];
  }

  // ---------------------------------------------------------------- Planning

  /** The mirror as read from pg_database; rows that fail to decode, those outside `read`, are skipped. */
  function LoadRows(cat: Catalog, read: set<string>): Mirror {
    map n | n in cat && n in read :: Database(n, cat[n].owner, cat[n].restrictConn, cat[n].invalid)
  }

  /** The mirror when every row decodes. */
  function Load(cat: Catalog): Mirror {
    LoadRows(cat, cat.Keys)
  }

  /** `order` visits every invalid database once, in whatever order the hash map yields. */
  ghost predicate InvalidOrder(order: seq<string>, dbs: Mirror) {
    && (forall n :: n in order <==> n in dbs && dbs[n].invalid)
    && (forall i, j :: 0 <= i < j < |order| ==> order[i] != order[j])
  }

  function DropOps(order: seq<string>): seq<Operation> {
    seq(|order|, i requires 0 <= i < |order| => DropDatabase(order[i]))
  }

  function DropInvalid(order: seq<string>, dbs: Mirror): Plan {
    Plan(map n | n in dbs && n !in order :: dbs[n], DropOps(order))
  }

  /** The mirror's and the plan's part of one delta operation. */
  function DeltaStep(op: DeltaOp, p: Plan): Plan {
    if p.Panic? then Panic
    else if op.action == "delete_db" then
      Plan(p.dbs - {op.name}, p.ops + [UnsetTemplate(op.name), DropDatabase(op.name)])
    else if op.action == "rename_db" && op.name in p.dbs then
      match op.newName
      case None => Panic
      case Some(m) =>
        Plan((p.dbs - {op.name})[m := p.dbs[op.name].(name := m)], p.ops + [RenameDatabase(op.name, m)])
    else p
  }

  function RenameAndDelete(deltas: seq<DeltaOp>, dbs: Mirror): Plan {
    if deltas == [] then Plan(dbs, [])
    else DeltaStep(deltas[|deltas| - 1], RenameAndDelete(deltas[..|deltas| - 1], dbs))
  }

  /** The owner comparison, which takes a leading double quote for an already quoted name. */
  predicate NeedsOwnerChange(existing: string, listed: string) {
    if |existing| > 0 && existing[0] == '"' then PgQuote(listed) != existing else listed != existing
  }

  function ListingStep(d: Listing, p: Plan): Plan {
    if p.Panic? then Panic
    else if d.name in p.dbs then
      Plan(p.dbs[d.name := p.dbs[d.name].(owner := d.owner)],
           if NeedsOwnerChange(p.dbs[d.name].owner, d.owner)
           then p.ops + [ChangeOwner(d.name, d.owner)] else p.ops)
    else
      Plan(p.dbs[d.name := Database(d.name, d.owner, false, false)],
           p.ops + [CreateDatabase(d.name, d.owner), GrantAll(d.name)])
  }

  function CreateAndAlter(listed: seq<Listing>, dbs: Mirror): (p: Plan)
    ensures p.Plan?
  {
    if listed == [] then Plan(dbs, [])
    else ListingStep(listed[|listed| - 1], CreateAndAlter(listed[..|listed| - 1], dbs))
  }

  /** The context the phases share, and the phases that update it while planning. */
  class MutableApplyContext {
    var dbs: Mirror

    constructor (existing: Mirror)
      ensures dbs == existing
    {
      dbs := existing;
    }

    method DropInvalidDatabases() returns (order: seq<string>, ops: seq<Operation>)
      requires forall n :: n in dbs ==> dbs[n].name == n
      modifies this
      ensures InvalidOrder(order, old(dbs))
      ensures Plan(dbs, ops) == DropInvalid(order, old(dbs))
    {
      var keys := set n | n in dbs && dbs[n].invalid;
      order, ops := [], [];
      while keys != {}
        invariant keys <= dbs.Keys
        invariant forall n :: n in old(dbs) && old(dbs)[n].invalid <==> n in keys || n in order
        invariant forall n :: n in keys ==> n !in order
        invariant forall i, j :: 0 <= i < j < |order| ==> order[i] != order[j]
        invariant dbs == map n | n in old(dbs) && n !in order :: old(dbs)[n]
        invariant ops == DropOps(order)
        decreases keys
      {
        var n :| n in keys;
        ops := ops + [DropDatabase(dbs[n].name)];
        dbs := dbs - {n};
        keys := keys - {n};
        order := order + [n];
      }
    }

    method RenameAndDeleteDatabases(deltas: seq<DeltaOp>) returns (ok: bool, ops: seq<Operation>)
      modifies this
      ensures var p := RenameAndDelete(deltas, old(dbs));
              if p.Panic? then !ok else ok && Plan(dbs, ops) == p
    {
      ops := [];
      for i := 0 to |deltas|
        invariant Plan(dbs, ops) == RenameAndDelete(deltas[..i], old(dbs))
      {
        var op := deltas[i];
        assert deltas[..i + 1][..i] == deltas[..i];
        if op.action == "delete_db" {
          dbs := dbs - {op.name};
          ops := ops + [UnsetTemplate(op.name), DropDatabase(op.name)];
        } else if op.action == "rename_db" && op.name in dbs {
          if op.newName.None? {
            PanicStays(deltas, i + 1, old(dbs));
            return false, ops;
          }
          var db := dbs[op.name];
          dbs := (dbs - {op.name})[op.newName.value := db.(name := op.newName.value)];
          ops := ops + [RenameDatabase(op.name, op.newName.value)];
        }
      }
      assert deltas[..|deltas|] == deltas;
      ok := true;
    }

    method CreateAndAlterDatabases(listed: seq<Listing>) returns (ops: seq<Operation>)
      modifies this
      ensures Plan(dbs, ops) == CreateAndAlter(listed, old(dbs))
    {
      ops := [];
      for i := 0 to |listed|
        invariant Plan(dbs, ops) == CreateAndAlter(listed[..i], old(dbs))
      {
        var d := listed[i];
        assert listed[..i + 1][..i] == listed[..i];
        if d.name in dbs {
          var changeOwner := NeedsOwnerChange(dbs[d.name].owner, d.owner);
          dbs := dbs[d.name := dbs[d.name].(owner := d.owner)];
          if changeOwner {
            ops := ops + [ChangeOwner(d.name, d.owner)];
          }
        } else {
          dbs := dbs[d.name := Database(d.name, d.owner, false, false)];
          ops := ops + [CreateDatabase(d.name, d.owner), GrantAll(d.name)];
        }
      }
      assert listed[..|listed|] == listed;
    }
  }

  lemma {:induction false} PanicStays(deltas: seq<DeltaOp>, i: nat, dbs: Mirror)
    requires i <= |deltas| && RenameAndDelete(deltas[..i], dbs).Panic?
    ensures RenameAndDelete(deltas, dbs).Panic?
    decreases |deltas| - i
  {
    if i == |deltas| {
      assert deltas[..i] == deltas;
    } else {
      assert deltas[..i + 1][..i] == deltas[..i];
      PanicStays(deltas, i + 1, dbs);
    }
  }

  // ---------------------------------------------------------------- Simulation

  /** The mirror describes the catalog: same names, and the same owner and flags for each. */
  ghost predicate Agree(dbs: Mirror, cat: Catalog) {
    && dbs.Keys == cat.Keys
    && (forall n :: n in dbs ==> Mirrors(n, dbs, cat))
  }

  ghost predicate Mirrors(n: string, dbs: Mirror, cat: Catalog) {
    n in dbs && n in cat && dbs[n] == Database(n, cat[n].owner, cat[n].restrictConn, cat[n].invalid)
  }

  /** The mirror that an apply starts from describes the catalog exactly when no row was skipped. */
  lemma LoadAgrees(cat: Catalog, read: set<string>)
    ensures Agree(LoadRows(cat, read), cat) <==> cat.Keys <= read
  {
    var dbs := LoadRows(cat, read);
    forall n | n in cat ensures n in dbs <==> n in read {}
  }

  lemma {:induction false} DropAll(order: seq<string>, cat: Catalog)
    ensures ExecAll(DropOps(order), cat)
         == if exists n :: n in order && n in cat && cat[n].isTemplate then None
            else Some(map n | n in cat && n !in order :: cat[n])
  {
    if order == [] {
      assert cat == map n | n in cat && n !in order :: cat[n];
    } else {
      var order' := order[..|order| - 1];
      var last := order[|order| - 1];
      assert order == order' + [last];
      assert DropOps(order)[..|order| - 1] == DropOps(order');
      DropAll(order', cat);
      if (exists n :: n in order' && n in cat && cat[n].isTemplate) {
        assert ExecAll(DropOps(order), cat) == None;
      } else {
        var c := map n | n in cat && n !in order' :: cat[n];
        assert ExecAll(DropOps(order), cat) == Exec(DropDatabase(last), c);
        if last in cat && cat[last].isTemplate {
          assert last in order;
        } else {
          assert c - {last} == map n | n in cat && n !in order :: cat[n];
        }
      }
    }
  }

  /** Dropping the invalid databases is refused exactly when one of them is a template. */
  lemma DropInvalidSimulates(order: seq<string>, dbs: Mirror, cat: Catalog)
    requires Agree(dbs, cat) && InvalidOrder(order, dbs)
    ensures var p := DropInvalid(order, dbs); var r := ExecAll(p.ops, cat);
            && (r.Some? <==> forall n :: n in cat && cat[n].invalid ==> !cat[n].isTemplate)
            && (r.Some? ==> Agree(p.dbs, r.value) && forall n :: n in p.dbs ==> !p.dbs[n].invalid)
  {
    DropAll(order, cat);
    forall n | n in cat ensures n in order <==> cat[n].invalid {
      assert n in dbs;
    }
  }

  /** No rename of an existing database lands on a name the mirror already holds. */
  ghost predicate RenameTargetsFree(deltas: seq<DeltaOp>, dbs: Mirror) {
    forall i :: 0 <= i < |deltas| ==> TargetFree(deltas[i], RenameAndDelete(deltas[..i], dbs))
  }

  ghost predicate TargetFree(op: DeltaOp, p: Plan) {
    (p.Plan? && op.action == "rename_db" && op.name in p.dbs && op.newName.Some?)
    ==> op.newName.value !in p.dbs
  }

  lemma DeltaStepSimulates(op: DeltaOp, p: Plan, cat: Catalog, c: Catalog)
    requires p.Plan? && ExecAll(p.ops, cat) == Some(c) && Agree(p.dbs, c)
    requires DeltaStep(op, p).Plan?
    ensures var q := DeltaStep(op, p); var r := ExecAll(q.ops, cat);
            (r.Some? <==> TargetFree(op, p)) && (r.Some? ==> Agree(q.dbs, r.value))
  {
    var q := DeltaStep(op, p);
    if op.action == "delete_db" {
      var x, y := UnsetTemplate(op.name), DropDatabase(op.name);
      ExecAllAppend(p.ops, [x, y], cat);
      ExecPair(x, y, c);
    } else if op.action == "rename_db" && op.name in p.dbs {
      var x := RenameDatabase(op.name, op.newName.value);
      ExecAllAppend(p.ops, [x], cat);
      ExecOne(x, c);
    }
  }

  lemma TargetsFreeSnoc(deltas: seq<DeltaOp>, dbs: Mirror)
    requires deltas != []
    ensures var pre := deltas[..|deltas| - 1];
            RenameTargetsFree(deltas, dbs) <==>
              RenameTargetsFree(pre, dbs) && TargetFree(deltas[|deltas| - 1], RenameAndDelete(pre, dbs))
  {
    var k := |deltas| - 1;
    var pre := deltas[..k];
    forall i | 0 <= i < k ensures pre[..i] == deltas[..i] && pre[i] == deltas[i] {}
    if RenameTargetsFree(deltas, dbs) {
      forall i | 0 <= i < k ensures TargetFree(pre[i], RenameAndDelete(pre[..i], dbs)) {
        assert TargetFree(deltas[i], RenameAndDelete(deltas[..i], dbs));
      }
    }
  }

  /** Postgres accepts the renames and deletes exactly when the mirror says the targets are free. */
  lemma {:induction false} RenameAndDeleteSimulates(deltas: seq<DeltaOp>, dbs: Mirror, cat: Catalog)
    requires Agree(dbs, cat) && RenameAndDelete(deltas, dbs).Plan?
    ensures var p := RenameAndDelete(deltas, dbs); var r := ExecAll(p.ops, cat);
            (r.Some? <==> RenameTargetsFree(deltas, dbs)) && (r.Some? ==> Agree(p.dbs, r.value))
  {
    if deltas != [] {
      var k := |deltas| - 1;
      RenameAndDeleteSimulates(deltas[..k], dbs, cat);
      TargetsFreeSnoc(deltas, dbs);
      var p := RenameAndDelete(deltas[..k], dbs);
      match ExecAll(p.ops, cat) {
        case Some(c) => DeltaStepSimulates(deltas[k], p, cat, c);
        case None => FailureStays(deltas, dbs, cat);
      }
    }
  }

  lemma FailureStays(deltas: seq<DeltaOp>, dbs: Mirror, cat: Catalog)
    requires deltas != [] && RenameAndDelete(deltas, dbs).Plan?
    requires ExecAll(RenameAndDelete(deltas[..|deltas| - 1], dbs).ops, cat).None?
    ensures ExecAll(RenameAndDelete(deltas, dbs).ops, cat).None?
  {
    var p, q := RenameAndDelete(deltas[..|deltas| - 1], dbs), RenameAndDelete(deltas, dbs);
    assert p.ops <= q.ops;
    ExecAllAppend(p.ops, q.ops[|p.ops|..], cat);
    assert p.ops + q.ops[|p.ops|..] == q.ops;
  }

  /** The owner test misses a change exactly when the stored owner is the quoted listed owner. */
  lemma OwnerTestExact(existing: string, listed: string)
    ensures existing != listed && !NeedsOwnerChange(existing, listed) <==> existing == PgQuote(listed)
  {
    PgQuoteLonger(listed);
  }

  /** The stored owner reads as the quoted listed owner, which the owner test takes for equal. */
  ghost predicate QuotedOwner(d: Listing, dbs: Mirror) {
    d.name in dbs && dbs[d.name].owner == PgQuote(d.owner)
  }

  /**
   Postgres never refuses what one listing plans, other databases keep their entries on both
   sides, and the listed one stays mirrored exactly when its owner is not read as quoted.
   */
  lemma ListingStepSimulates(d: Listing, p: Plan, cat: Catalog, c: Catalog)
    requires p.Plan? && ExecAll(p.ops, cat) == Some(c) && p.dbs.Keys == c.Keys
    requires d.name in p.dbs ==> Mirrors(d.name, p.dbs, c)
    ensures var q := ListingStep(d, p); var r := ExecAll(q.ops, cat);
            && r.Some?
            && q.dbs.Keys == r.value.Keys == p.dbs.Keys + {d.name}
            && (Mirrors(d.name, q.dbs, r.value) <==> !QuotedOwner(d, p.dbs))
            && (forall m :: m in p.dbs && m != d.name ==> q.dbs[m] == p.dbs[m] && r.value[m] == c[m])
  {
    if d.name in p.dbs {
      OwnerTestExact(p.dbs[d.name].owner, d.owner);
      PgQuoteLonger(d.owner);
      AlterExecutes(d, p, cat, c);
    } else {
      CreateExecutes(d, p, cat, c);
    }
  }

  lemma AlterExecutes(d: Listing, p: Plan, cat: Catalog, c: Catalog)
    requires p.Plan? && ExecAll(p.ops, cat) == Some(c) && d.name in p.dbs && d.name in c
    ensures ExecAll(ListingStep(d, p).ops, cat)
         == Some(if NeedsOwnerChange(p.dbs[d.name].owner, d.owner) then c[d.name := c[d.name].(owner := d.owner)] else c)
  {
    var x := ChangeOwner(d.name, d.owner);
    ExecAllAppend(p.ops, [x], cat);
    ExecOne(x, c);
  }

  lemma CreateExecutes(d: Listing, p: Plan, cat: Catalog, c: Catalog)
    requires p.Plan? && ExecAll(p.ops, cat) == Some(c) && d.name !in p.dbs && d.name !in c
    ensures ExecAll(ListingStep(d, p).ops, cat) == Some(c[d.name := Row(d.owner, false, false, false)])
  {
    var x, y := CreateDatabase(d.name, d.owner), GrantAll(d.name);
    ExecAllAppend(p.ops, [x, y], cat);
    ExecPair(x, y, c);
  }

  /** No listing meets a mirror whose owner for it reads as the quoted listed owner. */
  ghost predicate OwnersReadPlain(listed: seq<Listing>, dbs: Mirror) {
    forall i :: 0 <= i < |listed| ==> !QuotedOwner(listed[i], CreateAndAlter(listed[..i], dbs).dbs)
  }

  /** The catalog after the first `k` listings of a plan. */
  ghost function AfterListings(listed: seq<Listing>, k: nat, dbs: Mirror, cat: Catalog): Option<Catalog>
    requires k <= |listed|
  {
    ExecAll(CreateAndAlter(listed[..k], dbs).ops, cat)
  }

  /** Mirror and catalog agree after the first `k` listings. */
  ghost predicate AgreeAfter(listed: seq<Listing>, k: nat, dbs: Mirror, cat: Catalog)
    requires k <= |listed|
  {
    && AfterListings(listed, k, dbs, cat).Some?
    && Agree(CreateAndAlter(listed[..k], dbs).dbs, AfterListings(listed, k, dbs, cat).value)
  }

  lemma ListingStepAgrees(d: Listing, p: Plan, cat: Catalog, c: Catalog)
    requires p.Plan? && ExecAll(p.ops, cat) == Some(c) && Agree(p.dbs, c)
    ensures var q := ListingStep(d, p); var r := ExecAll(q.ops, cat);
            r.Some? && (Agree(q.dbs, r.value) <==> !QuotedOwner(d, p.dbs))
  {
    assert d.name in p.dbs ==> Mirrors(d.name, p.dbs, c);
    ListingStepSimulates(d, p, cat, c);
    var q := ListingStep(d, p);
    var r := ExecAll(q.ops, cat).value;
    forall m | m in q.dbs && m != d.name ensures Mirrors(m, q.dbs, r) {
      assert Mirrors(m, p.dbs, c);
    }
    assert d.name in q.dbs;
  }

  /** Agreement passes from one listing to the next exactly where no owner reads as quoted. */
  lemma AgreeNext(listed: seq<Listing>, i: nat, dbs: Mirror, cat: Catalog)
    requires i < |listed| && AgreeAfter(listed, i, dbs, cat)
    ensures AgreeAfter(listed, i + 1, dbs, cat) <==> !QuotedOwner(listed[i], CreateAndAlter(listed[..i], dbs).dbs)
  {
    assert listed[..i + 1][..i] == listed[..i];
    ListingStepAgrees(listed[i], CreateAndAlter(listed[..i], dbs), cat, AfterListings(listed, i, dbs, cat).value);
  }

  /** Mirror and catalog agree after every listing exactly when no owner reads as quoted. */
  lemma {:induction false} CreateAndAlterSimulates(listed: seq<Listing>, dbs: Mirror, cat: Catalog)
    requires Agree(dbs, cat)
    ensures (forall k :: 0 <= k <= |listed| ==> AgreeAfter(listed, k, dbs, cat)) <==> OwnersReadPlain(listed, dbs)
  {
    if OwnersReadPlain(listed, dbs) {
      forall k | 0 <= k <= |listed| ensures AgreeAfter(listed, k, dbs, cat) {
        AgreeUpTo(listed, k, dbs, cat);
      }
    } else {
      var i :| 0 <= i < |listed| && QuotedOwner(listed[i], CreateAndAlter(listed[..i], dbs).dbs);
      if AgreeAfter(listed, i, dbs, cat) {
        AgreeNext(listed, i, dbs, cat);
      }
    }
  }

  lemma {:induction false} AgreeUpTo(listed: seq<Listing>, k: nat, dbs: Mirror, cat: Catalog)
    requires k <= |listed| && Agree(dbs, cat) && OwnersReadPlain(listed, dbs)
    ensures AgreeAfter(listed, k, dbs, cat)
  {
    if k > 0 {
      AgreeUpTo(listed, k - 1, dbs, cat);
      AgreeNext(listed, k - 1, dbs, cat);
    } else {
      assert listed[..0] == [];
    }
  }

  ghost predicate DistinctNames(listed: seq<Listing>) {
    forall i, j :: 0 <= i < j < |listed| ==> listed[i].name != listed[j].name
  }

  ghost predicate Lists(listed: seq<Listing>, n: string) {
    exists i :: 0 <= i < |listed| && listed[i].name == n
  }

  /** Some listing of `n` meets an owner that reads as quoted. */
  ghost predicate ListsQuoted(listed: seq<Listing>, dbs: Mirror, n: string) {
    exists i :: 0 <= i < |listed| && listed[i].name == n && QuotedOwner(listed[i], dbs)
  }

  lemma ListsSnoc(listed: seq<Listing>, dbs: Mirror, n: string)
    requires listed != []
    ensures var pre, d := listed[..|listed| - 1], listed[|listed| - 1];
            && (Lists(listed, n) <==> Lists(pre, n) || d.name == n)
            && (ListsQuoted(listed, dbs, n) <==> ListsQuoted(pre, dbs, n) || (d.name == n && QuotedOwner(d, dbs)))
  {
    var k := |listed| - 1;
    forall i | 0 <= i < k ensures listed[i] == listed[..k][i] {}
  }

  lemma LastNotListedBefore(listed: seq<Listing>)
    requires listed != [] && DistinctNames(listed)
    ensures DistinctNames(listed[..|listed| - 1])
    ensures !Lists(listed[..|listed| - 1], listed[|listed| - 1].name)
  {}

  /** For a list without repeats: exactly which databases end up mirrored. */
  lemma {:induction false} CreateAndAlterExact(listed: seq<Listing>, dbs: Mirror, cat: Catalog, n: string)
    requires Agree(dbs, cat) && DistinctNames(listed)
    ensures var p := CreateAndAlter(listed, dbs); var r := ExecAll(p.ops, cat);
            && r.Some? && p.dbs.Keys == r.value.Keys
            && (n in p.dbs <==> n in dbs || Lists(listed, n))
            && (n in p.dbs ==> (Mirrors(n, p.dbs, r.value) <==> !ListsQuoted(listed, dbs, n)))
            && (n in dbs && !Lists(listed, n) ==> p.dbs[n] == dbs[n] && r.value[n] == cat[n])
  {
    if listed != [] {
      var k := |listed| - 1;
      var pre, d := listed[..k], listed[k];
      LastNotListedBefore(listed);
      ListsSnoc(listed, dbs, n);
      CreateAndAlterExact(pre, dbs, cat, n);
      CreateAndAlterExact(pre, dbs, cat, d.name);
      assert !ListsQuoted(pre, dbs, d.name);
      var p := CreateAndAlter(pre, dbs);
      ListingStepSimulates(d, p, cat, ExecAll(p.ops, cat).value);
    }
  }

  // ---------------------------------------------------------------- Grants

  /** Each create is followed by the grant on the same database, and grants come no other way. */
  ghost predicate GrantedAsCreated(ops: seq<Operation>) {
    && (forall i :: 0 <= i < |ops| && ops[i].CreateDatabase? ==> i + 1 < |ops| && ops[i + 1] == GrantAll(ops[i].name))
    && (forall i :: 0 <= i < |ops| && ops[i].GrantAll? ==>
          i > 0 && ops[i - 1].CreateDatabase? && ops[i - 1].name == ops[i].name)
  }

  lemma {:induction false} CreatedIsGranted(listed: seq<Listing>, dbs: Mirror)
    ensures GrantedAsCreated(CreateAndAlter(listed, dbs).ops)
  {
    if listed != [] {
      CreatedIsGranted(listed[..|listed| - 1], dbs);
    }
  }

  /** The databases that a plan drops, in order. */
  function DroppedBy(ops: seq<Operation>): seq<string> {
    if ops == [] then []
    else
      var before := DroppedBy(ops[..|ops| - 1]);
      if ops[|ops| - 1].DropDatabase? then before + [ops[|ops| - 1].name] else before
  }

  /** The databases that the delta operations ask to delete, in order. */
  function AskedToDelete(deltas: seq<DeltaOp>): seq<string> {
    if deltas == [] then []
    else
      var before := AskedToDelete(deltas[..|deltas| - 1]);
      if deltas[|deltas| - 1].action == "delete_db" then before + [deltas[|deltas| - 1].name] else before
  }

  lemma DroppedByPair(ops: seq<Operation>, n: string)
    ensures DroppedBy(ops + [UnsetTemplate(n), DropDatabase(n)]) == DroppedBy(ops) + [n]
  {
    var all := ops + [UnsetTemplate(n), DropDatabase(n)];
    assert all[..|all| - 1] == ops + [UnsetTemplate(n)];
    assert (ops + [UnsetTemplate(n)])[..|ops|] == ops;
  }

  /** Every deletion asked for is planned, and no other, whether or not the mirror holds the database. */
  lemma {:induction false} DeletionsPlanned(deltas: seq<DeltaOp>, dbs: Mirror)
    requires RenameAndDelete(deltas, dbs).Plan?
    ensures DroppedBy(RenameAndDelete(deltas, dbs).ops) == AskedToDelete(deltas)
  {
    if deltas != [] {
      var before, op := RenameAndDelete(deltas[..|deltas| - 1], dbs), deltas[|deltas| - 1];
      DeletionsPlanned(deltas[..|deltas| - 1], dbs);
      if op.action == "delete_db" {
        DroppedByPair(before.ops, op.name);
      } else if op.action == "rename_db" && op.name in before.dbs {
        var rename := RenameDatabase(op.name, op.newName.value);
        assert (before.ops + [rename])[..|before.ops|] == before.ops;
      }
    }
  }
}
