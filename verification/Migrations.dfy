/**
 The transactional migration runner under failures at any point, including a commit whose
 acknowledgement is lost, and over any sequence of runs with lists of different lengths.
 */
module Migrations {
  import opened Wrappers

  // ---------------------------------------------------------------- Texts

  predicate HasPrefix(s: string, p: string) {
    |p| <= |s| && s[..|p|] == p
  }

  /** Every non-overlapping occurrence of `pat`, from the left, replaced by `with`. */
  function ReplaceAll(s: string, pat: string, with: string): string
    requires pat != ""
  {
    if s == "" then ""
    else if HasPrefix(s, pat) then with + ReplaceAll(s[|pat|..], pat, with)
    else [s[0]] + ReplaceAll(s[1..], pat, with)
  }

  /** The text that is run in the given mode. */
  function Adapt(migration: string, lakebase: bool): string {
    if lakebase then ReplaceAll(migration, "neon_superuser", "databricks_superuser") else migration
  }

  predicate IsSkip(text: string) {
    HasPrefix(text, "-- SKIP")
  }

  lemma {:induction false} PrefixSurvivesReplace(s: string, p: string, pat: string, with: string)
    requires pat != "" && with != "" && pat[0] !in p && with[0] !in p
    ensures HasPrefix(ReplaceAll(s, pat, with), p) <==> HasPrefix(s, p)
  {
    var r := ReplaceAll(s, pat, with);
    if p == "" || s == "" {
    } else if HasPrefix(s, pat) {
      assert s[0] == pat[0] && r[0] == with[0];
      assert p[0] in p;
      PrefixHeadTail(s, p);
      PrefixHeadTail(r, p);
    } else {
      var p' := p[1..];
      PrefixSurvivesReplace(s[1..], p', pat, with);
      assert r[1..] == ReplaceAll(s[1..], pat, with);
      PrefixHeadTail(s, p);
      PrefixHeadTail(r, p);
    }
  }

  lemma PrefixHeadTail(s: string, p: string)
    requires s != "" && p != ""
    ensures HasPrefix(s, p) <==> s[0] == p[0] && HasPrefix(s[1..], p[1..])
  {
    if HasPrefix(s, p) {
      assert s[..|p|][1..] == s[1..][..|p| - 1];
    }
    if s[0] == p[0] && HasPrefix(s[1..], p[1..]) {
      assert s[..|p|] == [s[0]] + s[1..][..|p| - 1];
      assert p == [p[0]] + p[1..];
    }
  }

  /** Whether a migration is skipped does not depend on the mode. */
  lemma SkipIgnoresMode(migration: string, lakebase: bool)
    ensures IsSkip(Adapt(migration, lakebase)) <==> IsSkip(migration)
  {
    PrefixSurvivesReplace(migration, "-- SKIP", "neon_superuser", "databricks_superuser");
  }

  // ---------------------------------------------------------------- Runs

  /** What becomes of one migration's transaction. */
  datatype Outcome = BeginFails | ApplyFails | UpdateFails | CommitFails | AckLost | Committed

  /**
   The environment of one run: how many of the five preparing statements took effect and whether
   all were acknowledged, whether the stored id could be read, and the outcomes of the
   transactions; the process dies when they run out.
   */
  datatype Faults = Faults(prepared: nat, prepareOk: bool, readOk: bool, outcomes: seq<Outcome>)

  predicate ValidFaults(f: Faults) {
    f.prepared <= 5 && (f.prepareOk ==> f.prepared == 5)
  }

  /** The database: the stored migration id, absent before the first preparation, and the ids and texts run. */
  datatype Db = Db(row: Option<nat>, log: seq<nat>, texts: seq<string>)

  datatype RunSpec = RunSpec(list: seq<string>, lakebase: bool, faults: Faults)

  /** One transaction for the migration at index `i`. */
  function Transact(db: Db, list: seq<string>, lakebase: bool, i: nat, o: Outcome): Db
    requires i < |list|
  {
    var text := Adapt(list[i], lakebase);
    if !o.AckLost? && !o.Committed? then db
    else if IsSkip(text) then db.(row := Some(i + 1))
    else Db(Some(i + 1), db.log + [i + 1], db.texts + [text])
  }

  function RunFrom(db: Db, list: seq<string>, lakebase: bool, i: nat, outcomes: seq<Outcome>): (Db, bool)
    decreases |outcomes|
  {
    if i >= |list| then (db, true)
    else if outcomes == [] then (db, false)
    else
      var db' := Transact(db, list, lakebase, i, outcomes[0]);
      if outcomes[0].Committed? then RunFrom(db', list, lakebase, i + 1, outcomes[1..]) else (db', false)
  }

  function Prepared(db: Db, f: Faults): Db {
    if f.prepared >= 3 && db.row.None? then db.(row := Some(0)) else db
  }

  function RunOnce(db: Db, run: RunSpec): (Db, bool) {
    var db1 := Prepared(db, run.faults);
    if !run.faults.prepareOk || !run.faults.readOk || db1.row.None? then (db1, false)
    else RunFrom(db1, run.list, run.lakebase, db1.row.value, run.faults.outcomes)
  }

  /** The target database of a runner. */
  class MigrationRunner {
    var row: Option<nat>
    var log: seq<nat>
    var texts: seq<string>

    constructor (db: Db)
      ensures View() == db
    {
      row, log, texts := db.row, db.log, db.texts;
    }

    function View(): Db
      reads this
    {
      Db(row, log, texts)
    }

    /** One transaction: the migration's text and the new id take effect together or not at all. */
    method RunMigration(list: seq<string>, lakebase: bool, i: nat, o: Outcome) returns (ok: bool)
      requires i < |list|
      modifies this
      ensures View() == Transact(old(View()), list, lakebase, i, o) && ok == o.Committed?
    {
      var txnLog, txnRow, txnTexts := log, row, texts;
      var migration := Adapt(list[i], lakebase);
      if o == BeginFails {
        return false;
      }
      if IsSkip(migration) {
        if o == UpdateFails || o == ApplyFails {
          return false;
        }
      } else {
        if o == ApplyFails {
          return false;
        }
        txnLog, txnTexts := txnLog + [i + 1], txnTexts + [migration];
        if o == UpdateFails {
          return false;
        }
      }
      txnRow := Some(i + 1);
      if o == CommitFails {
        return false;
      }
      row, log, texts := txnRow, txnLog, txnTexts;
      ok := o == Committed;
    }

    method RunMigrations(run: RunSpec) returns (ok: bool)
      requires ValidFaults(run.faults)
      modifies this
      ensures (View(), ok) == RunOnce(old(View()), run)
    {
      if run.faults.prepared >= 3 && row.None? {
        row := Some(0);
      }
      if !run.faults.prepareOk || !run.faults.readOk {
        return false;
      }
      var current, outcomes := row.value, run.faults.outcomes;
      while current < |run.list|
        invariant RunFrom(View(), run.list, run.lakebase, current, outcomes) == RunOnce(old(View()), run)
      {
        if outcomes == [] {
          return false;
        }
        ok := RunMigration(run.list, run.lakebase, current, outcomes[0]);
        if !ok {
          return false;
        }
        current, outcomes := current + 1, outcomes[1..];
      }
      ok := true;
    }
  }

  // ---------------------------------------------------------------- Invariant

  /** The ids of the migrations of `list` that are not skipped, in order. */
  function Ids(list: seq<string>): seq<nat> {
    if list == [] then []
    else
      var k := |list| - 1;
      if IsSkip(list[k]) then Ids(list[..k]) else Ids(list[..k]) + [k + 1]
  }

  /** The stored id counts the committed migrations and the log is their in-order non-skipped prefix. */
  ghost predicate Inv(db: Db, master: seq<string>) {
    match db.row
    case None => db.log == []
    case Some(k) => k <= |master| && db.log == Ids(master[..k])
  }

  lemma TransactKeepsInv(db: Db, list: seq<string>, lakebase: bool, i: nat, o: Outcome, master: seq<string>)
    requires list <= master && i < |list| && db.row == Some(i) && Inv(db, master)
    ensures Inv(Transact(db, list, lakebase, i, o), master)
    ensures Transact(db, list, lakebase, i, o).row in {Some(i), Some(i + 1)}
    ensures o.Committed? ==> Transact(db, list, lakebase, i, o).row == Some(i + 1)
  {
    SkipIgnoresMode(list[i], lakebase);
    assert master[..i + 1][..i] == master[..i];
  }

  lemma {:induction false} RunFromKeepsInv(db: Db, list: seq<string>, lakebase: bool, outcomes: seq<Outcome>, master: seq<string>)
    requires list <= master && db.row.Some? && Inv(db, master)
    ensures var (db', ok) := RunFrom(db, list, lakebase, db.row.value, outcomes);
            && Inv(db', master) && db'.row.Some? && db.row.value <= db'.row.value
            && (ok ==> db'.row.value == if db.row.value <= |list| then |list| else db.row.value)
    decreases |outcomes|
  {
    var i := db.row.value;
    if i < |list| && outcomes != [] {
      TransactKeepsInv(db, list, lakebase, i, outcomes[0], master);
      if outcomes[0].Committed? {
        RunFromKeepsInv(Transact(db, list, lakebase, i, outcomes[0]), list, lakebase, outcomes[1..], master);
      }
    }
  }

  function StoredId(db: Db): nat {
    if db.row.Some? then db.row.value else 0
  }

  /** One run keeps the invariant and never moves back; a successful one ends at the larger of id and length. */
  lemma RunOnceKeepsInv(db: Db, run: RunSpec, master: seq<string>)
    requires ValidFaults(run.faults) && run.list <= master && Inv(db, master)
    ensures var (db', ok) := RunOnce(db, run);
            && Inv(db', master) && StoredId(db) <= StoredId(db')
            && (ok ==> db'.row.Some? && StoredId(db') == if StoredId(db) <= |run.list| then |run.list| else StoredId(db))
  {
    var db1 := Prepared(db, run.faults);
    assert master[..0] == [];
    if db1.row.Some? {
      RunFromKeepsInv(db1, run.list, run.lakebase, run.faults.outcomes, master);
    }
  }

  function RunAll(db: Db, runs: seq<RunSpec>): Db {
    if runs == [] then db else RunOnce(RunAll(db, runs[..|runs| - 1]), runs[|runs| - 1]).0
  }

  /**
   Over any sequence of runs, each with its own prefix of one append-only list, its own mode and
   its own faults, the stored id counts the committed migrations and each ran at most once, in order.
   */
  lemma {:induction false} RunsKeepInv(runs: seq<RunSpec>, master: seq<string>)
    requires forall i :: 0 <= i < |runs| ==> ValidFaults(runs[i].faults) && runs[i].list <= master
    ensures var db := RunAll(Db(None, [], []), runs);
            && Inv(db, master)
            && db.log == Ids(master[..StoredId(db)])
            && (forall i, j :: 0 <= i < j < |db.log| ==> db.log[i] < db.log[j])
  {
    if runs != [] {
      var k := |runs| - 1;
      RunsKeepInv(runs[..k], master);
      RunOnceKeepsInv(RunAll(Db(None, [], []), runs[..k]), runs[k], master);
    }
    var db := RunAll(Db(None, [], []), runs);
    assert master[..0] == [];
    IdsIncrease(master[..StoredId(db)]);
  }

  predicate IsRun(list: seq<string>, id: nat) {
    1 <= id <= |list| && !IsSkip(list[id - 1])
  }

  /** The log holds exactly the ids of the non-skipped migrations, in increasing order. */
  lemma {:induction false} IdsIncrease(list: seq<string>)
    ensures forall i, j :: 0 <= i < j < |Ids(list)| ==> Ids(list)[i] < Ids(list)[j]
    ensures forall id: nat :: id in Ids(list) <==> IsRun(list, id)
  {
    if list != [] {
      var k := |list| - 1;
      var pre := Ids(list[..k]);
      IdsIncrease(list[..k]);
      forall id: nat ensures IsRun(list, id) <==> IsRun(list[..k], id) || (id == k + 1 && !IsSkip(list[k])) {}
      forall i | 0 <= i < |pre| ensures pre[i] <= k {
        assert pre[i] in pre && IsRun(list[..k], pre[i]);
      }
    }
  }

  // ---------------------------------------------------------------- The texts that run

  /** `text` is the migration of that id as one of the modes runs it. */
  ghost predicate RanText(master: seq<string>, id: nat, text: string, modes: set<bool>) {
    1 <= id <= |master| && exists l :: l in modes && text == Adapt(master[id - 1], l)
  }

  ghost predicate TextsInv(db: Db, master: seq<string>, modes: set<bool>) {
    |db.texts| == |db.log| && forall k :: 0 <= k < |db.log| ==> RanText(master, db.log[k], db.texts[k], modes)
  }

  lemma TransactKeepsTexts(db: Db, list: seq<string>, lakebase: bool, i: nat, o: Outcome, master: seq<string>, modes: set<bool>)
    requires list <= master && i < |list| && TextsInv(db, master, modes) && lakebase in modes
    ensures TextsInv(Transact(db, list, lakebase, i, o), master, modes)
  {
    assert list[i] == master[i];
    assert RanText(master, i + 1, Adapt(list[i], lakebase), modes);
  }

  lemma {:induction false} RunFromKeepsTexts(db: Db, list: seq<string>, lakebase: bool, i: nat, outcomes: seq<Outcome>,
                                             master: seq<string>, modes: set<bool>)
    requires list <= master && TextsInv(db, master, modes) && lakebase in modes
    ensures TextsInv(RunFrom(db, list, lakebase, i, outcomes).0, master, modes)
    decreases |outcomes|
  {
    if i < |list| && outcomes != [] {
      TransactKeepsTexts(db, list, lakebase, i, outcomes[0], master, modes);
      if outcomes[0].Committed? {
        RunFromKeepsTexts(Transact(db, list, lakebase, i, outcomes[0]), list, lakebase, i + 1, outcomes[1..], master, modes);
      }
    }
  }

  /** Over any sequence of runs the texts run are those of the logged migrations, as the runs' modes adapt them. */
  lemma {:induction false} RunsRunTexts(runs: seq<RunSpec>, master: seq<string>, modes: set<bool>)
    requires forall i :: 0 <= i < |runs| ==> runs[i].list <= master && runs[i].lakebase in modes
    ensures TextsInv(RunAll(Db(None, [], []), runs), master, modes)
  {
    if runs != [] {
      var k := |runs| - 1;
      RunsRunTexts(runs[..k], master, modes);
      var db := Prepared(RunAll(Db(None, [], []), runs[..k]), runs[k].faults);
      if db.row.Some? {
        RunFromKeepsTexts(db, runs[k].list, runs[k].lakebase, db.row.value, runs[k].faults.outcomes, master, modes);
      }
    }
  }

  function Join(pieces: seq<string>, sep: string): string
    requires pieces != []
  {
    if |pieces| == 1 then pieces[0] else pieces[0] + sep + Join(pieces[1..], sep)
  }

  /** The text between the occurrences of `pat`, found from the left. */
  function Pieces(s: string, pat: string): (r: seq<string>)
    requires pat != ""
    ensures r != []
  {
    if s == "" then [""]
    else if HasPrefix(s, pat) then [""] + Pieces(s[|pat|..], pat)
    else var r := Pieces(s[1..], pat); [[s[0]] + r[0]] + r[1..]
  }

  lemma JoinHead(x: string, pieces: seq<string>, sep: string)
    requires pieces != []
    ensures Join([x + pieces[0]] + pieces[1..], sep) == x + Join(pieces, sep)
  {
    var p := [x + pieces[0]] + pieces[1..];
    assert p[0] == x + pieces[0] && p[1..] == pieces[1..];
    if |pieces| > 1 {
      assert (x + pieces[0]) + sep + Join(pieces[1..], sep) == x + (pieces[0] + sep + Join(pieces[1..], sep));
    }
  }

  /** Replacing is joining the pieces with the replacement, and joining them with the pattern gives the text. */
  lemma {:induction false} ReplaceIsJoin(s: string, pat: string, with: string)
    requires pat != ""
    ensures ReplaceAll(s, pat, with) == Join(Pieces(s, pat), with)
    ensures Join(Pieces(s, pat), pat) == s
  {
    if s == "" {
    } else if HasPrefix(s, pat) {
      var rest := Pieces(s[|pat|..], pat);
      ReplaceIsJoin(s[|pat|..], pat, with);
      assert ([""] + rest)[1..] == rest;
      assert "" + with == with && "" + pat == pat;
      assert s == pat + s[|pat|..];
    } else {
      var rest := Pieces(s[1..], pat);
      ReplaceIsJoin(s[1..], pat, with);
      JoinHead([s[0]], rest, with);
      JoinHead([s[0]], rest, pat);
      assert s == [s[0]] + s[1..];
    }
  }

  ghost predicate Within(s: string, pat: string) {
    exists i :: 0 <= i <= |s| && HasPrefix(s[i..], pat)
  }

  lemma {:induction false} FirstPieceIsPrefix(s: string, pat: string)
    requires pat != ""
    ensures Pieces(s, pat)[0] <= s
  {
    if s != "" && !HasPrefix(s, pat) {
      FirstPieceIsPrefix(s[1..], pat);
    }
  }

  /** No piece holds the pattern. */
  lemma {:induction false} PiecesAreFree(s: string, pat: string)
    requires pat != ""
    ensures forall i :: 0 <= i < |Pieces(s, pat)| ==> !Within(Pieces(s, pat)[i], pat)
  {
    if s == "" {
      EmptyIsFree(pat);
    } else if HasPrefix(s, pat) {
      EmptyIsFree(pat);
      PiecesAreFree(s[|pat|..], pat);
    } else {
      var rest := Pieces(s[1..], pat);
      PiecesAreFree(s[1..], pat);
      FirstPieceIsPrefix(s, pat);
      FreeCons(s, [s[0]] + rest[0], pat);
    }
  }

  lemma EmptyIsFree(pat: string)
    requires pat != ""
    ensures !Within("", pat)
  {}

  lemma PrefixGrows(a: string, b: string, pat: string)
    requires a <= b
    ensures HasPrefix(a, pat) ==> HasPrefix(b, pat)
  {
    if HasPrefix(a, pat) {
      assert b[..|pat|] == a[..|pat|];
    }
  }

  lemma FreeCons(s: string, piece: string, pat: string)
    requires s != "" && piece != "" && piece <= s && !HasPrefix(s, pat) && !Within(piece[1..], pat)
    ensures !Within(piece, pat)
  {
    forall i | 0 <= i <= |piece| ensures !HasPrefix(piece[i..], pat) {
      if i == 0 {
        assert piece[0..] == piece;
        PrefixGrows(piece, s, pat);
      } else {
        assert piece[i..] == piece[1..][i - 1..];
      }
    }
  }

  /** Outside lakebase mode a migration runs as it is; in it with the role renamed, wherever it occurs. */
  lemma AdaptedText(migration: string)
    ensures Adapt(migration, false) == migration
    ensures Adapt(migration, true) == Join(Pieces(migration, "neon_superuser"), "databricks_superuser")
    ensures Join(Pieces(migration, "neon_superuser"), "neon_superuser") == migration
  {
    ReplaceIsJoin(migration, "neon_superuser", "databricks_superuser");
  }

  // ---------------------------------------------------------------- Success

  /** A run in which nothing fails succeeds. */
  lemma {:induction false} RunFromSucceeds(db: Db, list: seq<string>, lakebase: bool, i: nat, outcomes: seq<Outcome>)
    requires |outcomes| + i >= |list| && forall k :: 0 <= k < |outcomes| ==> outcomes[k] == Committed
    ensures RunFrom(db, list, lakebase, i, outcomes).1
    decreases |outcomes|
  {
    if i < |list| && outcomes != [] {
      RunFromSucceeds(Transact(db, list, lakebase, i, outcomes[0]), list, lakebase, i + 1, outcomes[1..]);
    }
  }

  lemma RunSucceeds(db: Db, run: RunSpec)
    requires run.faults.prepared == 5 && run.faults.prepareOk && run.faults.readOk
    requires |run.faults.outcomes| >= |run.list| && forall k :: 0 <= k < |run.faults.outcomes| ==> run.faults.outcomes[k] == Committed
    ensures RunOnce(db, run).1
  {
    var db1 := Prepared(db, run.faults);
    RunFromSucceeds(db1, run.list, run.lakebase, db1.row.value, run.faults.outcomes);
  }

  lemma {:induction false} RunFromKeepsRow(db: Db, list: seq<string>, lakebase: bool, i: nat, outcomes: seq<Outcome>)
    requires db.row.Some?
    ensures RunFrom(db, list, lakebase, i, outcomes).0.row.Some?
    decreases |outcomes|
  {
    if i < |list| && outcomes != [] && outcomes[0].Committed? {
      RunFromKeepsRow(Transact(db, list, lakebase, i, outcomes[0]), list, lakebase, i + 1, outcomes[1..]);
    }
  }

  /** A run leaves a stored id exactly when there was one or its third preparing statement took effect. */
  lemma StoredIdExists(db: Db, run: RunSpec)
    requires ValidFaults(run.faults)
    ensures RunOnce(db, run).0.row.Some? <==> db.row.Some? || run.faults.prepared >= 3
  {
    var db1 := Prepared(db, run.faults);
    if db1.row.Some? {
      RunFromKeepsRow(db1, run.list, run.lakebase, db1.row.value, run.faults.outcomes);
    }
  }
}
