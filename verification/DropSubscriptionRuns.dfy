/**
 Reachable states of the subscription protocol in which a promise is broken: tasks left behind by a
 run that failed, in either pass, and a rename onto a name that was cleared.
 */
module DropSubscriptionRuns {
  import opened Wrappers
  import opened DropSubscriptions
  import SpecApply

  lemma ReachNext(s: System, step: Step) returns (s': System)
    requires Reachable(s) && Next(s, step).Some?
    ensures s' == Next(s, step).value && Reachable(s')
  {
    s' := Next(s, step).value;
    var steps :| RunSteps(INITIAL, steps) == Some(s);
    RunSnoc(INITIAL, steps, step);
  }

  lemma ReachInitial()
    ensures Reachable(INITIAL)
  {
    assert RunSteps(INITIAL, []) == Some(INITIAL);
  }

  function ActAll(run: Run, st: Storage, steps: seq<Step>): Option<(Run, Storage)>
    decreases |steps|
  {
    if steps == [] then Some((run, st))
    else match ActAll(run, st, steps[..|steps| - 1])
         case None => None
         case Some((run', st')) => Act(run', st', steps[|steps| - 1])
  }

  ghost predicate AllOf(steps: seq<Step>, r: nat) {
    forall i :: 0 <= i < |steps| ==> OfRun(steps[i]) && steps[i].r == r
  }

  /** Run `r` can come from one point to another while nothing else happens. */
  ghost predicate Leads(r: nat, run: Run, st: Storage, run': Run, st': Storage) {
    exists steps: seq<Step> :: AllOf(steps, r) && ActAll(run, st, steps) == Some((run', st'))
  }

  lemma LeadsNowhere(r: nat, run: Run, st: Storage)
    ensures Leads(r, run, st, run, st)
  {
    assert AllOf([], r) && ActAll(run, st, []) == Some((run, st));
  }

  lemma LeadsOn(r: nat, run: Run, st: Storage, run1: Run, st1: Storage, step: Step, run2: Run, st2: Storage)
    requires Leads(r, run, st, run1, st1) && OfRun(step) && step.r == r && Act(run1, st1, step) == Some((run2, st2))
    ensures Leads(r, run, st, run2, st2)
  {
    var steps: seq<Step> :| AllOf(steps, r) && ActAll(run, st, steps) == Some((run1, st1));
    assert (steps + [step])[..|steps|] == steps;
    assert AllOf(steps + [step], r) && ActAll(run, st, steps + [step]) == Some((run2, st2));
  }

  lemma ReachAct(s: System, r: nat, step: Step, run': Run, st': Storage)
    requires Reachable(s) && r in s.runs && s.runs[r].timeline in s.stores && OfRun(step) && step.r == r
    requires Act(s.runs[r], s.stores[s.runs[r].timeline], step) == Some((run', st'))
    ensures Reachable(WithRun(WithStore(s, s.runs[r].timeline, st'), r, run'))
  {
    var s' := ReachNext(s, step);
  }

  lemma {:induction false} ReachActs(s: System, r: nat, steps: seq<Step>)
    requires Reachable(s) && r in s.runs && s.runs[r].timeline in s.stores && AllOf(steps, r)
    requires ActAll(s.runs[r], s.stores[s.runs[r].timeline], steps).Some?
    ensures var (run', st') := ActAll(s.runs[r], s.stores[s.runs[r].timeline], steps).value;
            Reachable(WithRun(WithStore(s, s.runs[r].timeline, st'), r, run')) && run'.timeline == s.runs[r].timeline
  {
    var t := s.runs[r].timeline;
    if steps == [] {
      assert WithRun(WithStore(s, t, s.stores[t]), r, s.runs[r]) == s;
    } else {
      var k := |steps| - 1;
      ReachActs(s, r, steps[..k]);
      var (run1, st1) := ActAll(s.runs[r], s.stores[t], steps[..k]).value;
      var (run2, st2) := Act(run1, st1, steps[k]).value;
      var s1 := WithRun(WithStore(s, t, st1), r, run1);
      ReachAct(s1, r, steps[k], run2, st2);
      assert WithRun(WithStore(s1, t, st2), r, run2) == WithRun(WithStore(s, t, st2), r, run2);
      ActRecords(run1, st1, steps[k]);
    }
  }

  lemma ReachLeads(s: System, r: nat, run': Run, st': Storage)
    requires Reachable(s) && r in s.runs && s.runs[r].timeline in s.stores
    requires Leads(r, s.runs[r], s.stores[s.runs[r].timeline], run', st')
    ensures Reachable(WithRun(WithStore(s, s.runs[r].timeline, st'), r, run'))
  {
    var steps: seq<Step> :| AllOf(steps, r) && ActAll(s.runs[r], s.stores[s.runs[r].timeline], steps) == Some((run', st'));
    ReachActs(s, r, steps);
  }

  function Begun(listed: seq<string>, deltas: seq<SpecApply.DeltaOp>): Run {
    Run(1, true, listed, deltas, false, 0, NO_TASKS, NO_TASKS, Started)
  }

  /** A new run on timeline 1 comes to some point. */
  lemma ReachRun(s: System, r: nat, listed: seq<string>, deltas: seq<SpecApply.DeltaOp>, run': Run, st': Storage)
    requires Reachable(s) && 1 in s.stores && r !in s.runs && !Busy(s, 1)
    requires Leads(r, Begun(listed, deltas), s.stores[1], run', st')
    ensures Reachable(WithRun(WithStore(s, 1, st'), r, run'))
  {
    var s1 := ReachNext(s, Begin(r, 1, true, listed, deltas));
    ReachLeads(s1, r, run', st');
    assert WithRun(WithStore(s1, 1, st'), r, run') == WithRun(WithStore(s, 1, st'), r, run');
  }

  // ---------------------------------------------------------------- Points of the example runs

  /** Databases "a" and "b" as the mirror has them. */
  function Both(): SpecApply.Mirror {
    map["a" := SpecApply.Database("a", "owner", false, false), "b" := SpecApply.Database("b", "owner", false, false)]
  }

  lemma BothAccessible()
    ensures Accessible(Both()) == {"a", "b"}
  {}

  function Tasks(names: seq<string>, drops: bool, pending: set<nat>, dropped: set<nat>, failed: set<nat>): Batch {
    Batch(names, {"a", "b"}, drops, pending, dropped, failed)
  }

  /** A run that has asked, with the delete tasks given. */
  function Asked(listed: seq<string>, deltas: seq<SpecApply.DeltaOp>, addDrop: bool, pre: Batch, pc: RunPc): Run {
    Run(1, true, listed, deltas, addDrop, 0, pre, NO_TASKS, pc)
  }

  lemma LeadsCheck(r: nat, run0: Run, st0: Storage, run: Run, st: Storage)
    requires Leads(r, run0, st0, run, st) && run.pc == Started
    ensures Leads(r, run0, st0, run.(addDrop := run.flag && st.done != Some(run.timeline), pc := Checked), st)
  {
    LeadsOn(r, run0, st0, run, st, Check(r), run.(addDrop := run.flag && st.done != Some(run.timeline), pc := Checked), st);
  }

  lemma LeadsPreSpawn(r: nat, run0: Run, st0: Storage, run: Run, st: Storage)
    requires Leads(r, run0, st0, run, st) && run.pc == Checked
    ensures var names := Deletes(run.deltas);
            Leads(r, run0, st0, run.(pre := Tasks(names, true, Indexes(|names|), {}, {}), pc := PreDropping), st)
  {
    BothAccessible();
    var names := Deletes(run.deltas);
    LeadsOn(r, run0, st0, run, st, PreSpawn(r, Both()),
            run.(pre := Tasks(names, true, Indexes(|names|), {}, {}), pc := PreDropping), st);
  }

  lemma LeadsPreAwait(r: nat, run0: Run, st0: Storage, run: Run, st: Storage)
    requires Leads(r, run0, st0, run, st) && run.pc == PreDropping && run.pre.pending == run.pre.failed == {}
    ensures Leads(r, run0, st0, run.(pc := Changing), st)
  {
    LeadsOn(r, run0, st0, run, st, PreAwait(r), run.(pc := Changing), st);
  }

  lemma LeadsDelta(r: nat, run0: Run, st0: Storage, run: Run, st: Storage, st': Storage)
    requires Leads(r, run0, st0, run, st) && run.pc == Changing && run.next < |run.deltas|
    requires Change(st, run.deltas[run.next]) == Some(st')
    ensures Leads(r, run0, st0, run.(next := run.next + 1), st')
  {
    LeadsOn(r, run0, st0, run, st, ExecDelta(r), run.(next := run.next + 1), st');
  }

  lemma LeadsSpawn(r: nat, run0: Run, st0: Storage, run: Run, st: Storage)
    requires Leads(r, run0, st0, run, st) && run.pc == Changing && run.next >= |run.deltas|
    ensures Leads(r, run0, st0, run.(main := Tasks(run.listed, run.addDrop, Indexes(|run.listed| + 1), {}, {}), pc := InDatabases), st)
  {
    BothAccessible();
    LeadsOn(r, run0, st0, run, st, Spawn(r, Both()),
            run.(main := Tasks(run.listed, run.addDrop, Indexes(|run.listed| + 1), {}, {}), pc := InDatabases), st);
  }

  lemma LeadsTask(r: nat, run0: Run, st0: Storage, run: Run, st: Storage, pass: Pass, i: nat, b: Batch)
    requires Leads(r, run0, st0, run, st) && CanDrop(BatchOf(run, pass), i, st) && b == EndedTask(BatchOf(run, pass), i, true)
    ensures Leads(r, run0, st0, WithBatch(run, pass, b), AfterDrop(BatchOf(run, pass), i, st))
  {
    LeadsOn(r, run0, st0, run, st, Task(r, pass, i), WithBatch(run, pass, b), AfterDrop(BatchOf(run, pass), i, st));
  }

  lemma LeadsTaskFails(r: nat, run0: Run, st0: Storage, run: Run, st: Storage, pass: Pass, i: nat, b: Batch)
    requires Leads(r, run0, st0, run, st) && i in BatchOf(run, pass).pending && b == EndedTask(BatchOf(run, pass), i, false)
    ensures Leads(r, run0, st0, WithBatch(run, pass, b), st)
  {
    LeadsOn(r, run0, st0, run, st, TaskFails(r, pass, i, false), WithBatch(run, pass, b), st);
  }

  lemma LeadsFailAt(r: nat, run0: Run, st0: Storage, run: Run, st: Storage, pass: Pass, i: nat)
    requires Leads(r, run0, st0, run, st) && FailsAt(BatchOf(run, pass), i)
    requires run.pc == if pass.Pre? then PreDropping else InDatabases
    ensures Leads(r, run0, st0, run.(pc := Failed), st)
  {
    LeadsOn(r, run0, st0, run, st, FailAt(r, pass, i), run.(pc := Failed), st);
  }

  lemma LeadsAwait(r: nat, run0: Run, st0: Storage, run: Run, st: Storage)
    requires Leads(r, run0, st0, run, st) && run.pc == InDatabases && run.main.pending == run.main.failed == {}
    ensures Leads(r, run0, st0, run.(pc := Awaited), st)
  {
    LeadsOn(r, run0, st0, run, st, Await(r), run.(pc := Awaited), st);
  }

  lemma LeadsFinalize(r: nat, run0: Run, st0: Storage, run: Run, st: Storage)
    requires Leads(r, run0, st0, run, st) && run.pc == Awaited
    ensures Leads(r, run0, st0, run.(pc := Finished), if run.addDrop then st.(done := Some(run.timeline)) else st)
  {
    LeadsOn(r, run0, st0, run, st, Finalize(r), run.(pc := Finished), if run.addDrop then st.(done := Some(run.timeline)) else st);
  }

  /** Databases that do not exist do not hold up the run that is to delete them. */
  lemma {:induction false} MissingDatabasesPass(r: nat, run0: Run, st0: Storage, run: Run, st: Storage)
    requires Leads(r, run0, st0, run, st) && run.pc == PreDropping && run.pre.failed == {}
    ensures Leads(r, run0, st0, run.(pre := run.pre.(pending := {}), pc := Changing), st)
    decreases |run.pre.pending|
  {
    if run.pre.pending == {} {
      LeadsPreAwait(r, run0, st0, run, st);
    } else {
      var i :| i in run.pre.pending;
      var run1 := run.(pre := run.pre.(pending := run.pre.pending - {i}));
      LeadsOn(r, run0, st0, run, st, TaskMissing(r, i), run1, st);
      MissingDatabasesPass(r, run0, st0, run1, st);
    }
  }

  lemma LeadsToPreTasks(r: nat, st: Storage, listed: seq<string>, deltas: seq<SpecApply.DeltaOp>)
    ensures Leads(r, Begun(listed, deltas), st,
                  Asked(listed, deltas, st.done != Some(1), Tasks(Deletes(deltas), true, Indexes(|Deletes(deltas)|), {}, {}), PreDropping), st)
  {
    var run0 := Begun(listed, deltas);
    LeadsNowhere(r, run0, st);
    LeadsCheck(r, run0, st, run0, st);
    LeadsPreSpawn(r, run0, st, Asked(listed, deltas, st.done != Some(1), NO_TASKS, Checked), st);
  }

  /** A run without delta operations that has spawned its tasks. */
  function Spawned(listed: seq<string>, addDrop: bool, pending: set<nat>, dropped: set<nat>, failed: set<nat>, pc: RunPc): Run {
    Run(1, true, listed, [], addDrop, 0, Tasks([], true, {}, {}, {}), Tasks(listed, addDrop, pending, dropped, failed), pc)
  }

  lemma LeadsToTasks(r: nat, st: Storage, listed: seq<string>)
    ensures Leads(r, Begun(listed, []), st, Spawned(listed, st.done != Some(1), Indexes(|listed| + 1), {}, {}, InDatabases), st)
  {
    var run0, d := Begun(listed, []), st.done != Some(1);
    LeadsToPreTasks(r, st, listed, []);
    assert Indexes(0) == {};
    var run1 := Asked(listed, [], d, Tasks([], true, {}, {}, {}), PreDropping);
    LeadsPreAwait(r, run0, st, run1, st);
    LeadsSpawn(r, run0, st, run1.(pc := Changing), st);
  }

  // ---------------------------------------------------------------- A task left behind

  const PLAIN := Storage(None, {"a", "b"}, map[], {}, {}, {})

  function BothCleared(): Storage {
    Cleared(Cleared(PLAIN, "a"), "b")
  }

  function Recorded(): Storage {
    BothCleared().(done := Some(1))
  }

  /** A run over both databases, with its tasks as given. */
  function Over(pending: set<nat>, dropped: set<nat>, failed: set<nat>, pc: RunPc): Run {
    Spawned(["a", "b"], true, pending, dropped, failed, pc)
  }

  lemma LeadsToBothTasks(r: nat)
    ensures Leads(r, Begun(["a", "b"], []), PLAIN, Over({0, 1, 2}, {}, {}, InDatabases), PLAIN)
  {
    LeadsToTasks(r, PLAIN, ["a", "b"]);
    assert Indexes(3) == {0, 1, 2};
  }

  lemma LeadsToFailure(r: nat)
    ensures Leads(r, Begun(["a", "b"], []), PLAIN, Over({1, 2}, {}, {0}, Failed), PLAIN)
  {
    var run0, run1, run2 := Begun(["a", "b"], []), Over({0, 1, 2}, {}, {}, InDatabases), Over({1, 2}, {}, {0}, InDatabases);
    LeadsToBothTasks(r);
    assert EndedTask(run1.main, 0, false) == run2.main;
    LeadsTaskFails(r, run0, PLAIN, run1, PLAIN, Main, 0, run2.main);
    LeadsFailAt(r, run0, PLAIN, run2, PLAIN, Main, 0);
  }

  lemma LeadsToDrops(r: nat)
    ensures Leads(r, Begun(["a", "b"], []), PLAIN, Over({2}, {0, 1}, {}, InDatabases), BothCleared())
  {
    var run0, run1 := Begun(["a", "b"], []), Over({0, 1, 2}, {}, {}, InDatabases);
    var run2, run3 := Over({1, 2}, {0}, {}, InDatabases), Over({2}, {0, 1}, {}, InDatabases);
    LeadsToBothTasks(r);
    assert EndedTask(run1.main, 0, true) == run2.main && EndedTask(run2.main, 1, true) == run3.main;
    LeadsTask(r, run0, PLAIN, run1, PLAIN, Main, 0, run2.main);
    LeadsTask(r, run0, PLAIN, run2, Cleared(PLAIN, "a"), Main, 1, run3.main);
  }

  /** A run over both databases drops, and records the timeline. */
  lemma LeadsToRecord(r: nat)
    ensures Leads(r, Begun(["a", "b"], []), PLAIN, Over({}, {0, 1}, {}, Finished), Recorded())
  {
    var run0, st := Begun(["a", "b"], []), BothCleared();
    var run1, run2 := Over({2}, {0, 1}, {}, InDatabases), Over({}, {0, 1}, {}, InDatabases);
    LeadsToDrops(r);
    assert EndedTask(run1.main, 2, true) == run2.main;
    LeadsTask(r, run0, PLAIN, run1, st, Main, 2, run2.main);
    LeadsAwait(r, run0, PLAIN, run2, st);
    LeadsFinalize(r, run0, PLAIN, run2.(pc := Awaited), st);
  }

  lemma ReachTouch(s: System, step: Step, st: Storage)
    requires Reachable(s) && OnDatabase(step) && step.t in s.stores && Touch(s.stores[step.t], step, s.nextSub) == Some(st)
    ensures Reachable(WithStore(s, step.t, st).(nextSub := if step.UserCreate? then s.nextSub + 1 else s.nextSub))
  {
    var s' := ReachNext(s, step);
  }

  function Branched(done: Option<Timeline>, dbs: set<string>, subs: map<string, set<Sub>>): Storage {
    Storage(done, dbs, subs, AllSubs(subs), {}, {})
  }

  lemma ReachBranch(s: System, t: Timeline, dbs: set<string>, subs: map<string, set<Sub>>)
    requires Reachable(s) && t !in s.stores && (forall x :: x in AllSubs(subs) ==> x < s.nextSub)
    requires forall db :: db in subs ==> db in dbs
    ensures Reachable(WithStore(s, t, Branched(None, dbs, subs)))
  {
    var s' := ReachNext(s, Branch(t, None, dbs, subs));
  }

  lemma ReachPlain()
    ensures Reachable(System(map[1 := PLAIN], map[], 0))
  {
    ReachInitial();
    assert AllSubs(map[]) == {};
    ReachBranch(INITIAL, 1, {"a", "b"}, map[]);
  }

  lemma ReachFailure()
    ensures Reachable(System(map[1 := PLAIN], map[0 := Over({1, 2}, {}, {0}, Failed)], 0))
  {
    ReachPlain();
    LeadsToFailure(0);
    var s := System(map[1 := PLAIN], map[], 0);
    ReachRun(s, 0, ["a", "b"], [], Over({1, 2}, {}, {0}, Failed), PLAIN);
    assert WithRun(WithStore(s, 1, PLAIN), 0, Over({1, 2}, {}, {0}, Failed))
        == System(map[1 := PLAIN], map[0 := Over({1, 2}, {}, {0}, Failed)], 0);
  }

  /** The task of the first database fails, the run fails at its await, and a retry records the timeline. */
  lemma RetryRecords() returns (s: System)
    ensures Reachable(s) && s.stores == map[1 := Recorded()] && s.nextSub == 0
    ensures 0 in s.runs && s.runs[0] == Over({1, 2}, {}, {0}, Failed)
  {
    ReachFailure();
    LeadsToRecord(1);
    s := System(map[1 := PLAIN], map[0 := Over({1, 2}, {}, {0}, Failed)], 0);
    ReachRun(s, 1, ["a", "b"], [], Over({}, {0, 1}, {}, Finished), Recorded());
    s := WithRun(WithStore(s, 1, Recorded()), 1, Over({}, {0, 1}, {}, Finished));
  }

  /** A user creates a subscription in "b" on the recorded timeline. */
  lemma UserCreates(s: System) returns (s': System)
    requires Reachable(s) && 1 in s.stores && s.stores[1].done == Some(1) && s.nextSub == 0
    requires "b" in s.stores[1].dbs && SubsOf(s.stores[1], "b") == {}
    ensures Reachable(s') && s'.runs == s.runs && 1 in s'.stores && s'.stores[1].done == Some(1)
    ensures "b" in s'.stores[1].dbs && SubsOf(s'.stores[1], "b") == {0}
  {
    var st := s.stores[1].(subs := s.stores[1].subs["b" := SubsOf(s.stores[1], "b") + {0}]);
    ReachTouch(s, UserCreate(1, "b"), st);
    s' := WithStore(s, 1, st).(nextSub := 1);
  }

  /** The task left behind drops a subscription created after the retry recorded the timeline. */
  lemma AbandonedTaskDropsNewSubscription() returns (s: System)
    ensures Reachable(s) && 1 in s.stores && s.stores[1].done == Some(1) && SubsOf(s.stores[1], "b") == {0}
    ensures Next(s, Task(0, Main, 1)).Some? && 1 in Next(s, Task(0, Main, 1)).value.stores
    ensures SubsOf(Next(s, Task(0, Main, 1)).value.stores[1], "b") == {}
  {
    s := RetryRecords();
    s := UserCreates(s);
    TaskClears(s, 0, Main, 1, "b");
  }

  // ---------------------------------------------------------------- A task left behind before a delete

  function DeleteBoth(): seq<SpecApply.DeltaOp> {
    [SpecApply.DeltaOp("delete_db", "a", None), SpecApply.DeltaOp("delete_db", "b", None)]
  }

  lemma DeletesBoth()
    ensures Deletes(DeleteBoth()) == ["a", "b"] && Indexes(2) == {0, 1}
  {
    var d := DeleteBoth();
    assert d[..1] == [d[0]] && [d[0]][..0] == [];
    assert Deletes([d[0]]) == ["a"];
  }

  /** A run on the recorded timeline that is to delete both databases and lists the second. */
  function Deleting(pending: set<nat>, dropped: set<nat>, failed: set<nat>, pc: RunPc): Run {
    Asked(["b"], DeleteBoth(), false, Tasks(["a", "b"], true, pending, dropped, failed), pc)
  }

  lemma LeadsToDeleteTasks(r: nat)
    ensures Leads(r, Begun(["b"], DeleteBoth()), Recorded(), Deleting({0, 1}, {}, {}, PreDropping), Recorded())
  {
    DeletesBoth();
    LeadsToPreTasks(r, Recorded(), ["b"], DeleteBoth());
  }

  lemma LeadsToDeleteFailure(r: nat)
    ensures Leads(r, Begun(["b"], DeleteBoth()), Recorded(), Deleting({1}, {}, {0}, Failed), Recorded())
  {
    var run0, st := Begun(["b"], DeleteBoth()), Recorded();
    var run1, run2 := Deleting({0, 1}, {}, {}, PreDropping), Deleting({1}, {}, {0}, PreDropping);
    LeadsToDeleteTasks(r);
    assert EndedTask(run1.pre, 0, false) == run2.pre;
    LeadsTaskFails(r, run0, st, run1, st, Pre, 0, run2.pre);
    LeadsFailAt(r, run0, st, run2, st, Pre, 0);
  }

  lemma ClearedAgain()
    ensures Cleared(Recorded(), "a") == Recorded() && Cleared(Recorded(), "b") == Recorded()
  {}

  lemma LeadsToChanging(r: nat)
    ensures Leads(r, Begun(["b"], DeleteBoth()), Recorded(), Deleting({}, {0, 1}, {}, Changing), Recorded())
  {
    var run0, st, run1 := Begun(["b"], DeleteBoth()), Recorded(), Deleting({0, 1}, {}, {}, PreDropping);
    var run2, run3 := Deleting({1}, {0}, {}, PreDropping), Deleting({}, {0, 1}, {}, PreDropping);
    LeadsToDeleteTasks(r);
    ClearedAgain();
    assert EndedTask(run1.pre, 0, true) == run2.pre && EndedTask(run2.pre, 1, true) == run3.pre;
    LeadsTask(r, run0, st, run1, st, Pre, 0, run2.pre);
    LeadsTask(r, run0, st, run2, st, Pre, 1, run3.pre);
    LeadsPreAwait(r, run0, st, run3, st);
  }

  lemma DropsBoth()
    ensures Dropped(Recorded(), "a") == Some(Recorded().(dbs := {"b"}))
    ensures Dropped(Recorded().(dbs := {"b"}), "b") == Some(Recorded().(dbs := {}))
  {
    var st := Recorded();
    assert st.dbs - {"a"} == {"b"} && {"b"} - {"b"} == {};
    assert st.brought - {"a"} == st.brought && st.brought - {"b"} == st.brought;
  }

  /** It deletes both databases. */
  lemma LeadsToDeletes(r: nat)
    ensures Leads(r, Begun(["b"], DeleteBoth()), Recorded(),
                  Deleting({}, {0, 1}, {}, Changing).(next := 2), Recorded().(dbs := {}))
  {
    var run0, st, run1 := Begun(["b"], DeleteBoth()), Recorded(), Deleting({}, {0, 1}, {}, Changing);
    LeadsToChanging(r);
    DropsBoth();
    LeadsDelta(r, run0, st, run1, st, st.(dbs := {"b"}));
    LeadsDelta(r, run0, st, run1.(next := 1), st.(dbs := {"b"}), st.(dbs := {}));
  }

  function Listing(pending: set<nat>, pc: RunPc): Run {
    Deleting({}, {0, 1}, {}, pc).(next := 2, main := Tasks(["b"], false, pending, {}, {}))
  }

  lemma LeadsToListing(r: nat, st: Storage)
    ensures Leads(r, Deleting({}, {0, 1}, {}, Changing).(next := 2), st, Listing({0, 1}, InDatabases), st)
  {
    var run0 := Deleting({}, {0, 1}, {}, Changing).(next := 2);
    LeadsNowhere(r, run0, st);
    DeletesBoth();
    LeadsSpawn(r, run0, st, run0, st);
  }

  /** With the second database created anew it comes to its end. */
  lemma LeadsToEnd(r: nat, st: Storage)
    ensures Leads(r, Deleting({}, {0, 1}, {}, Changing).(next := 2), st, Listing({}, Finished), st)
  {
    var run0 := Deleting({}, {0, 1}, {}, Changing).(next := 2);
    var run1, run2, run3 := Listing({0, 1}, InDatabases), Listing({1}, InDatabases), Listing({}, InDatabases);
    LeadsToListing(r, st);
    assert EndedTask(run1.main, 0, true) == run2.main && EndedTask(run2.main, 1, true) == run3.main;
    LeadsTask(r, run0, st, run1, st, Main, 0, run2.main);
    LeadsTask(r, run0, st, run2, st, Main, 1, run3.main);
    LeadsAwait(r, run0, st, run3, st);
    LeadsFinalize(r, run0, st, run3.(pc := Awaited), st);
  }

  function Runs(first: Run, second: Run): map<nat, Run> {
    map[0 := first, 1 := second]
  }

  lemma FirstRecords()
    ensures Reachable(System(map[1 := Recorded()], map[0 := Over({}, {0, 1}, {}, Finished)], 0))
  {
    ReachPlain();
    LeadsToRecord(0);
    var s := System(map[1 := PLAIN], map[], 0);
    ReachRun(s, 0, ["a", "b"], [], Over({}, {0, 1}, {}, Finished), Recorded());
    assert WithRun(WithStore(s, 1, Recorded()), 0, Over({}, {0, 1}, {}, Finished))
        == System(map[1 := Recorded()], map[0 := Over({}, {0, 1}, {}, Finished)], 0);
  }

  /** A first run records the timeline; the next fails at its first delete task and leaves the second. */
  lemma DeletingRunFails()
    ensures Reachable(System(map[1 := Recorded()], Runs(Over({}, {0, 1}, {}, Finished), Deleting({1}, {}, {0}, Failed)), 0))
  {
    FirstRecords();
    LeadsToDeleteFailure(1);
    var s := System(map[1 := Recorded()], map[0 := Over({}, {0, 1}, {}, Finished)], 0);
    ReachRun(s, 1, ["b"], DeleteBoth(), Deleting({1}, {}, {0}, Failed), Recorded());
    assert WithRun(WithStore(s, 1, Recorded()), 1, Deleting({1}, {}, {0}, Failed))
        == System(map[1 := Recorded()], Runs(Over({}, {0, 1}, {}, Finished), Deleting({1}, {}, {0}, Failed)), 0);
  }

  /** The record, and the task left behind by run 1, while run 2 is where it is. */
  ghost predicate TaskLeft(s: System, dbs: set<string>, run: Run) {
    && Reachable(s) && s.stores == map[1 := Recorded().(dbs := dbs)] && s.nextSub == 0
    && 1 in s.runs && s.runs[1] == Deleting({1}, {}, {0}, Failed) && 2 in s.runs && s.runs[2] == run
  }

  lemma RetryDeletes() returns (s: System)
    ensures TaskLeft(s, {}, Deleting({}, {0, 1}, {}, Changing).(next := 2))
  {
    DeletingRunFails();
    LeadsToDeletes(2);
    var run, st := Deleting({}, {0, 1}, {}, Changing).(next := 2), Recorded().(dbs := {});
    s := System(map[1 := Recorded()], Runs(Over({}, {0, 1}, {}, Finished), Deleting({1}, {}, {0}, Failed)), 0);
    ReachRun(s, 2, ["b"], DeleteBoth(), run, st);
    s := WithRun(WithStore(s, 1, st), 2, run);
  }

  /** The retry deletes both databases, and the second one, which it lists, is created anew. */
  lemma RetryRecreates() returns (s: System)
    ensures TaskLeft(s, {"b"}, Deleting({}, {0, 1}, {}, Changing).(next := 2))
  {
    s := RetryDeletes();
    var st := Recorded().(dbs := {"b"});
    assert {} + {"b"} == {"b"};
    ReachTouch(s, CreateDatabase(1, "b"), st);
    s := WithStore(s, 1, st).(nextSub := 0);
  }

  /** The retry ends well. */
  lemma RetryFinishes() returns (s: System)
    ensures TaskLeft(s, {"b"}, Listing({}, Finished))
  {
    s := RetryRecreates();
    var st := Recorded().(dbs := {"b"});
    LeadsToEnd(2, st);
    ReachLeads(s, 2, Listing({}, Finished), st);
    s := WithRun(WithStore(s, 1, st), 2, Listing({}, Finished));
  }

  /** The task left behind by the failed delete drops a subscription of the database created anew. */
  lemma AbandonedDeleteDropsNewSubscription() returns (s: System)
    ensures Reachable(s) && 1 in s.stores && s.stores[1].done == Some(1) && SubsOf(s.stores[1], "b") == {0}
    ensures 2 in s.runs && s.runs[2].pc == Finished
    ensures Next(s, Task(1, Pre, 1)).Some? && 1 in Next(s, Task(1, Pre, 1)).value.stores
    ensures SubsOf(Next(s, Task(1, Pre, 1)).value.stores[1], "b") == {}
  {
    s := RetryFinishes();
    s := UserCreates(s);
    TaskClears(s, 1, Pre, 1, "b");
  }

  // ---------------------------------------------------------------- A rename onto a cleared name

  /** A timeline that inherits a subscription in a database "u", which the run does not list. */
  function Inheriting(): Storage {
    Storage(None, {"a", "u"}, map["u" := {0}], {0}, {}, {})
  }

  lemma ReachParent()
    ensures Reachable(System(map[0 := Storage(None, {"u"}, map["u" := {0}], {}, {}, {})], map[], 1))
  {
    ReachInitial();
    assert AllSubs(map[]) == {};
    ReachBranch(INITIAL, 0, {"u"}, map[]);
    ReachUsed(WithStore(INITIAL, 0, Branched(None, {"u"}, map[])));
  }

  /** A user creates a first subscription. */
  lemma FirstSub(st: Storage, db: string)
    requires db in st.dbs && st.subs == map[]
    ensures Touch(st, UserCreate(0, db), 0) == Some(st.(subs := map[db := {0}]))
  {
    assert SubsOf(st, db) + {0} == {0};
    assert st.subs[db := {0}] == map[db := {0}];
  }

  lemma ReachUsed(s: System)
    requires Reachable(s) && s.stores == map[0 := Storage(None, {"u"}, map[], {}, {}, {})] && s.runs == map[] && s.nextSub == 0
    ensures Reachable(System(map[0 := Storage(None, {"u"}, map["u" := {0}], {}, {}, {})], map[], 1))
  {
    var st' := s.stores[0].(subs := map["u" := {0}]);
    FirstSub(s.stores[0], "u");
    ReachTouch(s, UserCreate(0, "u"), st');
    assert WithStore(s, 0, st').(nextSub := 1) == System(map[0 := st'], map[], 1);
  }

  lemma InheritedSubs()
    ensures AllSubs(map["u" := {0}]) == {0}
  {
    var subs: map<string, set<Sub>> := map["u" := {0}];
    assert 0 in subs["u"];
  }

  lemma ReachInheriting() returns (s: System)
    ensures Reachable(s) && s.runs == map[] && 1 in s.stores && s.stores[1] == Inheriting()
  {
    ReachParent();
    InheritedSubs();
    s := System(map[0 := Storage(None, {"u"}, map["u" := {0}], {}, {}, {})], map[], 1);
    ReachBranch(s, 1, {"a", "u"}, map["u" := {0}]);
    s := WithStore(s, 1, Inheriting());
  }

  lemma LeadsToCover(r: nat)
    ensures Leads(r, Begun(["a"], []), Inheriting(), Spawned(["a"], true, {}, {0}, {}, Awaited), Cleared(Inheriting(), "a"))
  {
    var run0, st, st1 := Begun(["a"], []), Inheriting(), Cleared(Inheriting(), "a");
    var run1 := Spawned(["a"], true, {0, 1}, {}, {}, InDatabases);
    var run2, run3 := Spawned(["a"], true, {1}, {0}, {}, InDatabases), Spawned(["a"], true, {}, {0}, {}, InDatabases);
    LeadsToTasks(r, st, ["a"]);
    assert Indexes(2) == {0, 1};
    assert EndedTask(run1.main, 0, true) == run2.main && EndedTask(run2.main, 1, true) == run3.main;
    LeadsTask(r, run0, st, run1, st, Main, 0, run2.main);
    LeadsTask(r, run0, st, run2, st1, Main, 1, run3.main);
    LeadsAwait(r, run0, st, run3, st1);
  }

  lemma CoversA() returns (s: System)
    ensures Reachable(s) && 1 in s.stores && s.stores[1] == Cleared(Inheriting(), "a")
    ensures 0 in s.runs && s.runs[0] == Spawned(["a"], true, {}, {0}, {}, Awaited) && "a" in Targets(s.runs[0])
  {
    s := ReachInheriting();
    LeadsToCover(0);
    var run := Spawned(["a"], true, {}, {0}, {}, Awaited);
    ReachRun(s, 0, ["a"], [], run, Cleared(Inheriting(), "a"));
    s := WithRun(WithStore(s, 1, Cleared(Inheriting(), "a")), 0, run);
    assert run.main.names[0] == "a" && "a" in run.main.accessible;
  }

  /** The covered database is dropped and the other one takes its name. */
  function Replaced(): Storage {
    Storage(Some(1), {"a"}, map["a" := {0}, "u" := {}], {0}, {"a"}, {"a"})
  }

  lemma ReplaceA(st: Storage)
    requires st == Cleared(Inheriting(), "a").(done := Some(1))
    ensures Dropped(st, "a") == Some(st.(dbs := {"u"})) && Renamed(st.(dbs := {"u"}), "u", "a") == Some(Replaced())
  {
    assert {"a", "u"} - {"a"} == {"u"} && {"u"} - {"u"} + {"a"} == {"a"};
    assert st.brought - {"a"} == st.brought == {} && {} + {"a"} == {"a"};
    assert st.subs["u" := {}]["a" := {0}] == map["a" := {0}, "u" := {}];
  }

  lemma ReachReplaced(s: System)
    requires Reachable(s) && 1 in s.stores && s.stores[1] == Cleared(Inheriting(), "a").(done := Some(1))
    ensures Reachable(WithStore(s, 1, Replaced()))
  {
    var st := s.stores[1];
    ReplaceA(st);
    ReachTouch(s, DropDatabase(1, "a"), st.(dbs := {"u"}));
    var s' := WithStore(s, 1, st.(dbs := {"u"})).(nextSub := s.nextSub);
    ReachTouch(s', RenameDatabase(1, "u", "a"), Replaced());
    assert WithStore(s', 1, Replaced()).(nextSub := s.nextSub) == WithStore(s, 1, Replaced());
  }

  /** After the finalisation a rename brings the inherited subscription to the covered name. */
  lemma RenameBringsInherited() returns (s: System, e: System)
    ensures Reachable(s) && 0 in s.runs && s.runs[0].timeline == 1 && "a" in Targets(s.runs[0])
    ensures Next(s, Finalize(0)).Some? && Reachable(e) && 1 in e.stores && e.stores[1].done == Some(1)
    ensures 1 in s.stores && SubsOf(e.stores[1], "a") == s.stores[1].inherited == {0}
  {
    s := CoversA();
    var st := Cleared(Inheriting(), "a").(done := Some(1));
    var run := Spawned(["a"], true, {}, {0}, {}, Finished);
    ReachAct(s, 0, Finalize(0), run, st);
    e := WithRun(WithStore(s, 1, st), 0, run);
    ReachReplaced(e);
    e := WithStore(e, 1, Replaced());
  }
}
