/**
 The "drop subscriptions once per timeline" protocol. A run of the spec application asks the
 database whether the drop was already done on its timeline. It drops the subscriptions of every
 database it is about to delete, one task each, executes its delta operations, then spawns one task
 per listed database and one for the system database, and records the timeline as done after all of
 them. Both batches of tasks are awaited in order; a run that fails at an await leaves the tasks it
 has not awaited running until the process dies. Runs may fail or crash at any point, and users
 create, drop and rename databases and subscriptions in between.
 */
module DropSubscriptions {
  import opened Wrappers
  import SpecApply
  import SpecConvergence

  type Timeline = nat
  type Sub = nat

  /**
   What one timeline stores: the drop_subscriptions_done row, its databases, and the subscriptions by
   database. The rest is history: which subscriptions came with the branch, which databases have
   been cleared by a drop, and onto which names a database was renamed since their last drop.
   */
  datatype Storage = Storage(done: Option<Timeline>, dbs: set<string>, subs: map<string, set<Sub>>,
                             inherited: set<Sub>, cleared: set<string>, brought: set<string>)

  datatype RunPc = Started | Checked | PreDropping | Changing | InDatabases | Awaited | Finished | Failed

  /** The tasks of one pass: those still running, those that dropped and ended well, those that failed. */
  datatype Batch = Batch(names: seq<string>, accessible: set<string>, drops: bool,
                         pending: set<nat>, dropped: set<nat>, failed: set<nat>)

  const NO_TASKS := Batch([], {}, false, {}, {}, {})

  /** Before the delta operations, and in each listed database. */
  datatype Pass = Pre | Main

  /** One call of `apply_spec_sql`; `next` counts the delta operations executed. */
  datatype Run = Run(timeline: Timeline, flag: bool, listed: seq<string>, deltas: seq<SpecApply.DeltaOp>,
                     addDrop: bool, next: nat, pre: Batch, main: Batch, pc: RunPc)

  datatype System = System(stores: map<Timeline, Storage>, runs: map<nat, Run>, nextSub: Sub)

  datatype Step =
    | Branch(t: Timeline, done: Option<Timeline>, dbs: set<string>, subs: map<string, set<Sub>>)
    | Begin(r: nat, t: Timeline, flag: bool, listed: seq<string>, deltas: seq<SpecApply.DeltaOp>)
    | Check(r: nat)
    | PreSpawn(r: nat, mirror: SpecApply.Mirror)
    | PreAwait(r: nat)
    | ExecDelta(r: nat)
    | Spawn(r: nat, mirror: SpecApply.Mirror)
    | Await(r: nat)
    | Finalize(r: nat)
    | Task(r: nat, pass: Pass, i: nat)
    | TaskFails(r: nat, pass: Pass, i: nat, effect: bool)
    | TaskMissing(r: nat, i: nat)
    | Fail(r: nat)
    | FailAt(r: nat, pass: Pass, i: nat)
    | Crash(t: Timeline)
    | CreateDatabase(t: Timeline, db: string)
    | DropDatabase(t: Timeline, db: string)
    | RenameDatabase(t: Timeline, db: string, newName: string)
    | UserCreate(t: Timeline, db: string)
    | UserDrop(t: Timeline, db: string, sub: Sub)

  // ---------------------------------------------------------------- Databases

  function SubsOf(st: Storage, db: string): set<Sub> {
    if db in st.subs then st.subs[db] else {}
  }

  function AllSubs(subs: map<string, set<Sub>>): set<Sub> {
    set db, s | db in subs && s in subs[db] :: s
  }

  /** A committed drop of all subscriptions of a database. */
  function Cleared(st: Storage, db: string): Storage {
    st.(subs := st.subs[db := {}], cleared := st.cleared + {db}, brought := st.brought - {db})
  }

  /** Postgres refuses to drop a database that has subscriptions. */
  function Dropped(st: Storage, db: string): Option<Storage> {
    if SubsOf(st, db) != {} then None else Some(st.(dbs := st.dbs - {db}, brought := st.brought - {db}))
  }

  /** The subscriptions of a renamed database stay with it. */
  function Renamed(st: Storage, db: string, newName: string): Option<Storage> {
    if db !in st.dbs || newName in st.dbs then None
    else Some(st.(dbs := st.dbs - {db} + {newName}, subs := st.subs[db := {}][newName := SubsOf(st, db)],
                  brought := st.brought + {newName}))
  }

  /** One delta operation; `None` where Postgres refuses it or the run panics. */
  function Change(st: Storage, op: SpecApply.DeltaOp): Option<Storage> {
    if op.action == "delete_db" then Dropped(st, op.name)
    else if op.action == "rename_db" && op.name in st.dbs then
      if op.newName.Some? then Renamed(st, op.name, op.newName.value) else None
    else Some(st)
  }

  /** The names of the databases that a run is about to delete. */
  function Deletes(deltas: seq<SpecApply.DeltaOp>): seq<string> {
    if deltas == [] then []
    else
      var names := Deletes(deltas[..|deltas| - 1]);
      if deltas[|deltas| - 1].action == "delete_db" then names + [deltas[|deltas| - 1].name] else names
  }

  /** The databases that the mirror holds and does not mark as restricted or invalid. */
  function Accessible(dbs: SpecApply.Mirror): set<string> {
    set n | n in dbs && !dbs[n].restrictConn && !dbs[n].invalid
  }

  // ---------------------------------------------------------------- Tasks

  function Indexes(n: nat): (r: set<nat>)
    ensures forall i: nat :: i in r <==> i < n
  {
    if n == 0 then {} else Indexes(n - 1) + {n - 1}
  }

  function BatchOf(run: Run, pass: Pass): Batch {
    if pass.Pre? then run.pre else run.main
  }

  function WithBatch(run: Run, pass: Pass, b: Batch): Run {
    if pass.Pre? then run.(pre := b) else run.(main := b)
  }

  /** Task `i` drops; the task of the system database, the last one of the main pass, never does. */
  predicate DropsAt(b: Batch, i: nat) {
    b.drops && i < |b.names| && b.names[i] in b.accessible
  }

  /** A drop needs a connection to its database. */
  predicate CanDrop(b: Batch, i: nat, st: Storage) {
    i in b.pending && (DropsAt(b, i) ==> b.names[i] in st.dbs)
  }

  function EndedTask(b: Batch, i: nat, ok: bool): Batch {
    b.(pending := b.pending - {i},
       dropped := if ok && DropsAt(b, i) then b.dropped + {i} else b.dropped,
       failed := if ok then b.failed else b.failed + {i})
  }

  /** What a committed drop of task `i` leaves behind. */
  function AfterDrop(b: Batch, i: nat, st: Storage): Storage {
    if DropsAt(b, i) then Cleared(st, b.names[i]) else st
  }

  /** The await of task `i` fails: that task failed and all earlier ones ended well. */
  predicate FailsAt(b: Batch, i: nat) {
    i in b.failed && forall j: nat :: j < i ==> j !in b.pending && j !in b.failed
  }

  /** The databases that a run is to clear: those it lists and can access. */
  function Targets(run: Run): set<string> {
    set i | 0 <= i < |run.main.names| && run.main.names[i] in run.main.accessible :: run.main.names[i]
  }

  // ---------------------------------------------------------------- Steps of one run

  predicate Active(run: Run) {
    run.pc != Finished && run.pc != Failed
  }

  predicate Proceeds(step: Step) {
    step.Check? || step.PreSpawn? || step.PreAwait? || step.ExecDelta? || step.Spawn? || step.Await? || step.Finalize?
  }

  predicate OfTask(step: Step) {
    step.Task? || step.TaskFails? || step.TaskMissing? || step.Fail? || step.FailAt?
  }

  /** The steps of a run between its start and its end, on the contents of its timeline. */
  function Proceed(run: Run, st: Storage, step: Step): Option<(Run, Storage)> {
    match step
    case Check(_) =>
      if run.pc != Started then None
      else Some((run.(addDrop := run.flag && st.done != Some(run.timeline), pc := Checked), st))
    case PreSpawn(_, mirror) =>
      if run.pc != Checked then None
      else
        var names := Deletes(run.deltas);
        Some((run.(pre := Batch(names, Accessible(mirror), true, Indexes(|names|), {}, {}), pc := PreDropping), st))
    case PreAwait(_) =>
      if run.pc != PreDropping || run.pre.pending + run.pre.failed != {} then None else Some((run.(pc := Changing), st))
    case ExecDelta(_) =>
      if run.pc != Changing || run.next >= |run.deltas| then None
      else (match Change(st, run.deltas[run.next])
            case None => None
            case Some(st') => Some((run.(next := run.next + 1), st')))
    case Spawn(_, mirror) =>
      if run.pc != Changing || run.next < |run.deltas| then None
      else Some((run.(main := Batch(run.listed, Accessible(mirror), run.addDrop, Indexes(|run.listed| + 1), {}, {}),
                      pc := InDatabases), st))
    case Await(_) =>
      if run.pc != InDatabases || run.main.pending + run.main.failed != {} then None else Some((run.(pc := Awaited), st))
    case Finalize(_) =>
      if run.pc != Awaited then None
      else Some((run.(pc := Finished), if run.addDrop then st.(done := Some(run.timeline)) else st))
    case _ => None
  }

  /** Tasks, and the ways in which a run ends badly. */
  function RunTask(run: Run, st: Storage, step: Step): Option<(Run, Storage)> {
    match step
    case Task(_, pass, i) =>
      var b := BatchOf(run, pass);
      if CanDrop(b, i, st) then Some((WithBatch(run, pass, EndedTask(b, i, true)), AfterDrop(b, i, st))) else None
    case TaskFails(_, pass, i, effect) =>
      var b := BatchOf(run, pass);
      if i in b.pending && (effect ==> CanDrop(b, i, st))
      then Some((WithBatch(run, pass, EndedTask(b, i, false)), if effect then AfterDrop(b, i, st) else st)) else None
    case TaskMissing(_, i) =>
      // An error that says "does not exist" is let pass before the delta operations.
      if i in run.pre.pending then Some((run.(pre := run.pre.(pending := run.pre.pending - {i})), st)) else None
    case Fail(_) =>
      if run.pc == PreDropping || run.pc == InDatabases then None else Some((run.(pc := Failed), st))
    case FailAt(_, pass, i) =>
      if run.pc != (if pass.Pre? then PreDropping else InDatabases) || !FailsAt(BatchOf(run, pass), i) then None
      else Some((run.(pc := Failed), st))
    case _ => None
  }

  predicate OfRun(step: Step) {
    Proceeds(step) || OfTask(step)
  }

  function Act(run: Run, st: Storage, step: Step): Option<(Run, Storage)> {
    if Proceeds(step) then Proceed(run, st, step) else RunTask(run, st, step)
  }

  // ---------------------------------------------------------------- Steps of the system

  predicate OnDatabase(step: Step) {
    step.CreateDatabase? || step.DropDatabase? || step.RenameDatabase? || step.UserCreate? || step.UserDrop?
  }

  /** What users, and phases other than the delta operations, do to databases and subscriptions. */
  function Touch(st: Storage, step: Step, nextSub: Sub): Option<Storage> {
    match step
    case CreateDatabase(_, db) => Some(st.(dbs := st.dbs + {db}))
    case DropDatabase(_, db) => Dropped(st, db)
    case RenameDatabase(_, db, newName) => Renamed(st, db, newName)
    case UserCreate(_, db) =>
      if db in st.dbs then Some(st.(subs := st.subs[db := SubsOf(st, db) + {nextSub}])) else None
    case UserDrop(_, db, sub) => Some(st.(subs := st.subs[db := SubsOf(st, db) - {sub}]))
    case _ => None
  }

  /** Applies of one compute never overlap: the status that each of them holds excludes the others. */
  predicate Busy(s: System, t: Timeline) {
    exists r :: r in s.runs && s.runs[r].timeline == t && Active(s.runs[r])
  }

  function WithStore(s: System, t: Timeline, st: Storage): System {
    s.(stores := s.stores[t := st])
  }

  function WithRun(s: System, r: nat, run: Run): System {
    s.(runs := s.runs[r := run])
  }

  /** Branches, new runs and crashes. */
  function Surroundings(s: System, step: Step): Option<System> {
    match step
    case Branch(t, done, dbs, subs) =>
      // A new timeline starts from some earlier contents of its parent, which cannot name it.
      if t in s.stores || done == Some(t) || (exists x :: x in AllSubs(subs) && x >= s.nextSub)
         || (exists db :: db in subs && db !in dbs) then None
      else Some(WithStore(s, t, Storage(done, dbs, subs, AllSubs(subs), {}, {})))
    case Begin(r, t, flag, listed, deltas) =>
      if r in s.runs || t !in s.stores || Busy(s, t) then None
      else Some(WithRun(s, r, Run(t, flag, listed, deltas, false, 0, NO_TASKS, NO_TASKS, Started)))
    case Crash(t) => Some(s.(runs := map r | r in s.runs && s.runs[r].timeline != t :: s.runs[r]))
    case _ => None
  }

  /** One step of the system, or `None` where it is not possible. */
  function Next(s: System, step: Step): Option<System> {
    if OfRun(step) then
      if step.r !in s.runs || s.runs[step.r].timeline !in s.stores then None
      else
        var t := s.runs[step.r].timeline;
        match Act(s.runs[step.r], s.stores[t], step)
        case None => None
        case Some((run, st)) => Some(WithRun(WithStore(s, t, st), step.r, run))
    else if OnDatabase(step) then
      if step.t !in s.stores then None
      else
        match Touch(s.stores[step.t], step, s.nextSub)
        case None => None
        case Some(st) => Some(WithStore(s, step.t, st).(nextSub := if step.UserCreate? then s.nextSub + 1 else s.nextSub))
    else Surroundings(s, step)
  }

  function RunSteps(s: System, steps: seq<Step>): Option<System>
    decreases |steps|
  {
    if steps == [] then Some(s)
    else match RunSteps(s, steps[..|steps| - 1]) case None => None case Some(s') => Next(s', steps[|steps| - 1])
  }

  const INITIAL := System(map[], map[], 0)

  ghost predicate Reachable(s: System) {
    exists steps: seq<Step> :: RunSteps(INITIAL, steps) == Some(s)
  }

  // ---------------------------------------------------------------- Invariant

  ghost predicate CleanAt(s: System, t: Timeline, db: string) {
    t in s.stores && SubsOf(s.stores[t], db) !! s.stores[t].inherited
  }

  /** Some task before `j` failed. */
  ghost predicate FailedBefore(b: Batch, j: nat) {
    exists i: nat :: i < j && i in b.failed
  }

  ghost predicate LeftInv(b: Batch) {
    forall j: nat :: j in b.pending ==> FailedBefore(b, j)
  }

  /** Tasks exist only between their spawn and their await, except those a failed run has left. */
  ghost predicate TasksInv(run: Run) {
    && run.pre.pending !! run.pre.failed && run.main.pending !! run.main.failed
    && (run.pc == Started || run.pc == Checked ==> run.pre == NO_TASKS)
    && (run.pc == Started || run.pc == Checked || run.pc == PreDropping || run.pc == Changing ==> run.main == NO_TASKS)
    && (run.pc == Changing || run.pc == InDatabases || run.pc == Awaited || run.pc == Finished ==>
          run.pre.pending == {} && run.pre.failed == {})
    && (run.pc == Awaited || run.pc == Finished ==> run.main.pending == {} && run.main.failed == {})
    && (run.pc == Failed ==> LeftInv(run.pre) && LeftInv(run.main))
  }

  /** Every drop of the main pass is before the run, failed or done. */
  ghost predicate DropsInv(run: Run) {
    && (run.pc == Started ==> !run.addDrop) && (run.addDrop ==> run.flag)
    && (run.pc == InDatabases || run.pc == Awaited ==> run.main.drops == run.addDrop && run.main.names == run.listed)
    && (run.pc == InDatabases ==> forall i: nat :: DropsAt(run.main, i) ==>
          i in run.main.pending || i in run.main.failed || i in run.main.dropped)
    && (run.pc == Awaited ==> forall i: nat :: DropsAt(run.main, i) ==> i in run.main.dropped)
  }

  ghost predicate ClearedInv(st: Storage, b: Batch) {
    forall i: nat :: i in b.dropped ==> i < |b.names| && b.names[i] in st.cleared
  }

  /** A run that is to drop asked before the timeline was recorded. */
  ghost predicate AskedInv(st: Storage, run: Run) {
    Active(run) && run.addDrop ==> st.done != Some(run.timeline)
  }

  ghost predicate RunInv(st: Storage, run: Run) {
    TasksInv(run) && DropsInv(run) && AskedInv(st, run) && ClearedInv(st, run.pre) && ClearedInv(st, run.main)
  }

  ghost predicate Below(subs: set<Sub>, nextSub: Sub) {
    forall x :: x in subs ==> x < nextSub
  }

  ghost predicate StoreInv(st: Storage, nextSub: Sub) {
    && (forall x :: x in st.inherited ==> x < nextSub)
    && (forall db :: Below(SubsOf(st, db), nextSub))
    && (forall db :: db !in st.dbs ==> SubsOf(st, db) == {})
    && (forall db :: db in st.cleared && db !in st.brought ==> SubsOf(st, db) !! st.inherited)
  }

  ghost predicate OneActive(s: System) {
    forall r, q ::
      (r in s.runs && q in s.runs && Active(s.runs[r]) && Active(s.runs[q]) && s.runs[r].timeline == s.runs[q].timeline)
      ==> r == q
  }

  ghost predicate Inv(s: System) {
    && OneActive(s)
    && (forall r :: r in s.runs ==> s.runs[r].timeline in s.stores)
    && (forall r :: r in s.runs ==> RunInv(s.stores[s.runs[r].timeline], s.runs[r]))
    && (forall t :: t in s.stores ==> StoreInv(s.stores[t], s.nextSub))
  }

  // ---------------------------------------------------------------- What one step keeps

  lemma RenameKeepsStore(st: Storage, from: string, to: string, nextSub: Sub)
    requires StoreInv(st, nextSub) && Renamed(st, from, to).Some?
    ensures StoreInv(Renamed(st, from, to).value, nextSub)
  {
    var st' := Renamed(st, from, to).value;
    forall db ensures SubsOf(st', db) == if db == to then SubsOf(st, from) else if db == from then {} else SubsOf(st, db) {}
  }

  lemma ChangeKeepsStore(st: Storage, op: SpecApply.DeltaOp, nextSub: Sub)
    requires StoreInv(st, nextSub) && Change(st, op).Some?
    ensures StoreInv(Change(st, op).value, nextSub)
    ensures Change(st, op).value.done == st.done && Change(st, op).value.cleared == st.cleared
    ensures Change(st, op).value.inherited == st.inherited
  {
    if op.action == "delete_db" {
      DropKeepsStore(st, op.name, nextSub);
    } else if op.action == "rename_db" && op.name in st.dbs {
      RenameKeepsStore(st, op.name, op.newName.value, nextSub);
    }
  }

  lemma DropKeepsStore(st: Storage, db: string, nextSub: Sub)
    requires StoreInv(st, nextSub) && Dropped(st, db).Some?
    ensures StoreInv(Dropped(st, db).value, nextSub)
  {
    forall d ensures SubsOf(Dropped(st, db).value, d) == SubsOf(st, d) {}
  }

  lemma ClearedKeepsStore(st: Storage, db: string, nextSub: Sub)
    requires StoreInv(st, nextSub)
    ensures StoreInv(Cleared(st, db), nextSub)
  {
    forall d ensures SubsOf(Cleared(st, db), d) == if d == db then {} else SubsOf(st, d) {}
  }

  lemma SameKeepsStore(st: Storage, st': Storage, nextSub: Sub, nextSub': Sub)
    requires StoreInv(st, nextSub) && nextSub <= nextSub' && st' == st.(done := st'.done)
    ensures StoreInv(st', nextSub')
  {
    forall d ensures SubsOf(st', d) == SubsOf(st, d) && Below(SubsOf(st, d), nextSub') {
      assert Below(SubsOf(st, d), nextSub);
    }
  }

  /** A user creates or drops a subscription, or creates a database. */
  lemma UserKeepsStore(st: Storage, st': Storage, db: string, nextSub: Sub, nextSub': Sub)
    requires StoreInv(st, nextSub) && nextSub <= nextSub' && st.dbs <= st'.dbs
    requires st'.inherited == st.inherited && st'.cleared == st.cleared && st'.brought == st.brought
    requires SubsOf(st', db) <= SubsOf(st, db) + {nextSub} && (nextSub in SubsOf(st', db) ==> nextSub < nextSub' && db in st'.dbs)
    requires forall d :: d != db ==> SubsOf(st', d) == SubsOf(st, d)
    ensures StoreInv(st', nextSub')
  {
    forall d ensures Below(SubsOf(st', d), nextSub') {
      assert Below(SubsOf(st, d), nextSub);
    }
  }

  /** What no step takes back. */
  ghost predicate Grows(st: Storage, st': Storage) {
    st.cleared <= st'.cleared && st.inherited == st'.inherited
  }

  lemma ActKeepsStore(run: Run, st: Storage, step: Step, nextSub: Sub)
    requires OfRun(step) && StoreInv(st, nextSub) && Act(run, st, step).Some?
    ensures var (run', st') := Act(run, st, step).value; StoreInv(st', nextSub) && Grows(st, st')
  {
    var (run', st') := Act(run, st, step).value;
    if step.ExecDelta? {
      ChangeKeepsStore(st, run.deltas[run.next], nextSub);
    } else if step.Task? || step.TaskFails? {
      DropTaskKeepsStore(BatchOf(run, step.pass), step.i, st, nextSub);
    } else {
      SameKeepsStore(st, st', nextSub, nextSub);
    }
  }

  lemma DropTaskKeepsStore(b: Batch, i: nat, st: Storage, nextSub: Sub)
    requires StoreInv(st, nextSub)
    ensures StoreInv(AfterDrop(b, i, st), nextSub) && Grows(st, AfterDrop(b, i, st))
  {
    if DropsAt(b, i) {
      ClearedKeepsStore(st, b.names[i], nextSub);
    }
  }

  lemma TouchKeepsStore(st: Storage, step: Step, nextSub: Sub)
    requires OnDatabase(step) && StoreInv(st, nextSub) && Touch(st, step, nextSub).Some?
    ensures StoreInv(Touch(st, step, nextSub).value, if step.UserCreate? then nextSub + 1 else nextSub)
    ensures Grows(st, Touch(st, step, nextSub).value) && Touch(st, step, nextSub).value.done == st.done
  {
    if step.DropDatabase? {
      DropKeepsStore(st, step.db, nextSub);
    } else if step.RenameDatabase? {
      RenameKeepsStore(st, step.db, step.newName, nextSub);
    } else {
      assert Below(SubsOf(st, step.db), nextSub);
      UserKeepsStore(st, Touch(st, step, nextSub).value, step.db, nextSub, if step.UserCreate? then nextSub + 1 else nextSub);
    }
  }

  lemma ActRecords(run: Run, st: Storage, step: Step)
    requires OfRun(step) && Act(run, st, step).Some?
    ensures var (run', st') := Act(run, st, step).value;
            && run'.timeline == run.timeline && (Active(run') ==> Active(run))
            && (st'.done != st.done ==> step.Finalize? && run.addDrop && Active(run) && st'.done == Some(run.timeline))
  {}

  lemma ActKeepsTasks(run: Run, st: Storage, step: Step)
    requires OfRun(step) && TasksInv(run) && Act(run, st, step).Some?
    ensures TasksInv(Act(run, st, step).value.0)
  {
    var run' := Act(run, st, step).value.0;
    if run'.pc == Failed {
      ActKeepsLeft(run, st, step, Pre);
      ActKeepsLeft(run, st, step, Main);
    }
  }

  lemma ActKeepsLeft(run: Run, st: Storage, step: Step, pass: Pass)
    requires OfRun(step) && TasksInv(run) && Act(run, st, step).Some? && Act(run, st, step).value.0.pc == Failed
    ensures LeftInv(BatchOf(Act(run, st, step).value.0, pass))
  {
    var b, b' := BatchOf(run, pass), BatchOf(Act(run, st, step).value.0, pass);
    forall j: nat | j in b'.pending ensures FailedBefore(b', j) {
      if step.FailAt? {
        assert step.i < j && step.i in b'.failed;
      } else {
        assert FailedBefore(b, j);
      }
    }
  }

  lemma ActKeepsDrops(run: Run, st: Storage, step: Step)
    requires OfRun(step) && TasksInv(run) && DropsInv(run) && Act(run, st, step).Some?
    ensures DropsInv(Act(run, st, step).value.0)
  {}

  lemma ProceedKeepsCleared(run: Run, st: Storage, step: Step, pass: Pass)
    requires Proceeds(step) && ClearedInv(st, BatchOf(run, pass)) && Proceed(run, st, step).Some?
    requires Grows(st, Proceed(run, st, step).value.1)
    ensures var (run', st') := Proceed(run, st, step).value; ClearedInv(st', BatchOf(run', pass))
  {}

  lemma TaskKeepsCleared(run: Run, st: Storage, step: Step, pass: Pass)
    requires OfTask(step) && ClearedInv(st, BatchOf(run, pass)) && RunTask(run, st, step).Some?
    requires Grows(st, RunTask(run, st, step).value.1)
    ensures var (run', st') := RunTask(run, st, step).value; ClearedInv(st', BatchOf(run', pass))
  {}

  lemma ActKeepsCleared(run: Run, st: Storage, step: Step, nextSub: Sub, pass: Pass)
    requires OfRun(step) && RunInv(st, run) && StoreInv(st, nextSub) && Act(run, st, step).Some?
    ensures var (run', st') := Act(run, st, step).value; ClearedInv(st', BatchOf(run', pass))
  {
    ActKeepsStore(run, st, step, nextSub);
    if Proceeds(step) {
      ProceedKeepsCleared(run, st, step, pass);
    } else {
      TaskKeepsCleared(run, st, step, pass);
    }
  }

  lemma ActKeepsRun(run: Run, st: Storage, step: Step, nextSub: Sub)
    requires OfRun(step) && RunInv(st, run) && StoreInv(st, nextSub) && Act(run, st, step).Some?
    ensures var (run', st') := Act(run, st, step).value; RunInv(st', run')
  {
    ActKeepsTasks(run, st, step);
    ActKeepsDrops(run, st, step);
    ActKeepsCleared(run, st, step, nextSub, Pre);
    ActKeepsCleared(run, st, step, nextSub, Main);
    ActRecords(run, st, step);
  }

  /** A run that does not move keeps its invariant, unless another one records its timeline. */
  lemma OthersKeepRun(run: Run, st: Storage, st': Storage)
    requires RunInv(st, run) && Grows(st, st') && (st'.done == st.done || !Active(run))
    ensures RunInv(st', run)
  {}

  // ---------------------------------------------------------------- What every run keeps

  lemma RunStepKeepsOne(s: System, r: nat, run': Run)
    requires OneActive(s) && r in s.runs && run'.timeline == s.runs[r].timeline && (Active(run') ==> Active(s.runs[r]))
    ensures OneActive(WithRun(s, r, run'))
  {
    var s' := WithRun(s, r, run');
    forall p, q | (p in s'.runs && q in s'.runs && Active(s'.runs[p]) && Active(s'.runs[q])
                   && s'.runs[p].timeline == s'.runs[q].timeline)
      ensures p == q
    {
      assert Active(s.runs[p]) && Active(s.runs[q]) && s.runs[p].timeline == s.runs[q].timeline;
    }
  }

  lemma RunStepKeepsRuns(s: System, r: nat, run': Run, st': Storage, q: nat)
    requires Inv(s) && r in s.runs && run'.timeline == s.runs[r].timeline
    requires var st := s.stores[run'.timeline];
             RunInv(st', run') && Grows(st, st') && (st'.done == st.done || Active(s.runs[r]))
    requires q in s.runs
    ensures var s' := WithRun(WithStore(s, run'.timeline, st'), r, run');
            s'.runs[q].timeline in s'.stores && RunInv(s'.stores[s'.runs[q].timeline], s'.runs[q])
  {
    if q != r && s.runs[q].timeline == run'.timeline {
      OthersKeepRun(s.runs[q], s.stores[run'.timeline], st');
    }
  }

  lemma RunStepKeepsInv(s: System, r: nat, run': Run, st': Storage)
    requires Inv(s) && r in s.runs && run'.timeline == s.runs[r].timeline && (Active(run') ==> Active(s.runs[r]))
    requires var st := s.stores[run'.timeline];
             && StoreInv(st', s.nextSub) && RunInv(st', run') && Grows(st, st')
             && (st'.done == st.done || Active(s.runs[r]))
    ensures Inv(WithRun(WithStore(s, run'.timeline, st'), r, run'))
  {
    var s' := WithRun(WithStore(s, run'.timeline, st'), r, run');
    RunStepKeepsOne(s, r, run');
    assert s'.runs == WithRun(s, r, run').runs;
    forall q | q in s'.runs ensures s'.runs[q].timeline in s'.stores && RunInv(s'.stores[s'.runs[q].timeline], s'.runs[q]) {
      RunStepKeepsRuns(s, r, run', st', q);
    }
  }

  lemma StoreStepKeepsInv(s: System, t: Timeline, st': Storage, nextSub: Sub)
    requires Inv(s) && t in s.stores && StoreInv(st', nextSub) && s.nextSub <= nextSub
    requires Grows(s.stores[t], st') && st'.done == s.stores[t].done
    ensures Inv(WithStore(s, t, st').(nextSub := nextSub))
  {
    var s' := WithStore(s, t, st').(nextSub := nextSub);
    forall q | q in s'.runs ensures RunInv(s'.stores[s'.runs[q].timeline], s'.runs[q]) {
      if s.runs[q].timeline == t {
        OthersKeepRun(s.runs[q], s.stores[t], st');
      }
    }
    forall u | u in s'.stores ensures StoreInv(s'.stores[u], nextSub) {
      if u != t {
        SameKeepsStore(s.stores[u], s.stores[u], s.nextSub, nextSub);
      }
    }
  }

  lemma BranchStarts(done: Option<Timeline>, dbs: set<string>, subs: map<string, set<Sub>>, nextSub: Sub)
    requires (forall x :: x in AllSubs(subs) ==> x < nextSub) && forall db :: db in subs ==> db in dbs
    ensures StoreInv(Storage(done, dbs, subs, AllSubs(subs), {}, {}), nextSub)
  {
    var st := Storage(done, dbs, subs, AllSubs(subs), {}, {});
    forall db ensures Below(SubsOf(st, db), nextSub) {
      forall x | x in SubsOf(st, db) ensures x < nextSub {
        assert x in AllSubs(subs);
      }
    }
  }

  lemma BranchKeepsInv(s: System, t: Timeline, st: Storage)
    requires Inv(s) && t !in s.stores && StoreInv(st, s.nextSub)
    ensures Inv(WithStore(s, t, st))
  {
    var s' := WithStore(s, t, st);
    assert forall r :: r in s'.runs ==> s'.stores[s'.runs[r].timeline] == s.stores[s.runs[r].timeline];
  }

  lemma BegunIsFine(st: Storage, run: Run)
    requires run.pc == Started && !run.addDrop && run.pre == NO_TASKS && run.main == NO_TASKS
    ensures RunInv(st, run)
  {}

  lemma BeginKeepsInv(s: System, r: nat, run: Run)
    requires Inv(s) && r !in s.runs && run.timeline in s.stores && !Busy(s, run.timeline)
    requires RunInv(s.stores[run.timeline], run)
    ensures Inv(WithRun(s, r, run))
  {
    assert forall q :: q in s.runs && s.runs[q].timeline == run.timeline ==> !Active(s.runs[q]);
  }

  lemma FewerRunsKeepInv(s: System, runs: map<nat, Run>)
    requires Inv(s) && forall r :: r in runs ==> r in s.runs && runs[r] == s.runs[r]
    ensures Inv(s.(runs := runs))
  {
    var s' := s.(runs := runs);
    forall r, q | (r in runs && q in runs && Active(runs[r]) && Active(runs[q]) && runs[r].timeline == runs[q].timeline)
      ensures r == q
    {
      assert Active(s.runs[r]) && Active(s.runs[q]);
    }
    forall r | r in runs ensures RunInv(s.stores[runs[r].timeline], runs[r]) {
      assert r in s.runs;
    }
  }

  lemma SurroundingsKeepInv(s: System, step: Step)
    requires Inv(s) && Surroundings(s, step).Some?
    ensures Inv(Surroundings(s, step).value)
  {
    match step {
      case Branch(t, done, dbs, subs) =>
        BranchStarts(done, dbs, subs, s.nextSub);
        BranchKeepsInv(s, t, Storage(done, dbs, subs, AllSubs(subs), {}, {}));
      case Begin(r, t, flag, listed, deltas) =>
        var run := Run(t, flag, listed, deltas, false, 0, NO_TASKS, NO_TASKS, Started);
        BegunIsFine(s.stores[t], run);
        BeginKeepsInv(s, r, run);
      case Crash(t) =>
        FewerRunsKeepInv(s, map r | r in s.runs && s.runs[r].timeline != t :: s.runs[r]);
    }
  }

  lemma StepKeepsInv(s: System, step: Step)
    requires Inv(s) && Next(s, step).Some?
    ensures Inv(Next(s, step).value)
  {
    if OfRun(step) {
      var t := s.runs[step.r].timeline;
      var (run', st') := Act(s.runs[step.r], s.stores[t], step).value;
      ActKeepsStore(s.runs[step.r], s.stores[t], step, s.nextSub);
      ActKeepsRun(s.runs[step.r], s.stores[t], step, s.nextSub);
      ActRecords(s.runs[step.r], s.stores[t], step);
      RunStepKeepsInv(s, step.r, run', st');
    } else if OnDatabase(step) {
      TouchKeepsStore(s.stores[step.t], step, s.nextSub);
      StoreStepKeepsInv(s, step.t, Touch(s.stores[step.t], step, s.nextSub).value,
                        if step.UserCreate? then s.nextSub + 1 else s.nextSub);
    } else {
      SurroundingsKeepInv(s, step);
    }
  }

  lemma {:induction false} RunKeepsInv(s: System, steps: seq<Step>)
    requires Inv(s) && RunSteps(s, steps).Some?
    ensures Inv(RunSteps(s, steps).value)
  {
    if steps != [] {
      var k := |steps| - 1;
      RunKeepsInv(s, steps[..k]);
      StepKeepsInv(RunSteps(s, steps[..k]).value, steps[k]);
    }
  }

  lemma ReachableInv(s: System)
    requires Reachable(s)
    ensures Inv(s)
  {
    var steps :| RunSteps(INITIAL, steps) == Some(s);
    RunKeepsInv(INITIAL, steps);
  }

  // ---------------------------------------------------------------- What happens on one timeline

  /** What a step does to timeline `t`: a run on it acts, a database on it changes, or nothing. */
  datatype Local = RunActs(run: Run) | DatabaseChanges | Nothing

  function LocalOf(s: System, step: Step, t: Timeline): Local {
    if OfRun(step) && step.r in s.runs && s.runs[step.r].timeline == t then RunActs(s.runs[step.r])
    else if OnDatabase(step) && step.t == t then DatabaseChanges
    else Nothing
  }

  /** The contents of a timeline after a step that the system can take. */
  function StoreAfter(st: Storage, step: Step, local: Local, nextSub: Sub): Storage {
    match local
    case RunActs(run) => if Act(run, st, step).Some? then Act(run, st, step).value.1 else st
    case DatabaseChanges => if Touch(st, step, nextSub).Some? then Touch(st, step, nextSub).value else st
    case Nothing => st
  }

  lemma LocalRunStep(s: System, step: Step, t: Timeline)
    requires t in s.stores && OfRun(step) && Next(s, step).Some?
    ensures t in Next(s, step).value.stores
    ensures Next(s, step).value.stores[t] == StoreAfter(s.stores[t], step, LocalOf(s, step, t), s.nextSub)
    ensures LocalOf(s, step, t).RunActs? ==> Act(LocalOf(s, step, t).run, s.stores[t], step).Some?
  {}

  lemma LocalOtherStep(s: System, step: Step, t: Timeline)
    requires t in s.stores && !OfRun(step) && Next(s, step).Some?
    ensures t in Next(s, step).value.stores
    ensures Next(s, step).value.stores[t] == StoreAfter(s.stores[t], step, LocalOf(s, step, t), s.nextSub)
    ensures LocalOf(s, step, t).DatabaseChanges? ==> OnDatabase(step) && Touch(s.stores[t], step, s.nextSub).Some?
  {}

  lemma LocalStep(s: System, step: Step, t: Timeline)
    requires t in s.stores && Next(s, step).Some?
    ensures t in Next(s, step).value.stores
    ensures Next(s, step).value.stores[t] == StoreAfter(s.stores[t], step, LocalOf(s, step, t), s.nextSub)
    ensures LocalOf(s, step, t).RunActs? ==> OfRun(step) && Act(LocalOf(s, step, t).run, s.stores[t], step).Some?
    ensures LocalOf(s, step, t).DatabaseChanges? ==> OnDatabase(step) && Touch(s.stores[t], step, s.nextSub).Some?
  {
    if OfRun(step) {
      LocalRunStep(s, step, t);
    } else {
      LocalOtherStep(s, step, t);
    }
  }

  /** What a run that was there is after a step, if it is still there. */
  lemma LocalRun(s: System, step: Step, r: nat)
    requires r in s.runs && s.runs[r].timeline in s.stores && Next(s, step).Some? && r in Next(s, step).value.runs
    ensures var run, run' := s.runs[r], Next(s, step).value.runs[r];
            if OfRun(step) && step.r == r
            then Act(run, s.stores[run.timeline], step).Some? && run' == Act(run, s.stores[run.timeline], step).value.0
            else run' == run
  {}

  lemma LocalNew(s: System, step: Step, r: nat)
    requires r !in s.runs && Next(s, step).Some? && r in Next(s, step).value.runs
    ensures step.Begin?
    ensures Next(s, step).value.runs[r]
         == Run(step.t, step.flag, step.listed, step.deltas, false, 0, NO_TASKS, NO_TASKS, Started)
  {}

  // ---------------------------------------------------------------- Finalisation

  /** A run records its timeline only after its own drop ran for every listed accessible database. */
  lemma FinalizeAfterDrops(s: System, r: nat, i: nat)
    requires Reachable(s) && Next(s, Finalize(r)).Some? && s.runs[r].addDrop
    requires i < |s.runs[r].listed| && s.runs[r].listed[i] in s.runs[r].main.accessible
    ensures i in s.runs[r].main.dropped
  {
    ReachableInv(s);
    assert RunInv(s.stores[s.runs[r].timeline], s.runs[r]) && DropsAt(s.runs[r].main, i);
  }

  lemma TargetsCleared(st: Storage, run: Run, db: string)
    requires RunInv(st, run) && run.pc == Awaited && run.addDrop && db in Targets(run)
    ensures db in st.cleared
  {
    var i: nat :| i < |run.main.names| && run.main.names[i] in run.main.accessible && run.main.names[i] == db;
    assert DropsAt(run.main, i);
  }

  lemma FinalizeEffect(s: System, r: nat)
    requires r in s.runs && s.runs[r].timeline in s.stores && Next(s, Finalize(r)).Some? && s.runs[r].addDrop
    ensures var t, s' := s.runs[r].timeline, Next(s, Finalize(r)).value;
            s.runs[r].pc == Awaited && t in s'.stores && s'.stores[t] == s.stores[t].(done := Some(t))
  {}

  /** A cleared name stays clean, or a database is renamed to it. */
  lemma {:induction false} ClearedOrBrought(s: System, steps: seq<Step>, t: Timeline, db: string)
    requires Inv(s) && t in s.stores && db in s.stores[t].cleared && RunSteps(s, steps).Some?
    ensures var e := RunSteps(s, steps).value;
            t in e.stores && (db in e.stores[t].brought || SubsOf(e.stores[t], db) !! s.stores[t].inherited)
  {
    RunGrows(s, steps, t);
    RunKeepsInv(s, steps);
    assert StoreInv(RunSteps(s, steps).value.stores[t], RunSteps(s, steps).value.nextSub);
  }

  /**
   After a finalisation the databases it covered hold no inherited subscription, over any
   continuation, except under a name onto which a database was renamed since its last drop.
   */
  lemma {:induction false} ClearedStayClean(s: System, r: nat, steps: seq<Step>, db: string)
    requires Reachable(s) && Next(s, Finalize(r)).Some? && s.runs[r].addDrop && db in Targets(s.runs[r])
    requires RunSteps(Next(s, Finalize(r)).value, steps).Some?
    ensures var t := s.runs[r].timeline; var e := RunSteps(Next(s, Finalize(r)).value, steps).value;
            && t in e.stores && e.stores[t].done == Some(t)
            && (db in e.stores[t].brought || SubsOf(e.stores[t], db) !! s.stores[t].inherited)
  {
    ReachableInv(s);
    var t, s1 := s.runs[r].timeline, Next(s, Finalize(r)).value;
    FinalizeEffect(s, r);
    TargetsCleared(s.stores[t], s.runs[r], db);
    StepKeepsInv(s, Finalize(r));
    RunGrows(s1, steps, t);
    ClearedOrBrought(s1, steps, t, db);
  }

  lemma StepGrows(s: System, step: Step, t: Timeline)
    requires Inv(s) && t in s.stores && Next(s, step).Some?
    ensures t in Next(s, step).value.stores && Grows(s.stores[t], Next(s, step).value.stores[t])
    ensures s.stores[t].done == Some(t) ==> Next(s, step).value.stores[t].done == Some(t)
  {
    LocalStep(s, step, t);
    match LocalOf(s, step, t) {
      case RunActs(run) =>
        ActKeepsStore(run, s.stores[t], step, s.nextSub);
        ActRecords(run, s.stores[t], step);
      case DatabaseChanges => TouchKeepsStore(s.stores[t], step, s.nextSub);
      case Nothing =>
    }
  }

  /** What a timeline has recorded stays recorded. */
  lemma {:induction false} RunGrows(s: System, steps: seq<Step>, t: Timeline)
    requires Inv(s) && t in s.stores && RunSteps(s, steps).Some?
    ensures var e := RunSteps(s, steps).value;
            t in e.stores && Grows(s.stores[t], e.stores[t]) && (s.stores[t].done == Some(t) ==> e.stores[t].done == Some(t))
  {
    if steps != [] {
      var k := |steps| - 1;
      RunGrows(s, steps[..k], t);
      RunKeepsInv(s, steps[..k]);
      StepGrows(RunSteps(s, steps[..k]).value, steps[k], t);
    }
  }

  /** The rename that a delta operation performs, if any. */
  function RenameOf(st: Storage, op: SpecApply.DeltaOp): Option<(string, string)> {
    if op.action == "rename_db" && op.name in st.dbs && op.newName.Some? then Some((op.name, op.newName.value)) else None
  }

  /** The rename that a step performs on the timeline, in a run or by a user. */
  function Renaming(st: Storage, step: Step, local: Local): Option<(string, string)> {
    if local.RunActs? && step.ExecDelta? && local.run.next < |local.run.deltas|
    then RenameOf(st, local.run.deltas[local.run.next])
    else if local.DatabaseChanges? && step.RenameDatabase? then Some((step.db, step.newName))
    else None
  }

  ghost predicate Clean(st: Storage, db: string) {
    SubsOf(st, db) !! st.inherited
  }

  /** The step renames a database with inherited subscriptions to `db`. */
  ghost predicate BringsInherited(st: Storage, step: Step, local: Local, db: string) {
    var op := Renaming(st, step, local);
    op.Some? && op.value.1 == db && !Clean(st, op.value.0)
  }

  lemma RenameCleanIff(st: Storage, from: string, to: string, db: string)
    requires Renamed(st, from, to).Some? && Clean(st, db)
    ensures Clean(Renamed(st, from, to).value, db) <==> !(to == db && !Clean(st, from))
  {}

  lemma ActCleanIff(run: Run, st: Storage, step: Step, db: string)
    requires OfRun(step) && Act(run, st, step).Some? && Clean(st, db)
    ensures Clean(Act(run, st, step).value.1, db) <==> !BringsInherited(st, step, RunActs(run), db)
  {
    if step.ExecDelta? && RenameOf(st, run.deltas[run.next]).Some? {
      RenameCleanIff(st, run.deltas[run.next].name, run.deltas[run.next].newName.value, db);
    }
  }

  lemma TouchCleanIff(st: Storage, step: Step, nextSub: Sub, db: string)
    requires OnDatabase(step) && StoreInv(st, nextSub) && Touch(st, step, nextSub).Some? && Clean(st, db)
    ensures Clean(Touch(st, step, nextSub).value, db) <==> !BringsInherited(st, step, DatabaseChanges, db)
  {
    if step.RenameDatabase? {
      RenameCleanIff(st, step.db, step.newName, db);
    }
  }

  /** Exactly a rename of a database with inherited subscriptions brings them to a clean name. */
  lemma CleanStaysIff(s: System, step: Step, t: Timeline, db: string)
    requires Inv(s) && t in s.stores && Clean(s.stores[t], db) && Next(s, step).Some?
    ensures t in Next(s, step).value.stores
    ensures Clean(Next(s, step).value.stores[t], db) <==> !BringsInherited(s.stores[t], step, LocalOf(s, step, t), db)
  {
    LocalStep(s, step, t);
    match LocalOf(s, step, t) {
      case RunActs(run) => ActCleanIff(run, s.stores[t], step, db);
      case DatabaseChanges => TouchCleanIff(s.stores[t], step, s.nextSub, db);
      case Nothing =>
    }
  }

  /** A failed run has left no task but such as come after one of the same pass that failed. */
  lemma LeftTasksFollowFailure(s: System, r: nat, pass: Pass, j: nat)
    requires Reachable(s) && r in s.runs && s.runs[r].pc == Failed && j in BatchOf(s.runs[r], pass).pending
    ensures exists i: nat :: i < j && i in BatchOf(s.runs[r], pass).failed
  {
    ReachableInv(s);
    assert RunInv(s.stores[s.runs[r].timeline], s.runs[r]) && FailedBefore(BatchOf(s.runs[r], pass), j);
  }

  // ---------------------------------------------------------------- Once per timeline

  /** Run `r` is not a run on `t` that added the drop phase. */
  ghost predicate AddsNoDrop(s: System, t: Timeline, r: nat) {
    r in s.runs && s.runs[r].timeline == t ==> !s.runs[r].addDrop
  }

  lemma ActAddsNoDrop(run: Run, st: Storage, step: Step)
    requires OfRun(step) && st.done == Some(run.timeline) && !run.addDrop && Act(run, st, step).Some?
    ensures !Act(run, st, step).value.0.addDrop
  {}

  lemma StepAddsNoDrop(s: System, step: Step, t: Timeline, r: nat)
    requires Inv(s) && t in s.stores && s.stores[t].done == Some(t) && AddsNoDrop(s, t, r) && Next(s, step).Some?
    ensures AddsNoDrop(Next(s, step).value, t, r)
  {
    if r in s.runs && r in Next(s, step).value.runs {
      LocalRun(s, step, r);
      if OfRun(step) && step.r == r {
        ActRecords(s.runs[r], s.stores[s.runs[r].timeline], step);
        if s.runs[r].timeline == t {
          ActAddsNoDrop(s.runs[r], s.stores[t], step);
        }
      }
    } else if r in Next(s, step).value.runs {
      LocalNew(s, step, r);
    }
  }

  lemma {:induction false} RunAddsNoDrop(s: System, steps: seq<Step>, t: Timeline, r: nat)
    requires Inv(s) && t in s.stores && s.stores[t].done == Some(t) && AddsNoDrop(s, t, r) && RunSteps(s, steps).Some?
    ensures AddsNoDrop(RunSteps(s, steps).value, t, r)
  {
    if steps != [] {
      var k := |steps| - 1;
      RunAddsNoDrop(s, steps[..k], t, r);
      RunKeepsInv(s, steps[..k]);
      RunGrows(s, steps[..k], t);
      StepAddsNoDrop(RunSteps(s, steps[..k]).value, steps[k], t, r);
    }
  }

  /** Once a timeline is recorded, no run that had not asked by then ever adds the drop phase on it. */
  lemma LaterRunsNeverDrop(s: System, steps: seq<Step>, t: Timeline, r: nat)
    requires Reachable(s) && t in s.stores && s.stores[t].done == Some(t)
    requires r !in s.runs || s.runs[r].pc == Started
    requires RunSteps(s, steps).Some?
    ensures AddsNoDrop(RunSteps(s, steps).value, t, r)
  {
    ReachableInv(s);
    assert r in s.runs ==> RunInv(s.stores[s.runs[r].timeline], s.runs[r]);
    RunAddsNoDrop(s, steps, t, r);
  }

  /** The drop phase is added exactly when the spec asks for it and the timeline is not recorded. */
  lemma DropAddedIff(s: System, r: nat)
    requires Reachable(s) && r in s.runs && s.runs[r].pc == Started
    ensures Next(s, Check(r)).Some? && r in Next(s, Check(r)).value.runs
    ensures Next(s, Check(r)).value.runs[r].addDrop <==>
              s.runs[r].flag && s.stores[s.runs[r].timeline].done != Some(s.runs[r].timeline)
  {
    ReachableInv(s);
  }

  /** Over any run no drop phase without the spec asking for it. */
  lemma NoDropUnasked(s: System, r: nat)
    requires Reachable(s) && r in s.runs && !s.runs[r].flag
    ensures !s.runs[r].addDrop
  {
    ReachableInv(s);
    assert RunInv(s.stores[s.runs[r].timeline], s.runs[r]);
  }

  /** A run changes databases only after every drop before a delete ended, and none of them in failure. */
  lemma ChangesAfterPreDrops(s: System, r: nat)
    requires Reachable(s) && r in s.runs && s.runs[r].pc in {Changing, InDatabases, Awaited, Finished}
    ensures s.runs[r].pre.pending == {} && s.runs[r].pre.failed == {}
  {
    ReachableInv(s);
    assert RunInv(s.stores[s.runs[r].timeline], s.runs[r]);
  }

  lemma {:induction false} DeletesExact(deltas: seq<SpecApply.DeltaOp>, db: string)
    ensures db in Deletes(deltas) <==>
              exists i :: 0 <= i < |deltas| && deltas[i].action == "delete_db" && deltas[i].name == db
  {
    if deltas != [] {
      var k := |deltas| - 1;
      DeletesExact(deltas[..k], db);
      if i :| 0 <= i < k && deltas[..k][i].action == "delete_db" && deltas[..k][i].name == db {
        assert deltas[i].action == "delete_db";
      }
      if exists i :: 0 <= i < |deltas| && deltas[i].action == "delete_db" && deltas[i].name == db {
        var i :| 0 <= i < |deltas| && deltas[i].action == "delete_db" && deltas[i].name == db;
        assert i < k ==> deltas[..k][i].action == "delete_db";
      }
    }
  }

  /** Which tasks of the main pass drop: those of listed databases that the mirror has, open and valid. */
  lemma SpawnDropsExactly(run: Run, st: Storage, r: nat, mirror: SpecApply.Mirror, i: nat)
    requires Act(run, st, Spawn(r, mirror)).Some? && i < |run.listed|
    ensures var b := Act(run, st, Spawn(r, mirror)).value.0.main; var db := run.listed[i];
            && i in b.pending
            && (DropsAt(b, i) <==> run.addDrop && db in mirror && !mirror[db].restrictConn && !mirror[db].invalid)
  {}

  /** Which tasks drop before a delete: one for each database to delete, if the mirror has it, open and valid. */
  lemma PreSpawnDropsExactly(run: Run, st: Storage, r: nat, mirror: SpecApply.Mirror, i: nat)
    requires Act(run, st, PreSpawn(r, mirror)).Some? && i < |Deletes(run.deltas)|
    ensures var b := Act(run, st, PreSpawn(r, mirror)).value.0.pre; var db := Deletes(run.deltas)[i];
            && i in b.pending
            && (DropsAt(b, i) <==> db in mirror && !mirror[db].restrictConn && !mirror[db].invalid)
  {}

  /** A delta operation is refused exactly for these reasons. */
  lemma ChangeRefusedIff(st: Storage, op: SpecApply.DeltaOp)
    ensures Change(st, op).None? <==>
              || (op.action == "delete_db" && SubsOf(st, op.name) != {})
              || (op.action == "rename_db" && op.name in st.dbs && (op.newName.None? || op.newName.value in st.dbs))
  {}

  function ChangeAll(st: Storage, deltas: seq<SpecApply.DeltaOp>): Option<Storage> {
    if deltas == [] then Some(st)
    else match ChangeAll(st, deltas[..|deltas| - 1])
         case None => None
         case Some(st') => Change(st', deltas[|deltas| - 1])
  }

  /** The databases that the delta operations of a run leave are those that the plan leaves in its mirror. */
  lemma {:induction false} ChangesFollowPlan(st: Storage, deltas: seq<SpecApply.DeltaOp>, db: string)
    requires ChangeAll(st, deltas).Some?
    ensures db in ChangeAll(st, deltas).value.dbs <==> SpecConvergence.PresentAfter(deltas, st.dbs, db)
  {
    if deltas != [] {
      var pre, op := deltas[..|deltas| - 1], deltas[|deltas| - 1];
      ChangesFollowPlan(st, pre, db);
      ChangesFollowPlan(st, pre, op.name);
    }
  }

  // ---------------------------------------------------------------- Drops still to come

  /** Task `i` of the batch is still to drop the subscriptions of `db`. */
  predicate TaskPends(b: Batch, i: nat, db: string) {
    i in b.pending && DropsAt(b, i) && b.names[i] == db
  }

  /** The run has not yet spawned its drop of `db`, which it is to delete. */
  predicate DeletePends(run: Run, db: string) {
    (run.pc == Started || run.pc == Checked) && db in Deletes(run.deltas)
  }

  predicate WillDrop(run: Run, db: string) {
    DeletePends(run, db) || (exists i | i in run.pre.pending :: TaskPends(run.pre, i, db))
    || exists i | i in run.main.pending :: TaskPends(run.main, i, db)
  }

  /**
   Some run on `t` still has a drop of `db` before it: one that is to delete it, or a task of either
   pass, be it of a run in progress or left behind by one that failed.
   */
  ghost predicate PendingDrop(s: System, t: Timeline, db: string) {
    exists r :: r in s.runs && s.runs[r].timeline == t && WillDrop(s.runs[r], db)
  }

  /** Not a user's drop of a subscription on `t`, and not the start of a run on `t` that deletes `db`. */
  predicate Quiet(step: Step, t: Timeline, db: string) {
    && !(step.UserDrop? && step.t == t)
    && !(step.Begin? && step.t == t && db in Deletes(step.deltas))
  }

  ghost predicate AllQuiet(steps: seq<Step>, t: Timeline, db: string) {
    forall i :: 0 <= i < |steps| ==> Quiet(steps[i], t, db)
  }

  lemma PreStillPends(run: Run, st: Storage, step: Step, i: nat, db: string)
    requires OfRun(step) && TasksInv(run) && Act(run, st, step).Some? && TaskPends(Act(run, st, step).value.0.pre, i, db)
    ensures TaskPends(run.pre, i, db) || DeletePends(run, db)
  {
    if step.PreSpawn? {
      assert Act(run, st, step).value.0.pre.names == Deletes(run.deltas);
    }
  }

  lemma MainStillPends(run: Run, st: Storage, step: Step, i: nat, db: string)
    requires OfRun(step) && RunInv(st, run) && st.done == Some(run.timeline)
    requires Act(run, st, step).Some? && TaskPends(Act(run, st, step).value.0.main, i, db)
    ensures TaskPends(run.main, i, db)
  {}

  lemma DeleteStillPends(run: Run, st: Storage, step: Step, db: string)
    requires OfRun(step) && Act(run, st, step).Some? && DeletePends(Act(run, st, step).value.0, db)
    ensures DeletePends(run, db)
  {}

  lemma StillPends(run: Run, st: Storage, step: Step, db: string)
    requires OfRun(step) && RunInv(st, run) && st.done == Some(run.timeline)
    requires Act(run, st, step).Some? && WillDrop(Act(run, st, step).value.0, db)
    ensures WillDrop(run, db)
  {
    var run' := Act(run, st, step).value.0;
    if DeletePends(run', db) {
      DeleteStillPends(run, st, step, db);
    } else if i :| i in run'.pre.pending && TaskPends(run'.pre, i, db) {
      PreStillPends(run, st, step, i, db);
    } else {
      var i :| i in run'.main.pending && TaskPends(run'.main, i, db);
      MainStillPends(run, st, step, i, db);
    }
  }

  lemma StepKeepsQuiet(s: System, step: Step, t: Timeline, db: string)
    requires Inv(s) && t in s.stores && s.stores[t].done == Some(t) && !PendingDrop(s, t, db)
    requires Next(s, step).Some? && Quiet(step, t, db)
    ensures !PendingDrop(Next(s, step).value, t, db)
  {
    var s' := Next(s, step).value;
    forall r | r in s'.runs && s'.runs[r].timeline == t ensures !WillDrop(s'.runs[r], db) {
      if r in s.runs {
        RunStaysQuiet(s, step, r, t, db);
      } else {
        LocalNew(s, step, r);
      }
    }
  }

  lemma RunStaysQuiet(s: System, step: Step, r: nat, t: Timeline, db: string)
    requires Inv(s) && t in s.stores && s.stores[t].done == Some(t) && !PendingDrop(s, t, db) && Next(s, step).Some?
    requires r in s.runs && r in Next(s, step).value.runs && Next(s, step).value.runs[r].timeline == t
    ensures !WillDrop(Next(s, step).value.runs[r], db)
  {
    LocalRun(s, step, r);
    if OfRun(step) && step.r == r {
      ActRecords(s.runs[r], s.stores[s.runs[r].timeline], step);
      if WillDrop(Next(s, step).value.runs[r], db) {
        StillPends(s.runs[r], s.stores[t], step, db);
      }
    }
  }

  /** The subscription exists, in whatever database. */
  ghost predicate Holds(st: Storage, x: Sub) {
    exists db :: x in SubsOf(st, db)
  }

  lemma RenameKeepsSub(st: Storage, from: string, to: string, db: string, x: Sub)
    requires Renamed(st, from, to).Some? && db in st.dbs && x in SubsOf(st, db)
    ensures Holds(Renamed(st, from, to).value, x)
    ensures db != from ==> x in SubsOf(Renamed(st, from, to).value, db)
  {
    var st' := Renamed(st, from, to).value;
    assert x in SubsOf(st', if db == from then to else db);
  }

  lemma ChangeKeepsSub(st: Storage, op: SpecApply.DeltaOp, db: string, x: Sub)
    requires Change(st, op).Some? && db in st.dbs && x in SubsOf(st, db)
    ensures Holds(Change(st, op).value, x)
    ensures !(op.action == "rename_db" && op.name == db) ==> x in SubsOf(Change(st, op).value, db)
  {
    if op.action == "rename_db" && op.name in st.dbs {
      RenameKeepsSub(st, op.name, op.newName.value, db, x);
    } else {
      assert x in SubsOf(Change(st, op).value, db);
    }
  }

  /** The task of the step drops the subscriptions of `db`. */
  predicate DropsNow(step: Step, local: Local, db: string) {
    local.RunActs? && (step.Task? || step.TaskFails?) && TaskPends(BatchOf(local.run, step.pass), step.i, db)
  }

  lemma PendingIfDropsNow(s: System, step: Step, t: Timeline, db: string)
    requires DropsNow(step, LocalOf(s, step, t), db)
    ensures PendingDrop(s, t, db)
  {
    assert WillDrop(s.runs[step.r], db);
  }

  /** The step renames `db`. */
  predicate RenamesFrom(st: Storage, step: Step, local: Local, db: string) {
    Renaming(st, step, local).Some? && Renaming(st, step, local).value.0 == db
  }

  lemma ActKeepsSub(run: Run, st: Storage, step: Step, db: string, x: Sub)
    requires OfRun(step) && Act(run, st, step).Some? && db in st.dbs && x in SubsOf(st, db)
    requires !DropsNow(step, RunActs(run), db)
    ensures Holds(Act(run, st, step).value.1, x)
    ensures !RenamesFrom(st, step, RunActs(run), db) ==> x in SubsOf(Act(run, st, step).value.1, db)
  {
    if step.ExecDelta? {
      ChangeKeepsSub(st, run.deltas[run.next], db, x);
    } else {
      assert x in SubsOf(Act(run, st, step).value.1, db);
    }
  }

  lemma TouchKeepsSub(st: Storage, step: Step, nextSub: Sub, db: string, x: Sub)
    requires OnDatabase(step) && !step.UserDrop? && Touch(st, step, nextSub).Some? && db in st.dbs && x in SubsOf(st, db)
    ensures Holds(Touch(st, step, nextSub).value, x)
    ensures !RenamesFrom(st, step, DatabaseChanges, db) ==> x in SubsOf(Touch(st, step, nextSub).value, db)
  {
    if step.RenameDatabase? {
      RenameKeepsSub(st, step.db, step.newName, db, x);
    } else {
      assert x in SubsOf(Touch(st, step, nextSub).value, db);
    }
  }

  /** Only a drop task and a user remove a subscription; a rename moves it. */
  lemma StepKeepsSub(s: System, step: Step, t: Timeline, db: string, x: Sub)
    requires Inv(s) && t in s.stores && x in SubsOf(s.stores[t], db) && Next(s, step).Some?
    requires !DropsNow(step, LocalOf(s, step, t), db) && !(step.UserDrop? && step.t == t)
    ensures t in Next(s, step).value.stores && Holds(Next(s, step).value.stores[t], x)
    ensures !RenamesFrom(s.stores[t], step, LocalOf(s, step, t), db) ==> x in SubsOf(Next(s, step).value.stores[t], db)
  {
    assert StoreInv(s.stores[t], s.nextSub);
    LocalStep(s, step, t);
    match LocalOf(s, step, t) {
      case RunActs(run) => ActKeepsSub(run, s.stores[t], step, db, x);
      case DatabaseChanges => TouchKeepsSub(s.stores[t], step, s.nextSub, db, x);
      case Nothing =>
    }
  }

  // ---------------------------------------------------------------- When subscriptions are dropped again

  /** The last step of a quiet continuation drops a subscription that is in `db`. */
  ghost predicate Loses(s: System, steps: seq<Step>, t: Timeline, db: string, x: Sub) {
    && steps != [] && AllQuiet(steps, t, db) && RunSteps(s, steps).Some?
    && var before, after := RunSteps(s, steps[..|steps| - 1]).value, RunSteps(s, steps).value;
       t in before.stores && t in after.stores && x in SubsOf(before.stores[t], db) && !Holds(after.stores[t], x)
  }

  ghost predicate CanLose(s: System, t: Timeline, db: string) {
    exists steps: seq<Step>, x: Sub :: Loses(s, steps, t, db, x)
  }

  lemma {:induction false} QuietRun(s: System, steps: seq<Step>, t: Timeline, db: string)
    requires Inv(s) && t in s.stores && s.stores[t].done == Some(t) && !PendingDrop(s, t, db)
    requires RunSteps(s, steps).Some? && AllQuiet(steps, t, db)
    ensures var e := RunSteps(s, steps).value;
            Inv(e) && t in e.stores && e.stores[t].done == Some(t) && !PendingDrop(e, t, db)
  {
    if steps != [] {
      var k := |steps| - 1;
      QuietRun(s, steps[..k], t, db);
      RunGrows(s, steps, t);
      StepKeepsInv(RunSteps(s, steps[..k]).value, steps[k]);
      StepKeepsQuiet(RunSteps(s, steps[..k]).value, steps[k], t, db);
    }
  }

  lemma QuietNeverLoses(s: System, steps: seq<Step>, t: Timeline, db: string, x: Sub)
    requires Inv(s) && t in s.stores && s.stores[t].done == Some(t) && !PendingDrop(s, t, db)
    ensures !Loses(s, steps, t, db, x)
  {
    if Loses(s, steps, t, db, x) {
      var k := |steps| - 1;
      QuietRun(s, steps[..k], t, db);
      var b := RunSteps(s, steps[..k]).value;
      if DropsNow(steps[k], LocalOf(b, steps[k], t), db) {
        PendingIfDropsNow(b, steps[k], t, db);
      } else {
        StepKeepsSub(b, steps[k], t, db, x);
      }
    }
  }

  lemma RunSnoc(s: System, steps: seq<Step>, step: Step)
    requires RunSteps(s, steps).Some?
    ensures RunSteps(s, steps + [step]) == Next(RunSteps(s, steps).value, step)
  {
    assert (steps + [step])[..|steps|] == steps;
  }

  lemma QuietSnoc(steps: seq<Step>, step: Step, t: Timeline, db: string)
    requires AllQuiet(steps, t, db) && Quiet(step, t, db)
    ensures AllQuiet(steps + [step], t, db)
  {}

  lemma CreatedIsNowhereElse(s: System, t: Timeline, db: string)
    requires t in s.stores && StoreInv(s.stores[t], s.nextSub) && db in s.stores[t].dbs
    ensures Next(s, UserCreate(t, db)).Some?
    ensures var s' := Next(s, UserCreate(t, db)).value;
            && s'.runs == s.runs && t in s'.stores && s'.stores[t].dbs == s.stores[t].dbs
            && s.nextSub in SubsOf(s'.stores[t], db) && forall d :: d != db ==> s.nextSub !in SubsOf(s'.stores[t], d)
  {
    var s' := Next(s, UserCreate(t, db)).value;
    forall d | d != db ensures s.nextSub !in SubsOf(s'.stores[t], d) {
      assert SubsOf(s'.stores[t], d) == SubsOf(s.stores[t], d) && Below(SubsOf(s.stores[t], d), s.nextSub);
    }
  }

  /** A user makes sure that the database exists and creates a subscription in it. */
  lemma UserUses(s: System, t: Timeline, db: string)
    requires t in s.stores && StoreInv(s.stores[t], s.nextSub)
    ensures Next(s, CreateDatabase(t, db)).Some? && Next(Next(s, CreateDatabase(t, db)).value, UserCreate(t, db)).Some?
    ensures var s' := Next(Next(s, CreateDatabase(t, db)).value, UserCreate(t, db)).value;
            && s'.runs == s.runs && t in s'.stores && db in s'.stores[t].dbs
            && s.nextSub in SubsOf(s'.stores[t], db) && forall d :: d != db ==> s.nextSub !in SubsOf(s'.stores[t], d)
  {
    TouchKeepsStore(s.stores[t], CreateDatabase(t, db), s.nextSub);
    CreatedIsNowhereElse(Next(s, CreateDatabase(t, db)).value, t, db);
  }

  lemma RunTwo(s: System, pre: seq<Step>, a: Step, b: Step, t: Timeline, db: string)
    requires AllQuiet(pre, t, db) && Quiet(a, t, db) && Quiet(b, t, db) && RunSteps(s, pre).Some?
    requires Next(RunSteps(s, pre).value, a).Some?
    ensures AllQuiet(pre + [a] + [b], t, db)
    ensures RunSteps(s, pre + [a] + [b]) == Next(Next(RunSteps(s, pre).value, a).value, b)
  {
    QuietSnoc(pre, a, t, db);
    QuietSnoc(pre + [a], b, t, db);
    RunSnoc(s, pre, a);
    RunSnoc(s, pre + [a], b);
  }

  /** A task that is to drop removes a subscription created just before it runs. */
  lemma TaskLoses(s: System, pre: seq<Step>, r: nat, pass: Pass, i: nat, t: Timeline, db: string)
    requires AllQuiet(pre, t, db) && RunSteps(s, pre).Some? && Inv(RunSteps(s, pre).value)
    requires var s1 := RunSteps(s, pre).value;
             t in s1.stores && r in s1.runs && s1.runs[r].timeline == t && TaskPends(BatchOf(s1.runs[r], pass), i, db)
    ensures CanLose(s, t, db)
  {
    var s1, create, use := RunSteps(s, pre).value, CreateDatabase(t, db), UserCreate(t, db);
    UserUses(s1, t, db);
    RunTwo(s, pre, create, use, t, db);
    DropLoses(s, pre + [create] + [use], r, pass, i, t, db, s1.nextSub);
  }

  /** What a drop task that is due does where its database exists. */
  lemma TaskClears(s: System, r: nat, pass: Pass, i: nat, db: string)
    requires r in s.runs && s.runs[r].timeline in s.stores && TaskPends(BatchOf(s.runs[r], pass), i, db)
    requires db in s.stores[s.runs[r].timeline].dbs
    ensures Next(s, Task(r, pass, i)).Some?
    ensures var t := s.runs[r].timeline;
            t in Next(s, Task(r, pass, i)).value.stores
            && Next(s, Task(r, pass, i)).value.stores[t] == Cleared(s.stores[t], db)
  {}

  lemma ClearedHoldsNot(st: Storage, db: string, x: Sub)
    requires forall d :: d != db ==> x !in SubsOf(st, d)
    ensures !Holds(Cleared(st, db), x)
  {
    forall d ensures x !in SubsOf(Cleared(st, db), d) {
      assert d != db ==> SubsOf(Cleared(st, db), d) == SubsOf(st, d);
    }
  }

  lemma DropLoses(s: System, pre: seq<Step>, r: nat, pass: Pass, i: nat, t: Timeline, db: string, x: Sub)
    requires AllQuiet(pre, t, db) && RunSteps(s, pre).Some?
    requires var s1 := RunSteps(s, pre).value;
             && t in s1.stores && r in s1.runs && s1.runs[r].timeline == t && TaskPends(BatchOf(s1.runs[r], pass), i, db)
             && db in s1.stores[t].dbs && x in SubsOf(s1.stores[t], db)
             && forall d :: d != db ==> x !in SubsOf(s1.stores[t], d)
    ensures CanLose(s, t, db)
  {
    var s1, task := RunSteps(s, pre).value, Task(r, pass, i);
    TaskClears(s1, r, pass, i, db);
    ClearedHoldsNot(s1.stores[t], db, x);
    RunSnoc(s, pre, task);
    QuietSnoc(pre, task, t, db);
    var steps := pre + [task];
    assert steps[..|steps| - 1] == pre;
    assert Loses(s, steps, t, db, x);
  }

  lemma CheckedDeleteLoses(s: System, pre: seq<Step>, r: nat, t: Timeline, db: string)
    requires AllQuiet(pre, t, db) && RunSteps(s, pre).Some? && Inv(RunSteps(s, pre).value)
    requires var s1 := RunSteps(s, pre).value; t in s1.stores && r in s1.runs && s1.runs[r].timeline == t
    requires var run := RunSteps(s, pre).value.runs[r]; run.pc == Checked && db in Deletes(run.deltas)
    ensures CanLose(s, t, db)
  {
    var s1 := RunSteps(s, pre).value;
    var mirror: SpecApply.Mirror := map[db := SpecApply.Database(db, "", false, false)];
    var spawn := PreSpawn(r, mirror);
    RunSnoc(s, pre, spawn);
    StepKeepsInv(s1, spawn);
    QuietSnoc(pre, spawn, t, db);
    var names := Deletes(s1.runs[r].deltas);
    var i: nat :| i < |names| && names[i] == db;
    assert db in Accessible(mirror);
    TaskLoses(s, pre + [spawn], r, Pre, i, t, db);
  }

  /** A run that is to delete `db` comes to its task. */
  lemma DeleteLoses(s: System, r: nat, t: Timeline, db: string)
    requires Inv(s) && t in s.stores && r in s.runs && s.runs[r].timeline == t && DeletePends(s.runs[r], db)
    ensures CanLose(s, t, db)
  {
    assert RunSteps(s, []) == Some(s);
    if s.runs[r].pc == Started {
      RunSnoc(s, [], Check(r));
      QuietSnoc([], Check(r), t, db);
      StepKeepsInv(s, Check(r));
      CheckedDeleteLoses(s, [] + [Check(r)], r, t, db);
    } else {
      CheckedDeleteLoses(s, [], r, t, db);
    }
  }

  lemma PendingCanLose(s: System, r: nat, t: Timeline, db: string)
    requires Inv(s) && t in s.stores && r in s.runs && s.runs[r].timeline == t && WillDrop(s.runs[r], db)
    ensures CanLose(s, t, db)
  {
    var run := s.runs[r];
    assert RunSteps(s, []) == Some(s);
    if DeletePends(run, db) {
      DeleteLoses(s, r, t, db);
    } else if i :| i in run.pre.pending && TaskPends(run.pre, i, db) {
      TaskLoses(s, [], r, Pre, i, t, db);
    } else {
      var i :| i in run.main.pending && TaskPends(run.main, i, db);
      TaskLoses(s, [], r, Main, i, t, db);
    }
  }

  /**
   Exactly when a recorded timeline loses subscriptions: some continuation, without a user's drop and
   without a later run that deletes `db`, drops a subscription in `db` if and only if some run still
   has a drop of `db` before it. Renames, by runs and users, are free to happen.
   */
  lemma DroppedAgainIff(s: System, t: Timeline, db: string)
    requires Reachable(s) && t in s.stores && s.stores[t].done == Some(t)
    ensures CanLose(s, t, db) <==> PendingDrop(s, t, db)
  {
    ReachableInv(s);
    if PendingDrop(s, t, db) {
      var r :| r in s.runs && s.runs[r].timeline == t && WillDrop(s.runs[r], db);
      PendingCanLose(s, r, t, db);
    } else if CanLose(s, t, db) {
      var steps: seq<Step>, x: Sub :| Loses(s, steps, t, db, x);
      QuietNeverLoses(s, steps, t, db, x);
    }
  }

  // ---------------------------------------------------------------- Staying in place

  predicate RenamesIn(deltas: seq<SpecApply.DeltaOp>, from: nat, db: string) {
    exists i :: from <= i < |deltas| && deltas[i].action == "rename_db" && deltas[i].name == db
  }

  /** The run is in progress and still has a rename of `db` before it. */
  predicate RenamePends(run: Run, db: string) {
    Active(run) && RenamesIn(run.deltas, run.next, db)
  }

  /** A run in progress on `t` still has a rename of `db` before it. */
  ghost predicate PendingRename(s: System, t: Timeline, db: string) {
    exists r :: r in s.runs && s.runs[r].timeline == t && RenamePends(s.runs[r], db)
  }

  /** Quiet, and no start of a run on `t` that renames `db`, nor a user's rename of it. */
  predicate LeavesInPlace(step: Step, t: Timeline, db: string) {
    && Quiet(step, t, db)
    && !(step.Begin? && step.t == t && RenamesIn(step.deltas, 0, db))
    && !(step.RenameDatabase? && step.t == t && step.db == db)
  }

  ghost predicate AllLeaveInPlace(steps: seq<Step>, t: Timeline, db: string) {
    forall i :: 0 <= i < |steps| ==> LeavesInPlace(steps[i], t, db)
  }

  lemma ActKeepsPlace(run: Run, st: Storage, step: Step, db: string)
    requires OfRun(step) && Act(run, st, step).Some? && !RenamePends(run, db)
    ensures var run' := Act(run, st, step).value.0; !RenamePends(run', db)
    ensures !RenamesFrom(st, step, RunActs(run), db)
  {
    var run' := Act(run, st, step).value.0;
    ActRecords(run, st, step);
    assert run'.deltas == run.deltas && run.next <= run'.next;
  }

  lemma RunKeepsPlace(s: System, step: Step, r: nat, t: Timeline, db: string)
    requires Inv(s) && t in s.stores && !PendingRename(s, t, db) && Next(s, step).Some?
    requires r in s.runs && r in Next(s, step).value.runs && Next(s, step).value.runs[r].timeline == t
    ensures !RenamePends(Next(s, step).value.runs[r], db)
  {
    LocalRun(s, step, r);
    if OfRun(step) && step.r == r {
      ActRecords(s.runs[r], s.stores[s.runs[r].timeline], step);
      ActKeepsPlace(s.runs[r], s.stores[t], step, db);
    }
  }

  lemma StepKeepsPlace(s: System, step: Step, t: Timeline, db: string)
    requires Inv(s) && t in s.stores && !PendingRename(s, t, db) && Next(s, step).Some? && LeavesInPlace(step, t, db)
    ensures !PendingRename(Next(s, step).value, t, db)
  {
    var s' := Next(s, step).value;
    forall r | r in s'.runs && s'.runs[r].timeline == t ensures !RenamePends(s'.runs[r], db) {
      if r in s.runs {
        RunKeepsPlace(s, step, r, t, db);
      } else {
        LocalNew(s, step, r);
      }
    }
  }

  lemma StaysInPlace(s: System, step: Step, t: Timeline, db: string)
    requires Inv(s) && t in s.stores && !PendingRename(s, t, db) && Next(s, step).Some? && LeavesInPlace(step, t, db)
    ensures !RenamesFrom(s.stores[t], step, LocalOf(s, step, t), db)
  {
    var local := LocalOf(s, step, t);
    if local.RunActs? {
      LocalRunStep(s, step, t);
      assert !RenamePends(local.run, db);
      ActKeepsPlace(local.run, s.stores[t], step, db);
    }
  }

  /**
   With the timeline recorded, no drop or rename of `db` before any run, and no user or later run
   that drops, deletes or renames there, each subscription stays in `db`.
   */
  lemma {:induction false} NewSubscriptionsKept(s: System, steps: seq<Step>, t: Timeline, db: string)
    requires Inv(s) && t in s.stores && s.stores[t].done == Some(t)
    requires !PendingDrop(s, t, db) && !PendingRename(s, t, db)
    requires RunSteps(s, steps).Some? && AllLeaveInPlace(steps, t, db)
    ensures var e := RunSteps(s, steps).value;
            t in e.stores && !PendingRename(e, t, db) && SubsOf(s.stores[t], db) <= SubsOf(e.stores[t], db)
  {
    if steps != [] {
      var k := |steps| - 1;
      NewSubscriptionsKept(s, steps[..k], t, db);
      assert AllQuiet(steps[..k], t, db) by {
        forall i | 0 <= i < k ensures Quiet(steps[..k][i], t, db) {
          assert LeavesInPlace(steps[i], t, db);
        }
      }
      QuietRun(s, steps[..k], t, db);
      assert LeavesInPlace(steps[k], t, db);
      StepKeepsInPlace(RunSteps(s, steps[..k]).value, steps[k], t, db);
    }
  }

  lemma StepKeepsInPlace(s: System, step: Step, t: Timeline, db: string)
    requires Inv(s) && t in s.stores && !PendingDrop(s, t, db) && !PendingRename(s, t, db)
    requires Next(s, step).Some? && LeavesInPlace(step, t, db)
    ensures var e := Next(s, step).value;
            t in e.stores && !PendingRename(e, t, db) && SubsOf(s.stores[t], db) <= SubsOf(e.stores[t], db)
  {
    StepKeepsPlace(s, step, t, db);
    StaysInPlace(s, step, t, db);
    LocalStep(s, step, t);
    forall x | x in SubsOf(s.stores[t], db) ensures x in SubsOf(Next(s, step).value.stores[t], db) {
      if DropsNow(step, LocalOf(s, step, t), db) {
        PendingIfDropsNow(s, step, t, db);
      } else {
        StepKeepsSub(s, step, t, db, x);
      }
    }
  }

  /** A crash takes every task with it: on a recorded timeline no subscription is lost to an earlier run after it. */
  lemma CrashLeavesNothing(s: System, steps: seq<Step>, t: Timeline, db: string)
    requires Inv(s) && t in s.stores && s.stores[t].done == Some(t)
    requires var c := Next(s, Crash(t)).value; RunSteps(c, steps).Some? && AllLeaveInPlace(steps, t, db)
    ensures var e := RunSteps(Next(s, Crash(t)).value, steps).value;
            t in e.stores && SubsOf(s.stores[t], db) <= SubsOf(e.stores[t], db)
  {
    StepKeepsInv(s, Crash(t));
    NewSubscriptionsKept(Next(s, Crash(t)).value, steps, t, db);
  }
}
