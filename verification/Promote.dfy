/**
 Promotion of a replica: single flight over a watch channel that is kept in the shared state, and
 the guards that come before `pg_promote`. Calls, the spawned task and the environment interleave.
 */
module Promote {
  import opened Wrappers
  import Prewarm

  type Lsn = nat

  datatype Mode = Primary | Replica | Static

  /** What a call returns. */
  datatype Outcome = Promoted | Failed(error: string)

  const RETRIES: nat := 20
  const SENDER_DROPPED := Failed("promote sender dropped")

  /** The guards at the start of `promote_impl`; a failed prewarm is only logged. */
  predicate GuardsPass(mode: Mode, prewarm: Prewarm.PrewarmState) {
    mode == Replica && prewarm != Prewarm.NotPrewarmed && prewarm != Prewarm.Prewarming
  }

  // ---------------------------------------------------------------- Catching up

  /** The first poll that has caught up, among the first `RETRIES + 1` polls; a failed poll ends the search. */
  function CaughtUpAt(primary: Lsn, polls: seq<Option<Lsn>>, i: nat): Option<Lsn>
    decreases RETRIES + 1 - i
  {
    if i > RETRIES || i >= |polls| || polls[i].None? then None
    else if polls[i].value >= primary then polls[i]
    else CaughtUpAt(primary, polls, i + 1)
  }

  datatype CatchUpError = QueryFailed | DidNotCatchUp

  /** The catch-up loop; each poll is one reply of the standby or an error. */
  method CatchUp(primary: Lsn, polls: seq<Option<Lsn>>) returns (r: Result<Lsn, CatchUpError>)
    ensures r == match CaughtUpAt(primary, polls, 0)
                 case Some(l) => Ok(l)
                 case None => if exists i :: 0 <= i <= RETRIES && (i >= |polls| || polls[i].None?)
                              then Err(QueryFailed) else Err(DidNotCatchUp)
    ensures r.Ok? ==> r.value >= primary
  {
    var standby: Lsn := 0;
    var i: nat := 0;
    while i <= RETRIES
      invariant i <= RETRIES + 1 && i <= |polls|
      invariant CaughtUpAt(primary, polls, 0) == CaughtUpAt(primary, polls, i)
      invariant forall j :: 0 <= j < i ==> j < |polls| && polls[j].Some?
      invariant i > 0 ==> standby < primary
    {
      if i >= |polls| || polls[i].None? {
        return Err(QueryFailed);
      }
      standby := polls[i].value;
      if standby >= primary {
        break;
      }
      i := i + 1;
    }
    if standby < primary {
      return Err(DidNotCatchUp);
    }
    r := Ok(standby);
  }

  /** Success means exactly that one of the first twenty-one polls caught up before any of them failed. */
  lemma {:induction false} CaughtUpExact(primary: Lsn, polls: seq<Option<Lsn>>, i: nat)
    ensures CaughtUpAt(primary, polls, i).Some? <==>
              exists k :: i <= k <= 20 && k < |polls| && polls[k].Some? && polls[k].value >= primary
                && forall j :: i <= j < k ==> polls[j].Some?
    ensures CaughtUpAt(primary, polls, i).Some? ==> CaughtUpAt(primary, polls, i).value >= primary
    decreases RETRIES + 1 - i
  {
    if i <= RETRIES && i < |polls| && polls[i].Some? && polls[i].value < primary {
      CaughtUpExact(primary, polls, i + 1);
      if CaughtUpAt(primary, polls, i + 1).Some? {
        var k :| i + 1 <= k <= RETRIES && k < |polls| && polls[k].Some? && polls[k].value >= primary
          && forall j :: i + 1 <= j < k ==> polls[j].Some?;
        assert forall j :: i <= j < k ==> polls[j].Some?;
      }
    }
  }

  // ---------------------------------------------------------------- The shared slot

  /** The slot that holds the receiver of the one promotion. */
  class PromoteSlot {
    var slot: Option<nat>
    var started: nat

    constructor ()
      ensures slot == None && started == 0
    {
      slot, started := None, 0;
    }

    /** Joins the promotion in the slot, starting it if there is none. */
    method GetOrInsert(channel: nat) returns (task: nat)
      requires started == if slot.Some? then 1 else 0
      modifies this
      ensures slot == Some(task) && started == 1
      ensures task == if old(slot).Some? then old(slot).value else channel
    {
      if slot.None? {
        started := started + 1;
        slot := Some(channel);
      }
      task := slot.value;
    }
  }

  // ---------------------------------------------------------------- Interleavings

  datatype TaskPc = NotStarted | AtGuards | CatchingUp | ReadyToPromote | AfterPromote | Done

  datatype Caller = Waiting | Returned(outcome: Outcome)

  /** The watch channel: the value sent, if any, and whether the sender is still alive. */
  datatype Channel = Channel(sent: Option<Outcome>, open: bool)

  datatype Event =
    | Start(primary: Lsn) | PassedGuards(mode: Mode, prewarm: Prewarm.PrewarmState) | CaughtUp(lsn: Lsn) | PgPromote

  datatype State = State(
    mode: Mode, prewarm: Prewarm.PrewarmState, slot: Option<Channel>, task: TaskPc, primary: Lsn,
    callers: map<nat, Caller>, log: seq<Event>)

  datatype Step =
    | Call(c: nat, primary: Lsn) | Return(c: nat) | Disconnect(c: nat)
    | SetMode(mode: Mode) | SetPrewarm(prewarm: Prewarm.PrewarmState)
    | Guards | Poll(polls: seq<Option<Lsn>>) | IssuePromote | Finish(ok: bool) | TaskError(error: string) | TaskDies

  predicate Initial(s: State) {
    s.slot == None && s.task == NotStarted && s.callers == map[] && s.log == []
  }

  /** The task sends its outcome and drops the sender. */
  function Send(s: State, o: Outcome): State
    requires s.slot.Some?
  {
    s.(slot := Some(Channel(Some(o), false)), task := Done)
  }

  function Next(s: State, step: Step): Option<State> {
    match step
    case Call(c, primary) =>
      if c in s.callers then None
      else
        var s' := s.(callers := s.callers[c := Waiting]);
        Some(if s.slot.Some? then s'
             else s'.(slot := Some(Channel(None, true)), task := AtGuards, primary := primary, log := s.log + [Start(primary)]))
    case Return(c) =>
      if c !in s.callers || s.callers[c] != Waiting || s.slot.None? then None
      else if s.slot.value.sent.Some? then Some(s.(callers := s.callers[c := Returned(s.slot.value.sent.value)]))
      else if !s.slot.value.open then Some(s.(callers := s.callers[c := Returned(SENDER_DROPPED)]))
      else None
    case Disconnect(c) => Some(s.(callers := s.callers - {c}))
    case SetMode(mode) => Some(s.(mode := mode))
    case SetPrewarm(prewarm) => Some(s.(prewarm := prewarm))
    case Guards =>
      if s.task != AtGuards || s.slot.None? then None
      else if GuardsPass(s.mode, s.prewarm)
      then Some(s.(task := CatchingUp, log := s.log + [PassedGuards(s.mode, s.prewarm)]))
      else Some(Send(s, Failed("guard")))
    case Poll(polls) =>
      if s.task != CatchingUp || s.slot.None? then None
      else
        (match CaughtUpAt(s.primary, polls, 0)
         case Some(l) => Some(s.(task := ReadyToPromote, log := s.log + [CaughtUp(l)]))
         case None => Some(Send(s, Failed("didn't catch up"))))
    case IssuePromote =>
      if s.task == ReadyToPromote then Some(s.(task := AfterPromote, log := s.log + [PgPromote])) else None
    case Finish(ok) =>
      if s.task != AfterPromote || s.slot.None? then None
      else Some(Send(s, if ok then Promoted else Failed("after pg_promote")))
    case TaskError(error) =>
      if s.task == NotStarted || s.task == Done || s.slot.None? then None else Some(Send(s, Failed(error)))
    case TaskDies =>
      if s.task == NotStarted || s.task == Done || s.slot.None? then None
      else Some(s.(slot := Some(s.slot.value.(open := false)), task := Done))
  }

  function Run(s: State, steps: seq<Step>): Option<State>
    decreases |steps|
  {
    if steps == [] then Some(s)
    else match Run(s, steps[..|steps| - 1]) case None => None case Some(s') => Next(s', steps[|steps| - 1])
  }

  ghost predicate Reachable(s: State) {
    exists s0: State, steps: seq<Step> :: Initial(s0) && Run(s0, steps) == Some(s)
  }

  // ---------------------------------------------------------------- Invariant

  /** The log runs through start, guards, catching up and promotion in order, and no further than the task. */
  ghost predicate LogInv(s: State) {
    var n := |s.log|;
    && n <= 4
    && (n >= 1 ==> s.log[0] == Start(s.primary))
    && (n >= 2 ==> s.log[1].PassedGuards? && GuardsPass(s.log[1].mode, s.log[1].prewarm))
    && (n >= 3 ==> s.log[2].CaughtUp? && s.log[2].lsn >= s.primary)
    && (n >= 4 ==> s.log[3] == PgPromote)
    && (s.task != Done ==> n == match s.task
                                case NotStarted => 0 case AtGuards => 1 case CatchingUp => 2
                                case ReadyToPromote => 3 case AfterPromote => 4)
    && (n >= 1 <==> s.slot.Some?)
    && (s.task == NotStarted <==> s.slot.None?)
  }

  /** Every caller that returned got the channel's final word. */
  ghost predicate OutcomeInv(s: State) {
    && (s.slot.Some? && s.task != Done ==> s.slot.value == Channel(None, true))
    && (s.slot.Some? && s.task == Done ==> !s.slot.value.open)
    && (forall c :: c in s.callers && s.callers[c].Returned? ==>
          s.slot.Some? && !s.slot.value.open && s.callers[c].outcome == FinalOutcome(s.slot.value))
    && (s.callers != map[] ==> s.slot.Some?)
  }

  function FinalOutcome(ch: Channel): Outcome {
    if ch.sent.Some? then ch.sent.value else SENDER_DROPPED
  }

  lemma StepKeepsInv(s: State, step: Step)
    requires LogInv(s) && OutcomeInv(s) && Next(s, step).Some?
    ensures LogInv(Next(s, step).value) && OutcomeInv(Next(s, step).value)
  {
    if step.Poll? {
      CaughtUpExact(s.primary, step.polls, 0);
    }
    if step.Disconnect? && s.callers == map[] {
      assert s.callers - {step.c} == map[];
    }
  }

  lemma {:induction false} ReachableInv(s: State)
    requires Reachable(s)
    ensures LogInv(s) && OutcomeInv(s)
  {
    var s0, steps :| Initial(s0) && Run(s0, steps) == Some(s);
    RunKeepsInv(s0, steps);
  }

  lemma {:induction false} RunKeepsInv(s: State, steps: seq<Step>)
    requires LogInv(s) && OutcomeInv(s) && Run(s, steps).Some?
    ensures LogInv(Run(s, steps).value) && OutcomeInv(Run(s, steps).value)
  {
    if steps != [] {
      var k := |steps| - 1;
      RunKeepsInv(s, steps[..k]);
      StepKeepsInv(Run(s, steps[..k]).value, steps[k]);
    }
  }

  // ---------------------------------------------------------------- Single flight

  /** Over any run `promote_impl` starts exactly once as soon as anyone has called. */
  lemma StartsOnce(s: State)
    requires Reachable(s)
    ensures forall i, j :: 0 <= i < j < |s.log| ==> !(s.log[i].Start? && s.log[j].Start?)
    ensures s.callers != map[] ==> exists i :: 0 <= i < |s.log| && s.log[i].Start?
  {
    ReachableInv(s);
    assert s.callers != map[] ==> s.log[0].Start?;
  }

  /** `pg_promote` is issued at most once, and only after all three conditions were established, in order. */
  lemma PromoteOnlyGuarded(s: State, i: nat)
    requires Reachable(s) && i < |s.log| && s.log[i] == PgPromote
    ensures i == 3 && |s.log| == 4 && s.log[0] == Start(s.primary)
    ensures s.log[1].PassedGuards? && s.log[1].mode == Replica && s.log[1].prewarm !in {Prewarm.NotPrewarmed, Prewarm.Prewarming}
    ensures s.log[2].CaughtUp? && s.log[2].lsn >= s.primary
  {
    ReachableInv(s);
  }

  /** All callers that ever return get one outcome, across any continuation of the run. */
  lemma {:induction false} OneOutcome(s: State, steps: seq<Step>, c: nat, d: nat)
    requires Reachable(s) && Run(s, steps).Some?
    requires c in s.callers && s.callers[c].Returned?
    requires d in Run(s, steps).value.callers && Run(s, steps).value.callers[d].Returned?
    ensures s.callers[c].outcome == Run(s, steps).value.callers[d].outcome
  {
    ReachableInv(s);
    ClosedStays(s, steps);
  }

  lemma {:induction false} ClosedStays(s: State, steps: seq<Step>)
    requires LogInv(s) && OutcomeInv(s) && Run(s, steps).Some? && s.slot.Some? && !s.slot.value.open
    ensures Run(s, steps).value.slot == s.slot
    ensures LogInv(Run(s, steps).value) && OutcomeInv(Run(s, steps).value)
  {
    if steps != [] {
      var k := |steps| - 1;
      ClosedStays(s, steps[..k]);
      StepKeepsInv(Run(s, steps[..k]).value, steps[k]);
    }
  }

  // ---------------------------------------------------------------- Which outcome

  /** Some step of the run ended the promotion well. */
  ghost predicate FinishedWell(steps: seq<Step>) {
    exists i :: 0 <= i < |steps| && steps[i] == Finish(true)
  }

  lemma FinishedWellSnoc(steps: seq<Step>)
    requires steps != []
    ensures FinishedWell(steps) <==> FinishedWell(steps[..|steps| - 1]) || steps[|steps| - 1] == Finish(true)
  {
    var k := |steps| - 1;
    if FinishedWell(steps[..k]) {
      var i :| 0 <= i < k && steps[..k][i] == Finish(true);
      assert steps[i] == Finish(true);
    }
    if FinishedWell(steps) && steps[k] != Finish(true) {
      var i :| 0 <= i < |steps| && steps[i] == Finish(true);
      assert steps[..k][i] == Finish(true);
    }
  }

  ghost predicate SentPromoted(s: State) {
    s.slot.Some? && s.slot.value.sent == Some(Promoted)
  }

  /** Whether a step makes the outcome Promoted depends on it alone; no step takes that back. */
  lemma SendsPromoted(s: State, step: Step)
    requires LogInv(s) && OutcomeInv(s) && Next(s, step).Some?
    ensures SentPromoted(Next(s, step).value) <==> SentPromoted(s) || step == Finish(true)
    ensures step == Finish(true) ==> |s.log| == 4 && s.log[3] == PgPromote
  {}

  /** Promoted is sent exactly when the promotion finished well, which is only after `pg_promote`. */
  lemma {:induction false} PromotedIff(s0: State, steps: seq<Step>)
    requires Initial(s0) && Run(s0, steps).Some?
    ensures var s := Run(s0, steps).value;
            && (SentPromoted(s) <==> FinishedWell(steps))
            && (FinishedWell(steps) ==> |s.log| == 4 && s.log[3] == PgPromote)
            && LogInv(s) && OutcomeInv(s)
  {
    if steps != [] {
      var k := |steps| - 1;
      PromotedIff(s0, steps[..k]);
      var s1 := Run(s0, steps[..k]).value;
      StepKeepsInv(s1, steps[k]);
      SendsPromoted(s1, steps[k]);
      FinishedWellSnoc(steps);
      LogGrows(s1, steps[k]);
    }
  }

  lemma LogGrows(s: State, step: Step)
    requires LogInv(s) && Next(s, step).Some?
    ensures s.log <= Next(s, step).value.log
  {}

  /** Every caller that has returned was told Promoted exactly when the promotion finished well. */
  lemma CallersToldTruth(s0: State, steps: seq<Step>, c: nat)
    requires Initial(s0) && Run(s0, steps).Some?
    requires c in Run(s0, steps).value.callers && Run(s0, steps).value.callers[c].Returned?
    ensures Run(s0, steps).value.callers[c].outcome == Promoted <==> FinishedWell(steps)
  {
    PromotedIff(s0, steps);
  }

  /** The steps with which a promotion ends badly. */
  predicate EndsBadly(s: State, step: Step) {
    || (step.Guards? && !(s.mode == Replica && s.prewarm != Prewarm.NotPrewarmed && s.prewarm != Prewarm.Prewarming))
    || (step.Poll? && CaughtUpAt(s.primary, step.polls, 0).None?)
    || step == Finish(false) || step.TaskError? || step.TaskDies?
  }

  /** Each of them closes the channel on a failure, which every caller that ever returns gets. */
  lemma BadEndsFail(s: State, step: Step, steps: seq<Step>, c: nat)
    requires Reachable(s) && Next(s, step).Some? && EndsBadly(s, step)
    requires Run(Next(s, step).value, steps).Some?
    requires c in Run(Next(s, step).value, steps).value.callers && Run(Next(s, step).value, steps).value.callers[c].Returned?
    ensures Run(Next(s, step).value, steps).value.callers[c].outcome.Failed?
  {
    ReachableInv(s);
    StepKeepsInv(s, step);
    BadEndCloses(s, step);
    ClosedStays(Next(s, step).value, steps);
  }

  lemma BadEndCloses(s: State, step: Step)
    requires LogInv(s) && OutcomeInv(s) && Next(s, step).Some? && EndsBadly(s, step)
    ensures var s' := Next(s, step).value;
            s'.task == Done && s'.slot.Some? && !s'.slot.value.open && FinalOutcome(s'.slot.value).Failed?
  {}

  /** The guards let pass exactly a replica whose prewarm is neither missing nor in progress. */
  lemma GuardsExact(s: State)
    requires Reachable(s) && s.task == AtGuards
    ensures Next(s, Guards).Some?
    ensures Next(s, Guards).value.task == CatchingUp <==>
              s.mode == Replica && s.prewarm !in {Prewarm.NotPrewarmed, Prewarm.Prewarming}
  {
    ReachableInv(s);
  }

  /** The task is at the given point of a promotion that somebody waits for. */
  ghost predicate At(s: State, task: TaskPc, c: nat) {
    s.task == task && s.slot.Some? && c in s.callers && s.callers[c] == Waiting
  }

  lemma PollCatchesUp(s: State, c: nat)
    requires At(s, CatchingUp, c)
    ensures Next(s, Poll([Some(s.primary)])).Some? && At(Next(s, Poll([Some(s.primary)])).value, ReadyToPromote, c)
  {}

  lemma PromotesAndFinishes(s: State, c: nat)
    requires At(s, ReadyToPromote, c)
    ensures Next(s, IssuePromote).Some?
    ensures var s1 := Next(s, IssuePromote).value;
            && At(s1, AfterPromote, c) && Next(s1, Finish(true)).Some?
            && At(Next(s1, Finish(true)).value, Done, c) && SentPromoted(Next(s1, Finish(true)).value)
  {}

  lemma GuardsPassOn(s: State, c: nat)
    requires At(s, AtGuards, c) && s.mode == Replica && s.prewarm !in {Prewarm.NotPrewarmed, Prewarm.Prewarming}
    ensures Next(s, Guards).Some? && At(Next(s, Guards).value, CatchingUp, c)
  {}

  /** From its start a promotion whose guards hold can go through, and then a waiting caller returns Promoted. */
  lemma PromotionGoesThrough(s: State, c: nat) returns (steps: seq<Step>)
    requires Reachable(s) && At(s, AtGuards, c) && s.mode == Replica
    requires s.prewarm !in {Prewarm.NotPrewarmed, Prewarm.Prewarming}
    ensures Run(s, steps).Some? && c in Run(s, steps).value.callers && Run(s, steps).value.callers[c] == Returned(Promoted)
  {
    steps := [];
    assert Run(s, steps) == Some(s);
    GuardsPassOn(s, c);
    RunSnoc(s, steps, Guards);
    steps := steps + [Guards];
    var s1 := Run(s, steps).value;
    PollCatchesUp(s1, c);
    RunSnoc(s, steps, Poll([Some(s1.primary)]));
    steps := steps + [Poll([Some(s1.primary)])];
    PromotesAndFinishes(Run(s, steps).value, c);
    RunSnoc(s, steps, IssuePromote);
    steps := steps + [IssuePromote];
    RunSnoc(s, steps, Finish(true));
    steps := steps + [Finish(true)];
    RunSnoc(s, steps, Return(c));
    steps := steps + [Return(c)];
  }

  lemma RunSnoc(s: State, steps: seq<Step>, step: Step)
    requires Run(s, steps).Some?
    ensures Run(s, steps + [step]) == Next(Run(s, steps).value, step)
  {
    assert (steps + [step])[..|steps|] == steps;
  }

  /** Once the task is done nobody waits in vain. */
  lemma WaitersCanReturn(s: State, c: nat)
    requires Reachable(s) && s.task == Done && c in s.callers && s.callers[c] == Waiting
    ensures Next(s, Return(c)).Some? && c in Next(s, Return(c)).value.callers
    ensures Next(s, Return(c)).value.callers[c] == Returned(FinalOutcome(s.slot.value))
  {
    ReachableInv(s);
  }
}
