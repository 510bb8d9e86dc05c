/**
 Prewarm and offload of the local file cache: at most one task of each kind at a time, guarded by
 replacing the shared state under the lock, and cancellation by a token that is replaced whenever
 a prewarm ends as cancelled.
 */
module Prewarm {
  import opened Wrappers

  type Token = nat
  type TaskId = nat

  datatype PrewarmState = NotPrewarmed | Prewarming | Completed | PrewarmFailed | Skipped | Cancelled
  datatype OffloadState = NotOffloaded | Offloading | Offloaded | OffloadFailed | OffloadSkipped

  /** The shared fields, as one critical section finds and leaves them. */
  datatype Lfc = Lfc(prewarm: PrewarmState, token: Token, offload: OffloadState)

  /** What `prewarm_lfc` leaves behind, and the token of the task it starts, if any. */
  function BeginPrewarm(l: Lfc): (Lfc, Option<Token>) {
    (l.(prewarm := Prewarming), if l.prewarm == Prewarming then None else Some(l.token))
  }

  function EndPrewarm(l: Lfc, outcome: PrewarmState, newToken: Token): Lfc {
    l.(prewarm := outcome, token := if outcome == Cancelled then newToken else l.token)
  }

  function BeginOffload(l: Lfc): (Lfc, bool) {
    (l.(offload := Offloading), l.offload != Offloading)
  }

  /** The lock-protected part of the compute state. */
  class LfcState {
    var prewarm: PrewarmState
    var token: Token
    var offload: OffloadState

    constructor ()
      ensures View() == Lfc(NotPrewarmed, 0, NotOffloaded)
    {
      prewarm, token, offload := NotPrewarmed, 0, NotOffloaded;
    }

    function View(): Lfc
      reads this
    {
      Lfc(prewarm, token, offload)
    }

    method PrewarmLfc() returns (started: Option<Token>)
      modifies this
      ensures (View(), started) == BeginPrewarm(old(View()))
    {
      var t := token;
      var before := prewarm;
      prewarm := Prewarming;
      if before == Prewarming {
        return None;
      }
      started := Some(t);
    }

    method FinishPrewarm(outcome: PrewarmState, newToken: Token)
      modifies this
      ensures View() == EndPrewarm(old(View()), outcome, newToken)
    {
      if outcome == Cancelled {
        token := newToken;
      }
      prewarm := outcome;
    }

    method OffloadLfc() returns (started: bool)
      modifies this
      ensures (View(), started) == BeginOffload(old(View()))
    {
      var before := offload;
      offload := Offloading;
      started := before != Offloading;
    }
  }

  // ---------------------------------------------------------------- Interleavings

  /**
   Unfinished prewarm tasks with their tokens, unfinished offload tasks of both entry points, the
   offload tasks that were aborted, the tokens cancelled so far, and the tokens of the prewarms that ended as
   cancelled, in order.
   */
  datatype State = State(
    lfc: Lfc, nextToken: Token, cancelled: set<Token>, prewarms: map<TaskId, Token>,
    offloads: set<TaskId>, aborted: set<TaskId>, cancelledEnds: seq<Token>)

  datatype Step =
    | RequestPrewarm(id: TaskId) | PrewarmEnds(id: TaskId, outcome: PrewarmState) | CancelPrewarm
    | RequestOffload(id: TaskId) | OffloadEnds(id: TaskId, result: OffloadState) | AbortOffload(id: TaskId)

  const INITIAL := State(Lfc(NotPrewarmed, 0, NotOffloaded), 1, {}, map[], {}, {}, [])

  /** A prewarm ends in a final state, and as cancelled only once its own token is cancelled. */
  predicate PrewarmMayEnd(s: State, id: TaskId, outcome: PrewarmState) {
    && id in s.prewarms && outcome != NotPrewarmed && outcome != Prewarming
    && (outcome == Cancelled ==> s.prewarms[id] in s.cancelled)
  }

  function Next(s: State, step: Step): Option<State> {
    match step
    case RequestPrewarm(id) =>
      if id in s.prewarms then None
      else
        var (lfc, started) := BeginPrewarm(s.lfc);
        Some(s.(lfc := lfc, prewarms := if started.Some? then s.prewarms[id := started.value] else s.prewarms))
    case PrewarmEnds(id, outcome) =>
      if !PrewarmMayEnd(s, id, outcome) then None
      else
        var s' := s.(lfc := EndPrewarm(s.lfc, outcome, s.nextToken), prewarms := s.prewarms - {id});
        Some(if outcome == Cancelled
             then s'.(nextToken := s.nextToken + 1, cancelledEnds := s.cancelledEnds + [s.prewarms[id]]) else s')
    case CancelPrewarm => Some(s.(cancelled := s.cancelled + {s.lfc.token}))
    case RequestOffload(id) =>
      if id in s.offloads || id in s.aborted then None
      else
        var (lfc, started) := BeginOffload(s.lfc);
        Some(s.(lfc := lfc, offloads := if started then s.offloads + {id} else s.offloads))
    case OffloadEnds(id, outcome) =>
      if id !in s.offloads || outcome == Offloading || outcome == NotOffloaded then None
      else Some(s.(lfc := s.lfc.(offload := outcome), offloads := s.offloads - {id}))
    case AbortOffload(id) =>
      if id !in s.offloads then None
      else Some(s.(offloads := s.offloads - {id}, aborted := s.aborted + {id}))
  }

  function Run(s: State, steps: seq<Step>): Option<State>
    decreases |steps|
  {
    if steps == [] then Some(s)
    else match Run(s, steps[..|steps| - 1]) case None => None case Some(s') => Next(s', steps[|steps| - 1])
  }

  ghost predicate Reachable(s: State) {
    exists steps: seq<Step> :: Run(INITIAL, steps) == Some(s)
  }

  // ---------------------------------------------------------------- Invariant

  ghost predicate PrewarmInv(s: State) {
    && (s.lfc.prewarm == Prewarming <==> |s.prewarms| == 1)
    && |s.prewarms| <= 1
    && (forall id :: id in s.prewarms ==> s.prewarms[id] == s.lfc.token)
    && s.lfc.token < s.nextToken
    && (forall i :: 0 <= i < |s.cancelledEnds| ==> s.cancelledEnds[i] < s.lfc.token)
    && (forall i, j :: 0 <= i < j < |s.cancelledEnds| ==> s.cancelledEnds[i] < s.cancelledEnds[j])
    && (forall i :: 0 <= i < |s.cancelledEnds| ==> s.cancelledEnds[i] in s.cancelled)
    && (forall t :: t in s.cancelled ==> t <= s.lfc.token)
  }

  ghost predicate OffloadInv(s: State) {
    && (s.lfc.offload == Offloading <==> |s.offloads| + |s.aborted| == 1)
    && |s.offloads| + |s.aborted| <= 1
  }

  lemma SingletonKey(m: map<TaskId, Token>, id: TaskId)
    requires |m| == 1 && id in m
    ensures m.Keys == {id} && m - {id} == map[]
  {
    var others := m.Keys - {id};
    assert |others| == 0;
    assert m.Keys == {id} + others;
  }

  lemma AddedKey(m: map<TaskId, Token>, id: TaskId, t: Token)
    requires |m| == 0
    ensures |m[id := t]| == 1
  {
    assert m[id := t].Keys == {id};
  }

  lemma StepKeepsPrewarm(s: State, step: Step)
    requires PrewarmInv(s) && Next(s, step).Some?
    ensures PrewarmInv(Next(s, step).value)
  {
    if step.RequestPrewarm? && s.lfc.prewarm != Prewarming {
      AddedKey(s.prewarms, step.id, s.lfc.token);
    }
    if step.PrewarmEnds? {
      assert |s.prewarms| == 1 by {
        assert s.prewarms.Keys != {};
      }
      SingletonKey(s.prewarms, step.id);
    }
  }

  lemma FewerTasks(tasks: set<TaskId>, id: TaskId)
    requires id in tasks
    ensures |tasks - {id}| == |tasks| - 1
  {}

  lemma MoreTasks(tasks: set<TaskId>, id: TaskId)
    requires id !in tasks
    ensures |tasks + {id}| == |tasks| + 1
  {}

  lemma RequestKeepsOffload(s: State, id: TaskId)
    requires OffloadInv(s) && Next(s, RequestOffload(id)).Some?
    ensures OffloadInv(Next(s, RequestOffload(id)).value)
  {
    MoreTasks(s.offloads, id);
  }

  lemma EndKeepsOffload(s: State, id: TaskId, result: OffloadState)
    requires OffloadInv(s) && Next(s, OffloadEnds(id, result)).Some?
    ensures OffloadInv(Next(s, OffloadEnds(id, result)).value)
  {
    FewerTasks(s.offloads, id);
  }

  lemma AbortKeepsOffload(s: State, id: TaskId)
    requires OffloadInv(s) && Next(s, AbortOffload(id)).Some?
    ensures OffloadInv(Next(s, AbortOffload(id)).value)
  {
    FewerTasks(s.offloads, id);
    assert |s.aborted| == 0;
    MoreTasks(s.aborted, id);
  }

  lemma StepKeepsOffload(s: State, step: Step)
    requires OffloadInv(s) && Next(s, step).Some?
    ensures OffloadInv(Next(s, step).value)
  {
    match step {
      case RequestOffload(id) => RequestKeepsOffload(s, id);
      case OffloadEnds(id, result) => EndKeepsOffload(s, id, result);
      case AbortOffload(id) => AbortKeepsOffload(s, id);
      case _ =>
    }
  }

  lemma {:induction false} RunKeepsInv(s: State, steps: seq<Step>)
    requires PrewarmInv(s) && OffloadInv(s) && Run(s, steps).Some?
    ensures PrewarmInv(Run(s, steps).value) && OffloadInv(Run(s, steps).value)
  {
    if steps != [] {
      var k := |steps| - 1;
      RunKeepsInv(s, steps[..k]);
      StepKeepsPrewarm(Run(s, steps[..k]).value, steps[k]);
      StepKeepsOffload(Run(s, steps[..k]).value, steps[k]);
    }
  }

  lemma ReachableInv(s: State)
    requires Reachable(s)
    ensures PrewarmInv(s) && OffloadInv(s)
  {
    var steps :| Run(INITIAL, steps) == Some(s);
    RunKeepsInv(INITIAL, steps);
  }

  // ---------------------------------------------------------------- Exclusion

  /** The state says Prewarming exactly while one prewarm is unfinished, and two never are. */
  lemma PrewarmExclusive(s: State)
    requires Reachable(s)
    ensures s.lfc.prewarm == Prewarming <==> s.prewarms != map[]
    ensures forall a, b :: a in s.prewarms && b in s.prewarms ==> a == b
  {
    ReachableInv(s);
    forall a, b | a in s.prewarms && b in s.prewarms ensures a == b {
      assert s.prewarms.Keys != {};
      SingletonKey(s.prewarms, a);
    }
    if s.prewarms != map[] {
      assert s.prewarms.Keys != {};
    }
  }

  /** The same across both offload entry points, with an aborted task counting as unfinished for ever. */
  lemma OffloadExclusive(s: State)
    requires Reachable(s)
    ensures s.lfc.offload == Offloading <==> s.offloads + s.aborted != {}
    ensures s.aborted == {} ==> (s.lfc.offload == Offloading <==> |s.offloads| == 1)
    ensures |s.offloads| + |s.aborted| <= 1
  {
    ReachableInv(s);
  }

  /** Each cancelled token accounts for at most one cancelled prewarm over the whole run. */
  lemma CancelledAtMostOnce(s: State)
    requires Reachable(s)
    ensures forall i, j :: 0 <= i < j < |s.cancelledEnds| ==> s.cancelledEnds[i] != s.cancelledEnds[j]
    ensures forall i :: 0 <= i < |s.cancelledEnds| ==> s.cancelledEnds[i] in s.cancelled
  {
    ReachableInv(s);
  }

  /** After a cancelled end a new prewarm starts with a token nobody has cancelled. */
  lemma CancellationIsSpent(s: State, id: TaskId)
    requires Reachable(s) && Next(s, PrewarmEnds(id, Cancelled)).Some?
    ensures var s' := Next(s, PrewarmEnds(id, Cancelled)).value;
            s'.lfc.token !in s'.cancelled && s'.lfc.prewarm == Cancelled
  {
    ReachableInv(s);
  }

  /** Aborting the task that runs an offload leaves the state Offloading, and no offload ever starts again. */
  lemma {:induction false} AbortBlocksOffload(s: State, id: TaskId, steps: seq<Step>)
    requires Reachable(s) && Next(s, AbortOffload(id)).Some?
    requires Run(Next(s, AbortOffload(id)).value, steps).Some?
    ensures var e := Run(Next(s, AbortOffload(id)).value, steps).value;
            e.lfc.offload == Offloading && e.offloads == {} && e.aborted == {id}
  {
    ReachableInv(s);
    StepKeepsOffload(s, AbortOffload(id));
    var s1 := Next(s, AbortOffload(id)).value;
    assert s1.aborted == {id} by {
      assert |s1.aborted - {id}| == |s1.aborted| - 1;
    }
    AbortedStays(s1, id, steps);
  }

  lemma {:induction false} AbortedStays(s: State, id: TaskId, steps: seq<Step>)
    requires s.lfc.offload == Offloading && s.offloads == {} && s.aborted == {id} && Run(s, steps).Some?
    ensures var e := Run(s, steps).value; e.lfc.offload == Offloading && e.offloads == {} && e.aborted == {id}
  {
    if steps != [] {
      AbortedStays(s, id, steps[..|steps| - 1]);
    }
  }

  // ---------------------------------------------------------------- What the requests achieve

  /** A prewarm request starts a task exactly when none is unfinished, with the current token. */
  lemma PrewarmStartsIff(s: State, id: TaskId)
    requires Reachable(s) && id !in s.prewarms
    ensures Next(s, RequestPrewarm(id)).Some?
    ensures var s' := Next(s, RequestPrewarm(id)).value;
            && (id in s'.prewarms <==> s.prewarms == map[])
            && (id in s'.prewarms ==> s'.prewarms[id] == s.lfc.token)
            && s'.lfc.prewarm == Prewarming
  {
    PrewarmExclusive(s);
  }

  /** What the task found is what is stored, and a new token exactly after a cancellation. */
  lemma PrewarmEndStored(s: State, id: TaskId, outcome: PrewarmState)
    requires Reachable(s) && Next(s, PrewarmEnds(id, outcome)).Some?
    ensures var s' := Next(s, PrewarmEnds(id, outcome)).value;
            && s'.lfc.prewarm == outcome && s'.prewarms == map[]
            && (s'.lfc.token != s.lfc.token <==> outcome == Cancelled)
  {
    ReachableInv(s);
    assert s.prewarms.Keys != {};
    SingletonKey(s.prewarms, id);
  }

  /** Every unfinished prewarm can end well, and as cancelled exactly once it has been cancelled. */
  lemma CancellationReaches(s: State, id: TaskId)
    requires Reachable(s) && id in s.prewarms
    ensures Next(s, PrewarmEnds(id, Completed)).Some?
    ensures Next(s, CancelPrewarm).Some? && Next(Next(s, CancelPrewarm).value, PrewarmEnds(id, Cancelled)).Some?
    ensures Next(s, PrewarmEnds(id, Cancelled)).Some? <==> s.lfc.token in s.cancelled
  {
    ReachableInv(s);
  }

  /** An offload request starts a task exactly when none is unfinished or aborted, and its result is stored. */
  lemma OffloadStartsIff(s: State, id: TaskId, result: OffloadState)
    requires Reachable(s) && id !in s.offloads && id !in s.aborted
    ensures Next(s, RequestOffload(id)).Some?
    ensures id in Next(s, RequestOffload(id)).value.offloads <==> s.offloads + s.aborted == {}
    ensures result !in {Offloading, NotOffloaded} && s.offloads + s.aborted == {} ==>
              && Next(Next(s, RequestOffload(id)).value, OffloadEnds(id, result)).Some?
              && Next(Next(s, RequestOffload(id)).value, OffloadEnds(id, result)).value.lfc.offload == result
  {
    OffloadExclusive(s);
  }
}
