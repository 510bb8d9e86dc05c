/**
 The compute status machine. One mutex-protected status and one condition variable are shared by
 the main thread, the configurator, the certificate watcher and the HTTP handlers. Each critical
 section is one step; a run is any interleaving of steps.
 */
module ComputeStatus {
  import opened Wrappers

  datatype Status =
    | Empty | ConfigurationPending | Init | Running | Configuration | Failed
    | TerminationPendingFast | TerminationPendingImmediate | Terminated
    | RefreshConfigurationPending | RefreshConfiguration

  predicate Terminating(st: Status) {
    st.TerminationPendingFast? || st.TerminationPendingImmediate?
  }

  // ---------------------------------------------------------------- Critical sections

  /** `signal_refresh_configuration`: the status to store, if any. */
  function RefreshTarget(st: Status): Option<Status> {
    if st.Running? || st.Failed? || st.RefreshConfigurationPending?
    then Some(RefreshConfigurationPending) else None
  }

  function ConfigureTarget(st: Status): Option<Status> {
    if st.Empty? || st.Running? then Some(ConfigurationPending) else None
  }

  /** An empty compute in lakebase mode exits the process instead of storing a status. */
  function TerminateTarget(lakebase: bool, mode: Status, st: Status): Option<Status> {
    if st.Running? || (st.Empty? && !lakebase) then Some(mode) else None
  }

  function CleanupTarget(st: Status): Option<Status> {
    if Terminating(st) then Some(Terminated) else None
  }

  datatype CertMove = CertStore(st: Status) | CertWait | CertQuit

  function CertTurn(st: Status): CertMove {
    match st
    case ConfigurationPending | Running => CertStore(ConfigurationPending)
    case Failed | TerminationPendingFast | TerminationPendingImmediate | Terminated => CertQuit
    case Init | Configuration | RefreshConfiguration | RefreshConfigurationPending | Empty => CertWait
  }

  datatype ConfMove = ConfPanic | ConfPark | ConfStore(st: Status) | ConfQuit | ConfAgain

  /** What the configurator does once its waiting is over. */
  function ConfDispatch(st: Status): ConfMove {
    match st
    case ConfigurationPending => ConfStore(Configuration)
    case RefreshConfigurationPending => ConfStore(RefreshConfiguration)
    case Failed => ConfQuit
    case _ => ConfAgain
  }

  predicate ConfInterest(st: Status) {
    st.ConfigurationPending? || st.RefreshConfigurationPending? || st.Failed?
  }

  /**
   One hold of the lock by the configurator: at the top of its loop, or woken from its wait.
   In lakebase mode the wait is a loop; otherwise it waits at most once per iteration.
   */
  function ConfTurn(lakebase: bool, woken: bool, st: Status): ConfMove {
    if !woken && st.RefreshConfiguration? then ConfPanic
    else if lakebase then (if ConfInterest(st) then ConfDispatch(st) else ConfPark)
    else if !woken && !st.ConfigurationPending? then ConfPark
    else ConfDispatch(st)
  }

  /** The shared state behind the mutex. */
  class ComputeNode {
    const lakebase: bool
    var status: Status
    var notified: bool

    constructor (lakebase: bool)
      ensures status == Empty && !notified && this.lakebase == lakebase
    {
      this.lakebase := lakebase;
      status, notified := Empty, false;
    }

    /** The effect of a critical section that may store a status: a store always notifies. */
    twostate predicate Stored(target: Option<Status>)
      reads this
    {
      && status == (if target.Some? then target.value else old(status))
      && notified == (old(notified) || target.Some?)
    }

    method SetStatus(st: Status)
      modifies this
      ensures Stored(Some(st))
    {
      status := st;
      notified := true;
    }

    method SignalRefreshConfiguration() returns (ok: bool)
      modifies this
      ensures Stored(RefreshTarget(old(status)))
      ensures ok <==> RefreshTarget(old(status)).Some? || old(status).Init?
    {
      var allowed := [Running, Failed, RefreshConfigurationPending];
      if status in allowed {
        status := RefreshConfigurationPending;
        notified := true;
        ok := true;
      } else {
        ok := status == Init;
      }
    }

    method Configure() returns (accepted: bool)
      modifies this
      ensures Stored(ConfigureTarget(old(status))) && accepted == ConfigureTarget(old(status)).Some?
    {
      accepted := status == Empty || status == Running;
      if accepted {
        SetStatus(ConfigurationPending);
      }
    }

    method Terminate(mode: Status) returns (accepted: bool)
      requires Terminating(mode)
      modifies this
      ensures Stored(TerminateTarget(lakebase, mode, old(status)))
      ensures accepted <==> old(status) in {Empty, Running, Terminated}
    {
      if status == Terminated {
        return true;
      }
      if status != Empty && status != Running {
        return false;
      }
      if lakebase && status == Empty {
        return true;
      }
      SetStatus(mode);
      accepted := true;
    }

    /** One hold of the lock by the configurator, from its check to its wait, store or exit. */
    method ConfiguratorTurn(woken: bool) returns (move: ConfMove)
      modifies this
      ensures move == ConfTurn(lakebase, woken, old(status))
      ensures Stored(if move.ConfStore? then Some(move.st) else None)
    {
      if !woken && status == RefreshConfiguration {
        return ConfPanic;
      }
      if lakebase {
        if status != ConfigurationPending && status != RefreshConfigurationPending && status != Failed {
          return ConfPark;
        }
      } else if !woken && status != ConfigurationPending {
        return ConfPark;
      }
      if status == ConfigurationPending {
        SetStatus(Configuration);
        move := ConfStore(Configuration);
      } else if status == RefreshConfigurationPending {
        SetStatus(RefreshConfiguration);
        move := ConfStore(RefreshConfiguration);
      } else if status == Failed {
        move := ConfQuit;
      } else {
        move := ConfAgain;
      }
    }

    method CleanupAfterPostgresExit() returns (delayExit: bool)
      modifies this
      ensures Stored(CleanupTarget(old(status))) && delayExit == (old(status) == TerminationPendingFast)
    {
      delayExit := status == TerminationPendingFast;
      if status == TerminationPendingFast || status == TerminationPendingImmediate {
        status := Terminated;
        notified := true;
      }
    }
  }

  // ---------------------------------------------------------------- Interleavings

  datatype MainPc = WaitingSpec | ParkedForSpec | HaveSpec | Starting | Serving | CleanedUp

  datatype ConfPc =
    | ConfNotLaunched | AtTop | ConfParked(on: Status) | Configuring | Refreshing | RefreshApplying
    | ConfExited | ConfAssertFailed

  datatype CertPc = CertNotLaunched | Checking | CertParked | Watching | CertExited

  /** The part of /configure that waits for its outcome. */
  datatype WaiterPc = NoRequest | Submitted | WaiterParked(sawFailed: bool) | Answered(ok: bool)

  /** The part of /terminate that waits for the compute to be Terminated. */
  datatype TermPc = NoTermination | TermSubmitted | TermParked | TermAnswered

  /** Which parked threads have been notified since they parked. */
  datatype Signals = Signals(main: bool, conf: bool, cert: bool, waiter: bool, term: bool)

  datatype State = State(
    lakebase: bool, cliSpec: bool, status: Status, exited: bool,
    main: MainPc, conf: ConfPc, cert: CertPc, waiter: WaiterPc, term: TermPc, sig: Signals)

  datatype Step =
    | HttpConfigure | HttpConfigureAwaited | HttpTerminate(mode: Status) | HttpTerminateAwaited(mode: Status) | HttpRefresh
    | MainTurn | StoreInit | LaunchConfigurator | LaunchCertWatcher | StartOk | StartFailed | Cleanup
    | ConfiguratorTurn | Configured(ok: bool)
    | RefreshFetched(same: bool) | RefreshEmpty | RefreshError | RefreshApplied(ok: bool)
    | CertCheck | CertChanged | CertClosed
    | WaiterCheck | TermCheck

  predicate ByConfigurator(step: Step) {
    step.ConfiguratorTurn? || step.Configured? || step.RefreshFetched? || step.RefreshEmpty?
    || step.RefreshError? || step.RefreshApplied?
  }

  predicate Initial(s: State) {
    && s.status == Empty && !s.exited
    && s.main == (if s.cliSpec then HaveSpec else WaitingSpec)
    && s.conf == ConfNotLaunched && s.cert == CertNotLaunched && s.waiter == NoRequest && s.term == NoTermination
    && s.sig == Signals(false, false, false, false, false)
  }

  /** Every store of a status is followed by notify_all. */
  function Store(s: State, st: Status): State {
    s.(status := st, sig := Signals(true, true, true, true, true))
  }

  function StoreIf(s: State, target: Option<Status>): State {
    if target.Some? then Store(s, target.value) else s
  }

  function ConfStep(s: State): State {
    match ConfTurn(s.lakebase, s.conf.ConfParked?, s.status)
    case ConfPanic => s.(conf := ConfAssertFailed)
    case ConfPark => s.(conf := ConfParked(s.status), sig := s.sig.(conf := false))
    case ConfQuit => s.(conf := ConfExited)
    case ConfAgain => s.(conf := AtTop)
    case ConfStore(st) => Store(s, st).(conf := if st == Configuration then Configuring else Refreshing)
  }

  function CertStep(s: State): State {
    match CertTurn(s.status)
    case CertStore(st) => Store(s, st).(cert := Watching)
    case CertWait => s.(cert := CertParked, sig := s.sig.(cert := false))
    case CertQuit => s.(cert := CertExited)
  }

  function WaiterStep(s: State): State {
    if s.waiter.WaiterParked? && s.status == Failed then s.(waiter := Answered(false))
    else if s.status == Running then s.(waiter := Answered(true))
    else s.(waiter := WaiterParked(s.status == Failed), sig := s.sig.(waiter := false))
  }

  function TermStep(s: State): State {
    if s.status == Terminated then s.(term := TermAnswered)
    else s.(term := TermParked, sig := s.sig.(term := false))
  }

  /** The step's effect, or `None` where its actor is not at that point. Parked threads may wake at any time. */
  function Next(s: State, step: Step): Option<State> {
    if s.exited then None else
    match step
    case HttpConfigure => Some(StoreIf(s, ConfigureTarget(s.status)))
    case HttpConfigureAwaited =>
      if ConfigureTarget(s.status).None? || !s.waiter.NoRequest? then None
      else Some(Store(s, ConfigurationPending).(waiter := Submitted))
    case HttpTerminate(mode) =>
      if Terminating(mode) then Some(StoreIf(s, TerminateTarget(s.lakebase, mode, s.status))) else None
    case HttpTerminateAwaited(mode) =>
      if !Terminating(mode) || TerminateTarget(s.lakebase, mode, s.status).None? || !s.term.NoTermination? then None
      else Some(Store(s, mode).(term := TermSubmitted))
    case HttpRefresh => Some(StoreIf(s, RefreshTarget(s.status)))
    case MainTurn =>
      if s.main != WaitingSpec && s.main != ParkedForSpec then None
      else if s.status == ConfigurationPending then Some(s.(main := HaveSpec))
      else Some(s.(main := ParkedForSpec, sig := s.sig.(main := false)))
    case StoreInit => if s.main == HaveSpec then Some(Store(s, Init).(main := Starting)) else None
    case LaunchConfigurator =>
      if s.main == Starting && s.conf == ConfNotLaunched then Some(s.(conf := AtTop)) else None
    case LaunchCertWatcher =>
      if s.main == Starting && s.cert == CertNotLaunched then Some(s.(cert := Checking)) else None
    case StartOk => if s.main == Starting then Some(Store(s, Running).(main := Serving)) else None
    case StartFailed => if s.main == Starting then Some(Store(s, Failed).(main := Serving)) else None
    case Cleanup =>
      if s.main == Serving then Some(StoreIf(s, CleanupTarget(s.status)).(main := CleanedUp)) else None
    case ConfiguratorTurn => if s.conf == AtTop || s.conf.ConfParked? then Some(ConfStep(s)) else None
    case Configured(ok) =>
      if s.conf == Configuring then Some(Store(s, if ok then Running else Failed).(conf := AtTop)) else None
    case RefreshFetched(same) =>
      if s.conf != Refreshing then None
      else if s.status != RefreshConfiguration then Some(s.(conf := ConfAssertFailed))
      else if same then Some(Store(s, Running).(conf := AtTop))
      else Some(s.(conf := RefreshApplying))
    case RefreshEmpty => if s.conf == Refreshing then Some(s.(exited := true)) else None
    case RefreshError =>
      if s.conf == Refreshing then Some(Store(s, RefreshConfigurationPending).(conf := AtTop)) else None
    case RefreshApplied(ok) =>
      if s.conf == RefreshApplying
      then Some(Store(s, if ok then Running else RefreshConfigurationPending).(conf := AtTop)) else None
    case CertCheck => if s.cert == Checking || s.cert == CertParked then Some(CertStep(s)) else None
    case CertChanged => if s.cert == Watching then Some(s.(cert := Checking)) else None
    case CertClosed => if s.cert == Watching then Some(s.(cert := CertExited)) else None
    case TermCheck => if s.term.TermSubmitted? || s.term.TermParked? then Some(TermStep(s)) else None
    case WaiterCheck => if s.waiter.Submitted? || s.waiter.WaiterParked? then Some(WaiterStep(s)) else None
  }

  function Run(s: State, steps: seq<Step>): Option<State>
    decreases |steps|
  {
    if steps == [] then Some(s)
    else match Run(s, steps[..|steps| - 1]) case None => None case Some(s') => Next(s', steps[|steps| - 1])
  }

  ghost predicate Reachable(s: State) {
    exists s0: State, steps: seq<Step> :: Initial(s0) && Run(s0, steps) == Some(s)
  }

  // ---------------------------------------------------------------- Invariant

  ghost predicate BeforeInit(s: State) {
    s.main == WaitingSpec || s.main == ParkedForSpec || s.main == HaveSpec
  }

  ghost predicate OwnersInv(s: State) {
    && (BeforeInit(s) ==>
          && s.conf == ConfNotLaunched && s.cert == CertNotLaunched
          && (s.status == Empty || s.status == ConfigurationPending || Terminating(s.status)))
    && (BeforeInit(s) && s.lakebase ==> !Terminating(s.status))
    && (s.main == HaveSpec && !s.cliSpec ==> s.status == ConfigurationPending)
    && (BeforeInit(s) && s.main != HaveSpec ==> !s.cliSpec)
    && (s.main == Starting <==> s.status == Init)
    && (s.status == Empty ==> BeforeInit(s))
    && (s.status == Configuration <==> s.conf == Configuring)
    && (s.status == RefreshConfiguration <==> s.conf == Refreshing || s.conf == RefreshApplying)
    && (s.status == Terminated ==> s.main == CleanedUp)
    && s.conf != ConfAssertFailed
  }

  ghost predicate ConfAwake(s: State) {
    s.conf.ConfParked? && !s.sig.conf ==>
      s.status == s.conf.on && if s.lakebase then !ConfInterest(s.conf.on) else s.conf.on != ConfigurationPending
  }

  ghost predicate CertAwake(s: State) {
    s.cert == CertParked && !s.sig.cert ==> CertTurn(s.status).CertWait?
  }

  ghost predicate MainAwake(s: State) {
    s.main == ParkedForSpec && !s.sig.main ==> s.status != ConfigurationPending
  }

  ghost predicate WaiterAwake(s: State) {
    s.waiter.WaiterParked? && !s.sig.waiter ==>
      s.status != Running && (s.status == Failed <==> s.waiter.sawFailed)
  }

  ghost predicate TermAwake(s: State) {
    s.term.TermParked? && !s.sig.term ==> s.status != Terminated
  }

  /** Nobody sleeps through a status it waits for. */
  ghost predicate WakeInv(s: State) {
    ConfAwake(s) && CertAwake(s) && MainAwake(s) && WaiterAwake(s) && TermAwake(s)
  }

  predicate ByHandler(step: Step) {
    step.HttpConfigure? || step.HttpConfigureAwaited? || step.HttpTerminate? || step.HttpTerminateAwaited?
    || step.HttpRefresh? || step.WaiterCheck? || step.TermCheck?
  }

  predicate ByCertWatcher(step: Step) {
    step.CertCheck? || step.CertChanged? || step.CertClosed?
  }

  lemma HandlerKeepsOwners(s: State, step: Step)
    requires OwnersInv(s) && ByHandler(step) && Next(s, step).Some?
    ensures OwnersInv(Next(s, step).value)
  {}

  lemma ConfiguratorKeepsOwners(s: State, step: Step)
    requires OwnersInv(s) && ByConfigurator(step) && Next(s, step).Some?
    ensures OwnersInv(Next(s, step).value)
  {}

  lemma CertWatcherKeepsOwners(s: State, step: Step)
    requires OwnersInv(s) && ByCertWatcher(step) && Next(s, step).Some?
    ensures OwnersInv(Next(s, step).value)
  {}

  lemma MainKeepsOwners(s: State, step: Step)
    requires OwnersInv(s) && Next(s, step).Some?
    requires !ByHandler(step) && !ByConfigurator(step) && !ByCertWatcher(step)
    ensures OwnersInv(Next(s, step).value)
  {}

  lemma StepKeepsOwners(s: State, step: Step)
    requires OwnersInv(s) && Next(s, step).Some?
    ensures OwnersInv(Next(s, step).value)
  {
    if ByHandler(step) {
      HandlerKeepsOwners(s, step);
    } else if ByConfigurator(step) {
      ConfiguratorKeepsOwners(s, step);
    } else if ByCertWatcher(step) {
      CertWatcherKeepsOwners(s, step);
    } else {
      MainKeepsOwners(s, step);
    }
  }

  lemma ParkedConfStaysAwake(s: State, step: Step)
    requires ConfAwake(s) && Next(s, step).Some? && !step.ConfiguratorTurn?
    ensures ConfAwake(Next(s, step).value)
  {}

  lemma ConfStaysAwake(s: State, step: Step)
    requires ConfAwake(s) && Next(s, step).Some?
    ensures ConfAwake(Next(s, step).value)
  {
    if !step.ConfiguratorTurn? {
      ParkedConfStaysAwake(s, step);
    }
  }

  lemma CertStaysAwake(s: State, step: Step)
    requires CertAwake(s) && Next(s, step).Some?
    ensures CertAwake(Next(s, step).value)
  {}

  lemma MainStaysAwake(s: State, step: Step)
    requires MainAwake(s) && Next(s, step).Some?
    ensures MainAwake(Next(s, step).value)
  {}

  lemma WaiterStaysAwake(s: State, step: Step)
    requires WaiterAwake(s) && Next(s, step).Some?
    ensures WaiterAwake(Next(s, step).value)
  {}

  lemma TermStaysAwake(s: State, step: Step)
    requires TermAwake(s) && Next(s, step).Some?
    ensures TermAwake(Next(s, step).value)
  {}

  lemma StepKeepsWake(s: State, step: Step)
    requires WakeInv(s) && Next(s, step).Some?
    ensures WakeInv(Next(s, step).value)
  {
    ConfStaysAwake(s, step);
    CertStaysAwake(s, step);
    MainStaysAwake(s, step);
    WaiterStaysAwake(s, step);
    TermStaysAwake(s, step);
  }

  lemma {:induction false} RunKeepsInv(s: State, steps: seq<Step>)
    requires OwnersInv(s) && WakeInv(s) && Run(s, steps).Some?
    ensures OwnersInv(Run(s, steps).value) && WakeInv(Run(s, steps).value)
  {
    if steps != [] {
      var k := |steps| - 1;
      RunKeepsInv(s, steps[..k]);
      StepKeepsOwners(Run(s, steps[..k]).value, steps[k]);
      StepKeepsWake(Run(s, steps[..k]).value, steps[k]);
    }
  }

  lemma ReachableInv(s: State)
    requires Reachable(s)
    ensures OwnersInv(s) && WakeInv(s)
  {
    var s0, steps :| Initial(s0) && Run(s0, steps) == Some(s);
    RunKeepsInv(s0, steps);
  }

  // ---------------------------------------------------------------- Ownership

  lemma OthersLeaveStatus(s: State, step: Step)
    requires OwnersInv(s) && Next(s, step).Some? && !ByConfigurator(step)
    requires s.status == Configuration || s.status == RefreshConfiguration
    ensures Next(s, step).value.status == s.status
  {}

  /**
   While the configurator has stored Configuration or RefreshConfiguration no other actor changes
   the status, so neither of its assertions can fail.
   */
  lemma ConfiguratorOwnsStatus(s: State, step: Step)
    requires Reachable(s) && Next(s, step).Some?
    ensures s.conf != ConfAssertFailed && Next(s, step).value.conf != ConfAssertFailed
    ensures (s.status == Configuration || s.status == RefreshConfiguration) && !ByConfigurator(step) ==>
              Next(s, step).value.status == s.status
  {
    ReachableInv(s);
    StepKeepsOwners(s, step);
    if (s.status == Configuration || s.status == RefreshConfiguration) && !ByConfigurator(step) {
      OthersLeaveStatus(s, step);
    }
  }

  /** The spec is applied by the main thread or by the configurator, never by both at once. */
  lemma AppliesNeverOverlap(s: State)
    requires Reachable(s) && s.main == Starting
    ensures s.conf != Configuring && s.conf != Refreshing && s.conf != RefreshApplying
  {
    ReachableInv(s);
  }

  /** A pending termination is overwritten by anything but Terminated exactly by the store of Init. */
  lemma TerminationOverwritten(s: State, step: Step)
    requires Reachable(s) && Terminating(s.status) && Next(s, step).Some?
    ensures var st := Next(s, step).value.status;
            && (st != s.status && st != Terminated <==> step.StoreInit?)
            && (step.StoreInit? ==> s.cliSpec && !s.lakebase)
  {
    ReachableInv(s);
  }

  lemma TerminationStep(s: State, step: Step)
    requires OwnersInv(s) && !BeforeInit(s) && Next(s, step).Some?
    requires Terminating(s.status) || s.status == Terminated
    ensures !BeforeInit(Next(s, step).value) && Next(s, step).value.status in {s.status, Terminated}
  {}

  /** Once Init has been stored a termination survives any further run, and Terminated is final. */
  lemma {:induction false} TerminationSurvives(s: State, steps: seq<Step>)
    requires OwnersInv(s) && !BeforeInit(s) && Run(s, steps).Some?
    requires Terminating(s.status) || s.status == Terminated
    ensures var t := Run(s, steps).value;
            && OwnersInv(t) && !BeforeInit(t)
            && (t.status == Terminated || (t.status == s.status && Terminating(s.status)))
  {
    if steps != [] {
      var k := |steps| - 1;
      TerminationSurvives(s, steps[..k]);
      TerminationStep(Run(s, steps[..k]).value, steps[k]);
      StepKeepsOwners(Run(s, steps[..k]).value, steps[k]);
    }
  }

  /** A termination accepted in Running is never lost. */
  lemma RunningTerminationKept(s: State, mode: Status, steps: seq<Step>)
    requires Reachable(s) && s.status == Running && Terminating(mode) && !s.exited
    requires Run(Next(s, HttpTerminate(mode)).value, steps).Some?
    ensures Next(s, HttpTerminate(mode)).value.status == mode
    ensures Run(Next(s, HttpTerminate(mode)).value, steps).value.status in {mode, Terminated}
  {
    ReachableInv(s);
    var s' := Next(s, HttpTerminate(mode)).value;
    StepKeepsOwners(s, HttpTerminate(mode));
    TerminationSurvives(s', steps);
  }

  // ---------------------------------------------------------------- Wake-ups

  /**
   A parked, unsignalled configurator sleeps on the status it parked on. In lakebase mode that is
   none it waits for; otherwise it is not ConfigurationPending, and it sleeps on a requested refresh
   exactly when it found that status at the top of its loop.
   */
  lemma NoLostWakeup(s: State)
    requires Reachable(s) && s.conf.ConfParked? && !s.sig.conf
    ensures s.lakebase ==> s.status !in {ConfigurationPending, RefreshConfigurationPending, Failed}
    ensures !s.lakebase ==> s.status != ConfigurationPending
    ensures s.status == RefreshConfigurationPending <==> !s.lakebase && s.conf.on == RefreshConfigurationPending
  {
    ReachableInv(s);
  }

  /**
   The other waits: for a spec, for a configurable compute, for the outcome of /configure, which is
   missed exactly where the first look found Failed, and for the end of /terminate.
   */
  lemma OtherWaitersWake(s: State)
    requires Reachable(s)
    ensures s.main == ParkedForSpec && !s.sig.main ==> s.status != ConfigurationPending
    ensures s.cert == CertParked && !s.sig.cert ==> CertTurn(s.status).CertWait?
    ensures s.waiter.WaiterParked? && !s.sig.waiter ==>
              s.status != Running && (s.status == Failed <==> s.waiter.sawFailed)
    ensures s.term.TermParked? && !s.sig.term ==> s.status != Terminated
  {
    ReachableInv(s);
  }

  // ---------------------------------------------------------------- The documented diagram

  predicate Documented(a: Status, b: Status) {
    match a
    case Empty => b in {ConfigurationPending, Init, TerminationPendingFast, TerminationPendingImmediate}
    case ConfigurationPending => b == Configuration
    case Configuration => b in {Failed, Running}
    case Init => b in {Failed, Running}
    case Running => b in {TerminationPendingFast, TerminationPendingImmediate, ConfigurationPending,
                          RefreshConfigurationPending}
    case RefreshConfigurationPending => b == RefreshConfiguration
    case RefreshConfiguration => b in {Running, RefreshConfigurationPending}
    case TerminationPendingFast => b == Terminated
    case TerminationPendingImmediate => b == Terminated
    case Failed => b == RefreshConfigurationPending
    case Terminated => false
  }

  /** The two stores of Init that the diagram lacks. */
  predicate LateInit(s: State, step: Step) {
    step.StoreInit? && (s.status == ConfigurationPending || (Terminating(s.status) && s.cliSpec && !s.lakebase))
  }

  lemma HandlerArcs(s: State, step: Step)
    requires OwnersInv(s) && Next(s, step).Some? && ByHandler(step)
    ensures var st := Next(s, step).value.status; st == s.status || Documented(s.status, st)
  {}

  lemma OtherArcs(s: State, step: Step)
    requires OwnersInv(s) && Next(s, step).Some? && !ByHandler(step)
    ensures var st := Next(s, step).value.status;
            st == s.status || Documented(s.status, st) || LateInit(s, step)
  {}

  /** Every change of status is an arc of the documented diagram, except the late store of Init. */
  lemma ArcsDocumented(s: State, step: Step)
    requires Reachable(s) && Next(s, step).Some?
    ensures var st := Next(s, step).value.status;
            st == s.status || Documented(s.status, st) || LateInit(s, step)
  {
    ReachableInv(s);
    if ByHandler(step) {
      HandlerArcs(s, step);
    } else {
      OtherArcs(s, step);
    }
  }

  // ---------------------------------------------------------------- Runs that the code allows

  function Start(lakebase: bool, cliSpec: bool): State {
    State(lakebase, cliSpec, Empty, false, if cliSpec then HaveSpec else WaitingSpec,
          ConfNotLaunched, CertNotLaunched, NoRequest, NoTermination, Signals(false, false, false, false, false))
  }

  lemma ReachNext(s: State, step: Step, s': State)
    requires Reachable(s) && Next(s, step) == Some(s')
    ensures Reachable(s')
  {
    var s0, steps :| Initial(s0) && Run(s0, steps) == Some(s);
    assert (steps + [step])[..|steps|] == steps;
    assert Run(s0, steps + [step]) == Some(s');
  }

  lemma ReachStart(lakebase: bool, cliSpec: bool)
    ensures Reachable(Start(lakebase, cliSpec))
  {
    var s0 := Start(lakebase, cliSpec);
    assert Initial(s0) && Run(s0, []) == Some(s0);
  }

  /** A compute that started from a CLI spec, with its configurator at the top of its loop. */
  function Started(lakebase: bool): State {
    State(lakebase, true, Running, false, Serving, AtTop, CertNotLaunched, NoRequest, NoTermination,
          Signals(true, true, true, true, true))
  }

  lemma ReachStarted(lakebase: bool)
    ensures Reachable(Started(lakebase))
  {
    var s0 := Start(lakebase, true);
    var s1 := Store(s0, Init).(main := Starting);
    var s2 := s1.(conf := AtTop);
    ReachStart(lakebase, true);
    ReachNext(s0, StoreInit, s1);
    ReachNext(s1, LaunchConfigurator, s2);
    ReachNext(s2, StartOk, Started(lakebase));
  }

  /** Outside lakebase mode the configurator can park, unsignalled, on a requested refresh. */
  lemma RefreshCanBeMissed() returns (s: State)
    ensures Reachable(s) && !s.lakebase
    ensures s.conf.ConfParked? && !s.sig.conf && s.status == RefreshConfigurationPending
  {
    ReachStarted(false);
    var s1 := Store(Started(false), RefreshConfigurationPending);
    ReachNext(Started(false), HttpRefresh, s1);
    s := s1.(conf := ConfParked(RefreshConfigurationPending), sig := s1.sig.(conf := false));
    ReachNext(s1, ConfiguratorTurn, s);
  }

  /** A termination accepted while a compute with a CLI spec is still Empty is lost. */
  lemma EmptyTerminationIsLost() returns (s: State)
    ensures Reachable(s) && s.status == TerminationPendingFast
    ensures Next(s, StoreInit).Some? && Next(s, StoreInit).value.status == Init
  {
    ReachStart(false, true);
    s := Store(Start(false, true), TerminationPendingFast);
    ReachNext(Start(false, true), HttpTerminate(TerminationPendingFast), s);
  }

  /** A started compute with an awaited /configure request. */
  function Awaited(lakebase: bool): State {
    Store(Started(lakebase), ConfigurationPending).(waiter := Submitted)
  }

  lemma ReachAwaited(lakebase: bool)
    ensures Reachable(Awaited(lakebase))
  {
    ReachStarted(lakebase);
    ReachNext(Started(lakebase), HttpConfigureAwaited, Awaited(lakebase));
  }

  /** The same with the configurator in the middle of it. */
  function AwaitedConfiguring(lakebase: bool): State {
    State(lakebase, true, Configuration, false, Serving, Configuring, CertNotLaunched, Submitted, NoTermination,
          Signals(true, true, true, true, true))
  }

  lemma ReachAwaitedConfiguring(lakebase: bool)
    ensures Reachable(AwaitedConfiguring(lakebase))
  {
    ReachAwaited(lakebase);
    ReachNext(Awaited(lakebase), ConfiguratorTurn, AwaitedConfiguring(lakebase));
  }

  function AwaitedFailed(lakebase: bool): State {
    State(lakebase, true, Failed, false, Serving, AtTop, CertNotLaunched, Submitted, NoTermination,
          Signals(true, true, true, true, true))
  }

  lemma ReachAwaitedFailed(lakebase: bool)
    ensures Reachable(AwaitedFailed(lakebase))
  {
    ReachAwaitedConfiguring(lakebase);
    ReachNext(AwaitedConfiguring(lakebase), Configured(false), AwaitedFailed(lakebase));
  }

  /** A /configure request whose configuration failed before it first looked waits, unsignalled, on Failed. */
  lemma ConfigureCanMissFailure(lakebase: bool) returns (s: State)
    ensures Reachable(s) && s.waiter.WaiterParked? && !s.sig.waiter && s.status == Failed
  {
    var s1 := AwaitedFailed(lakebase);
    ReachAwaitedFailed(lakebase);
    s := Next(s1, WaiterCheck).value;
    ReachNext(s1, WaiterCheck, s);
  }

  // ---------------------------------------------------------------- What the turns achieve

  /** Nobody but the configurator, and it at the top of its loop or woken. */
  predicate ConfiguratorReady(s: State) {
    s.conf == AtTop || s.conf.ConfParked?
  }

  /** It takes a requested refresh up in lakebase mode, and otherwise once it has been woken. */
  predicate TakesRefresh(s: State) {
    s.lakebase || s.conf.ConfParked?
  }

  /**
   A turn of the configurator takes up every requested configuration, and every requested refresh
   except at the top of its loop outside lakebase mode; it leaves any other status alone and ends
   for good exactly where it finds Failed.
   */
  lemma TurnOutcome(s: State)
    requires Reachable(s) && !s.exited && ConfiguratorReady(s)
    ensures Next(s, ConfiguratorTurn).Some?
    ensures var s' := Next(s, ConfiguratorTurn).value;
            && (s.status == ConfigurationPending ==> s'.status == Configuration && s'.conf == Configuring)
            && (s.status == RefreshConfigurationPending && TakesRefresh(s) ==>
                  s'.status == RefreshConfiguration && s'.conf == Refreshing)
            && (s.status == RefreshConfigurationPending && !TakesRefresh(s) ==> s'.conf == ConfParked(s.status))
            && (s.status !in {ConfigurationPending, RefreshConfigurationPending} ==> s'.status == s.status)
            && (s'.conf == ConfExited <==> s.status == Failed && TakesRefresh(s))
            && (s'.conf == ConfParked(s.status) || s'.conf == AtTop <==>
                  s.status != ConfigurationPending && !(TakesRefresh(s) && s.status in {RefreshConfigurationPending, Failed}))
  {
    ReachableInv(s);
  }

  /** How applying a configuration, a refresh and a start end. */
  lemma AppliesEnd(s: State, ok: bool)
    requires Reachable(s) && !s.exited
    ensures s.conf == Configuring ==>
              Next(s, Configured(ok)).Some?
              && Next(s, Configured(ok)).value.status == (if ok then Running else Failed)
              && Next(s, Configured(ok)).value.conf == AtTop
    ensures s.main == Starting ==>
              && Next(s, StartOk).Some? && Next(s, StartOk).value.status == Running
              && Next(s, StartFailed).Some? && Next(s, StartFailed).value.status == Failed
  {}

  lemma RefreshesEnd(s: State)
    requires Reachable(s) && !s.exited && s.conf == Refreshing
    ensures Next(s, RefreshFetched(true)).Some? && Next(s, RefreshFetched(true)).value.status == Running
    ensures Next(s, RefreshFetched(false)).Some? && Next(s, RefreshFetched(false)).value.conf == RefreshApplying
    ensures Next(s, RefreshFetched(false)).value.status == RefreshConfiguration
    ensures Next(s, RefreshError).Some? && Next(s, RefreshError).value.status == RefreshConfigurationPending
    ensures Next(s, RefreshEmpty).Some? && Next(s, RefreshEmpty).value.exited
  {
    ReachableInv(s);
  }

  lemma RefreshAppliesEnd(s: State, ok: bool)
    requires Reachable(s) && !s.exited && s.conf == RefreshApplying
    ensures Next(s, RefreshApplied(ok)).Some?
    ensures Next(s, RefreshApplied(ok)).value.status == (if ok then Running else RefreshConfigurationPending)
    ensures Next(s, RefreshApplied(ok)).value.conf == AtTop
  {}

  /** What the requests do in every status: which ones they change, and to what. */
  lemma RequestsEnd(s: State, mode: Status)
    requires Reachable(s) && !s.exited && Terminating(mode)
    ensures Next(s, HttpConfigure).Some?
    ensures Next(s, HttpConfigure).value.status
         == if s.status in {Empty, Running} then ConfigurationPending else s.status
    ensures Next(s, HttpTerminate(mode)).Some?
    ensures Next(s, HttpTerminate(mode)).value.status
         == if s.status == Running || (s.status == Empty && !s.lakebase) then mode else s.status
    ensures Next(s, HttpRefresh).Some?
    ensures Next(s, HttpRefresh).value.status
         == if s.status in {Running, Failed, RefreshConfigurationPending} then RefreshConfigurationPending else s.status
  {}

  /** The certificate watcher asks for a configuration from Running, and ends where no compute is left. */
  lemma CertCheckEnds(s: State)
    requires Reachable(s) && !s.exited && (s.cert == Checking || s.cert == CertParked)
    ensures Next(s, CertCheck).Some?
    ensures var s' := Next(s, CertCheck).value;
            && (s'.cert == Watching <==> s.status in {Running, ConfigurationPending})
            && (s'.cert == CertExited <==> s.status in {Failed, Terminated} || Terminating(s.status))
            && s'.status == if s.status == Running then ConfigurationPending else s.status
  {}

  /** The waits end exactly with what they wait for. */
  lemma WaitsEnd(s: State)
    requires Reachable(s) && !s.exited
    ensures s.main in {WaitingSpec, ParkedForSpec} ==>
              Next(s, MainTurn).Some? && (Next(s, MainTurn).value.main == HaveSpec <==> s.status == ConfigurationPending)
    ensures s.term in {TermSubmitted, TermParked} ==>
              Next(s, TermCheck).Some? && (Next(s, TermCheck).value.term == TermAnswered <==> s.status == Terminated)
    ensures s.waiter.Submitted? || s.waiter.WaiterParked? ==>
              && Next(s, WaiterCheck).Some?
              && (Next(s, WaiterCheck).value.waiter == Answered(true) <==> s.status == Running)
              && (Next(s, WaiterCheck).value.waiter == Answered(false) <==> s.status == Failed && s.waiter.WaiterParked?)
  {}

  /** Postgres exiting turns a pending termination, of either kind, into Terminated and nothing else. */
  lemma CleanupEnds(s: State)
    requires Reachable(s) && !s.exited && s.main == Serving
    ensures Next(s, Cleanup).Some?
    ensures Next(s, Cleanup).value.status == if Terminating(s.status) then Terminated else s.status
  {}

  // ---------------------------------------------------------------- Every documented arc is taken

  /** A compute from a command-line spec, after some store, with no request and no certificate watcher. */
  function Point(lakebase: bool, status: Status, main: MainPc, conf: ConfPc): State {
    State(lakebase, true, status, false, main, conf, CertNotLaunched, NoRequest, NoTermination,
          Signals(true, true, true, true, true))
  }

  lemma ReachInit(lakebase: bool)
    ensures Reachable(Point(lakebase, Init, Starting, ConfNotLaunched))
  {
    ReachStart(lakebase, true);
    ReachNext(Start(lakebase, true), StoreInit, Point(lakebase, Init, Starting, ConfNotLaunched));
  }

  lemma ReachServing(lakebase: bool, status: Status)
    requires status in {ConfigurationPending, TerminationPendingFast, TerminationPendingImmediate, RefreshConfigurationPending}
    ensures Reachable(Point(lakebase, status, Serving, AtTop))
  {
    ReachStarted(lakebase);
    var s := Point(lakebase, Running, Serving, AtTop);
    var step := if status == ConfigurationPending then HttpConfigure
                else if status == RefreshConfigurationPending then HttpRefresh else HttpTerminate(status);
    ReachNext(s, step, Point(lakebase, status, Serving, AtTop));
  }

  lemma ReachConfiguring(lakebase: bool)
    ensures Reachable(Point(lakebase, Configuration, Serving, Configuring))
  {
    ReachServing(lakebase, ConfigurationPending);
    ReachNext(Point(lakebase, ConfigurationPending, Serving, AtTop), ConfiguratorTurn,
              Point(lakebase, Configuration, Serving, Configuring));
  }

  lemma ReachFailed(lakebase: bool)
    ensures Reachable(Point(lakebase, Failed, Serving, AtTop))
  {
    ReachConfiguring(lakebase);
    ReachNext(Point(lakebase, Configuration, Serving, Configuring), Configured(false), Point(lakebase, Failed, Serving, AtTop));
  }

  /** The configurator parked on Running when the refresh was requested. */
  lemma ReachRefreshRequested(lakebase: bool)
    ensures Reachable(Point(lakebase, RefreshConfigurationPending, Serving, ConfParked(Running)))
  {
    ReachStarted(lakebase);
    var s := Point(lakebase, Running, Serving, AtTop);
    var parked := s.(conf := ConfParked(Running), sig := s.sig.(conf := false));
    ReachNext(s, ConfiguratorTurn, parked);
    ReachNext(parked, HttpRefresh, Point(lakebase, RefreshConfigurationPending, Serving, ConfParked(Running)));
  }

  lemma ReachRefreshing(lakebase: bool)
    ensures Reachable(Point(lakebase, RefreshConfiguration, Serving, Refreshing))
  {
    ReachRefreshRequested(lakebase);
    ReachNext(Point(lakebase, RefreshConfigurationPending, Serving, ConfParked(Running)), ConfiguratorTurn,
              Point(lakebase, RefreshConfiguration, Serving, Refreshing));
  }

  /** In some reachable state of the mode, some step takes status `a` to status `b`. */
  ghost predicate Taken(lakebase: bool, a: Status, b: Status) {
    exists s: State, step: Step :: Takes(s, step, lakebase, a, b)
  }

  ghost predicate Takes(s: State, step: Step, lakebase: bool, a: Status, b: Status) {
    Reachable(s) && s.lakebase == lakebase && s.status == a && Next(s, step).Some? && Next(s, step).value.status == b
  }

  lemma EmptyArcs(lakebase: bool, b: Status)
    requires Documented(Empty, b) && !(lakebase && Terminating(b))
    ensures Taken(lakebase, Empty, b)
  {
    var s := Start(lakebase, true);
    ReachStart(lakebase, true);
    var step := if b == ConfigurationPending then HttpConfigure else if b == Init then StoreInit else HttpTerminate(b);
    assert Takes(s, step, lakebase, Empty, b);
  }

  lemma RunningArcs(lakebase: bool, b: Status)
    requires Documented(Running, b)
    ensures Taken(lakebase, Running, b)
  {
    ReachStarted(lakebase);
    var step := if b == ConfigurationPending then HttpConfigure
                else if b == RefreshConfigurationPending then HttpRefresh else HttpTerminate(b);
    assert Takes(Started(lakebase), step, lakebase, Running, b);
  }

  lemma InitArcs(lakebase: bool, b: Status)
    requires Documented(Init, b)
    ensures Taken(lakebase, Init, b)
  {
    ReachInit(lakebase);
    assert Takes(Point(lakebase, Init, Starting, ConfNotLaunched), if b == Running then StartOk else StartFailed, lakebase, Init, b);
  }

  lemma ConfigurationArcs(lakebase: bool, b: Status)
    requires Documented(Configuration, b)
    ensures Taken(lakebase, Configuration, b)
  {
    ReachConfiguring(lakebase);
    assert Takes(Point(lakebase, Configuration, Serving, Configuring), Configured(b == Running), lakebase, Configuration, b);
  }

  lemma RefreshArcs(lakebase: bool, b: Status)
    requires Documented(RefreshConfiguration, b)
    ensures Taken(lakebase, RefreshConfiguration, b)
  {
    ReachRefreshing(lakebase);
    assert Takes(Point(lakebase, RefreshConfiguration, Serving, Refreshing),
                 if b == Running then RefreshFetched(true) else RefreshError, lakebase, RefreshConfiguration, b);
  }

  lemma PendingArcs(lakebase: bool, a: Status, b: Status)
    requires Documented(a, b) && a in {ConfigurationPending, RefreshConfigurationPending, Failed}
    ensures Taken(lakebase, a, b)
  {
    if a == ConfigurationPending {
      ReachServing(lakebase, ConfigurationPending);
      assert Takes(Point(lakebase, a, Serving, AtTop), ConfiguratorTurn, lakebase, a, b);
    } else if a == Failed {
      ReachFailed(lakebase);
      assert Takes(Point(lakebase, a, Serving, AtTop), HttpRefresh, lakebase, a, b);
    } else {
      RefreshPendingArc(lakebase, b);
    }
  }

  lemma RefreshPendingArc(lakebase: bool, b: Status)
    requires Documented(RefreshConfigurationPending, b)
    ensures Taken(lakebase, RefreshConfigurationPending, b)
  {
    ReachRefreshRequested(lakebase);
    assert Takes(Point(lakebase, RefreshConfigurationPending, Serving, ConfParked(Running)),
                 ConfiguratorTurn, lakebase, RefreshConfigurationPending, b);
  }

  lemma TerminationArcs(lakebase: bool, a: Status, b: Status)
    requires Documented(a, b) && Terminating(a)
    ensures Taken(lakebase, a, b)
  {
    ReachServing(lakebase, a);
    assert Takes(Point(lakebase, a, Serving, AtTop), Cleanup, lakebase, a, b);
  }

  /**
   The converse of the diagram: in both modes every documented arc is taken from some reachable
   state, except the termination of an empty compute in lakebase mode, which exits instead.
   */
  lemma DocumentedArcsTaken(lakebase: bool, a: Status, b: Status)
    requires Documented(a, b)
    ensures Taken(lakebase, a, b) <==> !(lakebase && a == Empty && Terminating(b))
  {
    match a {
      case Empty =>
        if lakebase && Terminating(b) {
          EmptyNeverTerminates(b);
        } else {
          EmptyArcs(lakebase, b);
        }
      case Running => RunningArcs(lakebase, b);
      case Init => InitArcs(lakebase, b);
      case Configuration => ConfigurationArcs(lakebase, b);
      case RefreshConfiguration => RefreshArcs(lakebase, b);
      case TerminationPendingFast => TerminationArcs(lakebase, a, b);
      case TerminationPendingImmediate => TerminationArcs(lakebase, a, b);
      case _ => PendingArcs(lakebase, a, b);
    }
  }

  lemma EmptyNeverTerminates(b: Status)
    requires Terminating(b)
    ensures !Taken(true, Empty, b)
  {
    forall s: State, step: Step ensures !Takes(s, step, true, Empty, b) {
      if Takes(s, step, true, Empty, b) {
        EmptyStaysOrStarts(s, step);
      }
    }
  }

  lemma EmptyStaysOrStarts(s: State, step: Step)
    requires Reachable(s) && s.lakebase && s.status == Empty && Next(s, step).Some?
    ensures !Terminating(Next(s, step).value.status)
  {
    ReachableInv(s);
  }
}
