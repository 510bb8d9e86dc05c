/**
 LSN lease renewal for static computes: combining the shards' answers, retrying with backoff, and
 sleeping so that no shard's lease lapses while renewals finish within the slack.
 */
module LsnLease {
  import opened Wrappers

  /** Points in time and durations, in nanoseconds. */
  type Time = nat

  const SECOND: nat := 1_000_000_000

  // ---------------------------------------------------------------- Combining shards

  /** One pageserver's answer: a lease, an explicit refusal, or a failure of the request. */
  datatype Reply = Granted(until: Time) | Refused | RequestFailed

  function Lease(r: Reply): Option<Time> {
    if r.Granted? then Some(r.until) else None
  }

  predicate Before(a: Option<Time>, b: Option<Time>) {
    a.None? || (b.Some? && a.value <= b.value)
  }

  /** The least element, where no lease sorts before every lease. */
  function Least(leases: seq<Option<Time>>): Option<Option<Time>> {
    if leases == [] then None
    else match Least(leases[..|leases| - 1])
         case None => Some(leases[|leases| - 1])
         case Some(m) => Some(if Before(m, leases[|leases| - 1]) then m else leases[|leases| - 1])
  }

  function Combined(leases: seq<Option<Time>>): Option<Time> {
    match Least(leases) case None => None case Some(l) => l
  }

  /** A combined lease exists exactly when there is one and all are granted, and is then the earliest. */
  lemma {:induction false} CombinedIsEarliest(leases: seq<Option<Time>>)
    ensures Combined(leases).Some? <==> leases != [] && forall i :: 0 <= i < |leases| ==> leases[i].Some?
    ensures Combined(leases).Some? ==>
              && Combined(leases) in leases
              && forall i :: 0 <= i < |leases| ==> Combined(leases).value <= leases[i].value
    ensures Least(leases).None? <==> leases == []
    ensures leases != [] && Combined(leases).None? ==> None in leases
  {
    if leases != [] {
      var k := |leases| - 1;
      CombinedIsEarliest(leases[..k]);
      forall i | 0 <= i < k ensures leases[i] == leases[..k][i] {}
      if k > 0 && Combined(leases[..k]).None? {
        var i :| 0 <= i < k && leases[..k][i].None?;
        assert leases[i].None?;
      }
    }
  }

  /** The answers of all pageservers of all shards, in the order in which they are asked. */
  function Flatten(shards: seq<seq<Reply>>): seq<Reply> {
    if shards == [] then [] else Flatten(shards[..|shards| - 1]) + shards[|shards| - 1]
  }

  function Leases(replies: seq<Reply>): seq<Option<Time>> {
    seq(|replies|, i requires 0 <= i < |replies| => Lease(replies[i]))
  }

  /** The replies all grant a lease, and `until` is the earliest of them. */
  ghost predicate GrantedUntil(replies: seq<Reply>, until: Time) {
    && (exists i :: 0 <= i < |replies| && replies[i] == Granted(until))
    && (forall i :: 0 <= i < |replies| ==> replies[i].Granted? && until <= replies[i].until)
  }

  lemma CombinedGrants(replies: seq<Reply>, until: Time)
    ensures Combined(Leases(replies)) == Some(until) <==> GrantedUntil(replies, until)
  {
    var leases := Leases(replies);
    CombinedIsEarliest(leases);
    forall i | 0 <= i < |replies| ensures leases[i] == Lease(replies[i]) {}
    if GrantedUntil(replies, until) {
      var i :| 0 <= i < |replies| && replies[i] == Granted(until);
      assert leases[i] == Some(until);
      var e := Combined(leases).value;
      var j :| 0 <= j < |leases| && leases[j] == Some(e);
      assert replies[j] == Granted(e);
    }
    if Combined(leases) == Some(until) {
      var j :| 0 <= j < |leases| && leases[j] == Some(until);
      assert replies[j] == Granted(until);
      forall i | 0 <= i < |replies| ensures replies[i].Granted? && until <= replies[i].until {
        assert leases[i].Some? && until <= leases[i].value;
      }
    }
  }

  /**
   A failed request fails the attempt; otherwise the result is the earliest expiry if every
   pageserver of every shard grants one, and none if there is no pageserver or one refuses.
   */
  method TryAcquire(shards: seq<seq<Reply>>) returns (r: Result<Option<Time>, ()>)
    ensures r.Err? <==> RequestFailed in Flatten(shards)
    ensures r.Ok? ==> r.value == Combined(Leases(Flatten(shards)))
    ensures r.Ok? && r.value.Some? ==> GrantedUntil(Flatten(shards), r.value.value)
    ensures r.Ok? && r.value.None? ==> Flatten(shards) == [] || Refused in Flatten(shards)
  {
    var leases: seq<Option<Time>> := [];
    for i := 0 to |shards|
      invariant leases == Leases(Flatten(shards[..i]))
      invariant RequestFailed !in Flatten(shards[..i])
    {
      assert shards[..i + 1][..i] == shards[..i];
      var shard := shards[i];
      ghost var before := Flatten(shards[..i]);
      assert Flatten(shards[..i + 1]) == before + shard;
      for j := 0 to |shard|
        invariant leases == Leases(before + shard[..j])
        invariant RequestFailed !in before + shard[..j]
      {
        if shard[j] == RequestFailed {
          FlattenHolds(shards, i, shard[j]);
          return Err(());
        }
        assert shard[..j + 1] == shard[..j] + [shard[j]];
        leases := leases + [Lease(shard[j])];
      }
      assert shard[..|shard|] == shard;
    }
    assert shards[..|shards|] == shards;
    r := Ok(Combined(leases));
    if r.value.Some? {
      CombinedGrants(Flatten(shards), r.value.value);
    } else {
      RefusedSomewhere(Flatten(shards));
    }
  }

  lemma RefusedSomewhere(replies: seq<Reply>)
    requires Combined(Leases(replies)).None? && RequestFailed !in replies
    ensures replies == [] || Refused in replies
  {
    var leases := Leases(replies);
    CombinedIsEarliest(leases);
    if replies != [] {
      var i :| 0 <= i < |leases| && leases[i] == None;
      assert Lease(replies[i]).None? && replies[i] in replies;
    }
  }

  lemma {:induction false} FlattenHolds(shards: seq<seq<Reply>>, i: nat, reply: Reply)
    requires i < |shards| && reply in shards[i]
    ensures reply in Flatten(shards)
  {
    var k := |shards| - 1;
    if i < k {
      FlattenHolds(shards[..k], i, reply);
    }
  }

  // ---------------------------------------------------------------- Retrying

  const FIRST_PERIOD_MS: real := 500.0
  const MAX_PERIOD_MS: real := 60000.0

  /** The wait before retry `k`: it grows by half each time up to the maximum. */
  function Backoff(k: nat): real {
    if k == 0 then FIRST_PERIOD_MS
    else
      var p := Backoff(k - 1) * 1.5;
      if p <= MAX_PERIOD_MS then p else MAX_PERIOD_MS
  }

  lemma {:induction false} BackoffBounded(k: nat)
    ensures FIRST_PERIOD_MS <= Backoff(k) <= Backoff(k + 1) <= MAX_PERIOD_MS
    ensures Backoff(k) < MAX_PERIOD_MS ==> Backoff(k + 1) >= Backoff(k) + 250.0 || Backoff(k + 1) == MAX_PERIOD_MS
  {
    if k > 0 {
      BackoffBounded(k - 1);
    }
  }

  /** A multiple of 1/1024 below 2^40, which a 64-bit float holds without rounding. */
  predicate FloatExact(x: real) {
    0.0 <= x < 1099511627776.0 && x * 1024.0 == (x * 1024.0).Floor as real
  }

  lemma BackoffTable()
    ensures Backoff(0) == 500.0 && Backoff(1) == 750.0 && Backoff(2) == 1125.0 && Backoff(3) == 1687.5
    ensures Backoff(4) == 2531.25 && Backoff(5) == 3796.875 && Backoff(6) == 5695.3125 && Backoff(7) == 8542.96875
    ensures Backoff(8) == 12814.453125 && Backoff(9) == 19221.6796875 && Backoff(10) == 28832.51953125
    ensures Backoff(11) == 43248.779296875 && Backoff(12) == 60000.0
  {
    assert Backoff(2) == 1125.0;
    assert Backoff(4) == 2531.25;
    assert Backoff(6) == 5695.3125;
    assert Backoff(8) == 12814.453125;
    assert Backoff(10) == 28832.51953125;
  }

  lemma {:induction false} BackoffSettles(k: nat)
    requires k >= 12
    ensures Backoff(k) == MAX_PERIOD_MS
  {
    if k == 12 {
      BackoffTable();
    } else {
      BackoffSettles(k - 1);
    }
  }

  /** No period and no product on the way is rounded, so 64-bit floats compute exactly these waits. */
  lemma BackoffIsExact(k: nat)
    ensures FloatExact(Backoff(k)) && FloatExact(Backoff(k) * 1.5)
    ensures k >= 12 <==> Backoff(k) == MAX_PERIOD_MS
  {
    if k >= 12 {
      BackoffSettles(k);
    } else {
      BackoffTable();
    }
  }

  /** The wait in whole milliseconds, as the duration takes it. */
  function WaitMs(period: real): nat
    requires period >= 0.0
  {
    period.Floor
  }

  datatype RetryResult = Acquired(until: Time) | PermanentError | StillTrying

  /** Failed attempts are retried; the first answer decides. `attempts` is what each attempt yields. */
  method AcquireWithRetry(attempts: seq<Result<Option<Time>, ()>>) returns (r: RetryResult, waits: seq<nat>)
    ensures forall i :: 0 <= i < |waits| ==> i < |attempts| && attempts[i].Err? && waits[i] == Backoff(i).Floor
    ensures forall i :: 0 <= i < |waits| ==> 500 <= waits[i] <= 60000
    ensures r.StillTrying? <==> |waits| == |attempts|
    ensures !r.StillTrying? ==> |waits| < |attempts| && attempts[|waits|].Ok?
    ensures r.Acquired? ==> attempts[|waits|].value == Some(r.until)
    ensures r.PermanentError? ==> attempts[|waits|].value == None
  {
    var period := FIRST_PERIOD_MS;
    waits := [];
    var i := 0;
    while i < |attempts|
      invariant 0 <= i <= |attempts| && |waits| == i && period == Backoff(i)
      invariant forall j :: 0 <= j < i ==> attempts[j].Err? && waits[j] == Backoff(j).Floor && 500 <= waits[j] <= 60000
    {
      if attempts[i].Ok? {
        if attempts[i].value.Some? {
          return Acquired(attempts[i].value.value), waits;
        }
        return PermanentError, waits;
      }
      BackoffBounded(i);
      waits := waits + [WaitMs(period)];
      period := period * 1.5;
      if period > MAX_PERIOD_MS {
        period := MAX_PERIOD_MS;
      }
      i := i + 1;
    }
    r := StillTrying;
  }

  // ---------------------------------------------------------------- Sleeping

  function ValidFor(until: Time, now: Time): nat {
    if until <= now then 0 else until - now
  }

  /** A minute less than the validity, but never less than half of it. */
  function SleepFor(valid: nat): nat {
    var shorter := if valid <= 60 * SECOND then 0 else valid - 60 * SECOND;
    if shorter <= valid / 2 then valid / 2 else shorter
  }

  /** The time left between the latest wake-up and the expiry. */
  function Slack(valid: nat): nat {
    var half := valid - valid / 2;
    if half <= 60 * SECOND then half else 60 * SECOND
  }

  lemma SleepLeavesSlack(valid: nat)
    ensures SleepFor(valid) + Slack(valid) == valid
  {}

  /** A sleep that is not cut short ends the slack before the expiry, or at once if that has passed. */
  lemma SleepsUntilSlack(until: Time, now: Time)
    ensures now <= until ==> now + SleepFor(ValidFor(until, now)) + Slack(until - now) == until
    ensures until <= now ==> SleepFor(ValidFor(until, now)) == 0
    ensures 2 * SleepFor(ValidFor(until, now)) + 1 >= ValidFor(until, now)
  {
    SleepLeavesSlack(ValidFor(until, now));
  }

  // ---------------------------------------------------------------- Continuity

  type Shard = nat

  datatype Grant = Grant(at: Time, until: Time)

  /** One successful renewal of every shard's lease. */
  datatype Round = Round(began: Time, finished: Time, grants: map<Shard, Grant>)

  ghost predicate ValidRound(r: Round) {
    && r.began <= r.finished && r.grants != map[]
    && forall s :: s in r.grants ==> r.began <= r.grants[s].at <= r.finished
  }

  /** `until` is what the combination of the round's leases yields. */
  ghost predicate ExpiresAt(r: Round, until: Time) {
    && (exists s :: s in r.grants && r.grants[s].until == until)
    && forall s :: s in r.grants ==> until <= r.grants[s].until
  }

  /** The leases of a round in the order in which the shards were asked. */
  function RoundLeases(r: Round, order: seq<Shard>): seq<Option<Time>>
    requires forall i :: 0 <= i < |order| ==> order[i] in r.grants
  {
    seq(|order|, i requires 0 <= i < |order| => Some(r.grants[order[i]].until))
  }

  /** The expiry that the sleep is computed from is the combined lease, in whatever order shards answer. */
  lemma CombinedOfRound(r: Round, order: seq<Shard>, until: Time)
    requires ValidRound(r) && forall s :: s in order <==> s in r.grants
    ensures Combined(RoundLeases(r, order)) == Some(until) <==> ExpiresAt(r, until)
  {
    var leases := RoundLeases(r, order);
    CombinedIsEarliest(leases);
    assert order != [] by {
      var s :| s in r.grants;
      assert s in order;
    }
    var e := Combined(leases).value;
    var k :| 0 <= k < |leases| && leases[k] == Some(e);
    assert order[k] in r.grants && r.grants[order[k]].until == e;
    forall s | s in r.grants ensures e <= r.grants[s].until {
      var i :| 0 <= i < |order| && order[i] == s;
      assert leases[i] == Some(r.grants[s].until);
    }
  }

  /** The next renewal starts no later than the sleep allows and finishes within the slack. */
  ghost predicate InTime(r: Round, next: Round) {
    exists until ::
      && ExpiresAt(r, until)
      && var valid := ValidFor(until, r.finished);
         r.finished <= next.began <= r.finished + SleepFor(valid) && next.finished <= next.began + Slack(valid)
  }

  ghost predicate TimelyRun(run: seq<Round>) {
    && run != []
    && (forall i :: 0 <= i < |run| ==> ValidRound(run[i]))
    && (forall i :: 0 <= i < |run| - 1 ==> InTime(run[i], run[i + 1]))
  }

  /** Some lease of the shard granted in the run covers the instant. */
  ghost predicate Covered(run: seq<Round>, s: Shard, t: Time) {
    exists i :: 0 <= i < |run| && s in run[i].grants && run[i].grants[s].at <= t < run[i].grants[s].until
  }

  lemma CoveredBetween(r: Round, next: Round, s: Shard, t: Time)
    requires ValidRound(r) && InTime(r, next) && s in r.grants && r.finished <= t < next.finished
    ensures r.grants[s].at <= t < r.grants[s].until
  {
    var until :| ExpiresAt(r, until)
      && r.finished <= next.began <= r.finished + SleepFor(ValidFor(until, r.finished))
      && next.finished <= next.began + Slack(ValidFor(until, r.finished));
    SleepLeavesSlack(ValidFor(until, r.finished));
  }

  /** In every timely run no shard's lease lapses from the first renewal to the last expiry. */
  lemma {:induction false} LeasesContinuous(run: seq<Round>, s: Shard, t: Time)
    requires TimelyRun(run) && forall i :: 0 <= i < |run| ==> s in run[i].grants
    requires run[0].finished <= t < run[|run| - 1].grants[s].until
    ensures Covered(run, s, t)
  {
    var k := |run| - 1;
    if t >= run[k].finished {
      assert run[k].grants[s].at <= t;
    } else {
      assert k > 0;
      if t >= run[k - 1].finished {
        CoveredBetween(run[k - 1], run[k], s, t);
      } else {
        CoveredEarlier(run, s, t, k - 1);
      }
    }
  }

  lemma {:induction false} CoveredEarlier(run: seq<Round>, s: Shard, t: Time, k: nat)
    requires TimelyRun(run) && k < |run| && forall i :: 0 <= i < |run| ==> s in run[i].grants
    requires run[0].finished <= t < run[k].finished
    ensures Covered(run, s, t)
  {
    if t >= run[k - 1].finished {
      CoveredBetween(run[k - 1], run[k], s, t);
    } else {
      CoveredEarlier(run, s, t, k - 1);
    }
  }
}
