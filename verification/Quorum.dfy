/**
 The safekeeper fast path: the uniqueness check on the connection strings, the collection of
 responses until a quorum of answers or errors, and the test that the answers are in sync.
 */
module Quorum {
  import opened Wrappers

  // ---------------------------------------------------------------- Validation

  /** Lexicographic order on strings. */
  predicate Leq(a: string, b: string) {
    a == "" || (b != "" && (a[0] < b[0] || (a[0] == b[0] && Leq(a[1..], b[1..]))))
  }

  /** One string is a prefix of the other, or the first difference decides. */
  ghost predicate Precedes(a: string, b: string) {
    a <= b || exists k :: 0 <= k < |a| && k < |b| && a[..k] == b[..k] && a[k] < b[k]
  }

  lemma {:induction false} LeqIsLexicographic(a: string, b: string)
    ensures Leq(a, b) <==> Precedes(a, b)
  {
    if a != "" && b != "" {
      LeqIsLexicographic(a[1..], b[1..]);
      PrecedesStep(a, b);
    }
  }

  lemma PrecedesStep(a: string, b: string)
    requires a != "" && b != ""
    ensures Precedes(a, b) <==> a[0] < b[0] || (a[0] == b[0] && Precedes(a[1..], b[1..]))
  {
    if a[0] < b[0] {
      assert a[..0] == b[..0];
    }
    if a[0] == b[0] && Precedes(a[1..], b[1..]) {
      PrecedesGrows(a, b);
    }
    if Precedes(a, b) && !(a[0] < b[0]) {
      PrecedesShrinks(a, b);
    }
  }

  lemma PrecedesGrows(a: string, b: string)
    requires a != "" && b != "" && a[0] == b[0] && Precedes(a[1..], b[1..])
    ensures Precedes(a, b)
  {
    var x, y := a[1..], b[1..];
    assert a == [a[0]] + x && b == [b[0]] + y;
    if !(x <= y) {
      var k :| 0 <= k < |x| && k < |y| && x[..k] == y[..k] && x[k] < y[k];
      assert a[..k + 1] == [a[0]] + x[..k] && b[..k + 1] == [b[0]] + y[..k];
      assert a[k + 1] == x[k] && b[k + 1] == y[k];
    }
  }

  lemma PrecedesShrinks(a: string, b: string)
    requires a != "" && b != "" && Precedes(a, b) && !(a[0] < b[0])
    ensures a[0] == b[0] && Precedes(a[1..], b[1..])
  {
    if !(a <= b) {
      var k :| 0 <= k < |a| && k < |b| && a[..k] == b[..k] && a[k] < b[k];
      assert a[..k][0] == b[..k][0];
      assert a[1..][..k - 1] == a[..k][1..] && b[1..][..k - 1] == b[..k][1..];
      assert a[1..][k - 1] == a[k] && b[1..][k - 1] == b[k];
    }
  }

  lemma {:induction false} LeqTotal(a: string, b: string)
    ensures Leq(a, b) || Leq(b, a)
  {
    if a != "" && b != "" && a[0] == b[0] { LeqTotal(a[1..], b[1..]); }
  }

  lemma {:induction false} LeqAntisymmetric(a: string, b: string)
    requires Leq(a, b) && Leq(b, a)
    ensures a == b
  {
    if a != "" && b != "" {
      LeqAntisymmetric(a[1..], b[1..]);
      assert a == [a[0]] + a[1..] && b == [b[0]] + b[1..];
    }
  }

  lemma {:induction false} LeqTransitive(a: string, b: string, c: string)
    requires Leq(a, b) && Leq(b, c)
    ensures Leq(a, c)
  {
    if a != "" && a[0] == b[0] && b[0] == c[0] { LeqTransitive(a[1..], b[1..], c[1..]); }
  }

  ghost predicate Sorted(s: seq<string>) {
    forall i, j :: 0 <= i < j < |s| ==> Leq(s[i], s[j])
  }

  function Insert(x: string, s: seq<string>): seq<string> {
    if s == [] || Leq(x, s[0]) then [x] + s else [s[0]] + Insert(x, s[1..])
  }

  function Sort(s: seq<string>): seq<string> {
    if s == [] then [] else Insert(s[0], Sort(s[1..]))
  }

  lemma SortedCons(x: string, s: seq<string>)
    requires Sorted(s) && forall j :: 0 <= j < |s| ==> Leq(x, s[j])
    ensures Sorted([x] + s)
  {
  }

  lemma {:induction false} InsertAdds(x: string, s: seq<string>)
    ensures multiset(Insert(x, s)) == multiset(s) + multiset{x}
  {
    if s != [] {
      InsertAdds(x, s[1..]);
      assert s == [s[0]] + s[1..];
    }
  }

  lemma {:induction false} InsertSorts(x: string, s: seq<string>)
    requires Sorted(s)
    ensures Sorted(Insert(x, s)) && multiset(Insert(x, s)) == multiset(s) + multiset{x}
  {
    InsertAdds(x, s);
    if s == [] {
    } else if Leq(x, s[0]) {
      forall j | 0 <= j < |s| ensures Leq(x, s[j]) {
        if j > 0 { LeqTransitive(x, s[0], s[j]); }
      }
      SortedCons(x, s);
    } else {
      LeqTotal(x, s[0]);
      InsertSorts(x, s[1..]);
      var r := Insert(x, s[1..]);
      forall j | 0 <= j < |r| ensures Leq(s[0], r[j]) {
        assert r[j] in multiset(r);
        assert r[j] == x || r[j] in s[1..];
      }
      SortedCons(s[0], r);
    }
  }

  lemma {:induction false} SortSorts(s: seq<string>)
    ensures Sorted(Sort(s)) && multiset(Sort(s)) == multiset(s)
  {
    if s != [] {
      SortSorts(s[1..]);
      InsertSorts(s[0], Sort(s[1..]));
      assert s == [s[0]] + s[1..];
    }
  }

  datatype Mode = Primary | Replica | Static
  datatype ValidateError = EmptyList | Duplicate(entry: string)

  ghost predicate NoDuplicates(s: seq<string>) {
    forall x :: multiset(s)[x] <= 1
  }

  /** Accepts exactly the non-empty lists without duplicates; only primaries are checked. */
  method Validate(mode: Mode, connstrings: seq<string>) returns (r: Result<(), ValidateError>)
    ensures mode != Primary ==> r.Ok?
    ensures mode == Primary ==>
              && (r.Ok? <==> connstrings != [] && NoDuplicates(connstrings))
              && (r == Err(EmptyList) <==> connstrings == [])
              && (r.Err? && r.error.Duplicate? ==>
                    && multiset(connstrings)[r.error.entry] > 1
                    && forall x :: multiset(connstrings)[x] > 1 ==> Leq(r.error.entry, x))
  {
    if mode != Primary {
      return Ok(());
    }
    if connstrings == [] {
      return Err(EmptyList);
    }
    var sorted := Sort(connstrings);
    SortSorts(connstrings);
    assert |sorted| > 0 by {
      assert connstrings[0] in multiset(sorted);
    }
    var previous := sorted[0];
    for i := 1 to |sorted|
      invariant previous == sorted[i - 1]
      invariant forall j :: 0 <= j < i - 1 ==> sorted[j] != sorted[j + 1]
    {
      if sorted[i] == previous {
        SmallestDuplicate(sorted, i);
        return Err(Duplicate(sorted[i]));
      }
      previous := sorted[i];
    }
    NoAdjacentNoDuplicate(sorted);
    r := Ok(());
  }

  /** In a sorted list equal entries are neighbours. */
  lemma EqualsAreNeighbours(s: seq<string>, i: nat, j: nat)
    requires Sorted(s) && i < j < |s| && s[i] == s[j]
    ensures s[i] == s[i + 1]
  {
    if i + 1 < j {
      LeqAntisymmetric(s[i], s[i + 1]);
    }
  }

  lemma {:induction false} TwiceMeansTwoPlaces(s: seq<string>, x: string) returns (i: nat, j: nat)
    requires multiset(s)[x] > 1
    ensures i < j < |s| && s[i] == s[j] == x
  {
    assert s == [s[0]] + s[1..];
    if s[0] == x {
      assert x in multiset(s[1..]);
      var k :| 0 <= k < |s[1..]| && s[1..][k] == x;
      i, j := 0, k + 1;
    } else {
      i, j := TwiceMeansTwoPlaces(s[1..], x);
      i, j := i + 1, j + 1;
    }
  }

  lemma {:induction false} TwoPlacesMeanTwice(s: seq<string>, i: nat, j: nat)
    requires i < j < |s| && s[i] == s[j]
    ensures multiset(s)[s[i]] > 1
  {
    assert s == s[..j] + s[j..];
    assert s[i] in s[..j] && s[j] in s[j..];
  }

  lemma NoAdjacentNoDuplicate(s: seq<string>)
    requires Sorted(s) && forall j :: 0 <= j < |s| - 1 ==> s[j] != s[j + 1]
    ensures forall x :: multiset(s)[x] <= 1
  {
    forall x ensures multiset(s)[x] <= 1 {
      if multiset(s)[x] > 1 {
        var i, j := TwiceMeansTwoPlaces(s, x);
        EqualsAreNeighbours(s, i, j);
      }
    }
  }

  lemma SmallestDuplicate(s: seq<string>, i: nat)
    requires Sorted(s) && 1 <= i < |s| && s[i] == s[i - 1]
    requires forall j :: 0 <= j < i - 1 ==> s[j] != s[j + 1]
    ensures multiset(s)[s[i]] > 1 && forall x :: multiset(s)[x] > 1 ==> Leq(s[i], x)
  {
    TwoPlacesMeanTwice(s, i - 1, i);
    forall x | multiset(s)[x] > 1 ensures Leq(s[i], x) {
      var a, b := TwiceMeansTwoPlaces(s, x);
      if a < i - 1 {
        EqualsAreNeighbours(s, a, b);
        assert false;
      }
      if a == i - 1 {
        LeqTotal(x, x);
      } else if a == i {
        LeqTotal(x, x);
      }
    }
  }

  // ---------------------------------------------------------------- In sync

  type Lsn = nat

  datatype TimelineStatus = NotFound | Found(flush: Lsn, commit: Lsn)

  /** The outcome of the check, with the panic of taking the extremes of nothing. */
  datatype Synced = Panicked | NotSynced | SyncedAt(lsn: Lsn)

  function OkResponses(rs: seq<TimelineStatus>): (ok: seq<TimelineStatus>)
    ensures |ok| <= |rs| && forall i :: 0 <= i < |ok| ==> ok[i].Found?
    ensures |ok| == |rs| <==> forall i :: 0 <= i < |rs| ==> rs[i].Found?
    ensures |ok| == |rs| ==> ok == rs
  {
    if rs == [] then []
    else if rs[|rs| - 1].Found? then OkResponses(rs[..|rs| - 1]) + [rs[|rs| - 1]]
    else OkResponses(rs[..|rs| - 1])
  }

  function Max(s: seq<Lsn>): (m: Lsn)
    requires s != []
    ensures m in s && forall i :: 0 <= i < |s| ==> s[i] <= m
  {
    if |s| == 1 then s[0]
    else var m := Max(s[..|s| - 1]); if m <= s[|s| - 1] then s[|s| - 1] else m
  }

  function Min(s: seq<Lsn>): (m: Lsn)
    requires s != []
    ensures m in s && forall i :: 0 <= i < |s| ==> m <= s[i]
  {
    if |s| == 1 then s[0]
    else var m := Min(s[..|s| - 1]); if m <= s[|s| - 1] then m else s[|s| - 1]
  }

  function CheckIfSynced(responses: seq<TimelineStatus>): Synced {
    var ok := OkResponses(responses);
    if |ok| < |responses| then NotSynced
    else if ok == [] then Panicked
    else
      var commit := seq(|ok|, i requires 0 <= i < |ok| => ok[i].commit);
      var flush := seq(|ok|, i requires 0 <= i < |ok| => ok[i].flush);
      if Min(commit) != Max(commit) || Min(flush) != Max(flush) || Max(commit) != Max(flush) then NotSynced
      else SyncedAt(Max(commit))
  }

  /** In sync at `l` means that everyone reported flush and commit `l`; only no response at all panics. */
  lemma CheckIfSyncedExact(rs: seq<TimelineStatus>, l: Lsn)
    ensures CheckIfSynced(rs) == Panicked <==> rs == []
    ensures CheckIfSynced(rs) == SyncedAt(l) <==> rs != [] && forall i :: 0 <= i < |rs| ==> rs[i] == Found(l, l)
  {
    var ok := OkResponses(rs);
    if |ok| == |rs| && rs != [] {
      var commit := seq(|ok|, i requires 0 <= i < |ok| => ok[i].commit);
      var flush := seq(|ok|, i requires 0 <= i < |ok| => ok[i].flush);
      forall i | 0 <= i < |rs|
        ensures rs[i] == Found(flush[i], commit[i])
        ensures Min(commit) <= commit[i] <= Max(commit) && Min(flush) <= flush[i] <= Max(flush)
      {}
      if CheckIfSynced(rs) == SyncedAt(l) {
        assert Min(commit) == Max(commit) == Min(flush) == Max(flush) == l;
      }
    }
  }

  // ---------------------------------------------------------------- Collection

  datatype Outcome = Response(status: TimelineStatus) | TaskError | TimeoutError | JoinError

  /** One finished task: which safekeeper it asked and what came of it. */
  datatype Arrival = Arrival(id: string, outcome: Outcome)

  /** The responses among the arrivals, in order of arrival, with the safekeepers they came from. */
  function Responses(arrivals: seq<Arrival>): seq<Arrival> {
    if arrivals == [] then []
    else
      var rest := Responses(arrivals[..|arrivals| - 1]);
      if arrivals[|arrivals| - 1].outcome.Response? then rest + [arrivals[|arrivals| - 1]] else rest
  }

  /** What the responses say, in order of arrival. */
  function Statuses(arrivals: seq<Arrival>): seq<TimelineStatus> {
    if arrivals == [] then []
    else
      var rest, last := Statuses(arrivals[..|arrivals| - 1]), arrivals[|arrivals| - 1];
      if last.outcome.Response? then rest + [last.outcome.status] else rest
  }

  lemma {:induction false} StatusesOfResponses(arrivals: seq<Arrival>)
    ensures |Statuses(arrivals)| == |Responses(arrivals)|
    ensures forall i :: 0 <= i < |Responses(arrivals)| ==>
              Responses(arrivals)[i].outcome == Response(Statuses(arrivals)[i])
  {
    if arrivals != [] {
      StatusesOfResponses(arrivals[..|arrivals| - 1]);
    }
  }

  lemma {:induction false} ResponsesRespond(arrivals: seq<Arrival>, i: nat)
    requires i < |Responses(arrivals)|
    ensures Responses(arrivals)[i].outcome.Response? && Responses(arrivals)[i] in arrivals
  {
    var k := |arrivals| - 1;
    if i < |Responses(arrivals[..k])| {
      ResponsesRespond(arrivals[..k], i);
    }
  }

  lemma StatusesNext(arrivals: seq<Arrival>, i: nat)
    requires i < |arrivals|
    ensures Statuses(arrivals[..i + 1])
         == Statuses(arrivals[..i]) + if arrivals[i].outcome.Response? then [arrivals[i].outcome.status] else []
  {
    assert arrivals[..i + 1][..i] == arrivals[..i];
  }

  lemma {:induction false} StatusesPrefix(arrivals: seq<Arrival>, k: nat)
    requires k <= |arrivals|
    ensures |Statuses(arrivals[..k])| <= |Statuses(arrivals)| <= |Statuses(arrivals[..k])| + |arrivals| - k
    ensures Statuses(arrivals[..k]) <= Statuses(arrivals)
  {
    if k == |arrivals| {
      assert arrivals[..k] == arrivals;
    } else {
      var n := |arrivals| - 1;
      assert arrivals[..n][..k] == arrivals[..k];
      StatusesPrefix(arrivals[..n], k);
    }
  }

  /** A majority of `n` safekeepers. */
  function MajorityOf(n: nat): (r: nat)
    ensures 2 * r > n && 2 * (r - 1) <= n
  {
    n / 2 + 1
  }

  /** The first majority of responses decides, and without one there is no result. */
  function SyncResult(arrivals: seq<Arrival>): Synced {
    if |Statuses(arrivals)| < MajorityOf(|arrivals|) then NotSynced
    else CheckIfSynced(Statuses(arrivals)[..MajorityOf(|arrivals|)])
  }

  /** Exactly a majority of answers decides, counted from the arrivals alone; what it decides is agreement. */
  lemma MajorityAnswers(arrivals: seq<Arrival>, l: Lsn)
    ensures 2 * |Statuses(arrivals)| <= |arrivals| ==> SyncResult(arrivals) == NotSynced
    ensures 2 * |Statuses(arrivals)| > |arrivals| && (forall i :: 0 <= i < |Statuses(arrivals)| ==> Statuses(arrivals)[i] == Found(l, l)) ==>
              SyncResult(arrivals) == SyncedAt(l)
  {
    var k, all := MajorityOf(|arrivals|), Statuses(arrivals);
    if |all| >= k {
      CheckIfSyncedExact(all[..k], l);
    }
  }

  /** A disagreement among the answers that decide, or a missing timeline there, means not in sync. */
  lemma DisagreementNotSynced(arrivals: seq<Arrival>, i: nat, j: nat)
    requires 2 * i <= |arrivals| && 2 * j <= |arrivals| && i < |Statuses(arrivals)| && j < |Statuses(arrivals)|
    requires Statuses(arrivals)[i] != Statuses(arrivals)[j] || Statuses(arrivals)[i].NotFound?
    ensures SyncResult(arrivals) == NotSynced
  {
    var k := MajorityOf(|arrivals|);
    if |Statuses(arrivals)| >= k {
      var first := Statuses(arrivals)[..k];
      assert first[i] == Statuses(arrivals)[i] && first[j] == Statuses(arrivals)[j];
      CheckIfSyncedExact(first, 0);
      if CheckIfSynced(first).SyncedAt? {
        CheckIfSyncedExact(first, CheckIfSynced(first).lsn);
      }
    }
  }

  lemma QuorumDecides(arrivals: seq<Arrival>, i: nat)
    requires i <= |arrivals| && |Statuses(arrivals[..i])| == MajorityOf(|arrivals|)
    ensures SyncResult(arrivals) == CheckIfSynced(Statuses(arrivals[..i])) && SyncResult(arrivals) != Panicked
  {
    var first := Statuses(arrivals[..i]);
    assert Statuses(arrivals)[..MajorityOf(|arrivals|)] == first by {
      StatusesPrefix(arrivals, i);
    }
    assert |Statuses(arrivals)| >= |first| by {
      StatusesPrefix(arrivals, i);
    }
    CheckIfSyncedExact(first, 0);
  }

  lemma ErrorsDecide(arrivals: seq<Arrival>, i: nat, errors: nat)
    requires i <= |arrivals| && |Statuses(arrivals[..i])| + errors == i && |Statuses(arrivals[..i])| < MajorityOf(|arrivals|)
    requires i == |arrivals| || errors >= MajorityOf(|arrivals|)
    ensures SyncResult(arrivals) == NotSynced
  {
    StatusesPrefix(arrivals, i);
  }

  /**
   The collection loop over every arrival order. Neither break changes the outcome: it is decided
   by the first quorum of responses, and without a quorum of responses there is none.
   */
  method CheckSafekeepersSynced(n: nat, arrivals: seq<Arrival>) returns (r: Synced)
    requires |arrivals| == n
    ensures r == SyncResult(arrivals) && r != Panicked
  {
    var quorum := n / 2 + 1;
    var responses: seq<TimelineStatus> := [];
    var joinErrors, taskErrors, timeoutErrors := 0, 0, 0;
    var i := 0;
    while i < |arrivals|
      invariant 0 <= i <= |arrivals|
      invariant responses == Statuses(arrivals[..i])
      invariant joinErrors >= 0 && taskErrors >= 0 && timeoutErrors >= 0
      invariant |responses| + joinErrors + taskErrors + timeoutErrors == i
      invariant |responses| < quorum
    {
      var a := arrivals[i];
      StatusesNext(arrivals, i);
      match a.outcome {
        case Response(s) => responses := responses + [s];
        case TaskError => taskErrors := taskErrors + 1;
        case TimeoutError => timeoutErrors := timeoutErrors + 1;
        case JoinError => joinErrors := joinErrors + 1;
      }
      i := i + 1;
      if |responses| >= quorum {
        break;
      }
      if joinErrors + taskErrors + timeoutErrors >= quorum {
        break;
      }
    }
    if |responses| < quorum {
      ErrorsDecide(arrivals, i, joinErrors + taskErrors + timeoutErrors);
      return NotSynced;
    }
    QuorumDecides(arrivals, i);
    r := CheckIfSynced(responses);
  }

  // ---------------------------------------------------------------- What a result means

  ghost predicate DistinctIds(arrivals: seq<Arrival>) {
    forall i, j :: 0 <= i < j < |arrivals| ==> arrivals[i].id != arrivals[j].id
  }

  lemma {:induction false} ResponsesDistinct(arrivals: seq<Arrival>)
    requires DistinctIds(arrivals)
    ensures DistinctIds(Responses(arrivals))
  {
    if arrivals != [] {
      var k := |arrivals| - 1;
      var pre, rest := arrivals[..k], Responses(arrivals[..k]);
      ResponsesDistinct(pre);
      forall i | 0 <= i < |rest| ensures rest[i].id != arrivals[k].id {
        ResponsesRespond(pre, i);
      }
    }
  }

  function Ids(arrivals: seq<Arrival>): set<string> {
    set i | 0 <= i < |arrivals| :: arrivals[i].id
  }

  lemma {:induction false} IdsCount(arrivals: seq<Arrival>)
    requires DistinctIds(arrivals)
    ensures |Ids(arrivals)| == |arrivals|
  {
    if arrivals != [] {
      var k := |arrivals| - 1;
      IdsCount(arrivals[..k]);
      assert Ids(arrivals) == Ids(arrivals[..k]) + {arrivals[k].id} by {
        forall x | x in Ids(arrivals) ensures x in Ids(arrivals[..k]) + {arrivals[k].id} {
          var i :| 0 <= i < |arrivals| && arrivals[i].id == x;
          if i < k { assert arrivals[..k][i].id == x; }
        }
        forall x | x in Ids(arrivals[..k]) ensures x in Ids(arrivals) {
          var i :| 0 <= i < k && arrivals[..k][i].id == x;
          assert arrivals[i].id == x;
        }
      }
    }
  }

  /** A snapshot of all safekeepers that the arrivals were drawn from. */
  ghost predicate Witnesses(snapshot: map<string, TimelineStatus>, arrivals: seq<Arrival>) {
    forall i :: 0 <= i < |arrivals| ==>
      && arrivals[i].id in snapshot
      && (arrivals[i].outcome.Response? ==> arrivals[i].outcome.status == snapshot[arrivals[i].id])
  }

  ghost predicate MajorityFlushed(snapshot: map<string, TimelineStatus>, x: Lsn) {
    exists m: set<string> :: 2 * |m| > |snapshot| && AllFlushed(snapshot, m, x)
  }

  ghost predicate AllFlushed(snapshot: map<string, TimelineStatus>, m: set<string>, x: Lsn) {
    forall id :: id in m ==> id in snapshot && snapshot[id].Found? && snapshot[id].flush >= x
  }

  /** The safekeepers behind a result: a majority that all reported flush and commit `l`. */
  lemma SyncedMajority(arrivals: seq<Arrival>, snapshot: map<string, TimelineStatus>, l: Lsn) returns (q: set<string>)
    requires DistinctIds(arrivals) && Witnesses(snapshot, arrivals)
    requires SyncResult(arrivals) == SyncedAt(l)
    ensures q <= snapshot.Keys && |q| == MajorityOf(|arrivals|)
    ensures forall id :: id in q ==> snapshot[id] == Found(l, l)
  {
    var k := MajorityOf(|arrivals|);
    StatusesOfResponses(arrivals);
    var first := Responses(arrivals)[..k];
    ResponsesDistinct(arrivals);
    IdsCount(first);
    CheckIfSyncedExact(Statuses(arrivals)[..k], l);
    q := Ids(first);
    forall id | id in q ensures id in snapshot && snapshot[id] == Found(l, l) {
      var i :| 0 <= i < |first| && first[i].id == id;
      ResponsesRespond(arrivals, i);
      assert Statuses(arrivals)[..k][i] == first[i].outcome.status;
    }
  }

  lemma {:induction false} SubsetSize<T>(a: set<T>, b: set<T>)
    requires a <= b
    ensures |a| <= |b|
  {
    if a != {} {
      var x :| x in a;
      SubsetSize(a - {x}, b - {x});
    }
  }

  /** Two sets too large for their universe to hold apart share a member. */
  lemma Overlap<T>(a: set<T>, b: set<T>, u: set<T>)
    requires a <= u && b <= u && |a| + |b| > |u|
    ensures a * b != {}
  {
    SubsetSize(a + b, u);
    assert |a + b| == |a| + |b| - |a * b|;
  }

  /**
   Soundness: a result `l` is the quorum-flushed position of every snapshot behind the responses.
   A majority has flushed up to `x` exactly for `x <= l`, so no majority lies above `l`.
   */
  lemma SyncedIsQuorumPosition(arrivals: seq<Arrival>, snapshot: map<string, TimelineStatus>, l: Lsn, x: Lsn)
    requires DistinctIds(arrivals) && Witnesses(snapshot, arrivals) && |snapshot| == |arrivals|
    requires SyncResult(arrivals) == SyncedAt(l)
    ensures MajorityFlushed(snapshot, x) <==> x <= l
  {
    var q := SyncedMajority(arrivals, snapshot, l);
    if MajorityFlushed(snapshot, x) {
      var m: set<string> :| 2 * |m| > |snapshot| && AllFlushed(snapshot, m, x);
      Overlap(q, m, snapshot.Keys);
      var common :| common in q * m;
      assert snapshot[common] == Found(l, l);
    }
    if x <= l {
      assert AllFlushed(snapshot, q, x);
    }
  }

  /** Any two arrival orders over one snapshot that both report a position report the same one. */
  lemma ResultsAgree(a: seq<Arrival>, b: seq<Arrival>, snapshot: map<string, TimelineStatus>, l: Lsn, m: Lsn)
    requires DistinctIds(a) && Witnesses(snapshot, a) && |snapshot| == |a|
    requires DistinctIds(b) && Witnesses(snapshot, b) && |snapshot| == |b|
    requires SyncResult(a) == SyncedAt(l) && SyncResult(b) == SyncedAt(m)
    ensures l == m
  {
    SyncedIsQuorumPosition(a, snapshot, l, m);
    SyncedIsQuorumPosition(b, snapshot, m, m);
    SyncedIsQuorumPosition(b, snapshot, m, l);
    SyncedIsQuorumPosition(a, snapshot, l, l);
  }

  // ---------------------------------------------------------------- From the spec to the result

  function IdSeq(arrivals: seq<Arrival>): seq<string> {
    seq(|arrivals|, i requires 0 <= i < |arrivals| => arrivals[i].id)
  }

  /** Each safekeeper of the list was asked once and answered, in whatever order. */
  ghost predicate Asked(connstrings: seq<string>, arrivals: seq<Arrival>) {
    multiset(IdSeq(arrivals)) == multiset(connstrings)
  }

  /** A list that validation accepts leads to arrivals from pairwise distinct safekeepers. */
  lemma ValidatedAreDistinct(connstrings: seq<string>, arrivals: seq<Arrival>)
    requires NoDuplicates(connstrings) && Asked(connstrings, arrivals)
    ensures DistinctIds(arrivals)
  {
    var ids := IdSeq(arrivals);
    forall i, j | 0 <= i < j < |arrivals| ensures arrivals[i].id != arrivals[j].id {
      if ids[i] == ids[j] {
        TwoPlacesMeanTwice(ids, i, j);
      }
    }
  }

  lemma AskedCoverSnapshot(connstrings: seq<string>, arrivals: seq<Arrival>, snapshot: map<string, TimelineStatus>)
    requires NoDuplicates(connstrings) && Asked(connstrings, arrivals)
    requires forall id :: id in snapshot <==> id in connstrings
    ensures |snapshot| == |arrivals|
  {
    ValidatedAreDistinct(connstrings, arrivals);
    IdsCount(arrivals);
    var ids := IdSeq(arrivals);
    forall id ensures id in snapshot.Keys <==> id in Ids(arrivals) {
      assert id in connstrings <==> id in multiset(connstrings);
      assert id in ids <==> id in multiset(ids);
      if id in ids {
        var i :| 0 <= i < |ids| && ids[i] == id;
        assert arrivals[i].id == id;
      }
      if id in Ids(arrivals) {
        var i :| 0 <= i < |arrivals| && arrivals[i].id == id;
        assert ids[i] == id;
      }
    }
    assert snapshot.Keys == Ids(arrivals);
  }

  /**
   End to end: for a safekeeper list that validation accepts, the position that the check returns is
   the position up to which a majority of that list has flushed.
   */
  lemma ValidatedIsQuorumPosition(connstrings: seq<string>, arrivals: seq<Arrival>,
                                  snapshot: map<string, TimelineStatus>, l: Lsn, x: Lsn)
    requires NoDuplicates(connstrings) && Asked(connstrings, arrivals)
    requires (forall id :: id in snapshot <==> id in connstrings) && Witnesses(snapshot, arrivals)
    requires SyncResult(arrivals) == SyncedAt(l)
    ensures MajorityFlushed(snapshot, x) <==> x <= l
  {
    ValidatedAreDistinct(connstrings, arrivals);
    AskedCoverSnapshot(connstrings, arrivals, snapshot);
    SyncedIsQuorumPosition(arrivals, snapshot, l, x);
  }
}
