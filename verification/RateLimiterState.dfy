/**
  The sliding-window limiter of server/validate.js:220-248 as a value, and what its pruned lists of
  hits say about the full history of accepted requests.
 */
module RateLimiterState {
  import opened FiniteSets

  /** At most `maxRequests` per key in any `windowMs`, for at most `maxKeys` keys. */
  datatype Limits = Limits(maxRequests: int, windowMs: int, maxKeys: int)

  predicate ValidLimits(limits: Limits) {
    limits.maxKeys >= 1
  }

  type Hits = map<string, seq<int>>

  function HitsOf(hits: Hits, key: string): seq<int> {
    if key in hits then hits[key] else []
  }

  /** The times that are still inside the window at `now`. */
  function Live(times: seq<int>, now: int, windowMs: int): seq<int> {
    if times == [] then []
    else
      var rest, last := Live(times[..|times| - 1], now, windowMs), times[|times| - 1];
      if now - last < windowMs then rest + [last] else rest
  }

  /** Expired times and empty keys are dropped. */
  function Pruned(hits: Hits, now: int, windowMs: int): Hits {
    map key | key in hits && Live(hits[key], now, windowMs) != [] :: Live(hits[key], now, windowMs)
  }

  predicate Grants(hits: Hits, limits: Limits, key: string) {
    && (key in hits || |hits| < limits.maxKeys)
    && |HitsOf(hits, key)| < limits.maxRequests
  }

  predicate Allows(hits: Hits, limits: Limits, key: string, now: int) {
    Grants(Pruned(hits, now, limits.windowMs), limits, key)
  }

  /** The hits after a request: pruned, and with the request recorded if it is granted and not a peek. */
  function Requested(hits: Hits, limits: Limits, key: string, now: int, peek: bool): Hits {
    var live := Pruned(hits, now, limits.windowMs);
    if Grants(live, limits, key) && !peek then live[key := HitsOf(live, key) + [now]] else live
  }

  // --- Live times ---------------------------------------------------------------------------------

  lemma {:induction false} LiveShorter(times: seq<int>, now: int, windowMs: int)
    ensures |Live(times, now, windowMs)| <= |times|
    ensures forall t :: t in Live(times, now, windowMs) ==> t in times && now - t < windowMs
  {
    if times != [] {
      LiveShorter(times[..|times| - 1], now, windowMs);
    }
  }

  /** Dropping what has expired at one time does not change what is live at another at which it has expired too. */
  lemma {:induction false} LiveLater(times: seq<int>, now: int, later: int, windowMs: int)
    requires forall t :: t in times && now - t >= windowMs ==> later - t >= windowMs
    ensures Live(Live(times, now, windowMs), later, windowMs) == Live(times, later, windowMs)
  {
    if times != [] {
      var rest, last := times[..|times| - 1], times[|times| - 1];
      forall t | t in rest && now - t >= windowMs ensures later - t >= windowMs {
        assert t in times;
      }
      LiveLater(rest, now, later, windowMs);
      var live := Live(rest, now, windowMs);
      if now - last < windowMs {
        assert (live + [last])[..|live|] == live;
      } else {
        assert last in times;
      }
    }
  }

  lemma PrunedAt(hits: Hits, now: int, windowMs: int, key: string)
    ensures HitsOf(Pruned(hits, now, windowMs), key) == Live(HitsOf(hits, key), now, windowMs)
    ensures key in Pruned(hits, now, windowMs) <==> Live(HitsOf(hits, key), now, windowMs) != []
  {
  }

  // --- A peek that says yes ---------------------------------------------------------------------------

  lemma PrunedFewer(hits: Hits, now: int, windowMs: int)
    ensures Pruned(hits, now, windowMs).Keys <= hits.Keys
    ensures |Pruned(hits, now, windowMs)| <= |hits|
  {
    SubsetSize(Pruned(hits, now, windowMs).Keys, hits.Keys);
    assert |Pruned(hits, now, windowMs).Keys| == |Pruned(hits, now, windowMs)| && |hits.Keys| == |hits|;
  }

  /** Pruning once more never turns a yes into a no. */
  lemma PruningKeepsGrant(hits: Hits, limits: Limits, key: string, later: int)
    requires Grants(hits, limits, key) && |hits| <= limits.maxKeys
    ensures Allows(hits, limits, key, later)
  {
    var live := Pruned(hits, later, limits.windowMs);
    PrunedFewer(hits, later, limits.windowMs);
    PrunedAt(hits, later, limits.windowMs, key);
    LiveShorter(HitsOf(hits, key), later, limits.windowMs);
    if key in hits && key !in live {
      assert live.Keys <= hits.Keys - {key};
      SubsetSize(live.Keys, hits.Keys - {key});
      assert |live.Keys| == |live| && |hits.Keys| == |hits|;
    }
  }

  /**
    A peek that says yes guarantees the next consume of the same key, at whatever time it comes, even
    if the clock stepped back in between.
   */
  lemma PeekGuaranteesConsume(hits: Hits, limits: Limits, key: string, now: int, later: int)
    requires Tracked(hits, limits) && Allows(hits, limits, key, now)
    ensures var peeked := Requested(hits, limits, key, now, true);
            Allows(peeked, limits, key, later)
  {
    PrunedFewer(hits, now, limits.windowMs);
    PruningKeepsGrant(Pruned(hits, now, limits.windowMs), limits, key, later);
  }

  /** The table never holds more keys than it may. */
  predicate Tracked(hits: Hits, limits: Limits) {
    |hits| <= limits.maxKeys
  }

  lemma RequestKeepsTracked(hits: Hits, limits: Limits, key: string, now: int, peek: bool)
    requires Tracked(hits, limits)
    ensures Tracked(Requested(hits, limits, key, now, peek), limits)
  {
    var live := Pruned(hits, now, limits.windowMs);
    PrunedFewer(hits, now, limits.windowMs);
    var added := live[key := HitsOf(live, key) + [now]];
    assert added.Keys == live.Keys + {key};
    assert |added.Keys| == |added| && |live.Keys| == |live|;
  }

  // --- The full history -------------------------------------------------------------------------------

  datatype Request = Request(key: string, now: int, peek: bool)

  /** The limiter's table, and everything it ever granted. */
  datatype System = System(hits: Hits, granted: Hits)

  const START := System(map[], map[])

  function Next(s: System, limits: Limits, r: Request): System {
    System(Requested(s.hits, limits, r.key, r.now, r.peek),
           if Allows(s.hits, limits, r.key, r.now) && !r.peek
             then s.granted[r.key := HitsOf(s.granted, r.key) + [r.now]] else s.granted)
  }

  function Run(limits: Limits, requests: seq<Request>): System {
    if requests == [] then START else Next(Run(limits, requests[..|requests| - 1]), limits, requests[|requests| - 1])
  }

  predicate NonDecreasing(requests: seq<Request>) {
    forall i, j :: 0 <= i <= j < |requests| ==> requests[i].now <= requests[j].now
  }

  /** The clock readings of the requests. */
  function Clock(requests: seq<Request>): (clock: seq<int>)
    ensures |clock| == |requests| && forall i :: 0 <= i < |clock| ==> clock[i] == requests[i].now
  {
    seq(|requests|, i requires 0 <= i < |requests| => requests[i].now)
  }

  /** A granted consume is recorded in the table and in the history of its key; other keys only lose what expired. */
  lemma NextAt(s: System, limits: Limits, r: Request, key: string)
    ensures var s', live := Next(s, limits, r), Live(HitsOf(s.hits, key), r.now, limits.windowMs);
            if key == r.key && !r.peek && Allows(s.hits, limits, key, r.now)
            then HitsOf(s'.hits, key) == live + [r.now] && HitsOf(s'.granted, key) == HitsOf(s.granted, key) + [r.now]
            else HitsOf(s'.hits, key) == live && HitsOf(s'.granted, key) == HitsOf(s.granted, key)
  {
    hide Live, Pruned, Grants;
    PrunedAt(s.hits, r.now, limits.windowMs, key);
  }

  lemma {:induction false} HitsAreReadings(limits: Limits, requests: seq<Request>, key: string, t: int)
    requires t in HitsOf(Run(limits, requests).hits, key)
    ensures t in Clock(requests)
  {
    hide Live, Next, Allows, Clock;
    if requests != [] {
      var before, r := requests[..|requests| - 1], requests[|requests| - 1];
      var s := Run(limits, before);
      assert Clock(requests) == Clock(before) + [r.now];
      NextAt(s, limits, r, key);
      LiveShorter(HitsOf(s.hits, key), r.now, limits.windowMs);
      if t in HitsOf(s.hits, key) { HitsAreReadings(limits, before, key, t); }
    }
  }

  lemma {:induction false} RunKeepsTracked(limits: Limits, requests: seq<Request>)
    requires ValidLimits(limits)
    ensures Tracked(Run(limits, requests).hits, limits)
  {
    if requests != [] {
      var before, r := requests[..|requests| - 1], requests[|requests| - 1];
      RunKeepsTracked(limits, before);
      RequestKeepsTracked(Run(limits, before).hits, limits, r.key, r.now, r.peek);
    }
  }

  // --- What the table shows of the history --------------------------------------------------------------

  /** What is recorded at `i` has expired at `j`, and is live again at `k`. */
  predicate Revives(clock: seq<int>, windowMs: int, i: nat, j: nat, k: nat)
    requires i < j < k < |clock|
  {
    clock[k] - clock[i] < windowMs <= clock[j] - clock[i]
  }

  /** The clock may step back, but never so far that something that had expired is live again. */
  predicate NothingRevives(clock: seq<int>, windowMs: int) {
    forall i, j, k :: 0 <= i < j < k < |clock| ==> !Revives(clock, windowMs, i, j, k)
  }

  /** Of each key the table shows exactly what is live of its full history. */
  ghost predicate ShowsLive(s: System, windowMs: int, now: int) {
    forall key :: Live(HitsOf(s.hits, key), now, windowMs) == Live(HitsOf(s.granted, key), now, windowMs)
  }

  lemma LiveAppends(times: seq<int>, last: int, now: int, windowMs: int)
    ensures Live(times + [last], now, windowMs)
            == if now - last < windowMs then Live(times, now, windowMs) + [last] else Live(times, now, windowMs)
  {
    assert (times + [last])[..|times|] == times;
  }

  /** Without the second last reading nothing revives either, and what had expired at it has expired at the last. */
  lemma WithoutSecondLast(before: seq<int>, now: int, at: int, windowMs: int)
    requires NothingRevives(before + [now] + [at], windowMs)
    ensures NothingRevives(before + [at], windowMs)
    ensures forall t :: t in before && now - t >= windowMs ==> at - t >= windowMs
  {
    var clock, n := before + [now] + [at], |before|;
    forall i, j, k | 0 <= i < j < k <= n ensures !Revives(before + [at], windowMs, i, j, k) {
      assert !Revives(clock, windowMs, i, j, if k == n then n + 1 else k);
    }
    forall t | t in before && now - t >= windowMs ensures at - t >= windowMs {
      var i :| 0 <= i < n && before[i] == t;
      assert !Revives(clock, windowMs, i, n, n + 1);
    }
  }

  /** As long as nothing revives, the pruned table shows of each key exactly what is live of its full history. */
  lemma {:induction false} RunRefines(limits: Limits, requests: seq<Request>, at: int)
    requires NothingRevives(Clock(requests) + [at], limits.windowMs)
    ensures ShowsLive(Run(limits, requests), limits.windowMs, at)
  {
    hide Live, Next, Allows, NothingRevives;
    if requests != [] {
      var before, r := requests[..|requests| - 1], requests[|requests| - 1];
      var s := Run(limits, before);
      assert Clock(requests) == Clock(before) + [r.now];
      WithoutSecondLast(Clock(before), r.now, at, limits.windowMs);
      RunRefines(limits, before, at);
      forall key
        ensures Live(HitsOf(Run(limits, requests).hits, key), at, limits.windowMs)
             == Live(HitsOf(Run(limits, requests).granted, key), at, limits.windowMs)
      {
        NextAt(s, limits, r, key);
        forall t | t in HitsOf(s.hits, key) ensures t in Clock(before) {
          HitsAreReadings(limits, before, key, t);
        }
        LiveLater(HitsOf(s.hits, key), r.now, at, limits.windowMs);
        LiveAppends(Live(HitsOf(s.hits, key), r.now, limits.windowMs), r.now, at, limits.windowMs);
        LiveAppends(HitsOf(s.granted, key), r.now, at, limits.windowMs);
      }
    }
  }

  /** Keys of the full history that have a live grant. */
  function LiveKeys(granted: Hits, now: int, windowMs: int): set<string> {
    set key | key in granted && Live(HitsOf(granted, key), now, windowMs) != []
  }

  /** By the full history: the key's window is full, or the request needs a new key and the table is full. */
  predicate FullByHistory(granted: Hits, limits: Limits, key: string, now: int) {
    var live := Live(HitsOf(granted, key), now, limits.windowMs);
    || |live| >= limits.maxRequests
    || (live == [] && |LiveKeys(granted, now, limits.windowMs)| >= limits.maxKeys)
  }

  lemma LiveOfNone(now: int, windowMs: int)
    ensures Live([], now, windowMs) == []
  {
  }

  lemma SameLiveKeys(s: System, now: int, windowMs: int)
    requires ShowsLive(s, windowMs, now)
    ensures Pruned(s.hits, now, windowMs).Keys == LiveKeys(s.granted, now, windowMs)
    ensures |Pruned(s.hits, now, windowMs)| == |LiveKeys(s.granted, now, windowMs)|
  {
    hide Live, Pruned;
    var live := Pruned(s.hits, now, windowMs);
    LiveOfNone(now, windowMs);
    forall key ensures key in live <==> key in LiveKeys(s.granted, now, windowMs) {
      PrunedAt(s.hits, now, windowMs, key);
      assert Live(HitsOf(s.hits, key), now, windowMs) == Live(HitsOf(s.granted, key), now, windowMs);
    }
    assert |live.Keys| == |live|;
  }

  /**
    As long as nothing revives, a request is refused exactly when by the full history its own window is full, or it
    needs a new key and the table is full.
   */
  lemma RefusedIff(limits: Limits, requests: seq<Request>, r: Request)
    requires NothingRevives(Clock(requests) + [r.now], limits.windowMs)
    ensures var s := Run(limits, requests);
            !Allows(s.hits, limits, r.key, r.now) <==> FullByHistory(s.granted, limits, r.key, r.now)
  {
    hide Live, Run, Pruned, LiveKeys, NothingRevives;
    var s := Run(limits, requests);
    RunRefines(limits, requests, r.now);
    SameLiveKeys(s, r.now, limits.windowMs);
    PrunedAt(s.hits, r.now, limits.windowMs, r.key);
    assert Live(HitsOf(s.hits, r.key), r.now, limits.windowMs)
           == Live(HitsOf(s.granted, r.key), r.now, limits.windowMs);
  }

  predicate DecidesByHistory(limits: Limits, requests: seq<Request>, n: nat)
    requires n < |requests|
  {
    var s, r := Run(limits, requests[..n]), requests[n];
    !Allows(s.hits, limits, r.key, r.now) <==> FullByHistory(s.granted, limits, r.key, r.now)
  }

  /** In every run at these clock readings every request is decided as by the full history. */
  ghost predicate AlwaysByHistory(clock: seq<int>, windowMs: int) {
    forall limits: Limits, requests: seq<Request>, n: nat ::
      ValidLimits(limits) && limits.windowMs == windowMs && Clock(requests) == clock && n < |requests| ==>
        DecidesByHistory(limits, requests, n)
  }

  // --- Windows ------------------------------------------------------------------------------------------

  /** How many of the times lie in [from, to). */
  function CountIn(times: seq<int>, from: int, to: int): nat {
    if times == [] then 0
    else CountIn(times[..|times| - 1], from, to) + if from <= times[|times| - 1] < to then 1 else 0
  }

  lemma {:induction false} CountAtMost(times: seq<int>, from: int, to: int)
    ensures CountIn(times, from, to) <= |times|
  {
    if times != [] { CountAtMost(times[..|times| - 1], from, to); }
  }

  lemma CountAppends(times: seq<int>, last: int, from: int, to: int)
    ensures CountIn(times + [last], from, to) == CountIn(times, from, to) + if from <= last < to then 1 else 0
  {
    assert (times + [last])[..|times|] == times;
  }

  /** Dropping what expired takes nothing out of a window, unless something in the window expired. */
  lemma {:induction false} CountOfLive(times: seq<int>, now: int, windowMs: int, from: int, to: int)
    ensures CountIn(Live(times, now, windowMs), from, to) == CountIn(times, from, to)
            || exists t :: t in times && from <= t < to && now - t >= windowMs
  {
    if times != [] {
      var rest, last := times[..|times| - 1], times[|times| - 1];
      CountOfLive(rest, now, windowMs, from, to);
      CountAppends(Live(rest, now, windowMs), last, from, to);
      if t :| t in rest && from <= t < to && now - t >= windowMs {
        assert t in times;
      }
      assert last in times;
    }
  }

  /** What is recorded at `i` has expired at `j`, and is within reach again at `k`. */
  predicate ComesBack(clock: seq<int>, windowMs: int, i: nat, j: nat, k: nat)
    requires i < j < k < |clock|
  {
    clock[j] - clock[i] >= windowMs && -windowMs < clock[k] - clock[i] < windowMs
  }

  /** The clock may step back, but never to within a window of a reading that it had left by a whole window. */
  predicate NothingComesBack(clock: seq<int>, windowMs: int) {
    forall i, j, k :: 0 <= i < j < k < |clock| ==> !ComesBack(clock, windowMs, i, j, k)
  }

  predicate WindowBounded(limits: Limits, requests: seq<Request>, key: string, from: int) {
    CountIn(HitsOf(Run(limits, requests).granted, key), from, from + limits.windowMs) <= limits.maxRequests
  }

  /** No run at these clock readings puts more grants of a key into a window than the limit allows. */
  ghost predicate AlwaysBounded(clock: seq<int>, windowMs: int) {
    forall limits: Limits, requests: seq<Request>, key: string, from: int ::
      ValidLimits(limits) && limits.maxRequests >= 0 && limits.windowMs == windowMs && Clock(requests) == clock ==>
        WindowBounded(limits, requests, key, from)
  }

  /** Some reading in the window that starts at `from` has expired at a later reading. */
  predicate ExpiredIn(clock: seq<int>, windowMs: int, from: int) {
    exists i, j :: 0 <= i < j < |clock| && from <= clock[i] < from + windowMs && clock[j] - clock[i] >= windowMs
  }

  /** The table holds all grants that lie in a window, unless something in that window has expired. */
  lemma {:induction false} TableCounts(limits: Limits, requests: seq<Request>, key: string, from: int)
    ensures var s, to := Run(limits, requests), from + limits.windowMs;
            || CountIn(HitsOf(s.hits, key), from, to) == CountIn(HitsOf(s.granted, key), from, to)
            || ExpiredIn(Clock(requests), limits.windowMs, from)
  {
    hide Live, Next, Allows, CountIn, Clock, ExpiredIn;
    if requests != [] {
      var n, to := |requests| - 1, from + limits.windowMs;
      var before, r := requests[..n], requests[n];
      var s := Run(limits, before);
      TableCounts(limits, before, key, from);
      var clock := Clock(requests);
      assert Clock(before) == clock[..n];
      if !ExpiredIn(clock, limits.windowMs, from) {
        NothingExpiredBefore(clock, limits.windowMs, from);
        NextAt(s, limits, r, key);
        CountOfLive(HitsOf(s.hits, key), r.now, limits.windowMs, from, to);
        forall t | t in HitsOf(s.hits, key) && from <= t < to ensures r.now - t < limits.windowMs {
          HitsAreReadings(limits, before, key, t);
        }
        CountAppends(Live(HitsOf(s.hits, key), r.now, limits.windowMs), r.now, from, to);
        CountAppends(HitsOf(s.granted, key), r.now, from, to);
      }
    }
  }

  /** If nothing in the window has expired at the last reading, then nothing in it had before, nor does it then. */
  lemma NothingExpiredBefore(clock: seq<int>, windowMs: int, from: int)
    requires clock != [] && !ExpiredIn(clock, windowMs, from)
    ensures var n := |clock| - 1;
            && !ExpiredIn(clock[..n], windowMs, from)
            && forall t :: t in clock[..n] && from <= t < from + windowMs ==> clock[n] - t < windowMs
  {
  }

  lemma ReadingsBefore(clock: seq<int>, windowMs: int)
    requires clock != [] && NothingComesBack(clock, windowMs)
    ensures NothingComesBack(clock[..|clock| - 1], windowMs)
  {
    var before := clock[..|clock| - 1];
    forall i, j, k | 0 <= i < j < k < |before| ensures !ComesBack(before, windowMs, i, j, k) {
      assert !ComesBack(clock, windowMs, i, j, k);
    }
  }

  /** Nothing in a window that holds the last reading had expired before. */
  lemma NothingInReachExpired(clock: seq<int>, windowMs: int, from: int)
    requires clock != [] && NothingComesBack(clock, windowMs)
    requires from <= clock[|clock| - 1] < from + windowMs
    ensures !ExpiredIn(clock[..|clock| - 1], windowMs, from)
  {
    var n := |clock| - 1;
    forall i, j | 0 <= i < j < n && from <= clock[i] < from + windowMs ensures clock[j] - clock[i] < windowMs {
      assert !ComesBack(clock, windowMs, i, j, n);
    }
  }

  /** While nothing comes back, no window holds more grants of a key than the limit, on any clock. */
  lemma {:induction false} BoundedWhileNothingComesBack(limits: Limits, requests: seq<Request>, key: string, from: int)
    requires limits.maxRequests >= 0 && NothingComesBack(Clock(requests), limits.windowMs)
    ensures WindowBounded(limits, requests, key, from)
  {
    hide Live, Pruned, CountIn, NothingComesBack, ExpiredIn, Clock, Next;
    if requests == [] {
      CountAtMost([], from, from + limits.windowMs);
    } else {
      var n, to := |requests| - 1, from + limits.windowMs;
      var before, r := requests[..n], requests[n];
      var s := Run(limits, before);
      assert Clock(requests)[..n] == Clock(before);
      ReadingsBefore(Clock(requests), limits.windowMs);
      BoundedWhileNothingComesBack(limits, before, key, from);
      NextAt(s, limits, r, key);
      CountAppends(HitsOf(s.granted, key), r.now, from, to);
      if from <= r.now < to && r.key == key && Allows(s.hits, limits, key, r.now) {
        NothingInReachExpired(Clock(requests), limits.windowMs, from);
        TableCounts(limits, before, key, from);
        PrunedAt(s.hits, r.now, limits.windowMs, key);
        CountOfLive(HitsOf(s.hits, key), r.now, limits.windowMs, from, to);
        CountAtMost(HitsOf(Pruned(s.hits, r.now, limits.windowMs), key), from, to);
      }
    }
  }

  // --- A reading that comes back ------------------------------------------------------------------------

  /** Requests at the given readings: "a" is consumed at `i` and at `k`, and all others peek at "b". */
  function ConsumedTwice(clock: seq<int>, i: nat, k: nat): (requests: seq<Request>)
    ensures Clock(requests) == clock
  {
    seq(|clock|, n requires 0 <= n < |clock| =>
      Request(if n == i || n == k then "a" else "b", clock[n], n != i && n != k))
  }

  lemma PrunedNone(now: int, windowMs: int)
    ensures Pruned(map[], now, windowMs) == map[]
  {
  }

  lemma PrunedOne(t: int, now: int, windowMs: int)
    ensures Pruned(map["a" := [t]], now, windowMs) == if now - t < windowMs then map["a" := [t]] else map[]
  {
    assert [t][..0] == [] && [] + [t] == [t];
    assert Live([t], now, windowMs) == if now - t < windowMs then [t] else [];
  }

  /** An empty table grants the first consume of "a". */
  lemma EmptyTableGrants(granted: Hits, limits: Limits, now: int)
    requires limits.maxRequests == 1 && ValidLimits(limits)
    ensures Next(System(map[], granted), limits, Request("a", now, false))
            == System(map["a" := [now]], granted["a" := HitsOf(granted, "a") + [now]])
  {
    hide Pruned;
    PrunedNone(now, limits.windowMs);
    assert [] + [now] == [now];
  }

  /** A peek drops the one grant in the table once it has expired. */
  lemma PeekAtOther(s: System, limits: Limits, t: int, now: int)
    ensures var s' := Next(s, limits, Request("b", now, true));
            && s'.granted == s.granted
            && (s.hits in {map["a" := [t]], map[]} ==>
                  s'.hits == if now - t < limits.windowMs then s.hits else map[])
  {
    hide Pruned;
    PrunedNone(now, limits.windowMs);
    PrunedOne(t, now, limits.windowMs);
  }

  /** The state before request `n`: from `j` on the limiter has forgotten what it granted at `i`. */
  predicate Forgets(s: System, clock: seq<int>, i: nat, j: nat, k: nat, n: nat)
    requires i < j < k < |clock|
  {
    && (n <= i ==> s == START)
    && (i < n <= k ==> s.granted == map["a" := [clock[i]]] && s.hits in {map["a" := [clock[i]]], map[]})
    && (j < n <= k ==> s.hits == map[])
    && (k < n ==> s.granted == map["a" := [clock[i], clock[k]]])
  }

  lemma ForgetsNext(s: System, limits: Limits, clock: seq<int>, i: nat, j: nat, k: nat, n: nat)
    requires limits.maxRequests == 1 && ValidLimits(limits)
    requires i < j < k < |clock| && n < |clock| && clock[j] - clock[i] >= limits.windowMs
    requires Forgets(s, clock, i, j, k, n)
    ensures Forgets(Next(s, limits, ConsumedTwice(clock, i, k)[n]), clock, i, j, k, n + 1)
  {
    hide Next;
    if n == i || n == k {
      EmptyTableGrants(s.granted, limits, clock[n]);
      GrantedSoFar(clock[i], clock[n]);
    } else {
      PeekAtOther(s, limits, clock[i], clock[n]);
    }
  }

  lemma {:induction false} ForgottenGrant(limits: Limits, clock: seq<int>, i: nat, j: nat, k: nat, n: nat)
    requires limits.maxRequests == 1 && ValidLimits(limits)
    requires i < j < k < |clock| && n <= |clock| && clock[j] - clock[i] >= limits.windowMs
    ensures Forgets(Run(limits, ConsumedTwice(clock, i, k)[..n]), clock, i, j, k, n)
  {
    hide Next, ConsumedTwice;
    if n > 0 {
      var requests := ConsumedTwice(clock, i, k);
      ForgottenGrant(limits, clock, i, j, k, n - 1);
      assert requests[..n][..n - 1] == requests[..n - 1];
      ForgetsNext(Run(limits, requests[..n - 1]), limits, clock, i, j, k, n - 1);
    }
  }

  lemma GrantedSoFar(first: int, now: int)
    ensures map[]["a" := HitsOf(map[], "a") + [now]] == map["a" := [now]]
    ensures map["a" := [first]]["a" := HitsOf(map["a" := [first]], "a") + [now]] == map["a" := [first, now]]
  {
    assert [] + [now] == [now] && [first] + [now] == [first, now];
    assert HitsOf(map[], "a") == [] && HitsOf(map["a" := [first]], "a") == [first];
    var before: Hits := map["a" := [first]];
    assert before["a" := [first, now]] == map["a" := [first, now]];
  }

  /** When something revives, the limiter grants what its own history refuses. */
  lemma RevivedGrantIsForgotten(limits: Limits, clock: seq<int>, i: nat, j: nat, k: nat)
    requires limits.maxRequests == 1 && ValidLimits(limits)
    requires i < j < k < |clock| && Revives(clock, limits.windowMs, i, j, k)
    ensures !DecidesByHistory(limits, ConsumedTwice(clock, i, k), k)
  {
    hide Run, Pruned, LiveKeys;
    ForgottenGrant(limits, clock, i, j, k, k);
    PrunedNone(clock[k], limits.windowMs);
    LiveAppends([], clock[i], clock[k], limits.windowMs);
    assert [] + [clock[i]] == [clock[i]];
  }

  /**
    The exact condition on the clock for the pruned table to stand for the full history: every request of every run at
    these readings is decided as by the full history if and only if nothing that has expired is ever live again.
   */
  lemma ByHistoryIff(clock: seq<int>, windowMs: int)
    ensures AlwaysByHistory(clock, windowMs) <==> NothingRevives(clock, windowMs)
  {
    hide Run, Revives, DecidesByHistory;
    if NothingRevives(clock, windowMs) {
      forall limits: Limits, requests: seq<Request>, n: nat |
        limits.windowMs == windowMs && Clock(requests) == clock && n < |requests|
        ensures DecidesByHistory(limits, requests, n)
      {
        DecidedByHistory(limits, requests, n);
      }
    } else {
      var i, j, k :| 0 <= i < j < k < |clock| && Revives(clock, windowMs, i, j, k);
      var limits := Limits(1, windowMs, 1024);
      RevivedGrantIsForgotten(limits, clock, i, j, k);
      assert Clock(ConsumedTwice(clock, i, k)) == clock;
    }
  }

  lemma DecidedByHistory(limits: Limits, requests: seq<Request>, n: nat)
    requires NothingRevives(Clock(requests), limits.windowMs) && n < |requests|
    ensures DecidesByHistory(limits, requests, n)
  {
    hide Run, Allows, FullByHistory;
    var clock, upTo := Clock(requests), Clock(requests[..n]) + [requests[n].now];
    forall i, j, k | 0 <= i < j < k < |upTo| ensures !Revives(upTo, limits.windowMs, i, j, k) {
      assert !Revives(clock, limits.windowMs, i, j, k);
    }
    RefusedIff(limits, requests[..n], requests[n]);
  }

  lemma BothInWindow(a: int, b: int, windowMs: int)
    requires -windowMs < b - a < windowMs
    ensures var from := if a < b then a else b; CountIn([a, b], from, from + windowMs) == 2
  {
    var from := if a < b then a else b;
    CountAppends([], a, from, from + windowMs);
    CountAppends([a], b, from, from + windowMs);
    assert [] + [a] == [a] && [a] + [b] == [a, b];
  }

  /** When a reading comes back, two grants fall into one window although one is allowed. */
  lemma ComingBackGrantsTooMany(limits: Limits, clock: seq<int>, i: nat, j: nat, k: nat)
    requires limits.maxRequests == 1 && ValidLimits(limits)
    requires i < j < k < |clock| && ComesBack(clock, limits.windowMs, i, j, k)
    ensures var from := if clock[i] < clock[k] then clock[i] else clock[k];
            && HitsOf(Run(limits, ConsumedTwice(clock, i, k)).granted, "a") == [clock[i], clock[k]]
            && CountIn([clock[i], clock[k]], from, from + limits.windowMs) == 2
  {
    hide Run, CountIn, ConsumedTwice;
    ForgottenGrant(limits, clock, i, j, k, |clock|);
    assert ConsumedTwice(clock, i, k)[..|clock|] == ConsumedTwice(clock, i, k);
    BothInWindow(clock[i], clock[k], limits.windowMs);
  }

  /**
    The exact condition on the clock. Every window of length `windowMs` holds at most `maxRequests` grants of a key,
    whatever is requested and whatever the limits, if and only if the clock never comes back to within `windowMs` of a
    reading that it had left by `windowMs` or more.
   */
  lemma WindowsBoundedIff(clock: seq<int>, windowMs: int)
    ensures AlwaysBounded(clock, windowMs) <==> NothingComesBack(clock, windowMs)
  {
    hide Run, CountIn, ComesBack, WindowBounded;
    if NothingComesBack(clock, windowMs) {
      forall limits: Limits, requests: seq<Request>, key: string, from: int |
        limits.maxRequests >= 0 && limits.windowMs == windowMs && Clock(requests) == clock
        ensures WindowBounded(limits, requests, key, from)
      {
        BoundedWhileNothingComesBack(limits, requests, key, from);
      }
    } else {
      var i, j, k :| 0 <= i < j < k < |clock| && ComesBack(clock, windowMs, i, j, k);
      ReturnIsNotBounded(clock, windowMs, i, j, k);
    }
  }

  lemma ReturnIsNotBounded(clock: seq<int>, windowMs: int, i: nat, j: nat, k: nat)
    requires i < j < k < |clock| && ComesBack(clock, windowMs, i, j, k)
    ensures !AlwaysBounded(clock, windowMs)
  {
    hide Run, CountIn, ComesBack;
    var limits, from := Limits(1, windowMs, 1024), if clock[i] < clock[k] then clock[i] else clock[k];
    ComingBackGrantsTooMany(limits, clock, i, j, k);
    assert !WindowBounded(limits, ConsumedTwice(clock, i, k), "a", from);
  }

  /** On a clock that does not step back nothing revives, so nothing comes back either. */
  lemma OrderedClock(requests: seq<Request>, windowMs: int)
    requires NonDecreasing(requests)
    ensures NothingRevives(Clock(requests), windowMs) && NothingComesBack(Clock(requests), windowMs)
  {
    var clock := Clock(requests);
    forall i, j, k | 0 <= i < j < k < |clock|
      ensures !Revives(clock, windowMs, i, j, k) && !ComesBack(clock, windowMs, i, j, k)
    {
      assert requests[j].now <= requests[k].now;
    }
  }

  /**
    On a clock that does not step back: every window of length `windowMs` holds at most `maxRequests` grants of
    a key, every request is decided as by the full history, and the table never tracks more than `maxKeys` keys.
   */
  lemma WindowsStayBounded(limits: Limits, requests: seq<Request>, key: string, from: int)
    requires ValidLimits(limits) && NonDecreasing(requests) && limits.maxRequests >= 0
    ensures var s := Run(limits, requests);
            && CountIn(HitsOf(s.granted, key), from, from + limits.windowMs) <= limits.maxRequests
            && |s.hits| <= limits.maxKeys
    ensures forall n :: 0 <= n < |requests| ==> DecidesByHistory(limits, requests, n)
  {
    hide Run, CountIn, DecidesByHistory;
    OrderedClock(requests, limits.windowMs);
    WindowsBoundedIff(Clock(requests), limits.windowMs);
    assert WindowBounded(limits, requests, key, from);
    RunKeepsTracked(limits, requests);
    ByHistoryIff(Clock(requests), limits.windowMs);
  }

  const ONE_PER_TEN := Limits(1, 10, 1024)

  /**
    When the clock steps back, hits that were pruned in the meantime no longer count, and a window can hold too many.
   */
  lemma SteppingBackGrantsTooMany()
    ensures var s := Run(ONE_PER_TEN, [Request("a", 0, false), Request("b", 100, true), Request("a", 1, false)]);
            HitsOf(s.granted, "a") == [0, 1] && CountIn([0, 1], 0, 10) == 2
  {
    hide Run, CountIn;
    var clock := [0, 100, 1];
    assert ConsumedTwice(clock, 0, 2)
        == [Request("a", 0, false), Request("b", 100, true), Request("a", 1, false)];
    ComingBackGrantsTooMany(ONE_PER_TEN, clock, 0, 1, 2);
  }

  /** The table while it is pruned: the keys in `rest` still have their turn. */
  function PartlyPruned(all: Hits, rest: set<string>, now: int, windowMs: int): Hits {
    map key | key in all && (key in rest || Live(all[key], now, windowMs) != []) ::
      if key in rest then all[key] else Live(all[key], now, windowMs)
  }

  lemma PruneOne(all: Hits, rest: set<string>, now: int, windowMs: int, key: string)
    requires key in rest && rest <= all.Keys
    ensures var before, live := PartlyPruned(all, rest, now, windowMs), Live(all[key], now, windowMs);
            && key in before && before[key] == all[key]
            && PartlyPruned(all, rest - {key}, now, windowMs)
               == if live != [] then before[key := live] else before - {key}
  {
    hide Live;
  }

  lemma PrunePartly(all: Hits, now: int, windowMs: int)
    ensures PartlyPruned(all, all.Keys, now, windowMs) == all
    ensures PartlyPruned(all, {}, now, windowMs) == Pruned(all, now, windowMs)
  {
    hide Live;
  }
}

/**
  The limiter as the closure's table updated in place, and the quota of three limiters together
  (server/index.js:240-259).
 */
module RateLimiters {
  import opened FiniteSets
  import opened RateLimiterState

  class RateLimiter {
    const limits: Limits
    var hits: Hits

    ghost predicate Valid()
      reads this
    {
      Tracked(hits, limits)
    }

    /** The key ceiling is at least one. */
    constructor (maxRequests: int, windowMs: int, maxKeys: int)
      ensures Valid() && hits == map[]
      ensures limits == Limits(maxRequests, windowMs, if maxKeys < 1 then 1 else maxKeys)
    {
      limits := Limits(maxRequests, windowMs, if maxKeys < 1 then 1 else maxKeys);
      hits := map[];
    }

    /** Drops expired hits of every key, and keys without any. */
    method Prune(now: int)
      modifies this
      ensures hits == Pruned(old(hits), now, limits.windowMs)
    {
      hide Live, Pruned, PartlyPruned;
      ghost var all := hits;
      var rest := hits.Keys;
      PrunePartly(all, now, limits.windowMs);
      while rest != {}
        invariant rest <= all.Keys && hits == PartlyPruned(all, rest, now, limits.windowMs)
      {
        var key := TakeAny(rest);
        PruneOne(all, rest, now, limits.windowMs, key);
        var live := Filter(hits[key], now, limits.windowMs);
        if live != [] {
          hits := hits[key := live];
        } else {
          hits := hits - {key};
        }
        rest := rest - {key};
      }
    }

    static method Filter(times: seq<int>, now: int, windowMs: int) returns (live: seq<int>)
      ensures live == Live(times, now, windowMs)
    {
      live := [];
      for i := 0 to |times|
        invariant live == Live(times[..i], now, windowMs)
      {
        assert times[..i + 1][..i] == times[..i];
        if now - times[i] < windowMs {
          live := live + [times[i]];
        }
      }
      assert times[..|times|] == times;
    }

    /** Reports whether the key may go on; records a hit unless it only peeks. */
    method RateLimit(key: string, now: int, peek: bool) returns (ok: bool)
      requires Valid()
      modifies this
      ensures Valid()
      ensures ok == Allows(old(hits), limits, key, now)
      ensures hits == Requested(old(hits), limits, key, now, peek)
    {
      hide Pruned;
      RequestKeepsTracked(hits, limits, key, now, peek);
      Prune(now);
      if key !in hits && |hits| >= limits.maxKeys {
        return false;
      }
      var times := HitsOf(hits, key);
      if |times| >= limits.maxRequests {
        return false;
      }
      if !peek {
        hits := hits[key := times + [now]];
      }
      ok := true;
    }
  }

  /** What a limiter holds when a peek at one time is followed by a consume at another. */
  function PeekedAndConsumed(hits: Hits, limits: Limits, key: string, peekAt: int, consumeAt: int): Hits {
    Requested(Requested(hits, limits, key, peekAt, true), limits, key, consumeAt, false)
  }

  /**
    Bench starts need three limiters to agree. All three are peeked first; the consumes that follow cannot fail, so
    the quota is taken from all of them or from none, at whatever times the clock is read.
   */
  method ConsumeBenchStartQuota(bench: RateLimiter, cooldown: RateLimiter, global: RateLimiter, key: string,
                                ip: string, times: seq<int>)
    returns (granted: bool)
    requires bench.Valid() && cooldown.Valid() && global.Valid() && |times| == 6
    requires bench != cooldown && bench != global && cooldown != global
    modifies bench, cooldown, global
    ensures bench.Valid() && cooldown.Valid() && global.Valid()
    ensures granted <==> && Allows(old(bench.hits), bench.limits, key, times[0])
                         && Allows(old(cooldown.hits), cooldown.limits, key, times[1])
                         && Allows(old(global.hits), global.limits, ip, times[2])
    ensures granted ==> && bench.hits == PeekedAndConsumed(old(bench.hits), bench.limits, key, times[0], times[3])
                        && cooldown.hits
                           == PeekedAndConsumed(old(cooldown.hits), cooldown.limits, key, times[1], times[4])
                        && global.hits == PeekedAndConsumed(old(global.hits), global.limits, ip, times[2], times[5])
    ensures granted ==>
              times[3] in HitsOf(bench.hits, key) && times[4] in HitsOf(cooldown.hits, key)
                && times[5] in HitsOf(global.hits, ip)
    ensures !granted ==> && bench.hits == Pruned(old(bench.hits), times[0], bench.limits.windowMs)
                         && (cooldown.hits == old(cooldown.hits)
                             || cooldown.hits == Pruned(old(cooldown.hits), times[1], cooldown.limits.windowMs))
                         && (global.hits == old(global.hits)
                             || global.hits == Pruned(old(global.hits), times[2], global.limits.windowMs))
  {
    hide Pruned, Grants, Tracked;
    var mayBench := bench.RateLimit(key, times[0], true);
    if !mayBench {
      return false;
    }
    var mayCool := cooldown.RateLimit(key, times[1], true);
    if !mayCool {
      return false;
    }
    var mayGlobal := global.RateLimit(ip, times[2], true);
    if !mayGlobal {
      return false;
    }
    PeekGuaranteesConsume(old(bench.hits), bench.limits, key, times[0], times[3]);
    PeekGuaranteesConsume(old(cooldown.hits), cooldown.limits, key, times[1], times[4]);
    PeekGuaranteesConsume(old(global.hits), global.limits, ip, times[2], times[5]);
    var tookBench := bench.RateLimit(key, times[3], false);
    var tookCooldown := cooldown.RateLimit(key, times[4], false);
    var tookGlobal := global.RateLimit(ip, times[5], false);
    assert tookBench && tookCooldown && tookGlobal;
    granted := true;
  }
}
