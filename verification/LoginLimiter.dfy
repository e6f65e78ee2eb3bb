/** The sliding-window login limiter: an evicting queue per address that answers as the full history would. */
module LoginLimiter {
  import opened Common

  const WINDOW: real := 60.0

  datatype Request = Request(path: string, verb: string, client: Option<string>)

  predicate EndsWith(s: string, suffix: string) { |suffix| <= |s| && s[|s| - |suffix|..] == suffix }

  predicate IsLogin(request: Request) { EndsWith(request.path, "/auth/login") && request.verb == "POST" }

  function AddressOf(request: Request): string { if request.client.Some? then request.client.value else "unknown" }

  /** The queue once expired times have been taken off its front. */
  function Evict(bucket: seq<real>, now: real): seq<real> {
    if bucket != [] && now - bucket[0] > WINDOW then Evict(bucket[1..], now) else bucket
  }

  function BucketOf(hits: map<string, seq<real>>, ip: string): seq<real> { if ip in hits then hits[ip] else [] }

  /** The queue of an address after one login request. */
  function Admit(bucket: seq<real>, now: real, limit: int): seq<real> {
    var live := Evict(bucket, now);
    if |live| < limit then live + [now] else live
  }

  // ---------------------------------------------------------------- the login history of one address

  /** The queue after the arrivals of one address. */
  function BucketAfter(arrivals: seq<real>, limit: int): seq<real> {
    if arrivals == [] then []
    else Admit(BucketAfter(arrivals[..|arrivals| - 1], limit), arrivals[|arrivals| - 1], limit)
  }

  /** Whether the last arrival is let through. */
  predicate LastAllowed(arrivals: seq<real>, limit: int)
    requires arrivals != []
  {
    |Evict(BucketAfter(arrivals[..|arrivals| - 1], limit), arrivals[|arrivals| - 1])| < limit
  }

  /** The times of all logins ever let through. */
  function Accepted(arrivals: seq<real>, limit: int): seq<real> {
    if arrivals == [] then []
    else
      var before := Accepted(arrivals[..|arrivals| - 1], limit);
      if LastAllowed(arrivals, limit) then before + [arrivals[|arrivals| - 1]] else before
  }

  ghost predicate NonDecreasing(ts: seq<real>) {
    forall i, j :: 0 <= i < j < |ts| ==> ts[i] <= ts[j]
  }

  /** How many of the times lie in the closed interval from `lo` to `hi`. */
  function CountIn(ts: seq<real>, lo: real, hi: real): nat {
    if ts == [] then 0
    else CountIn(ts[..|ts| - 1], lo, hi) + if lo <= ts[|ts| - 1] <= hi then 1 else 0
  }

  // ---------------------------------------------------------------- the queue under a steady clock

  /**
   * The accepted times are in order and not after `now`; the queue is their tail, and all before it is out of the
   * window at time `now`.
   */
  ghost predicate IsRecentTail(bucket: seq<real>, accepted: seq<real>, now: real) {
    && NonDecreasing(accepted) && (forall i :: 0 <= i < |accepted| ==> accepted[i] <= now)
    && |bucket| <= |accepted| && bucket == accepted[|accepted| - |bucket|..]
    && forall i :: 0 <= i < |accepted| - |bucket| ==> now - accepted[i] > WINDOW
  }

  ghost predicate AllLive(bucket: seq<real>, now: real) {
    forall i :: 0 <= i < |bucket| ==> now - bucket[i] <= WINDOW
  }

  /** Eviction keeps the queue a recent tail, and leaves nothing expired in it. */
  lemma {:induction false} EvictKeepsRecentTail(bucket: seq<real>, accepted: seq<real>, before: real, now: real)
    requires IsRecentTail(bucket, accepted, before) && before <= now
    ensures IsRecentTail(Evict(bucket, now), accepted, now) && AllLive(Evict(bucket, now), now)
    decreases |bucket|
  {
    var cut := |accepted| - |bucket|;
    if bucket != [] && now - bucket[0] > WINDOW {
      assert bucket[0] == accepted[cut] && bucket[1..] == accepted[cut + 1..];
      EvictKeepsRecentTail(bucket[1..], accepted, now, now);
    } else {
      forall k | 0 <= k < |bucket| ensures now - bucket[k] <= WINDOW {
        assert bucket[k] == accepted[cut + k] && bucket[0] == accepted[cut];
      }
    }
  }

  lemma AdmitKeepsRecentTail(bucket: seq<real>, accepted: seq<real>, before: real, now: real, limit: int)
    requires IsRecentTail(bucket, accepted, before) && before <= now
    ensures IsRecentTail(Admit(bucket, now, limit),
                         if |Evict(bucket, now)| < limit then accepted + [now] else accepted, now)
  {
    EvictKeepsRecentTail(bucket, accepted, before, now);
    var live, grown := Evict(bucket, now), accepted + [now];
    assert live + [now] == grown[|accepted| - |live|..];
  }

  /** After any arrivals with a steady clock, the queue is the recent tail of the accepted history. */
  lemma {:induction false} QueueIsRecentHistory(arrivals: seq<real>, limit: int)
    requires arrivals != [] && NonDecreasing(arrivals)
    ensures IsRecentTail(BucketAfter(arrivals, limit), Accepted(arrivals, limit), arrivals[|arrivals| - 1])
  {
    var init, last := arrivals[..|arrivals| - 1], arrivals[|arrivals| - 1];
    if init == [] {
      AdmitKeepsRecentTail([], [], last, last, limit);
    } else {
      QueueIsRecentHistory(init, limit);
      AdmitKeepsRecentTail(BucketAfter(init, limit), Accepted(init, limit), init[|init| - 1], last, limit);
    }
  }

  /** At any later time, eviction leaves exactly the accepted times of the last window. */
  lemma EvictedIsRecentHistory(arrivals: seq<real>, limit: int, now: real)
    requires NonDecreasing(arrivals) && (arrivals != [] ==> arrivals[|arrivals| - 1] <= now)
    ensures IsRecentTail(Evict(BucketAfter(arrivals, limit), now), Accepted(arrivals, limit), now)
    ensures AllLive(Evict(BucketAfter(arrivals, limit), now), now)
  {
    if arrivals != [] {
      QueueIsRecentHistory(arrivals, limit);
      EvictKeepsRecentTail(BucketAfter(arrivals, limit), Accepted(arrivals, limit), arrivals[|arrivals| - 1], now);
    }
  }

  // ---------------------------------------------------------------- counting

  lemma {:induction false} CountAll(ts: seq<real>, lo: real, hi: real)
    requires forall i :: 0 <= i < |ts| ==> lo <= ts[i] <= hi
    ensures CountIn(ts, lo, hi) == |ts|
  {
    if ts != [] { CountAll(ts[..|ts| - 1], lo, hi); }
  }

  lemma {:induction false} CountNone(ts: seq<real>, lo: real, hi: real)
    requires forall i :: 0 <= i < |ts| ==> ts[i] < lo || ts[i] > hi
    ensures CountIn(ts, lo, hi) == 0
  {
    if ts != [] { CountNone(ts[..|ts| - 1], lo, hi); }
  }

  lemma {:induction false} CountJoins(xs: seq<real>, ys: seq<real>, lo: real, hi: real)
    ensures CountIn(xs + ys, lo, hi) == CountIn(xs, lo, hi) + CountIn(ys, lo, hi)
  {
    if ys == [] {
      assert xs + ys == xs;
    } else {
      CountJoins(xs, ys[..|ys| - 1], lo, hi);
      assert (xs + ys)[..|xs + ys| - 1] == xs + ys[..|ys| - 1];
    }
  }

  /** A recent tail holds exactly the accepted times of the last window. */
  lemma CountOfRecentTail(live: seq<real>, accepted: seq<real>, now: real)
    requires IsRecentTail(live, accepted, now) && AllLive(live, now)
    ensures CountIn(accepted, now - WINDOW, now) == |live|
  {
    var expired := accepted[..|accepted| - |live|];
    assert accepted == expired + live;
    CountJoins(expired, live, now - WINDOW, now);
    CountNone(expired, now - WINDOW, now);
    CountAll(live, now - WINDOW, now);
  }

  /** Whether the limiter's answer to the last arrival is that of counting the whole accepted history. */
  predicate AnswersByHistory(arrivals: seq<real>, limit: int)
    requires arrivals != []
  {
    var init, now := arrivals[..|arrivals| - 1], arrivals[|arrivals| - 1];
    LastAllowed(arrivals, limit) == (CountIn(Accepted(init, limit), now - WINDOW, now) < limit)
  }

  /** A login is let through exactly when fewer than `limit` of all logins ever accepted lie in the last 60 seconds. */
  lemma AnswersAsFullHistory(arrivals: seq<real>, limit: int)
    requires arrivals != [] && NonDecreasing(arrivals)
    ensures AnswersByHistory(arrivals, limit)
  {
    var init, now := arrivals[..|arrivals| - 1], arrivals[|arrivals| - 1];
    EvictedIsRecentHistory(init, limit, now);
    CountOfRecentTail(Evict(BucketAfter(init, limit), now), Accepted(init, limit), now);
  }

  // ---------------------------------------------------------------- the window bound, for any clock

  function MaxZero(limit: int): nat { if limit > 0 then limit else 0 }

  /** How many accepted logins the closed 60-second window from `start` on holds. */
  function InWindow(arrivals: seq<real>, limit: int, start: real): nat {
    CountIn(Accepted(arrivals, limit), start, start + WINDOW)
  }

  /** A later reading runs more than a window past reading `i`, and an even later one is back within a window of it. */
  predicate ComesBack(clock: seq<real>, i: nat, j: nat, k: nat) {
    && i < j < k < |clock|
    && clock[j] - clock[i] > WINDOW && -WINDOW <= clock[k] - clock[i] <= WINDOW
  }

  ghost predicate NeverComesBack(clock: seq<real>) {
    forall i: nat, j: nat, k: nat :: !ComesBack(clock, i, j, k)
  }

  /** No reading runs out of the window from `lo` on after a reading in it. */
  ghost predicate Quiet(arrivals: seq<real>, lo: real) {
    forall i, j :: 0 <= i < j < |arrivals| && lo <= arrivals[i] <= lo + WINDOW ==> arrivals[j] - arrivals[i] <= WINDOW
  }

  lemma {:induction false} BucketComesFromArrivals(arrivals: seq<real>, limit: int)
    ensures forall t :: t in BucketAfter(arrivals, limit) ==> t in arrivals
  {
    if arrivals != [] {
      var init, now := arrivals[..|arrivals| - 1], arrivals[|arrivals| - 1];
      BucketComesFromArrivals(init, limit);
      EvictedIsPart(BucketAfter(init, limit), now);
      assert arrivals == init + [now];
    }
  }

  lemma {:induction false} EvictedIsPart(bucket: seq<real>, now: real)
    ensures forall t :: t in Evict(bucket, now) ==> t in bucket
    decreases |bucket|
  {
    if bucket != [] && now - bucket[0] > WINDOW { EvictedIsPart(bucket[1..], now); }
  }

  /** Eviction takes nothing out of a window whose times are not expired. */
  lemma {:induction false} EvictKeepsWindow(bucket: seq<real>, now: real, lo: real)
    requires forall t :: t in bucket && lo <= t <= lo + WINDOW ==> now - t <= WINDOW
    ensures CountIn(Evict(bucket, now), lo, lo + WINDOW) == CountIn(bucket, lo, lo + WINDOW)
    decreases |bucket|
  {
    if bucket != [] && now - bucket[0] > WINDOW {
      assert bucket[0] in bucket && forall t :: t in bucket[1..] ==> t in bucket;
      EvictKeepsWindow(bucket[1..], now, lo);
      assert bucket == [bucket[0]] + bucket[1..];
      CountJoins([bucket[0]], bucket[1..], lo, lo + WINDOW);
      CountNone([bucket[0]], lo, lo + WINDOW);
    }
  }

  /** The queue still holds all accepted logins of a quiet window. */
  lemma {:induction false} NothingInWindowLost(arrivals: seq<real>, limit: int, lo: real)
    requires Quiet(arrivals, lo)
    ensures CountIn(BucketAfter(arrivals, limit), lo, lo + WINDOW) == InWindow(arrivals, limit, lo)
  {
    if arrivals != [] {
      var init, now := arrivals[..|arrivals| - 1], arrivals[|arrivals| - 1];
      NothingInWindowLost(init, limit, lo);
      EvictedKeepsWindow(arrivals, limit, lo);
      CountSnoc(Evict(BucketAfter(init, limit), now), now, lo);
      CountSnoc(Accepted(init, limit), now, lo);
    }
  }

  lemma CountSnoc(ts: seq<real>, t: real, lo: real)
    ensures CountIn(ts + [t], lo, lo + WINDOW) == CountIn(ts, lo, lo + WINDOW) + if lo <= t <= lo + WINDOW then 1 else 0
  {
    assert (ts + [t])[..|ts|] == ts;
  }

  lemma EvictedKeepsWindow(arrivals: seq<real>, limit: int, lo: real)
    requires arrivals != [] && Quiet(arrivals, lo)
    ensures var bucket := BucketAfter(arrivals[..|arrivals| - 1], limit);
            CountIn(Evict(bucket, arrivals[|arrivals| - 1]), lo, lo + WINDOW) == CountIn(bucket, lo, lo + WINDOW)
  {
    var n := |arrivals| - 1;
    var init, now := arrivals[..n], arrivals[n];
    BucketComesFromArrivals(init, limit);
    forall t | t in BucketAfter(init, limit) && lo <= t <= lo + WINDOW ensures now - t <= WINDOW {
      var i :| 0 <= i < n && init[i] == t;
      assert arrivals[i] == t;
    }
    EvictKeepsWindow(BucketAfter(init, limit), now, lo);
  }

  /** Before a reading in the window, a clock that never comes back is quiet there. */
  lemma QuietUpTo(arrivals: seq<real>, lo: real)
    requires arrivals != [] && NeverComesBack(arrivals) && lo <= arrivals[|arrivals| - 1] <= lo + WINDOW
    ensures Quiet(arrivals, lo)
  {
    var n := |arrivals| - 1;
    forall i, j | 0 <= i < j <= n && lo <= arrivals[i] <= lo + WINDOW ensures arrivals[j] - arrivals[i] <= WINDOW {
      assert !ComesBack(arrivals, i, j, n);
    }
  }

  /** If no reading comes back, every closed 60-second window holds at most `limit` accepted logins. */
  lemma {:induction false} WindowBoundWithoutComingBack(arrivals: seq<real>, limit: int, start: real)
    requires NeverComesBack(arrivals)
    ensures InWindow(arrivals, limit, start) <= MaxZero(limit)
  {
    if arrivals != [] {
      var init, now := arrivals[..|arrivals| - 1], arrivals[|arrivals| - 1];
      PrefixNeverComesBack(arrivals);
      WindowBoundWithoutComingBack(init, limit, start);
      CountSnoc(Accepted(init, limit), now, start);
      if LastAllowed(arrivals, limit) && start <= now <= start + WINDOW {
        QuietUpTo(arrivals, start);
        assert Quiet(init, start);
        NothingInWindowLost(init, limit, start);
        EvictedKeepsWindow(arrivals, limit, start);
        CountAtMostLength(Evict(BucketAfter(init, limit), now), start, start + WINDOW);
      }
    }
  }

  lemma PrefixNeverComesBack(arrivals: seq<real>)
    requires arrivals != [] && NeverComesBack(arrivals)
    ensures NeverComesBack(arrivals[..|arrivals| - 1])
  {
    var init := arrivals[..|arrivals| - 1];
    forall i: nat, j: nat, k: nat ensures !ComesBack(init, i, j, k) {
      assert !ComesBack(arrivals, i, j, k);
    }
  }

  lemma {:induction false} CountAtMostLength(ts: seq<real>, lo: real, hi: real)
    ensures CountIn(ts, lo, hi) <= |ts|
  {
    if ts != [] { CountAtMostLength(ts[..|ts| - 1], lo, hi); }
  }

  /** Any closed 60-second window holds at most `limit` accepted logins (none if the limit is not positive). */
  lemma WindowHoldsAtMostLimit(arrivals: seq<real>, limit: int, start: real)
    requires NonDecreasing(arrivals)
    ensures InWindow(arrivals, limit, start) <= MaxZero(limit)
  {
    WindowBoundWithoutComingBack(arrivals, limit, start);
  }

  // ---------------------------------------------------------------- which clocks keep the promises

  /** The arrivals read the clock at the given indices, in order; a reading may be used any number of times. */
  ghost predicate DrawnFrom(arrivals: seq<real>, indices: seq<nat>, clock: seq<real>) {
    && |indices| == |arrivals|
    && (forall m :: 0 <= m < |arrivals| ==> indices[m] < |clock| && arrivals[m] == clock[indices[m]])
    && forall l, m :: 0 <= l < m < |arrivals| ==> indices[l] <= indices[m]
  }

  ghost predicate KeepsBound(clock: seq<real>) {
    forall arrivals, indices, limit: int, start: real
      {:trigger DrawnFrom(arrivals, indices, clock), InWindow(arrivals, limit, start)} ::
      DrawnFrom(arrivals, indices, clock) ==> InWindow(arrivals, limit, start) <= MaxZero(limit)
  }

  lemma DrawnNeverComesBack(arrivals: seq<real>, indices: seq<nat>, clock: seq<real>)
    requires DrawnFrom(arrivals, indices, clock) && NeverComesBack(clock)
    ensures NeverComesBack(arrivals)
  {
    forall i: nat, j: nat, k: nat ensures !ComesBack(arrivals, i, j, k) {
      if i < j < k < |arrivals| {
        assert !ComesBack(clock, indices[i], indices[j], indices[k]);
      }
    }
  }

  /** Two logins at reading `i`, one at `j` and one at `k`: all four pass a limit of two, three of them in one window. */
  lemma ComingBackBreaksBound(clock: seq<real>, i: nat, j: nat, k: nat)
    requires ComesBack(clock, i, j, k)
    ensures var arrivals := [clock[i], clock[i], clock[j], clock[k]];
            && DrawnFrom(arrivals, [i, i, j, k], clock)
            && exists start :: InWindow(arrivals, 2, start) > 2
  {
    var x, y, z := clock[i], clock[j], clock[k];
    FourPass(x, y, z);
    var start := if z < x then z else x;
    CountSnoc([], x, start);
    CountSnoc([x], x, start);
    CountSnoc([x, x], y, start);
    CountSnoc([x, x, y], z, start);
    OneByOne(x, y, z);
    assert InWindow([x, x, y, z], 2, start) > 2;
  }

  lemma FourPass(x: real, y: real, z: real)
    requires y - x > WINDOW && z - x <= WINDOW
    ensures Accepted([x, x, y, z], 2) == [x, x, y, z]
  {
    OneByOne(x, y, z);
    Arrives([], x, 2);
    Arrives([x], x, 2);
    TwoExpire(x, y);
    Arrives([x, x], y, 2);
    Arrives([x, x, y], z, 2);
  }

  lemma TwoExpire(x: real, y: real)
    requires y - x > WINDOW
    ensures Evict([x, x], y) == []
  {
    assert [x, x][1..] == [x] && [x][1..] == [];
    assert Evict([x], y) == [];
  }

  lemma OneByOne(x: real, y: real, z: real)
    ensures [] + [x] == [x] && [x] + [x] == [x, x] && [x, x] + [y] == [x, x, y] && [x, x, y] + [z] == [x, x, y, z]
    ensures [] + [y] == [y]
  {
  }

  lemma Arrives(arrivals: seq<real>, now: real, limit: int)
    ensures var live := Evict(BucketAfter(arrivals, limit), now);
            && BucketAfter(arrivals + [now], limit) == (if |live| < limit then live + [now] else live)
            && Accepted(arrivals + [now], limit)
               == if |live| < limit then Accepted(arrivals, limit) + [now] else Accepted(arrivals, limit)
  {
    assert (arrivals + [now])[..|arrivals|] == arrivals;
  }

  /**
   * The window bound holds for all logins, limits and windows exactly on clocks that never run more than a window past
   * a reading and then come back to within a window of it.
   */
  lemma BoundHoldsIff(clock: seq<real>)
    ensures KeepsBound(clock) <==> NeverComesBack(clock)
  {
    if NeverComesBack(clock) {
      forall arrivals, indices, limit: int, start: real | DrawnFrom(arrivals, indices, clock)
        ensures InWindow(arrivals, limit, start) <= MaxZero(limit)
      {
        DrawnNeverComesBack(arrivals, indices, clock);
        WindowBoundWithoutComingBack(arrivals, limit, start);
      }
    } else {
      var i: nat, j: nat, k: nat :| ComesBack(clock, i, j, k);
      ComingBackBreaksBound(clock, i, j, k);
      var arrivals, indices := [clock[i], clock[i], clock[j], clock[k]], [i, i, j, k];
      var start :| InWindow(arrivals, 2, start) > 2;
      assert DrawnFrom(arrivals, indices, clock) && MaxZero(2) == 2;
    }
  }

  ghost predicate KeepsAnswers(clock: seq<real>) {
    forall arrivals, indices, limit: int
      {:trigger DrawnFrom(arrivals, indices, clock), AnswersByHistory(arrivals, limit)} ::
      DrawnFrom(arrivals, indices, clock) && arrivals != [] ==> AnswersByHistory(arrivals, limit)
  }

  lemma DrawnNonDecreasing(arrivals: seq<real>, indices: seq<nat>, clock: seq<real>)
    requires DrawnFrom(arrivals, indices, clock) && NonDecreasing(clock)
    ensures NonDecreasing(arrivals)
  {
    forall l, m | 0 <= l < m < |arrivals| ensures arrivals[l] <= arrivals[m] {
      assert indices[l] <= indices[m];
      assert indices[l] < indices[m] ==> clock[indices[l]] <= clock[indices[m]];
    }
  }

  /** A login at a reading that steps back is refused under a limit of one, for a login that is still to come. */
  lemma SteppingBackBreaksAnswers(x: real, z: real)
    requires x > z
    ensures !AnswersByHistory([x, z], 1)
  {
    Arrives([], x, 1);
    assert [] + [x] == [x] && [x, z][..1] == [x];
    CountSnoc([], x, z - WINDOW);
  }

  /** The limiter answers as the full history does, for all logins and limits, exactly on clocks that never step back. */
  lemma AnswersHoldIff(clock: seq<real>)
    ensures KeepsAnswers(clock) <==> NonDecreasing(clock)
  {
    if NonDecreasing(clock) {
      forall arrivals, indices, limit: int | DrawnFrom(arrivals, indices, clock) && arrivals != []
        ensures AnswersByHistory(arrivals, limit)
      {
        DrawnNonDecreasing(arrivals, indices, clock);
        AnswersAsFullHistory(arrivals, limit);
      }
    } else {
      var i, k :| 0 <= i < k < |clock| && clock[i] > clock[k];
      SteppingBackBreaksAnswers(clock[i], clock[k]);
      assert DrawnFrom([clock[i], clock[k]], [i, k], clock);
    }
  }

  // ---------------------------------------------------------------- many addresses at once

  datatype Login = Login(ip: string, at: real)

  /** All queues after a log of login requests from any addresses. */
  function HitsAfter(log: seq<Login>, limit: int): map<string, seq<real>> {
    if log == [] then map[]
    else
      var hits, login := HitsAfter(log[..|log| - 1], limit), log[|log| - 1];
      hits[login.ip := Admit(BucketOf(hits, login.ip), login.at, limit)]
  }

  function ArrivalsOf(log: seq<Login>, ip: string): seq<real> {
    if log == [] then []
    else ArrivalsOf(log[..|log| - 1], ip) + if log[|log| - 1].ip == ip then [log[|log| - 1].at] else []
  }

  /** Addresses do not influence each other: each queue is that of the address's own arrivals. */
  lemma {:induction false} AddressesAreIndependent(log: seq<Login>, limit: int, ip: string)
    ensures BucketOf(HitsAfter(log, limit), ip) == BucketAfter(ArrivalsOf(log, ip), limit)
  {
    if log != [] {
      var init, login := log[..|log| - 1], log[|log| - 1];
      AddressesAreIndependent(init, limit, ip);
      var arrivals := ArrivalsOf(init, ip);
      if login.ip == ip {
        assert (arrivals + [login.at])[..|arrivals|] == arrivals;
      } else {
        assert arrivals + [] == arrivals;
      }
    }
  }

  /**
   * On any clock, a login is let through exactly when it would be if its address were the only one; with a steady clock
   * that is when fewer than `limit` of all logins ever accepted from its address lie in the last 60 seconds.
   */
  ghost predicate Decides(allowed: bool, log: seq<Login>, login: Login, limit: int) {
    var past := ArrivalsOf(log, login.ip);
    && (allowed <==> LastAllowed(past + [login.at], limit))
    && (NonDecreasing(past + [login.at]) ==>
          (allowed <==> CountIn(Accepted(past, limit), login.at - 60.0, login.at) < limit))
  }

  /** One more login in a log: what its address's queue becomes, and how it is answered. */
  lemma NextLogin(log: seq<Login>, login: Login, limit: int)
    ensures var bucket := BucketOf(HitsAfter(log, limit), login.ip);
            && HitsAfter(log + [login], limit)
                 == HitsAfter(log, limit)[login.ip := Admit(bucket, login.at, limit)]
            && Decides(|Evict(bucket, login.at)| < limit, log, login, limit)
  {
    assert (log + [login])[..|log|] == log;
    AddressesAreIndependent(log, limit, login.ip);
    var past := ArrivalsOf(log, login.ip);
    assert (past + [login.at])[..|past|] == past;
    if NonDecreasing(past + [login.at]) { AnswersAsFullHistory(past + [login.at], limit); }
  }

  // ---------------------------------------------------------------- which requests count, and against whom

  /** Exactly the POST requests to a path that ends in "/auth/login" count. */
  lemma LoginsAre(request: Request)
    ensures IsLogin(request) <==> request.verb == "POST" && exists prefix: string :: request.path == prefix + "/auth/login"
  {
    var login := "/auth/login";
    if EndsWith(request.path, login) {
      assert request.path == request.path[..|request.path| - |login|] + login;
    }
    if prefix: string :| request.path == prefix + login {
      assert request.path[|request.path| - |login|..] == login;
    }
  }

  /** Two requests share a queue exactly when they have the same client address, "unknown" standing for none. */
  lemma ShareQueueIff(a: Request, b: Request)
    ensures AddressOf(a) == AddressOf(b)
            <==> a.client == b.client || (a.client in {None, Some("unknown")} && b.client in {None, Some("unknown")})
  {
  }

  // ---------------------------------------------------------------- the middleware

  /** The limiter keeps only its queues; the log of all logins seen is there for the statement. */
  class LoginRateLimiter {
    const limit: int
    var hits: map<string, seq<real>>
    ghost var log: seq<Login>

    ghost predicate Valid()
      reads this
    {
      hits == HitsAfter(log, limit)
    }

    constructor (limit: int)
      ensures Valid() && this.limit == limit && log == []
    {
      this.limit, hits, log := limit, map[], [];
    }

    /** Whether the request goes through; only login requests are counted. */
    method Dispatch(request: Request, now: real) returns (allowed: bool)
      requires Valid()
      modifies this
      ensures Valid()
      ensures !IsLogin(request) ==> allowed && hits == old(hits) && log == old(log)
      ensures IsLogin(request) ==>
                var login := Login(AddressOf(request), now);
                log == old(log) + [login] && Decides(allowed, old(log), login, limit)
    {
      if !IsLogin(request) { return true; }
      var ip := AddressOf(request);
      NextLogin(log, Login(ip, now), limit);
      var bucket;
      allowed, bucket := Serve(BucketOf(hits, ip), now);
      hits := hits[ip := bucket];
      log := log + [Login(ip, now)];
    }

    /** Takes expired times off the front of a queue, and adds the time of a login that is let through. */
    method Serve(queue: seq<real>, now: real) returns (allowed: bool, bucket: seq<real>)
      ensures allowed <==> |Evict(queue, now)| < limit
      ensures bucket == Admit(queue, now, limit)
    {
      bucket := queue;
      while bucket != [] && now - bucket[0] > WINDOW
        invariant Evict(bucket, now) == Evict(queue, now)
        decreases |bucket|
      {
        bucket := bucket[1..];
      }
      if |bucket| >= limit { return false, bucket; }
      return true, bucket + [now];
    }
  }
}
