/**
 The sliding-window rate limiter in front of both HTTP servers. The limiter itself keeps only the
 timestamps it may still need; the laws compare it with a reference that keeps every admitted
 request for ever.
 */
module RateLimiter {
  import opened Sequences

  datatype Policy = Policy(windowMs: int, maxRequests: int)

  datatype Verdict = Verdict(allowed: bool, remaining: int, retryAfterSeconds: int)

  function CeilSeconds(ms: int): int {
    (ms + 999) / 1000
  }

  function Max(a: int, b: int): int {
    if a < b then b else a
  }

  function After(start: int): int -> bool {
    t => t > start
  }

  /** The timestamps strictly after `start`. */
  function Live(ts: seq<int>, start: int): seq<int> {
    Filter(ts, After(start))
  }

  /** One decision: the bucket it leaves and the answer it gives. */
  function Consume(bucket: seq<int>, policy: Policy, now: int): (seq<int>, Verdict) {
    var live := Live(bucket, now - policy.windowMs);
    if |live| >= policy.maxRequests then
      var oldest := if live == [] then now else live[0];
      (live, Verdict(false, 0, Max(1, CeilSeconds(oldest + policy.windowMs - now))))
    else
      (live + [now], Verdict(true, Max(0, policy.maxRequests - (|live| + 1)), 0))
  }

  function BucketOf(buckets: map<string, seq<int>>, key: string): seq<int> {
    if key in buckets then buckets[key] else []
  }

  class Limiter {
    var buckets: map<string, seq<int>>

    constructor ()
      ensures buckets == map[]
    {
      buckets := map[];
    }

    method ConsumeRateLimit(key: string, policy: Policy, now: int) returns (verdict: Verdict)
      modifies this
      ensures buckets == old(buckets)[key := Consume(BucketOf(old(buckets), key), policy, now).0]
      ensures verdict == Consume(BucketOf(old(buckets), key), policy, now).1
    {
      var windowStart := now - policy.windowMs;
      var timestamps := Filter(if key in buckets then buckets[key] else [], After(windowStart));
      if |timestamps| >= policy.maxRequests {
        buckets := buckets[key := timestamps];
        var oldest := if |timestamps| > 0 then timestamps[0] else now;
        return Verdict(false, 0, Max(1, CeilSeconds(oldest + policy.windowMs - now)));
      }
      timestamps := timestamps + [now];
      buckets := buckets[key := timestamps];
      return Verdict(true, Max(0, policy.maxRequests - |timestamps|), 0);
    }
  }

  /*** Runs: any interleaving of requests for any keys, one policy per key. ***/

  datatype Request = Request(key: string, now: int)

  type Policies = string -> Policy

  /** The clock never goes back during the run, and reads at most `clock` at its end. */
  ghost predicate InOrder(run: seq<Request>, clock: int) {
    run == [] || (run[|run| - 1].now <= clock && InOrder(run[..|run| - 1], run[|run| - 1].now))
  }

  /** What the limiter holds after a run. */
  function Buckets(policies: Policies, run: seq<Request>): map<string, seq<int>> {
    if run == [] then map[]
    else
      var r := run[|run| - 1];
      var before := Buckets(policies, run[..|run| - 1]);
      before[r.key := Consume(BucketOf(before, r.key), policies(r.key), r.now).0]
  }

  /** What the limiter answers to a request that follows a run. */
  function Answer(policies: Policies, run: seq<Request>, r: Request): Verdict {
    Consume(BucketOf(Buckets(policies, run), r.key), policies(r.key), r.now).1
  }

  function Within(start: int, end: int): int -> bool {
    t => start < t <= end
  }

  /** The log entries in the half-open window `(start, end]`. */
  function Window(log: seq<int>, start: int, end: int): seq<int> {
    Filter(log, Within(start, end))
  }

  /** The reference: the full log of the requests for `key` that a sliding window admits. */
  function Admitted(policies: Policies, run: seq<Request>, key: string): seq<int> {
    if run == [] then []
    else
      var r := run[|run| - 1];
      var log := Admitted(policies, run[..|run| - 1], key);
      if r.key == key && |Window(log, r.now - policies(key).windowMs, r.now)| < policies(key).maxRequests
      then log + [r.now] else log
  }

  ghost predicate LiveIsWindow(bucket: seq<int>, log: seq<int>, windowMs: int, now: int) {
    Live(bucket, now - windowMs) == Window(log, now - windowMs, now)
  }

  /** From `clock` on, pruning the bucket and looking at the window of the full log agree. */
  ghost predicate Represents(bucket: seq<int>, log: seq<int>, windowMs: int, clock: int) {
    && (forall t :: t in log ==> t <= clock)
    && (forall now :: clock <= now ==> LiveIsWindow(bucket, log, windowMs, now))
  }

  lemma LiveOfLive(ts: seq<int>, early: int, late: int)
    requires early <= late
    ensures Live(Live(ts, early), late) == Live(ts, late)
  {
    FilterTwice(ts, After(early), After(late), After(late));
  }

  /** Looking later gives the same answer on the pruned bucket, with or without the new entry. */
  lemma LookLater(bucket: seq<int>, log: seq<int>, windowMs: int, now: int, later: int)
    requires now <= later && LiveIsWindow(bucket, log, windowMs, later)
    ensures LiveIsWindow(Live(bucket, now - windowMs), log, windowMs, later)
    ensures LiveIsWindow(Live(bucket, now - windowMs) + [now], log + [now], windowMs, later)
  {
    LiveOfLive(bucket, now - windowMs, later - windowMs);
    FilterAppend(Live(bucket, now - windowMs), [now], After(later - windowMs));
    FilterAppend(log, [now], Within(later - windowMs, later));
    assert Filter([now], After(later - windowMs)) == Filter([now], Within(later - windowMs, later));
  }

  lemma RequestKeepsRepresentation(bucket: seq<int>, log: seq<int>, policy: Policy, clock: int, now: int)
    requires Represents(bucket, log, policy.windowMs, clock) && clock <= now
    ensures var admitted := |Window(log, now - policy.windowMs, now)| < policy.maxRequests;
            && Consume(bucket, policy, now).1.allowed == admitted
            && Represents(Consume(bucket, policy, now).0, if admitted then log + [now] else log, policy.windowMs, now)
  {
    assert LiveIsWindow(bucket, log, policy.windowMs, now);
    var live := Live(bucket, now - policy.windowMs);
    forall later | now <= later
      ensures LiveIsWindow(live, log, policy.windowMs, later)
      ensures LiveIsWindow(live + [now], log + [now], policy.windowMs, later)
    {
      LookLater(bucket, log, policy.windowMs, now, later);
    }
  }

  lemma {:induction false} RunRepresents(policies: Policies, run: seq<Request>, key: string, clock: int)
    requires InOrder(run, clock)
    ensures Represents(BucketOf(Buckets(policies, run), key), Admitted(policies, run, key),
                       policies(key).windowMs, clock)
  {
    if run != [] {
      var r := run[|run| - 1];
      RunRepresents(policies, run[..|run| - 1], key, r.now);
      if r.key == key {
        RequestKeepsRepresentation(BucketOf(Buckets(policies, run[..|run| - 1]), key),
                                   Admitted(policies, run[..|run| - 1], key), policies(key), r.now, r.now);
      }
    }
  }

  lemma AdmitsIffRoom(bucket: seq<int>, log: seq<int>, policy: Policy, clock: int)
    requires Represents(bucket, log, policy.windowMs, clock)
    ensures Consume(bucket, policy, clock).1.allowed <==> |Window(log, clock - policy.windowMs, clock)| < policy.maxRequests
  {
    assert LiveIsWindow(bucket, log, policy.windowMs, clock);
  }

  /**
   Exactness: a request is allowed precisely when fewer than `maxRequests` requests for its key
   were admitted in the window ending now, counted in the log nothing was ever dropped from.
   */
  lemma AllowedIffWindowHasRoom(policies: Policies, run: seq<Request>, r: Request)
    requires InOrder(run, r.now)
    ensures Answer(policies, run, r).allowed
       <==> |Window(Admitted(policies, run, r.key), r.now - policies(r.key).windowMs, r.now)|
            < policies(r.key).maxRequests
  {
    RunRepresents(policies, run, r.key, r.now);
    AdmitsIffRoom(BucketOf(Buckets(policies, run), r.key), Admitted(policies, run, r.key), policies(r.key), r.now);
  }

  lemma AdmittedStep(policies: Policies, run: seq<Request>, r: Request, key: string)
    ensures
      var log := Admitted(policies, run, key);
      var room := |Window(log, r.now - policies(key).windowMs, r.now)| < policies(key).maxRequests;
      Admitted(policies, run + [r], key) == if r.key == key && room then log + [r.now] else log
  {
    assert (run + [r])[..|run + [r]| - 1] == run;
  }

  /** Safety over whole runs: no window of length `windowMs`, wherever it starts, is overfull. */
  lemma {:induction false} NoWindowIsOverfull(policies: Policies, run: seq<Request>, key: string, start: int, clock: int)
    requires InOrder(run, clock)
    ensures |Window(Admitted(policies, run, key), start, start + policies(key).windowMs)|
         <= Max(0, policies(key).maxRequests)
  {
    if run != [] {
      var before, r := run[..|run| - 1], run[|run| - 1];
      var log, w := Admitted(policies, before, key), policies(key).windowMs;
      NoWindowIsOverfull(policies, before, key, start, r.now);
      RunRepresents(policies, before, key, r.now);
      OneMoreEntry(log, w, start, r.now);
    }
  }

  /** A window that gains an entry was, until then, part of the window that ends with the entry. */
  lemma OneMoreEntry(log: seq<int>, w: int, start: int, now: int)
    requires forall t :: t in log ==> t <= now
    ensures |Window(log + [now], start, start + w)|
         <= Max(|Window(log, start, start + w)|, |Window(log, now - w, now)| + 1)
  {
    FilterAppend(log, [now], Within(start, start + w));
    if start < now <= start + w {
      FilterMonotone(log, Within(start, start + w), Within(now - w, now));
    }
  }

  lemma {:induction false} OthersLeaveLogAlone(policies: Policies, run: seq<Request>, idle: seq<Request>, key: string)
    requires forall i :: 0 <= i < |idle| ==> idle[i].key != key
    ensures Admitted(policies, run + idle, key) == Admitted(policies, run, key)
  {
    if idle == [] {
      assert run + idle == run;
    } else {
      OthersLeaveLogAlone(policies, run, idle[..|idle| - 1], key);
      assert (run + idle)[..|run + idle| - 1] == run + idle[..|idle| - 1];
    }
  }

  ghost predicate Ascending(ts: seq<int>) {
    forall i, j :: 0 <= i < j < |ts| ==> ts[i] <= ts[j]
  }

  lemma {:induction false} AdmittedAscending(policies: Policies, run: seq<Request>, key: string, clock: int)
    requires InOrder(run, clock)
    ensures Ascending(Admitted(policies, run, key))
  {
    if run != [] {
      AdmittedAscending(policies, run[..|run| - 1], key, run[|run| - 1].now);
      RunRepresents(policies, run[..|run| - 1], key, run[|run| - 1].now);
      var log := Admitted(policies, run[..|run| - 1], key);
      assert forall i :: 0 <= i < |log| ==> log[i] in log;
    }
  }

  lemma {:induction false} FilterAscending(ts: seq<int>, p: int -> bool)
    requires Ascending(ts)
    ensures Ascending(Filter(ts, p))
  {
    if ts != [] {
      FilterAscending(ts[1..], p);
      var r := Filter(ts[1..], p);
      FilterMembers(ts[1..], p);
      forall i | 0 <= i < |r| ensures ts[0] <= r[i] {
        assert r[i] in ts[1..];
      }
    }
  }

  /** The oldest admitted request still counted against the key when `r` arrives. */
  function Oldest(policies: Policies, run: seq<Request>, r: Request): int {
    var live := Live(BucketOf(Buckets(policies, run), r.key), r.now - policies(r.key).windowMs);
    if live == [] then r.now else live[0]
  }

  /** As the window slides from a full one, it has room again exactly when its oldest entry has left. */
  lemma WindowReopens(log: seq<int>, w: int, now: int, later: int, max: int)
    requires Ascending(log) && (forall t :: t in log ==> t <= now) && now <= later && max >= 1
    requires |Window(log, now - w, now)| == max
    ensures |Window(log, later - w, later)| < max <==> Window(log, now - w, now)[0] + w <= later
  {
    var live := Window(log, now - w, now);
    FilterAscending(log, Within(now - w, now));
    FilterTwice(log, Within(now - w, now), Within(later - w, later), Within(later - w, later));
    assert Window(log, later - w, later) == Filter(live, Within(later - w, later));
    if live[0] + w <= later {
      assert |Filter(live[1..], Within(later - w, later))| <= |live| - 1;
    } else {
      FilterMembers(log, Within(now - w, now));
      forall t | t in live ensures later - w < t <= later {
        assert live[0] <= t;
      }
      FilterAll(live, Within(later - w, later));
    }
  }

  /**
   After a refusal, with no request for the key in between, a later one is allowed exactly from the
   instant the oldest counted request leaves the window.
   */
  lemma ReadmittedWhenOldestLeaves(policies: Policies, run: seq<Request>, r: Request, idle: seq<Request>, later: int)
    requires InOrder(run + [r] + idle, later)
    requires forall i :: 0 <= i < |idle| ==> idle[i].key != r.key
    requires !Answer(policies, run, r).allowed && policies(r.key).maxRequests >= 1
    ensures Answer(policies, run + [r] + idle, Request(r.key, later)).allowed
       <==> Oldest(policies, run, r) + policies(r.key).windowMs <= later
  {
    RunStaysInOrder(run, r, idle, later);
    assert Admitted(policies, run + [r] + idle, r.key) == Admitted(policies, run, r.key) by {
      AllowedIffWindowHasRoom(policies, run, r);
      RefusalLogsNothing(policies, run, r, idle);
    }
    RefusedWindowIsFull(policies, run, r);
    FullLogReopens(policies, run + [r] + idle, Admitted(policies, run, r.key), r, later);
  }

  lemma FullLogReopens(policies: Policies, next: seq<Request>, log: seq<int>, r: Request, later: int)
    requires InOrder(next, later) && Admitted(policies, next, r.key) == log
    requires Ascending(log) && (forall t :: t in log ==> t <= r.now) && r.now <= later && policies(r.key).maxRequests >= 1
    requires |Window(log, r.now - policies(r.key).windowMs, r.now)| == policies(r.key).maxRequests
    ensures Answer(policies, next, Request(r.key, later)).allowed
       <==> Window(log, r.now - policies(r.key).windowMs, r.now)[0] + policies(r.key).windowMs <= later
  {
    AllowedIffWindowHasRoom(policies, next, Request(r.key, later));
    WindowReopens(log, policies(r.key).windowMs, r.now, later, policies(r.key).maxRequests);
  }

  lemma RefusalLogsNothing(policies: Policies, run: seq<Request>, r: Request, idle: seq<Request>)
    requires |Window(Admitted(policies, run, r.key), r.now - policies(r.key).windowMs, r.now)| >= policies(r.key).maxRequests
    requires forall i :: 0 <= i < |idle| ==> idle[i].key != r.key
    ensures Admitted(policies, run + [r] + idle, r.key) == Admitted(policies, run, r.key)
  {
    AdmittedStep(policies, run, r, r.key);
    OthersLeaveLogAlone(policies, run + [r], idle, r.key);
  }

  /** The hint is the least whole number of seconds, at least one, that reaches this instant. */
  lemma RetryHintIsLeast(policies: Policies, run: seq<Request>, r: Request)
    requires InOrder(run, r.now)
    requires !Answer(policies, run, r).allowed && policies(r.key).maxRequests >= 1
    ensures
      var wait, free := Answer(policies, run, r).retryAfterSeconds, Oldest(policies, run, r) + policies(r.key).windowMs;
      && 1 <= wait <= CeilSeconds(policies(r.key).windowMs)
      && free <= r.now + 1000 * wait
      && (wait > 1 ==> r.now + 1000 * (wait - 1) < free)
  {
    var bucket, policy := BucketOf(Buckets(policies, run), r.key), policies(r.key);
    assert Live(bucket, r.now - policy.windowMs) != [] && Oldest(policies, run, r) > r.now - policy.windowMs
        && Oldest(policies, run, r) <= r.now by {
      RefusedWindowIsFull(policies, run, r);
    }
    HintArithmetic(bucket, policy, r.now);
  }

  lemma HintArithmetic(bucket: seq<int>, policy: Policy, now: int)
    requires !Consume(bucket, policy, now).1.allowed
    requires var live := Live(bucket, now - policy.windowMs); live != [] && now - policy.windowMs < live[0] <= now
    ensures
      var wait, free := Consume(bucket, policy, now).1.retryAfterSeconds, Live(bucket, now - policy.windowMs)[0] + policy.windowMs;
      && 1 <= wait <= CeilSeconds(policy.windowMs)
      && free <= now + 1000 * wait
      && (wait > 1 ==> now + 1000 * (wait - 1) < free)
  {
  }

  /** At a refusal the window of the log holds exactly `maxRequests` entries, and the bucket holds the same. */
  lemma RefusedWindowIsFull(policies: Policies, run: seq<Request>, r: Request)
    requires InOrder(run, r.now)
    requires !Answer(policies, run, r).allowed && policies(r.key).maxRequests >= 1
    ensures
      var log, w := Admitted(policies, run, r.key), policies(r.key).windowMs;
      var window := Window(log, r.now - w, r.now);
      && Ascending(log) && (forall t :: t in log ==> t <= r.now)
      && |window| == policies(r.key).maxRequests
      && Oldest(policies, run, r) == window[0]
      && r.now - w < Oldest(policies, run, r) <= r.now
  {
    var bucket, log, policy := BucketOf(Buckets(policies, run), r.key), Admitted(policies, run, r.key), policies(r.key);
    RunRepresents(policies, run, r.key, r.now);
    AdmittedAscending(policies, run, r.key, r.now);
    assert |Window(log, r.now - policy.windowMs, r.now)| <= policy.maxRequests by {
      NoWindowIsOverfull(policies, run, r.key, r.now - policy.windowMs, r.now);
    }
    RefusalFillsWindow(bucket, log, policy, r.now);
  }

  lemma RefusalFillsWindow(bucket: seq<int>, log: seq<int>, policy: Policy, now: int)
    requires Represents(bucket, log, policy.windowMs, now)
    requires !Consume(bucket, policy, now).1.allowed && policy.maxRequests >= 1
    requires |Window(log, now - policy.windowMs, now)| <= policy.maxRequests
    ensures
      var window := Window(log, now - policy.windowMs, now);
      && |window| == policy.maxRequests
      && Live(bucket, now - policy.windowMs) == window
      && now - policy.windowMs < window[0] <= now
  {
    assert LiveIsWindow(bucket, log, policy.windowMs, now);
    FilterMembers(log, Within(now - policy.windowMs, now));
    assert Window(log, now - policy.windowMs, now)[0] in Window(log, now - policy.windowMs, now);
  }

  lemma {:induction false} RunStaysInOrder(run: seq<Request>, r: Request, idle: seq<Request>, clock: int)
    requires InOrder(run + [r] + idle, clock)
    ensures InOrder(run, r.now) && r.now <= clock
  {
    if idle == [] {
      assert run + [r] + idle == run + [r];
      assert (run + [r])[..|run|] == run;
    } else {
      assert (run + [r] + idle)[..|run + [r] + idle| - 1] == run + [r] + idle[..|idle| - 1];
      RunStaysInOrder(run, r, idle[..|idle| - 1], idle[|idle| - 1].now);
    }
  }

  /** With `maxRequests` below one nothing is ever allowed, however long the client waits. */
  lemma ZeroPolicyNeverAllows(policies: Policies, run: seq<Request>, r: Request)
    ensures policies(r.key).maxRequests < 1 ==> !Answer(policies, run, r).allowed
  {
  }

  /*** What the answer promises ***/

  /** The requests counted against the key when `r` arrives. */
  function Used(policies: Policies, run: seq<Request>, r: Request): nat {
    |Window(Admitted(policies, run, r.key), r.now - policies(r.key).windowMs, r.now)|
  }

  /** The number of requests left: of the window that ends now, this request included; and no waiting time. */
  lemma RemainingCountsTheWindow(policies: Policies, run: seq<Request>, r: Request)
    requires InOrder(run, r.now)
    ensures var answer := Answer(policies, run, r);
            if answer.allowed then answer.remaining == policies(r.key).maxRequests - (Used(policies, run, r) + 1) && answer.retryAfterSeconds == 0
            else answer.remaining == 0 && answer.retryAfterSeconds >= 1
  {
    RunRepresents(policies, run, r.key, r.now);
    assert LiveIsWindow(BucketOf(Buckets(policies, run), r.key), Admitted(policies, run, r.key), policies(r.key).windowMs, r.now);
  }

  function Copies(r: Request, k: nat): (s: seq<Request>)
    ensures |s| == k
  {
    seq(k, i => r)
  }

  lemma {:induction false} BurstInOrder(run: seq<Request>, r: Request, k: nat)
    requires InOrder(run, r.now)
    ensures InOrder(run + Copies(r, k), r.now)
    decreases k
  {
    if k == 0 {
      assert run + Copies(r, 0) == run;
    } else {
      BurstInOrder(run, r, k - 1);
      assert (run + Copies(r, k))[..|run| + k - 1] == run + Copies(r, k - 1);
    }
  }

  lemma OneMoreUsed(policies: Policies, run: seq<Request>, r: Request)
    requires policies(r.key).windowMs >= 1
    ensures Used(policies, run + [r], r) == Used(policies, run, r) + if Used(policies, run, r) < policies(r.key).maxRequests then 1 else 0
  {
    var inside := Within(r.now - policies(r.key).windowMs, r.now);
    AdmittedStep(policies, run, r, r.key);
    FilterAppend(Admitted(policies, run, r.key), [r.now], inside);
    assert Filter([r.now], inside) == [r.now] + Filter([], inside);
  }

  lemma {:induction false} BurstFillsTheWindow(policies: Policies, run: seq<Request>, r: Request, k: nat, used: nat)
    requires policies(r.key).windowMs >= 1 && used == Used(policies, run, r)
    ensures Used(policies, run + Copies(r, k), r)
         == if used >= policies(r.key).maxRequests then used
            else if used + k <= policies(r.key).maxRequests then used + k else policies(r.key).maxRequests
    decreases k
  {
    if k == 0 {
      assert run + Copies(r, 0) == run;
    } else {
      BurstFillsTheWindow(policies, run, r, k - 1, used);
      assert run + Copies(r, k) == run + Copies(r, k - 1) + [r];
      OneMoreUsed(policies, run + Copies(r, k - 1), r);
    }
  }

  lemma AllowedIffUsed(policies: Policies, run: seq<Request>, r: Request)
    requires InOrder(run, r.now)
    ensures Answer(policies, run, r).allowed <==> Used(policies, run, r) < policies(r.key).maxRequests
  {
    AllowedIffWindowHasRoom(policies, run, r);
  }

  lemma AfterBurst(policies: Policies, run: seq<Request>, r: Request, k: nat)
    requires InOrder(run, r.now) && policies(r.key).windowMs >= 1
    ensures Answer(policies, run + Copies(r, k), r).allowed <==> Used(policies, run, r) + k < policies(r.key).maxRequests
  {
    BurstInOrder(run, r, k);
    AllowedIffUsed(policies, run + Copies(r, k), r);
    BurstFillsTheWindow(policies, run, r, k, Used(policies, run, r));
  }

  /** What `remaining` means: of the same requests made again at once, exactly that many are allowed. */
  lemma RemainingAreAllowed(policies: Policies, run: seq<Request>, r: Request, k: nat)
    requires InOrder(run, r.now) && policies(r.key).windowMs >= 1 && Answer(policies, run, r).allowed
    ensures Answer(policies, run + [r] + Copies(r, k), r).allowed <==> k < Answer(policies, run, r).remaining
  {
    assert run + [r] + Copies(r, k) == run + Copies(r, k + 1);
    AfterBurst(policies, run, r, k + 1);
    AllowedIffUsed(policies, run, r);
    RemainingCountsTheWindow(policies, run, r);
  }

  lemma {:induction false} NothingAdmitted(policies: Policies, run: seq<Request>, key: string)
    requires policies(key).maxRequests < 1
    ensures Admitted(policies, run, key) == []
  {
    if run != [] {
      NothingAdmitted(policies, run[..|run| - 1], key);
    }
  }

  /** With `maxRequests` below one the hint is the least whole number of seconds, at least one, that covers the window. */
  lemma ZeroPolicyHint(policies: Policies, run: seq<Request>, r: Request)
    requires InOrder(run, r.now) && policies(r.key).maxRequests < 1
    ensures var wait, w := Answer(policies, run, r).retryAfterSeconds, policies(r.key).windowMs;
            wait >= 1 && 1000 * wait >= w && (wait == 1 || 1000 * (wait - 1) < w)
  {
    NothingAdmitted(policies, run, r.key);
    RunRepresents(policies, run, r.key, r.now);
    assert LiveIsWindow(BucketOf(Buckets(policies, run), r.key), [], policies(r.key).windowMs, r.now);
  }
}
