/**
 The sliding-window rate limiter (`RateLimiter::check` of
 radio-service-rs/src/app_state.rs), proved against a specification that knows
 no buckets: a request is admitted when fewer than the limit of earlier admitted
 requests of its key are still within the window.
 */
module RateLimiter {
  import opened Sequences

  /** One call of `check`. */
  datatype Request = Request(key: string, at: int)

  datatype Decision = Decision(allowed: bool, remaining: nat, resetAt: int)

  // ----- Specification over a run -----

  ghost predicate Monotone(run: seq<Request>) {
    forall i, j :: 0 <= i < j < |run| ==> run[i].at <= run[j].at
  }

  function Within(now: int, window: nat): int -> bool {
    (t: int) => now - t <= window
  }

  /** The admission times of `key` that a request at `now` still counts. */
  function Recent(times: seq<int>, now: int, window: nat): seq<int> {
    Filter(times, Within(now, window))
  }

  /** The times at which requests of `key` were admitted, by the rule alone. */
  function Admitted(run: seq<Request>, key: string, limit: nat, window: nat): seq<int> {
    if run == [] then []
    else
      var r := run[|run| - 1];
      var earlier := Admitted(run[..|run| - 1], key, limit, window);
      if r.key == key && |Recent(earlier, r.at, window)| < limit then earlier + [r.at] else earlier
  }

  /** Whether a request arriving after `run` is admitted. */
  predicate Admits(run: seq<Request>, r: Request, limit: nat, window: nat) {
    |Recent(Admitted(run, r.key, limit, window), r.at, window)| < limit
  }

  // ----- Facts about the specification -----

  ghost predicate Ascending(times: seq<int>) {
    forall i, j :: 0 <= i < j < |times| ==> times[i] <= times[j]
  }

  lemma {:induction false} AdmittedAscending(run: seq<Request>, key: string, limit: nat, window: nat, now: int)
    requires Monotone(run) && (run != [] ==> run[|run| - 1].at <= now)
    ensures Ascending(Admitted(run, key, limit, window))
    ensures forall i :: 0 <= i < |Admitted(run, key, limit, window)| ==> Admitted(run, key, limit, window)[i] <= now
  {
    if run != [] {
      AdmittedAscending(run[..|run| - 1], key, limit, window, run[|run| - 1].at);
    }
  }

  lemma RecentSnoc(front: seq<int>, last: int, now: int, window: nat)
    ensures Recent(front + [last], now, window) == Recent(front, now, window) + if now - last <= window then [last] else []
  {
    assert (front + [last])[..|front|] == front;
  }

  /** In an ascending list the recent times are a suffix. */
  lemma {:induction false} RecentIsSuffix(times: seq<int>, now: int, window: nat)
    requires Ascending(times)
    ensures Recent(times, now, window) == times[|times| - |Recent(times, now, window)|..]
  {
    if times != [] {
      var front, last := times[..|times| - 1], times[|times| - 1];
      assert times == front + [last];
      RecentSnoc(front, last, now, window);
      if now - last <= window {
        RecentIsSuffix(front, now, window);
      } else {
        AllStale(front, last, now, window);
      }
    }
  }

  lemma AllStale(front: seq<int>, last: int, now: int, window: nat)
    requires Ascending(front + [last]) && now - last > window
    ensures Recent(front, now, window) == []
  {
    forall t | t in front ensures !Within(now, window)(t) {
      var i :| 0 <= i < |front| && front[i] == t;
      assert (front + [last])[i] <= (front + [last])[|front|];
    }
    FilterNone(front, Within(now, window));
  }

  /** What is recent later was recent earlier: forgetting stale times is safe. */
  lemma RecentOfRecent(times: seq<int>, earlier: int, now: int, window: nat)
    requires earlier <= now
    ensures Recent(Recent(times, earlier, window), now, window) == Recent(times, now, window)
  {
    FilterFilter(times, Within(earlier, window), Within(now, window));
    FilterSame(times, Both(Within(earlier, window), Within(now, window)), Within(now, window));
  }

  /** Never more than the limit of admissions are recent. */
  lemma {:induction false} RecentAtMostLimit(run: seq<Request>, key: string, limit: nat, window: nat, now: int)
    requires Monotone(run) && (run != [] ==> run[|run| - 1].at <= now)
    ensures |Recent(Admitted(run, key, limit, window), now, window)| <= limit
  {
    if run != [] {
      var front, last := run[..|run| - 1], run[|run| - 1];
      var earlier := Admitted(front, key, limit, window);
      RecentAtMostLimit(front, key, limit, window, last.at);
      RecentShrinks(earlier, last.at, now, window);
      if last.key == key && |Recent(earlier, last.at, window)| < limit {
        assert (earlier + [last.at])[..|earlier|] == earlier;
      }
    }
  }

  lemma RecentShrinks(times: seq<int>, earlier: int, now: int, window: nat)
    requires earlier <= now
    ensures |Recent(times, now, window)| <= |Recent(times, earlier, window)|
  {
    RecentOfRecent(times, earlier, now, window);
  }

  function InInterval(from: int, window: nat): int -> bool {
    (t: int) => from <= t <= from + window
  }

  /** No closed interval of window length holds more than the limit of admissions. */
  lemma {:induction false} NoIntervalExceedsLimit(run: seq<Request>, key: string, limit: nat, window: nat, from: int)
    requires Monotone(run)
    ensures Count(Admitted(run, key, limit, window), InInterval(from, window)) <= limit
  {
    if run != [] {
      var front, last := run[..|run| - 1], run[|run| - 1];
      NoIntervalExceedsLimit(front, key, limit, window, from);
      var earlier := Admitted(front, key, limit, window);
      var now := Admitted(run, key, limit, window);
      if now != earlier {
        assert now[..|earlier|] == earlier;
        if InInterval(from, window)(last.at) {
          AdmittedAscending(front, key, limit, window, last.at);
          CountAtMost(earlier, InInterval(from, window), Within(last.at, window));
          CountIsFilterLength(earlier, Within(last.at, window));
        }
      }
    }
  }

  /** Other keys do not matter. */
  function OfKey(key: string): Request -> bool {
    (r: Request) => r.key == key
  }

  lemma {:induction false} KeysAreIndependent(run: seq<Request>, key: string, limit: nat, window: nat)
    ensures Admitted(run, key, limit, window) == Admitted(Filter(run, OfKey(key)), key, limit, window)
  {
    if run != [] {
      var front, last := run[..|run| - 1], run[|run| - 1];
      KeysAreIndependent(front, key, limit, window);
      if last.key == key {
        var own := Filter(front, OfKey(key));
        assert (own + [last])[..|own|] == own;
      }
    }
  }

  // ----- After a denial -----

  /** The instant a denied request is told to wait for. */
  function ResetAfter(run: seq<Request>, r: Request, limit: nat, window: nat): int
    requires !Admits(run, r, limit, window) && limit >= 1
  {
    Recent(Admitted(run, r.key, limit, window), r.at, window)[0] + window
  }

  /** `more` continues the run, and what it asks for `key` comes no later than `until`. */
  ghost predicate Continues(run: seq<Request>, more: seq<Request>, key: string, until: int) {
    Monotone(run + more) && forall i :: 0 <= i < |more| && more[i].key == key ==> more[i].at <= until
  }

  lemma StillFull(times: seq<int>, earlier: int, now: int, limit: nat, window: nat)
    requires Ascending(times) && earlier <= now && limit >= 1
    requires |Recent(times, earlier, window)| >= limit
    requires now <= Recent(times, earlier, window)[0] + window
    ensures Recent(times, now, window) == Recent(times, earlier, window)
  {
    var r := Recent(times, earlier, window);
    RecentIsSuffix(times, earlier, window);
    RecentOfRecent(times, earlier, now, window);
    forall t | t in r ensures Within(now, window)(t) {
      var i :| 0 <= i < |r| && r[i] == t;
      assert i > 0 ==> r[0] <= r[i];
    }
    FilterAll(r, Within(now, window));
  }

  lemma AdmittedSnoc(run: seq<Request>, r: Request, key: string, limit: nat, window: nat)
    ensures Admitted(run + [r], key, limit, window)
            == Admitted(run, key, limit, window) + if r.key == key && Admits(run, r, limit, window) then [r.at] else []
  {
    assert (run + [r])[..|run|] == run;
  }

  /** As long as nothing has been admitted since the denial, a request up to the reset instant is denied. */
  lemma NextDenied(run: seq<Request>, r: Request, between: seq<Request>, next: Request, limit: nat, window: nat)
    requires limit >= 1 && !Admits(run, r, limit, window) && next.key == r.key
    requires Monotone(run) && (run != [] ==> run[|run| - 1].at <= r.at) && r.at <= next.at
    requires next.at <= ResetAfter(run, r, limit, window)
    requires Admitted(between, r.key, limit, window) == Admitted(run, r.key, limit, window)
    ensures !Admits(between, next, limit, window)
  {
    AdmittedAscending(run, r.key, limit, window, r.at);
    StillFull(Admitted(run, r.key, limit, window), r.at, next.at, limit, window);
  }

  lemma {:induction false} NothingAdmitted(run: seq<Request>, r: Request, more: seq<Request>, limit: nat, window: nat)
    requires limit >= 1 && !Admits(run, r, limit, window)
    requires Continues(run + [r], more, r.key, ResetAfter(run, r, limit, window))
    ensures Admitted(run + [r] + more, r.key, limit, window) == Admitted(run, r.key, limit, window)
    decreases |more|
  {
    if more == [] {
      AdmittedSnoc(run, r, r.key, limit, window);
      assert run + [r] + more == run + [r];
    } else {
      var n := |more| - 1;
      var between := run + [r] + more[..n];
      var all := run + [r] + more;
      assert all == between + [more[n]] && between == all[..|all| - 1];
      NothingAdmitted(run, r, more[..n], limit, window);
      AdmittedSnoc(between, more[n], r.key, limit, window);
      PrefixMonotone(run, r, more);
      if more[n].key == r.key {
        NextDenied(run, r, between, more[n], limit, window);
      }
    }
  }

  /**
   After a denial of `r`, every further request of the key up to the reported
   reset instant is denied, whatever else arrives meanwhile.
   */
  lemma DeniedUntilReset(run: seq<Request>, r: Request, more: seq<Request>, next: Request, limit: nat, window: nat)
    requires limit >= 1 && !Admits(run, r, limit, window) && next.key == r.key
    requires Continues(run + [r], more + [next], r.key, ResetAfter(run, r, limit, window))
    ensures !Admits(run + [r] + more, next, limit, window)
  {
    var all := run + [r] + (more + [next]);
    assert run + [r] + more == all[..|all| - 1];
    assert (more + [next])[..|more|] == more && (more + [next])[|more|] == next;
    assert Continues(run + [r], more, r.key, ResetAfter(run, r, limit, window));
    NothingAdmitted(run, r, more, limit, window);
    PrefixMonotone(run, r, more + [next]);
    NextDenied(run, r, run + [r] + more, next, limit, window);
  }

  lemma PrefixMonotone(run: seq<Request>, r: Request, more: seq<Request>)
    requires Monotone(run + [r] + more)
    ensures Monotone(run) && (run != [] ==> run[|run| - 1].at <= r.at)
    ensures more != [] ==> r.at <= more[|more| - 1].at
  {
    var all := run + [r] + more;
    assert all[|run|] == r;
    assert forall i :: 0 <= i < |run| ==> all[i] == run[i];
    assert more != [] ==> all[|all| - 1] == more[|more| - 1];
  }

  /** The first request of the key after the reset instant is admitted. */
  lemma AdmittedAfterReset(run: seq<Request>, r: Request, more: seq<Request>, next: Request, limit: nat, window: nat)
    requires limit >= 1 && !Admits(run, r, limit, window) && next.key == r.key
    requires Continues(run + [r], more, r.key, ResetAfter(run, r, limit, window))
    requires next.at > ResetAfter(run, r, limit, window) && Monotone(run + [r] + more + [next])
    ensures Admits(run + [r] + more, next, limit, window)
  {
    NothingAdmitted(run, r, more, limit, window);
    PrefixMonotone(run, r, more);
    var times := Admitted(run, r.key, limit, window);
    var recent := Recent(times, r.at, window);
    RecentAtMostLimit(run, r.key, limit, window, r.at);
    assert r.at <= next.at by {
      var all := run + [r] + more + [next];
      assert all[|run|] == r && all[|all| - 1] == next;
    }
    RecentOfRecent(times, r.at, next.at, window);
    FirstDropsOut(recent, next.at, window);
  }

  lemma FirstDropsOut(recent: seq<int>, now: int, window: nat)
    requires recent != [] && now > recent[0] + window
    ensures |Recent(recent, now, window)| < |recent|
  {
    FilterConcat([recent[0]], recent[1..], Within(now, window));
    assert recent == [recent[0]] + recent[1..];
    assert Filter([recent[0]], Within(now, window)) == [];
  }

  // ----- The limiter -----

  function Bucket(buckets: map<string, seq<int>>, key: string): seq<int> {
    if key in buckets then buckets[key] else []
  }

  /** Each bucket holds exactly the recent admissions of its key as of the last check; none is empty. */
  ghost predicate Tracks(buckets: map<string, seq<int>>, history: seq<Request>, limit: nat, window: nat) {
    && Monotone(history)
    && (history == [] ==> buckets == map[])
    && (forall key :: key in buckets ==> buckets[key] != [])
    && (forall key :: history != [] ==>
          Bucket(buckets, key) == Recent(Admitted(history, key, limit, window), history[|history| - 1].at, window))
  }

  /** Every bucket has lost its stale times, and none is left empty. */
  ghost predicate SweptFrom(swept: map<string, seq<int>>, buckets: map<string, seq<int>>, now: int, window: nat) {
    && (forall key :: Bucket(swept, key) == Recent(Bucket(buckets, key), now, window))
    && (forall key :: key in swept ==> swept[key] != [])
  }

  class RateLimiter {
    const maxRequests: nat
    const window: nat
    var buckets: map<string, seq<int>>
    /** Every request checked so far. */
    ghost var history: seq<Request>

    ghost predicate Valid()
      reads this
    {
      maxRequests >= 1 && Tracks(buckets, history, maxRequests, window)
    }

    constructor (maxRequests: nat, window: nat)
      ensures Valid() && history == [] && this.maxRequests == (if maxRequests == 0 then 1 else maxRequests)
      ensures this.window == window
    {
      this.maxRequests, this.window := if maxRequests == 0 then 1 else maxRequests, window;
      buckets, history := map[], [];
    }

    /**
     `check`: the decision is the one the rule makes on the whole history, and the
     instant reported with a denial is the one `DeniedUntilReset` is about.
     */
    method Check(key: string, now: int) returns (d: Decision)
      requires Valid() && (history != [] ==> history[|history| - 1].at <= now)
      modifies this
      ensures Valid() && history == old(history) + [Request(key, now)]
      ensures maxRequests >= 1 && Answers(d, old(history), Request(key, now), maxRequests, window)
    {
      BucketsAscending(history, buckets, maxRequests, window);
      var swept := Sweep(buckets, now, window);
      var joined;
      joined, d := Decide(swept, key, now, maxRequests, window);
      DecisionAnswers(buckets, swept, history, Request(key, now), d, maxRequests, window);
      SweptTracks(buckets, swept, history, Request(key, now), maxRequests, window);
      buckets, history := joined, history + [Request(key, now)];
    }
  }

  /** `d` is what the rule says to `r` after `history`, with the instant `DeniedUntilReset` is about. */
  ghost predicate Answers(d: Decision, history: seq<Request>, r: Request, limit: nat, window: nat)
    requires limit >= 1
  {
    && (d.allowed <==> Admits(history, r, limit, window))
    && (!d.allowed ==> d.resetAt == ResetAfter(history, r, limit, window))
    && Decides(d, Recent(Admitted(history, r.key, limit, window), r.at, window), r.at, limit, window)
  }

  lemma DecisionAnswers(buckets: map<string, seq<int>>, swept: map<string, seq<int>>, history: seq<Request>,
                        r: Request, d: Decision, limit: nat, window: nat)
    requires limit >= 1 && Tracks(buckets, history, limit, window)
    requires history != [] ==> history[|history| - 1].at <= r.at
    requires SweptFrom(swept, buckets, r.at, window) && Decides(d, Bucket(swept, r.key), r.at, limit, window)
    ensures Answers(d, history, r, limit, window)
  {
    SweptBucket(buckets, history, r.key, r, limit, window);
    assert Bucket(swept, r.key) == Recent(Bucket(buckets, r.key), r.at, window);
  }

  /** The decision taken when `counted` admissions are still within the window. */
  ghost predicate Decides(d: Decision, counted: seq<int>, now: int, limit: nat, window: nat) {
    && (d.allowed <==> |counted| < limit)
    && d.remaining == (if d.allowed then limit - |counted| - 1 else 0)
    && d.resetAt == (if counted == [] then now else counted[0]) + window
  }

  /**
   The end of `check`: count, and let an admitted request join its bucket. The bucket
   has just been swept, so the second pruning loop of the service finds nothing to pop.
   */
  method Decide(swept: map<string, seq<int>>, key: string, now: int, limit: nat, window: nat)
    returns (buckets: map<string, seq<int>>, d: Decision)
    ensures buckets == Joined(swept, Request(key, now), limit)
    ensures Decides(d, Bucket(swept, key), now, limit, window)
  {
    var entries := Bucket(swept, key);
    var resetAt := if entries != [] then entries[0] + window else now + window;
    if |entries| >= limit {
      return swept, Decision(false, 0, resetAt);
    }
    buckets := swept[key := entries + [now]];
    d := Decision(true, limit - (|entries| + 1), resetAt);
  }

  /** The bucket of `k` after sweeping, and what the rule counts for it after the request. */
  lemma SweptBucket(buckets: map<string, seq<int>>, history: seq<Request>, k: string, r: Request, limit: nat, window: nat)
    requires Tracks(buckets, history, limit, window) && (history != [] ==> history[|history| - 1].at <= r.at)
    ensures var entries := Recent(Bucket(buckets, k), r.at, window);
            && entries == Recent(Admitted(history, k, limit, window), r.at, window)
            && Recent(Admitted(history + [r], k, limit, window), r.at, window)
               == if k == r.key && |entries| < limit then entries + [r.at] else entries
  {
    if history != [] {
      RecentOfRecent(Admitted(history, k, limit, window), history[|history| - 1].at, r.at, window);
    }
    assert (history + [r])[..|history|] == history;
    AdmittedNow(Admitted(history, k, limit, window), r.at, window);
  }

  lemma MonotoneSnoc(history: seq<Request>, r: Request)
    requires Monotone(history) && (history != [] ==> history[|history| - 1].at <= r.at)
    ensures Monotone(history + [r])
  {
  }

  /** The buckets after the request: an admitted one joins the bucket of its key. */
  function Joined(swept: map<string, seq<int>>, r: Request, limit: nat): map<string, seq<int>> {
    var entries := Bucket(swept, r.key);
    if |entries| < limit then swept[r.key := entries + [r.at]] else swept
  }

  lemma JoinedBucket(swept: map<string, seq<int>>, r: Request, limit: nat, k: string)
    ensures var entries := Bucket(swept, k);
            Bucket(Joined(swept, r, limit), k) == if k == r.key && |entries| < limit then entries + [r.at] else entries
  {
  }

  lemma SweptKey(buckets: map<string, seq<int>>, swept: map<string, seq<int>>, history: seq<Request>, k: string,
                 r: Request, limit: nat, window: nat)
    requires Tracks(buckets, history, limit, window) && (history != [] ==> history[|history| - 1].at <= r.at)
    requires Bucket(swept, k) == Recent(Bucket(buckets, k), r.at, window)
    ensures Bucket(Joined(swept, r, limit), k) == Recent(Admitted(history + [r], k, limit, window), r.at, window)
  {
    SweptBucket(buckets, history, k, r, limit, window);
    JoinedBucket(swept, r, limit, k);
  }

  lemma SweptTracks(buckets: map<string, seq<int>>, swept: map<string, seq<int>>, history: seq<Request>,
                    r: Request, limit: nat, window: nat)
    requires Tracks(buckets, history, limit, window) && (history != [] ==> history[|history| - 1].at <= r.at)
    requires SweptFrom(swept, buckets, r.at, window)
    ensures Tracks(Joined(swept, r, limit), history + [r], limit, window)
  {
    MonotoneSnoc(history, r);
    var joined, after := Joined(swept, r, limit), history + [r];
    assert after[|after| - 1] == r;
    forall k ensures Bucket(joined, k) == Recent(Admitted(after, k, limit, window), r.at, window) {
      SweptKey(buckets, swept, history, k, r, limit, window);
    }
  }

  lemma BucketsAscending(history: seq<Request>, buckets: map<string, seq<int>>, limit: nat, window: nat)
    requires Tracks(buckets, history, limit, window)
    ensures forall key :: key in buckets ==> Ascending(buckets[key])
  {
    forall key | key in buckets ensures Ascending(buckets[key]) {
      var last := history[|history| - 1].at;
      AdmittedAscending(history, key, limit, window, last);
      RecentIsSuffix(Admitted(history, key, limit, window), last, window);
      assert Bucket(buckets, key) == buckets[key];
    }
  }

  lemma AdmittedNow(times: seq<int>, now: int, window: nat)
    ensures Recent(times + [now], now, window) == Recent(times, now, window) + [now]
  {
    assert (times + [now])[..|times|] == times;
  }

  /** Pop stale times off the front of one bucket. */
  method PopStale(entries: seq<int>, now: int, window: nat) returns (r: seq<int>)
    requires Ascending(entries)
    ensures r == Recent(entries, now, window)
  {
    var k := 0;
    while k < |entries| && now - entries[k] > window
      invariant k <= |entries|
      invariant forall i :: 0 <= i < k ==> now - entries[i] > window
    {
      k := k + 1;
    }
    r := entries[k..];
    StalePopped(entries, k, now, window);
  }

  lemma StalePopped(entries: seq<int>, k: nat, now: int, window: nat)
    requires Ascending(entries) && k <= |entries|
    requires forall i :: 0 <= i < k ==> now - entries[i] > window
    requires k < |entries| ==> now - entries[k] <= window
    ensures entries[k..] == Recent(entries, now, window)
  {
    var stale, kept := entries[..k], entries[k..];
    assert entries == stale + kept;
    NoneRecent(stale, now, window);
    AllRecent(kept, now, window);
    RecentConcat(stale, kept, now, window);
  }

  lemma RecentConcat(a: seq<int>, b: seq<int>, now: int, window: nat)
    ensures Recent(a + b, now, window) == Recent(a, now, window) + Recent(b, now, window)
  {
    FilterConcat(a, b, Within(now, window));
  }

  lemma NoneRecent(times: seq<int>, now: int, window: nat)
    requires forall i :: 0 <= i < |times| ==> now - times[i] > window
    ensures Recent(times, now, window) == []
  {
    FilterNone(times, Within(now, window));
  }

  lemma AllRecent(times: seq<int>, now: int, window: nat)
    requires Ascending(times) && (times != [] ==> now - times[0] <= window)
    ensures Recent(times, now, window) == times
  {
    FilterAll(times, Within(now, window));
  }

  /** Drop stale times from every bucket, then the buckets that ended up empty. */
  method Sweep(buckets: map<string, seq<int>>, now: int, window: nat) returns (r: map<string, seq<int>>)
    requires forall key :: key in buckets ==> Ascending(buckets[key])
    ensures SweptFrom(r, buckets, now, window)
  {
    r := map[];
    var todo := buckets.Keys;
    while todo != {}
      invariant todo <= buckets.Keys && r.Keys == buckets.Keys - todo
      invariant forall key :: key in r ==> r[key] == Recent(buckets[key], now, window)
      decreases |todo|
    {
      var key :| key in todo;
      var entries := PopStale(buckets[key], now, window);
      r := r[key := entries];
      todo := todo - {key};
    }
    var emptyKeys := set key | key in r && r[key] == [];
    r := r - emptyKeys;
  }
}
