/**
 The contact form's limiter and deduper (api-gateway-service/src/contact.rs).
 Each SQL upsert is one atomic step on a row; `NOW()` never goes back from one
 statement to the next.
 */
module ContactLimits {
  import opened Wrappers
  import opened Sequences

  datatype Call = Call(who: string, at: int)

  ghost predicate Monotone(run: seq<Call>) {
    forall i, j :: 0 <= i < j < |run| ==> run[i].at <= run[j].at
  }

  // ----- Fixed windows -----

  datatype RateRow = RateRow(count: nat, expiresAt: int)

  /** The upsert: start a window, or count within the one that is open. */
  function Bump(row: Option<RateRow>, now: int, window: nat): RateRow {
    if row.None? || row.value.expiresAt <= now then RateRow(1, now + window)
    else RateRow(row.value.count + 1, row.value.expiresAt)
  }

  /** The client's row after a run. */
  function RowAfter(run: seq<Call>, who: string, window: nat): Option<RateRow> {
    if run == [] then None
    else
      var last := run[|run| - 1];
      var row := RowAfter(run[..|run| - 1], who, window);
      if last.who == who then Some(Bump(row, last.at, window)) else row
  }

  /** Whether the next call of a client is let through. */
  predicate Accepts(run: seq<Call>, call: Call, limit: nat, window: nat) {
    Bump(RowAfter(run, call.who, window), call.at, window).count <= limit
  }

  /** When the client's calls were let through. */
  function Accepted(run: seq<Call>, who: string, limit: nat, window: nat): seq<int> {
    if run == [] then []
    else
      var last := run[|run| - 1];
      var front := run[..|run| - 1];
      var before := Accepted(front, who, limit, window);
      if last.who == who && Accepts(front, last, limit, window) then before + [last.at] else before
  }

  function From(start: int): int -> bool {
    (t: int) => start <= t
  }

  function Between(start: int, length: nat): int -> bool {
    (t: int) => start <= t < start + length
  }

  ghost predicate Below(times: seq<int>, row: Option<RateRow>) {
    match row
    case None => times == []
    case Some(r) => forall i :: 0 <= i < |times| ==> times[i] < r.expiresAt
  }

  /** Acceptances lie before the end of the open window. */
  lemma {:induction false} AcceptedBeforeExpiry(run: seq<Call>, who: string, limit: nat, window: nat)
    requires Monotone(run) && window >= 1
    ensures Below(Accepted(run, who, limit, window), RowAfter(run, who, window))
  {
    if run != [] {
      var front, last := run[..|run| - 1], run[|run| - 1];
      AcceptedBeforeExpiry(front, who, limit, window);
      var before, row := Accepted(front, who, limit, window), RowAfter(front, who, window);
      BelowBumped(before, row, last.at, window);
    }
  }

  lemma BelowBumped(times: seq<int>, row: Option<RateRow>, now: int, window: nat)
    requires Below(times, row) && window >= 1
    ensures Below(times, Some(Bump(row, now, window))) && Below(times + [now], Some(Bump(row, now, window)))
  {
  }

  /** A client gets exactly the first `limit` calls of each window through. */
  lemma {:induction false} WindowHoldsLimit(run: seq<Call>, who: string, limit: nat, window: nat)
    requires Monotone(run) && window >= 1 && RowAfter(run, who, window).Some?
    ensures var row := RowAfter(run, who, window).value;
            Count(Accepted(run, who, limit, window), From(row.expiresAt - window)) == Min(row.count, limit)
  {
    var front, last := run[..|run| - 1], run[|run| - 1];
    var row, before := RowAfter(front, who, window), Accepted(front, who, limit, window);
    AcceptedBeforeExpiry(front, who, limit, window);
    if last.who != who {
      WindowHoldsLimit(front, who, limit, window);
    } else {
      assert (before + [last.at])[..|before|] == before;
      var start := RowAfter(run, who, window).value.expiresAt - window;
      if row.None? || row.value.expiresAt <= last.at {
        NoneCounted(before, From(start));
      } else {
        WindowHoldsLimit(front, who, limit, window);
        WindowStarted(front, who, window);
      }
    }
  }

  lemma {:induction false} NoneCounted(times: seq<int>, p: int -> bool)
    requires forall i :: 0 <= i < |times| ==> !p(times[i])
    ensures Count(times, p) == 0
  {
    if times != [] {
      NoneCounted(times[..|times| - 1], p);
    }
  }

  /** The open window started no later than the last call. */
  lemma {:induction false} WindowStarted(run: seq<Call>, who: string, window: nat)
    requires Monotone(run) && RowAfter(run, who, window).Some?
    ensures run != [] && RowAfter(run, who, window).value.expiresAt - window <= run[|run| - 1].at
  {
    var front, last := run[..|run| - 1], run[|run| - 1];
    if last.who != who || (RowAfter(front, who, window).Some? && RowAfter(front, who, window).value.expiresAt > last.at) {
      WindowStarted(front, who, window);
    }
  }

  /** What an interval of window length can have gathered, by where the open window stands. */
  function Bound(start: int, window: nat, row: Option<RateRow>, limit: nat): int {
    match row
    case None => 0
    case Some(r) =>
      var began := r.expiresAt - window;
      if r.expiresAt <= start then 0
      else if began < start then Min(r.count, limit) - 1
      else if began == start then Min(r.count, limit)
      else if began < start + window then limit - 1 + Min(r.count, limit)
      else 2 * limit - 1
  }

  lemma {:induction false} CountsAreBounded(run: seq<Call>, who: string, limit: nat, window: nat, start: int)
    requires Monotone(run) && limit >= 1 && window >= 1
    ensures RowAfter(run, who, window).Some? ==> RowAfter(run, who, window).value.count >= 1
    ensures Count(Accepted(run, who, limit, window), Between(start, window))
            <= Bound(start, window, RowAfter(run, who, window), limit)
  {
    if run != [] {
      var front, last := run[..|run| - 1], run[|run| - 1];
      CountsAreBounded(front, who, limit, window, start);
      var row, before := RowAfter(front, who, window), Accepted(front, who, limit, window);
      if last.who == who {
        assert (before + [last.at])[..|before|] == before;
        if row.Some? {
          WindowStarted(front, who, window);
        }
      }
    }
  }

  /**
   No half-open interval of window length sees more than `2 * limit - 1` of a
   client's calls let through: if it meets two windows, it misses the call that
   opened the first.
   */
  lemma TwoWindowsBound(run: seq<Call>, who: string, limit: nat, window: nat, start: int)
    requires Monotone(run) && limit >= 1
    ensures Count(Accepted(run, who, limit, window), Between(start, window)) <= 2 * limit - 1
  {
    if window == 0 {
      NoneCounted(Accepted(run, who, limit, window), Between(start, window));
    } else {
      CountsAreBounded(run, who, limit, window, start);
    }
  }

  function Repeat(who: string, at: int, n: nat): seq<Call> {
    seq(n, _ => Call(who, at))
  }

  /** One call, then a burst at the end of its window, then a burst as the next one opens. */
  function Burst(who: string, limit: nat, window: nat): seq<Call>
    requires limit >= 1
  {
    [Call(who, 0)] + Repeat(who, window - 1, limit - 1) + Repeat(who, window, limit)
  }

  lemma RowAfterSnoc(run: seq<Call>, call: Call, who: string, window: nat)
    ensures RowAfter(run + [call], who, window)
            == if call.who == who then Some(Bump(RowAfter(run, who, window), call.at, window)) else RowAfter(run, who, window)
  {
    assert (run + [call])[..|run|] == run;
  }

  lemma AcceptedSnoc(run: seq<Call>, call: Call, limit: nat, window: nat)
    ensures Accepted(run + [call], call.who, limit, window)
            == Accepted(run, call.who, limit, window) + if Accepts(run, call, limit, window) then [call.at] else []
  {
    assert (run + [call])[..|run|] == run;
  }

  lemma RepeatSnoc(run: seq<Call>, who: string, at: int, n: nat)
    requires n > 0
    ensures run + Repeat(who, at, n) == (run + Repeat(who, at, n - 1)) + [Call(who, at)]
    ensures seq(n, _ => at) == seq(n - 1, _ => at) + [at]
  {
  }

  lemma {:induction false} RepeatedCalls(run: seq<Call>, who: string, at: int, n: nat, limit: nat, window: nat)
    requires RowAfter(run, who, window).Some? && RowAfter(run, who, window).value.expiresAt > at
    requires RowAfter(run, who, window).value.count + n <= limit
    ensures RowAfter(run + Repeat(who, at, n), who, window)
            == Some(RateRow(RowAfter(run, who, window).value.count + n, RowAfter(run, who, window).value.expiresAt))
    ensures Accepted(run + Repeat(who, at, n), who, limit, window) == Accepted(run, who, limit, window) + seq(n, _ => at)
  {
    var all := run + Repeat(who, at, n);
    if n == 0 {
      assert all == run;
    } else {
      RepeatedCalls(run, who, at, n - 1, limit, window);
      var front := run + Repeat(who, at, n - 1);
      RepeatSnoc(run, who, at, n);
      AcceptedSnoc(front, Call(who, at), limit, window);
      RowAfterSnoc(front, Call(who, at), who, window);
    }
  }

  lemma {:induction false} CountRepeated(at: int, n: nat, p: int -> bool)
    ensures Count(seq(n, _ => at), p) == if p(at) then n else 0
  {
    if n > 0 {
      CountRepeated(at, n - 1, p);
      assert seq(n, _ => at)[..n - 1] == seq(n - 1, _ => at);
    }
  }

  lemma BurstAccepted(who: string, limit: nat, window: nat)
    requires limit >= 1 && window >= 2
    ensures Accepted(Burst(who, limit, window), who, limit, window)
            == [0] + seq(limit - 1, _ => window - 1) + [window] + seq(limit - 1, _ => window)
  {
    var first := [Call(who, 0)];
    var second := first + Repeat(who, window - 1, limit - 1);
    var third := second + [Call(who, window)];
    assert first[..0] == [] && third[..|second|] == second;
    assert Accepted(first, who, limit, window) == [0];
    RepeatedCalls(first, who, window - 1, limit - 1, limit, window);
    assert Accepted(third, who, limit, window) == Accepted(second, who, limit, window) + [window];
    RepeatedCalls(third, who, window, limit - 1, limit, window);
    assert Burst(who, limit, window) == third + Repeat(who, window, limit - 1);
  }

  lemma BurstMonotone(who: string, limit: nat, window: nat)
    requires limit >= 1 && window >= 2
    ensures Monotone(Burst(who, limit, window))
  {
    var b := Burst(who, limit, window);
    assert forall i :: 0 <= i < |b| ==> b[i].at == if i == 0 then 0 else if i < limit then window - 1 else window;
  }

  /** The bound is attained for every limit and every window of at least two ticks. */
  lemma BoundIsAttained(who: string, limit: nat, window: nat)
    requires limit >= 1 && window >= 2
    ensures Monotone(Burst(who, limit, window))
    ensures Count(Accepted(Burst(who, limit, window), who, limit, window), Between(1, window)) == 2 * limit - 1
  {
    BurstMonotone(who, limit, window);
    BurstAccepted(who, limit, window);
    var p := Between(1, window);
    var a, b := seq(limit - 1, _ => window - 1), seq(limit - 1, _ => window);
    CountConcat([0] + a + [window], b, p);
    CountConcat([0] + a, [window], p);
    CountConcat([0], a, p);
    CountRepeated(window - 1, limit - 1, p);
    CountRepeated(window, limit - 1, p);
    CountRepeated(0, 1, p);
    CountRepeated(window, 1, p);
    assert [0] == seq(1, _ => 0) && [window] == seq(1, _ => window);
  }

  // ----- Duplicates -----

  /** The conditional upsert: `None` when the fingerprint is still held. */
  function Claim(expiresAt: Option<int>, now: int, window: nat): Option<int> {
    if expiresAt.None? || expiresAt.value <= now then Some(now + window) else None
  }

  function HeldUntil(run: seq<Call>, fingerprint: string, window: nat): Option<int> {
    if run == [] then None
    else
      var last := run[|run| - 1];
      var held := HeldUntil(run[..|run| - 1], fingerprint, window);
      if last.who == fingerprint && Claim(held, last.at, window).Some? then Claim(held, last.at, window) else held
  }

  /** When submissions with this fingerprint were let through. */
  function Claimed(run: seq<Call>, fingerprint: string, window: nat): seq<int> {
    if run == [] then []
    else
      var last := run[|run| - 1];
      var before := Claimed(run[..|run| - 1], fingerprint, window);
      if last.who == fingerprint && Claim(HeldUntil(run[..|run| - 1], fingerprint, window), last.at, window).Some?
      then before + [last.at] else before
  }

  /**
   A submission goes through exactly when the last one with its fingerprint is at
   least a window old, so two accepted ones are never closer than that.
   */
  lemma {:induction false} ClaimsAreApart(run: seq<Call>, fingerprint: string, window: nat, now: int)
    requires Monotone(run) && (run != [] ==> run[|run| - 1].at <= now)
    ensures var times := Claimed(run, fingerprint, window);
            && (forall i, j :: 0 <= i < j < |times| ==> times[i] + window <= times[j])
            && (Claim(HeldUntil(run, fingerprint, window), now, window).Some?
                <==> times == [] || times[|times| - 1] + window <= now)
            && HeldUntil(run, fingerprint, window) == (if times == [] then None else Some(times[|times| - 1] + window))
  {
    if run != [] {
      var front, last := run[..|run| - 1], run[|run| - 1];
      ClaimsAreApart(front, fingerprint, window, last.at);
    }
  }

  function Row<T>(rows: map<string, T>, key: string): Option<T> {
    if key in rows then Some(rows[key]) else None
  }

  /** Every row is what the run of calls made of it. */
  ghost predicate RowsMatch(rows: map<string, RateRow>, run: seq<Call>, window: nat) {
    forall who :: Row(rows, who) == RowAfter(run, who, window)
  }

  ghost predicate HoldsMatch(rows: map<string, int>, run: seq<Call>, window: nat) {
    forall fp :: Row(rows, fp) == HeldUntil(run, fp, window)
  }

  lemma RowsMatchSnoc(rows: map<string, RateRow>, run: seq<Call>, call: Call, window: nat)
    requires RowsMatch(rows, run, window)
    ensures RowsMatch(rows[call.who := Bump(Row(rows, call.who), call.at, window)], run + [call], window)
  {
    var after := rows[call.who := Bump(Row(rows, call.who), call.at, window)];
    forall who ensures Row(after, who) == RowAfter(run + [call], who, window) {
      RowAfterSnoc(run, call, who, window);
      assert Row(rows, who) == RowAfter(run, who, window);
    }
  }

  lemma HeldUntilSnoc(run: seq<Call>, call: Call, fp: string, window: nat)
    ensures var held := HeldUntil(run, fp, window);
            HeldUntil(run + [call], fp, window)
            == if call.who == fp && Claim(held, call.at, window).Some? then Claim(held, call.at, window) else held
  {
    assert (run + [call])[..|run|] == run;
  }

  lemma HoldsMatchSnoc(rows: map<string, int>, run: seq<Call>, call: Call, window: nat)
    requires HoldsMatch(rows, run, window)
    ensures var claim := Claim(Row(rows, call.who), call.at, window);
            HoldsMatch(if claim.Some? then rows[call.who := claim.value] else rows, run + [call], window)
  {
    var claim := Claim(Row(rows, call.who), call.at, window);
    var after := if claim.Some? then rows[call.who := claim.value] else rows;
    forall fp ensures Row(after, fp) == HeldUntil(run + [call], fp, window) {
      HeldUntilSnoc(run, call, fp, window);
      assert Row(rows, fp) == HeldUntil(run, fp, window);
    }
  }

  // ----- The tables -----

  class ContactStore {
    const limit: nat
    const window: nat
    const dedupeWindow: nat
    var rateRows: map<string, RateRow>
    var dedupeRows: map<string, int>
    ghost var calls: seq<Call>
    ghost var submissions: seq<Call>

    ghost predicate Valid()
      reads this
    {
      RowsMatch(rateRows, calls, window) && HoldsMatch(dedupeRows, submissions, dedupeWindow)
    }

    constructor (limit: nat, window: nat, dedupeWindow: nat)
      ensures Valid() && calls == [] && submissions == []
      ensures this.limit == limit && this.window == window && this.dedupeWindow == dedupeWindow
    {
      this.limit, this.window, this.dedupeWindow := limit, window, dedupeWindow;
      rateRows, dedupeRows, calls, submissions := map[], map[], [], [];
    }

    /** `check_rate_limit`: when the store does not answer, the call is let through and leaves no trace. */
    method CheckRateLimit(clientIp: string, now: int, answers: bool) returns (ok: bool)
      requires Valid()
      modifies this
      ensures Valid() && submissions == old(submissions) && dedupeRows == old(dedupeRows)
      ensures answers ==> calls == old(calls) + [Call(clientIp, now)]
      ensures answers ==> (ok <==> Accepts(old(calls), Call(clientIp, now), limit, window))
      ensures !answers ==> ok && calls == old(calls) && rateRows == old(rateRows)
    {
      if !answers {
        return true;
      }
      ghost var earlier := Row(rateRows, clientIp);
      assert earlier == RowAfter(calls, clientIp, window);
      var row := if clientIp in rateRows && rateRows[clientIp].expiresAt > now
                 then RateRow(rateRows[clientIp].count + 1, rateRows[clientIp].expiresAt)
                 else RateRow(1, now + window);
      assert row == Bump(earlier, now, window);
      RowsMatchSnoc(rateRows, calls, Call(clientIp, now), window);
      rateRows := rateRows[clientIp := row];
      calls := calls + [Call(clientIp, now)];
      ok := row.count <= limit;
    }

    /** `check_duplicate`: likewise. */
    method CheckDuplicate(fingerprint: string, now: int, answers: bool) returns (ok: bool)
      requires Valid()
      modifies this
      ensures Valid() && calls == old(calls) && rateRows == old(rateRows)
      ensures answers ==> submissions == old(submissions) + [Call(fingerprint, now)]
      ensures answers ==> (ok <==> Claim(HeldUntil(old(submissions), fingerprint, dedupeWindow), now, dedupeWindow).Some?)
      ensures !answers ==> ok && submissions == old(submissions) && dedupeRows == old(dedupeRows)
    {
      if !answers {
        return true;
      }
      assert Row(dedupeRows, fingerprint) == HeldUntil(submissions, fingerprint, dedupeWindow);
      ok := !(fingerprint in dedupeRows && dedupeRows[fingerprint] > now);
      HoldsMatchSnoc(dedupeRows, submissions, Call(fingerprint, now), dedupeWindow);
      if ok {
        dedupeRows := dedupeRows[fingerprint := now + dedupeWindow];
      }
      submissions := submissions + [Call(fingerprint, now)];
    }
  }
}
