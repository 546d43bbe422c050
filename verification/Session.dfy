/**
 Gateway sessions over the in-memory stores (api-gateway-service/src/session.rs).
 `ValidateSession` follows the service branch by branch; what it decides is the
 short rule `Verdict`, taken over the whole history of issues and requests.
 */
module Session {
  import opened Wrappers
  import opened Text
  import opened CsrfProof

  /** `SessionRecord` and `StoredCsrfRecord`. */
  datatype Record = Record(nonce: string, expiresAt: int, proof: Option<string>)

  datatype Snapshot = Snapshot(sessionId: string, nonce: string, csrfProof: string, expiresAt: int)

  /** A request as `validate_session` sees it; safe methods are GET, HEAD and OPTIONS. */
  datatype Request = Request(cookie: Option<string>, token: Option<string>, proof: Option<string>, safe: bool)

  /**
   What happened, and when: a request reads the clock to look its session up, again
   to check the expiry, and again to renew it. `fallback` is the expiry of the CSRF
   record found in place of a session record that is stored without a nonce.
   */
  datatype Event =
    | Issued(sessionId: string, at: int)
    | Handled(request: Request, now: int, checked: int, renewed: int, fallback: Option<int>, accepted: bool)

  // ----- The rule -----

  function ProofOf(mac: string -> seq<Byte>, r: Request): Option<Verified> {
    match r.proof case Some(p) => Verify(mac, p) case None => None
  }

  predicate TokenAgrees(r: Request, nonce: string) {
    r.token.None? || r.token.value == nonce
  }

  /** Until when the session lives: its last issue or accepted request, plus the lifetime. */
  function Deadline(ttl: nat, run: seq<Event>, sessionId: string): Option<int> {
    if run == [] then None
    else
      var earlier := Deadline(ttl, run[..|run| - 1], sessionId);
      match run[|run| - 1]
      case Issued(id, at) => if id == sessionId then Some(at + ttl) else earlier
      case Handled(r, _, _, renewed, _, accepted) =>
        if accepted && r.cookie == Some(sessionId) then Some(renewed + ttl) else earlier
  }

  /** The expiry a request without a verified proof is held to; one of zero or less counts as none. */
  function HeldTo(deadline: int, fallback: Option<int>): Option<int> {
    if fallback.Some? then fallback else if deadline > 0 then Some(deadline) else None
  }

  /** The status, 200 when accepted, of a request without a verified proof whose session was found alive. */
  function HeldStatus(deadline: int, r: Request, checked: int, fallback: Option<int>): int {
    var expiry := HeldTo(deadline, fallback);
    if expiry.None? || checked > expiry.value then 401 else if r.safe then 200 else 403
  }

  /** The status of any request whose session was found alive. */
  function LiveStatus(mac: string -> seq<Byte>, deadline: int, r: Request, checked: int, fallback: Option<int>): int {
    match ProofOf(mac, r)
    case Some(v) => if TokenAgrees(r, v.nonce) then 200 else 403
    case None => HeldStatus(deadline, r, checked, fallback)
  }

  /** The status of a request, against its session's deadline. */
  function StatusBy(mac: string -> seq<Byte>, deadline: Option<int>, r: Request, now: int, checked: int,
                    fallback: Option<int>): int
  {
    if r.cookie.None? || deadline.None? || now > deadline.value then 401
    else LiveStatus(mac, deadline.value, r, checked, fallback)
  }

  /** Whether a request's session was found alive when it was looked up. */
  predicate FoundAlive(deadline: Option<int>, r: Request, now: int) {
    r.cookie.Some? && deadline.Some? && now <= deadline.value
  }

  /** Whether a request without a verified proof has outlived what it is held to. */
  predicate Outlived(deadline: int, checked: int, fallback: Option<int>) {
    match fallback
    case Some(expiresAt) => checked > expiresAt
    case None => deadline <= 0 || checked > deadline
  }

  /**
   401 says that there is no live session; 403 that there is one, and that the
   request shows the wrong token for its proof, or lacks a proof it needs.
   */
  lemma StatusMeans(mac: string -> seq<Byte>, deadline: Option<int>, r: Request, now: int, checked: int, fallback: Option<int>)
    ensures var status := StatusBy(mac, deadline, r, now, checked, fallback);
            var alive, verified := FoundAlive(deadline, r, now), ProofOf(mac, r).Some?;
            && (status == 401 <==> !alive || (!verified && Outlived(deadline.value, checked, fallback)))
            && (status == 403 <==>
                  alive && if verified then r.token.Some? && r.token != Some(ProofOf(mac, r).value.nonce)
                           else !Outlived(deadline.value, checked, fallback) && !r.safe)
            && (status == 200 || status == 401 || status == 403)
  {
  }

  // ----- Sliding expiry over a run -----

  function TouchTime(e: Event, sessionId: string): Option<int> {
    match e
    case Issued(id, at) => if id == sessionId then Some(at) else None
    case Handled(r, _, _, renewed, _, accepted) => if accepted && r.cookie == Some(sessionId) then Some(renewed) else None
  }

  /** The deadline is the lifetime after the last event that touched the session, if any did. */
  lemma {:induction false} DeadlineIsLastTouch(ttl: nat, run: seq<Event>, sessionId: string)
    ensures Deadline(ttl, run, sessionId).None? <==> forall i :: 0 <= i < |run| ==> TouchTime(run[i], sessionId).None?
    ensures Deadline(ttl, run, sessionId).Some? ==>
              exists i :: 0 <= i < |run|
                && TouchTime(run[i], sessionId) == Some(Deadline(ttl, run, sessionId).value - ttl)
                && forall j :: i < j < |run| ==> TouchTime(run[j], sessionId).None?
  {
    if run != [] {
      var n := |run| - 1;
      DeadlineIsLastTouch(ttl, run[..n], sessionId);
      if TouchTime(run[n], sessionId).Some? {
        assert TouchTime(run[n], sessionId) == Some(Deadline(ttl, run, sessionId).value - ttl);
      } else if Deadline(ttl, run, sessionId).Some? {
        var i :| 0 <= i < n && TouchTime(run[..n][i], sessionId) == Some(Deadline(ttl, run, sessionId).value - ttl)
                 && forall j :: i < j < n ==> TouchTime(run[..n][j], sessionId).None?;
        forall j | i < j < |run| ensures TouchTime(run[j], sessionId).None? {
          assert j < n ==> run[..n][j] == run[j];
        }
        assert TouchTime(run[i], sessionId) == Some(Deadline(ttl, run, sessionId).value - ttl);
      } else {
        forall i | 0 <= i < |run| ensures TouchTime(run[i], sessionId).None? {
          assert i < n ==> run[..n][i] == run[i];
        }
      }
    }
  }

  /** The deadline of the session a request names. */
  function Expiry(ttl: nat, run: seq<Event>, r: Request): Option<int> {
    match r.cookie case Some(id) => Deadline(ttl, run, id) case None => None
  }

  // ----- The rule over whole runs -----

  /** The request was treated by the rule, as the history stood when it came. */
  ghost predicate RuledAt(mac: string -> seq<Byte>, ttl: nat, earlier: seq<Event>, e: Event) {
    e.Handled? ==>
      && e.now <= e.checked <= e.renewed
      && (e.accepted <==> StatusBy(mac, Expiry(ttl, earlier, e.request), e.request, e.now, e.checked, e.fallback) == 200)
  }

  ghost predicate Ruled(mac: string -> seq<Byte>, ttl: nat, run: seq<Event>) {
    forall i :: 0 <= i < |run| ==> RuledAt(mac, ttl, run[..i], run[i])
  }

  lemma RuledSnoc(mac: string -> seq<Byte>, ttl: nat, run: seq<Event>, e: Event)
    requires Ruled(mac, ttl, run) && RuledAt(mac, ttl, run, e)
    ensures Ruled(mac, ttl, run + [e])
  {
    var all := run + [e];
    forall i | 0 <= i < |all| ensures RuledAt(mac, ttl, all[..i], all[i]) {
      assert all[..i] == if i < |run| then run[..i] else run;
    }
  }

  /** Event `i` was the last to touch the session before event `n`. */
  predicate LastTouch(run: seq<Event>, sessionId: string, i: nat, n: nat)
    requires n <= |run|
  {
    i < n && TouchTime(run[i], sessionId).Some? && forall j :: i < j < n ==> TouchTime(run[j], sessionId).None?
  }

  /** The session had been touched, and `now` is within its lifetime since. */
  ghost predicate LiveAt(ttl: nat, run: seq<Event>, sessionId: string, n: nat, now: int)
    requires n <= |run|
  {
    exists i :: 0 <= i < n && LastTouch(run, sessionId, i, n) && now <= TouchTime(run[i], sessionId).value + ttl
  }

  lemma LiveByDeadline(ttl: nat, run: seq<Event>, sessionId: string, n: nat, now: int)
    requires n <= |run|
    ensures LiveAt(ttl, run, sessionId, n, now)
            <==> var d := Deadline(ttl, run[..n], sessionId); d.Some? && now <= d.value
  {
    var d := Deadline(ttl, run[..n], sessionId);
    DeadlineIsLastTouch(ttl, run[..n], sessionId);
    if d.Some? {
      var i :| 0 <= i < n && TouchTime(run[..n][i], sessionId) == Some(d.value - ttl)
               && forall j :: i < j < n ==> TouchTime(run[..n][j], sessionId).None?;
      forall j | i < j < n ensures TouchTime(run[j], sessionId).None? {
        assert run[..n][j] == run[j];
      }
      assert LastTouch(run, sessionId, i, n);
      forall k | 0 <= k < n && LastTouch(run, sessionId, k, n) ensures k == i {
      }
    } else {
      forall k | 0 <= k < n ensures !LastTouch(run, sessionId, k, n) {
        assert run[..n][k] == run[k];
      }
    }
  }

  /** The proof of the request verifies, and its token is absent or the proof's nonce. */
  predicate ShowsProof(mac: string -> seq<Byte>, r: Request) {
    ProofOf(mac, r).Some? && TokenAgrees(r, ProofOf(mac, r).value.nonce)
  }

  /**
   Over every run, a request by an unsafe method is accepted exactly when its session
   lives and it shows a proof: the late check of the service lets none through.
   */
  lemma UnsafeAcceptedExactly(mac: string -> seq<Byte>, ttl: nat, run: seq<Event>, n: nat)
    requires Ruled(mac, ttl, run) && n < |run| && run[n].Handled? && !run[n].request.safe
    ensures var r := run[n].request;
            run[n].accepted
            <==> r.cookie.Some? && LiveAt(ttl, run, r.cookie.value, n, run[n].now) && ShowsProof(mac, r)
  {
    assert RuledAt(mac, ttl, run[..n], run[n]);
    if run[n].request.cookie.Some? {
      LiveByDeadline(ttl, run, run[n].request.cookie.value, n, run[n].now);
    }
  }

  /**
   Over every run, an accepted request by an unsafe method carries the MAC: the
   fourth field of its proof is the MAC of its nonce and expiry in hexadecimal, and
   its token, if it has one, is that nonce.
   */
  lemma AcceptedCarriesMac(mac: string -> seq<Byte>, ttl: nat, run: seq<Event>, n: nat)
    requires Ruled(mac, ttl, run) && n < |run| && run[n].Handled? && !run[n].request.safe && run[n].accepted
    ensures run[n].request.proof.Some? && Signed(mac, run[n].request.proof.value)
    ensures run[n].request.token.Some? ==> run[n].request.token.value == Split(run[n].request.proof.value, '.')[2]
  {
    UnsafeAcceptedExactly(mac, ttl, run, n);
    AcceptedIsSigned(mac, run[n].request.proof.value);
  }

  /** For a safe request without a verified proof: what it is held to has not passed at the second clock reading. */
  ghost predicate StillHeld(ttl: nat, run: seq<Event>, n: nat, e: Event)
    requires n <= |run| && e.Handled? && e.request.cookie.Some?
  {
    match e.fallback
    case Some(expiresAt) => e.checked <= expiresAt
    case None => LiveAt(ttl, run, e.request.cookie.value, n, if e.checked > 0 then e.checked else 1)
  }

  /**
   Over every run, a request by a safe method is accepted exactly when its session
   lives and either it shows a proof, or no proof of it verifies and its session
   still lives at the second clock reading, that being past the epoch.
   */
  lemma SafeAcceptedExactly(mac: string -> seq<Byte>, ttl: nat, run: seq<Event>, n: nat)
    requires Ruled(mac, ttl, run) && n < |run| && run[n].Handled? && run[n].request.safe
    ensures var e := run[n];
            e.accepted
            <==> && e.request.cookie.Some? && LiveAt(ttl, run, e.request.cookie.value, n, e.now)
                 && (if ProofOf(mac, e.request).Some? then ShowsProof(mac, e.request) else StillHeld(ttl, run, n, e))
  {
    var e := run[n];
    assert RuledAt(mac, ttl, run[..n], e);
    if e.request.cookie.Some? {
      LiveByDeadline(ttl, run, e.request.cookie.value, n, e.now);
      LiveByDeadline(ttl, run, e.request.cookie.value, n, if e.checked > 0 then e.checked else 1);
    }
  }

  // ----- Stored records -----

  function Unexpired(records: map<string, Record>, key: Option<string>, now: int): Option<Record> {
    if key.Some? && key.value in records && now <= records[key.value].expiresAt then Some(records[key.value]) else None
  }

  /** The proofs left when a record found by token has expired: it takes its proof along. */
  function ProofsLeft(tokens: map<string, Record>, proofs: map<string, Record>, token: Option<string>, now: int)
    : map<string, Record>
  {
    if token.Some? && token.value in tokens && now > tokens[token.value].expiresAt && tokens[token.value].proof.Some?
    then proofs - {tokens[token.value].proof.value} else proofs
  }

  /** The CSRF record a request without a nonce of its own falls back on: by token, else by proof. */
  function FoundFor(tokens: map<string, Record>, proofs: map<string, Record>, r: Request, now: int): Option<Record> {
    match Unexpired(tokens, r.token, now)
    case Some(rec) => Some(rec)
    case None => Unexpired(ProofsLeft(tokens, proofs, r.token, now), r.proof, now)
  }

  /** The expiry that stands in for that of a record stored without a nonce. */
  function FallbackOf(rec: Record, tokens: map<string, Record>, proofs: map<string, Record>, r: Request, now: int)
    : Option<int>
  {
    if rec.nonce != "" then None else ExpiryOf(FoundFor(tokens, proofs, r, now))
  }

  function Fallback(sessions: map<string, Record>, tokens: map<string, Record>, proofs: map<string, Record>, r: Request,
                    now: int): Option<int>
  {
    if r.cookie.Some? && r.cookie.value in sessions then FallbackOf(sessions[r.cookie.value], tokens, proofs, r, now)
    else None
  }

  function ExpiryOf(rec: Option<Record>): Option<int> {
    match rec case Some(v) => Some(v.expiresAt) case None => None
  }

  /** The proof kept with a record vouches for its nonce. */
  ghost predicate Vouched(mac: string -> seq<Byte>, rec: Record) {
    rec.proof.Some? && Verify(mac, rec.proof.value).Some? && Verify(mac, rec.proof.value).value.nonce == rec.nonce
  }

  ghost predicate AllVouched(mac: string -> seq<Byte>, records: map<string, Record>) {
    forall key :: key in records ==> Vouched(mac, records[key])
  }

  /** A stored session has the deadline of the history; a missing one has none, or has outlived it. */
  ghost predicate Tracks(ttl: nat, run: seq<Event>, sessions: map<string, Record>, now: int) {
    forall id ::
      if id in sessions then Deadline(ttl, run, id) == Some(sessions[id].expiresAt)
      else Deadline(ttl, run, id).Some? ==> Deadline(ttl, run, id).value < now
  }

  lemma TracksLater(ttl: nat, run: seq<Event>, sessions: map<string, Record>, now: int, later: int, e: Event)
    requires Tracks(ttl, run, sessions, now) && now <= later
    requires forall id :: TouchTime(e, id).None?
    ensures Tracks(ttl, run + [e], sessions, later)
  {
    forall id ensures Deadline(ttl, run + [e], id) == Deadline(ttl, run, id) {
      DeadlineSnoc(ttl, run, e, id);
      assert TouchTime(e, id).None?;
    }
  }

  lemma TracksRemoval(ttl: nat, run: seq<Event>, sessions: map<string, Record>, now: int, later: int, id: string)
    requires Tracks(ttl, run, sessions, now) && now <= later
    requires id in sessions && later > sessions[id].expiresAt
    ensures Tracks(ttl, run, sessions - {id}, later)
  {
  }

  lemma TracksTouch(ttl: nat, run: seq<Event>, sessions: map<string, Record>, now: int, later: int, e: Event,
                    id: string, rec: Record)
    requires Tracks(ttl, run, sessions, now) && now <= later
    requires forall other :: TouchTime(e, other) == if other == id then Some(rec.expiresAt - ttl) else None
    ensures Tracks(ttl, run + [e], sessions[id := rec], later)
  {
    forall other ensures Deadline(ttl, run + [e], other) == if other == id then Some(rec.expiresAt) else Deadline(ttl, run, other) {
      DeadlineSnoc(ttl, run, e, other);
      assert TouchTime(e, other) == if other == id then Some(rec.expiresAt - ttl) else None;
    }
  }

  lemma DeadlineSnoc(ttl: nat, run: seq<Event>, e: Event, id: string)
    ensures Deadline(ttl, run + [e], id)
            == match TouchTime(e, id) case Some(at) => Some(at + ttl) case None => Deadline(ttl, run, id)
  {
    assert (run + [e])[..|run|] == run;
  }

  lemma VerifiedNonceHasNoDot(mac: string -> seq<Byte>, proof: string)
    requires Verify(mac, proof).Some?
    ensures '.' !in Verify(mac, proof).value.nonce
  {
    assert Split(proof, '.')[2] in Split(proof, '.');
  }

  lemma BuiltVouches(mac: string -> seq<Byte>, nonce: string, expiresAt: int)
    requires '.' !in nonce && expiresAt <= I64_MAX
    ensures Vouched(mac, Record(nonce, expiresAt, Some(Build(mac, nonce, expiresAt))))
  {
    RoundTripExactly(mac, nonce, expiresAt);
  }

  datatype Reply = Accepted(snapshot: Snapshot) | Refused(status: int)

  function StatusOf(reply: Reply): int {
    match reply case Accepted(_) => 200 case Refused(status) => status
  }

  // ----- The session manager -----

  class SessionManager {
    const mac: string -> seq<Byte>
    const ttl: nat
    /** `MemorySessionStore`. */
    var sessions: map<string, Record>
    /** `MemoryCsrfStore`: the same records by token and by proof. */
    var tokens: map<string, Record>
    var proofs: map<string, Record>
    ghost var run: seq<Event>
    ghost var clock: int

    /** The stores are what the history made of them. */
    ghost predicate Tracked()
      reads this
    {
      && AllVouched(mac, sessions) && AllVouched(mac, tokens) && AllVouched(mac, proofs)
      && Tracks(ttl, run, sessions, clock)
    }

    /** And every request of the history was treated by the rule. */
    ghost predicate Valid()
      reads this
    {
      Tracked() && Ruled(mac, ttl, run)
    }

    constructor (mac: string -> seq<Byte>, ttl: nat)
      ensures Valid() && run == [] && clock == 0 && this.mac == mac && this.ttl == ttl
    {
      this.mac, this.ttl := mac, ttl;
      sessions, tokens, proofs, run, clock := map[], map[], map[], [], 0;
    }

    /** `persist_session`. */
    method PersistSession(id: string, rec: Record)
      requires Vouched(mac, rec) && AllVouched(mac, tokens) && AllVouched(mac, proofs)
      modifies `sessions, `tokens, `proofs
      ensures sessions == old(sessions)[id := rec] && tokens == old(tokens)[rec.nonce := rec]
      ensures proofs == if rec.proof.Some? then old(proofs)[rec.proof.value := rec] else old(proofs)
      ensures AllVouched(mac, tokens) && AllVouched(mac, proofs)
    {
      sessions := sessions[id := rec];
      tokens := tokens[rec.nonce := rec];
      if rec.proof.Some? {
        proofs := proofs[rec.proof.value := rec];
      }
    }

    /** `issue_session`, given the random identifiers it draws. */
    method IssueSession(id: string, nonce: string, now: int) returns (r: Snapshot)
      requires Valid() && clock <= now && '.' !in nonce && now + ttl <= I64_MAX
      modifies this
      ensures Valid() && clock == now && run == old(run) + [Issued(id, now)]
      ensures r.sessionId == id && r.nonce == nonce && r.expiresAt == now + ttl && Usable(mac, r)
      ensures sessions == old(sessions)[id := Record(nonce, now + ttl, Some(r.csrfProof))]
    {
      var expiresAt := now + ttl;
      var proof := Build(mac, nonce, expiresAt);
      BuiltVouches(mac, nonce, expiresAt);
      var rec := Record(nonce, expiresAt, Some(proof));
      TracksTouch(ttl, run, sessions, clock, now, Issued(id, now), id, rec);
      RuledSnoc(mac, ttl, run, Issued(id, now));
      PersistSession(id, rec);
      run, clock := run + [Issued(id, now)], now;
      r := Snapshot(id, nonce, proof, expiresAt);
    }

    /** `SessionStore::get`: an expired record is removed on sight. */
    method GetSession(id: string, now: int) returns (r: Option<Record>)
      modifies `sessions
      ensures sessions == if id in old(sessions) && now > old(sessions)[id].expiresAt then old(sessions) - {id} else old(sessions)
      ensures r == if id in sessions then Some(sessions[id]) else None
    {
      if id in sessions && now > sessions[id].expiresAt {
        sessions := sessions - {id};
      }
      r := if id in sessions then Some(sessions[id]) else None;
    }

    /** `CsrfStore::load_by_token`. */
    method LoadByToken(token: string, now: int) returns (r: Option<Record>)
      requires AllVouched(mac, tokens) && AllVouched(mac, proofs)
      modifies `tokens, `proofs
      ensures AllVouched(mac, tokens) && AllVouched(mac, proofs)
      ensures r == Unexpired(old(tokens), Some(token), now) && (r.Some? ==> Vouched(mac, r.value))
      ensures tokens == (if r.None? then old(tokens) - {token} else old(tokens))
      ensures proofs == ProofsLeft(old(tokens), old(proofs), Some(token), now)
    {
      if token !in tokens {
        return None;
      }
      var rec := tokens[token];
      if now > rec.expiresAt {
        tokens := tokens - {token};
        if rec.proof.Some? {
          proofs := proofs - {rec.proof.value};
        }
        return None;
      }
      r := Some(rec);
    }

    /** `CsrfStore::load_by_proof`. */
    method LoadByProof(proof: string, now: int) returns (r: Option<Record>)
      requires AllVouched(mac, tokens) && AllVouched(mac, proofs)
      modifies `tokens, `proofs
      ensures AllVouched(mac, tokens) && AllVouched(mac, proofs)
      ensures r == Unexpired(old(proofs), Some(proof), now) && (r.Some? ==> Vouched(mac, r.value))
      ensures proofs == (if r.None? then old(proofs) - {proof} else old(proofs))
    {
      if proof !in proofs {
        return None;
      }
      var rec := proofs[proof];
      if now > rec.expiresAt {
        proofs := proofs - {proof};
        tokens := tokens - {rec.nonce};
        return None;
      }
      r := Some(rec);
    }

    /** `CsrfStore::delete`. */
    method DeleteCsrf(token: Option<string>, proof: Option<string>)
      requires AllVouched(mac, tokens) && AllVouched(mac, proofs)
      modifies `tokens, `proofs
      ensures AllVouched(mac, tokens) && AllVouched(mac, proofs)
      ensures tokens == old(tokens) - (if token.Some? then {token.value} else {})
      ensures proofs == old(proofs) - (if proof.Some? then {proof.value} else {})
    {
      if token.Some? {
        tokens := tokens - {token.value};
      }
      if proof.Some? {
        proofs := proofs - {proof.value};
      }
    }

    /** What counts when no proof verifies: the session's record, or one the CSRF store still knows. */
    method Consult(rec: Record, r: Request, now: int, ghost fallback: Option<int>)
      returns (nonce: Option<string>, proof: Option<string>, expiresAt: Option<int>)
      requires AllVouched(mac, tokens) && AllVouched(mac, proofs) && Vouched(mac, rec)
      requires fallback == FallbackOf(rec, tokens, proofs, r, now)
      modifies `tokens, `proofs
      ensures AllVouched(mac, tokens) && AllVouched(mac, proofs)
      ensures Vouched(mac, Record(match nonce case Some(n) => n case None => rec.nonce, 0, proof))
      ensures expiresAt == HeldTo(rec.expiresAt, fallback)
    {
      nonce := if rec.nonce == "" then None else Some(rec.nonce);
      expiresAt := if rec.expiresAt > 0 then Some(rec.expiresAt) else None;
      proof := rec.proof;
      if nonce.None? && r.token.Some? {
        var found := LoadByToken(r.token.value, now);
        if found.Some? {
          nonce, proof, expiresAt := Some(found.value.nonce), found.value.proof, Some(found.value.expiresAt);
        }
      }
      if nonce.None? && r.proof.Some? {
        var found := LoadByProof(r.proof.value, now);
        if found.Some? {
          nonce, proof, expiresAt := Some(found.value.nonce), found.value.proof, Some(found.value.expiresAt);
        }
      }
    }

    /** The CSRF check behind the expiry check: what passes it carries a proof that verifies. */
    method LateCheck(r: Request, nonce: Option<string>) returns (ok: bool)
      ensures ok ==> ProofOf(mac, r).Some?
      ensures ok <==> r.token.Some? && nonce == r.token && ProofOf(mac, r).Some? && nonce == Some(ProofOf(mac, r).value.nonce)
    {
      if r.token.None? || r.proof.None? || nonce.None? {
        return false;
      }
      if r.token.value != nonce.value {
        return false;
      }
      var verified := Verify(mac, r.proof.value);
      ok := verified.Some? && verified.value.nonce == nonce.value;
    }

    /** Renew the session and answer; every stored field is replaced. */
    method Accept(id: string, nonce: string, proof: string, r: Request, now: int, checked: int, renewed: int,
                  ghost fallback: Option<int>) returns (reply: Reply)
      requires Tracked() && r.cookie == Some(id) && clock <= renewed
      requires Vouched(mac, Record(nonce, renewed + ttl, Some(proof)))
      modifies this
      ensures Tracked() && clock == renewed && run == old(run) + [Handled(r, now, checked, renewed, fallback, true)]
      ensures reply == Accepted(Snapshot(id, nonce, proof, renewed + ttl))
      ensures sessions == old(sessions)[id := Record(nonce, renewed + ttl, Some(proof))]
    {
      var rec := Record(nonce, renewed + ttl, Some(proof));
      var e := Handled(r, now, checked, renewed, fallback, true);
      TracksTouch(ttl, run, sessions, clock, renewed, e, id, rec);
      PersistSession(id, rec);
      run, clock := run + [e], renewed;
      reply := Accepted(Snapshot(id, nonce, proof, renewed + ttl));
    }

    /** Refuse without touching the session. */
    method Refuse(status: int, r: Request, now: int, checked: int, renewed: int, ghost fallback: Option<int>)
      returns (reply: Reply)
      requires Tracked() && clock <= renewed
      modifies `run, `clock
      ensures Tracked() && clock == renewed && run == old(run) + [Handled(r, now, checked, renewed, fallback, false)]
      ensures reply == Refused(status)
    {
      ghost var e := Handled(r, now, checked, renewed, fallback, false);
      TracksLater(ttl, run, sessions, clock, renewed, e);
      run, clock := run + [e], renewed;
      reply := Refused(status);
    }

    /**
     `validate_session`: the request joins the history, treated by the rule, and an
     accepted one is handed a proof that vouches for the nonce it is handed.
     */
    method ValidateSession(r: Request, now: int, checked: int, renewed: int) returns (reply: Reply)
      requires Valid() && clock <= now <= checked <= renewed && renewed + ttl <= I64_MAX
      modifies this
      ensures Valid() && clock == renewed
      ensures var fallback := Fallback(old(sessions), old(tokens), old(proofs), r, checked);
              && run == old(run) + [Handled(r, now, checked, renewed, fallback, reply.Accepted?)]
              && StatusOf(reply) == StatusBy(mac, Expiry(ttl, old(run), r), r, now, checked, fallback)
      ensures HandsProof(mac, reply, r, renewed + ttl)
    {
      ghost var before, fallback := run, Fallback(sessions, tokens, proofs, r, checked);
      reply := Branches(r, now, checked, renewed, fallback);
      RuledSnoc(mac, ttl, before, Handled(r, now, checked, renewed, fallback, reply.Accepted?));
    }

    /** The branches of `validate_session`, in the order the service takes them. */
    method Branches(r: Request, now: int, checked: int, renewed: int, ghost fallback: Option<int>) returns (reply: Reply)
      requires Tracked() && clock <= now <= checked <= renewed && renewed + ttl <= I64_MAX
      requires fallback == Fallback(sessions, tokens, proofs, r, checked)
      modifies this
      ensures Tracked() && clock == renewed
      ensures run == old(run) + [Handled(r, now, checked, renewed, fallback, reply.Accepted?)]
      ensures StatusOf(reply) == StatusBy(mac, Expiry(ttl, old(run), r), r, now, checked, fallback)
      ensures StatusOf(reply) == 200 <==> reply.Accepted?
      ensures HandsProof(mac, reply, r, renewed + ttl)
    {
      if r.cookie.None? {
        reply := Refuse(401, r, now, checked, renewed, fallback);
        return;
      }
      var id := r.cookie.value;
      var found := LookUp(id, now);
      if found.None? {
        reply := Refuse(401, r, now, checked, renewed, fallback);
        return;
      }
      reply := ValidateLive(id, found.value, r, now, checked, renewed, fallback);
    }

    /** The rest of `validate_session`, for a session found alive. */
    method ValidateLive(id: string, rec: Record, r: Request, now: int, checked: int, renewed: int,
                        ghost fallback: Option<int>) returns (reply: Reply)
      requires Tracked() && clock == now <= checked <= renewed && renewed + ttl <= I64_MAX
      requires r.cookie == Some(id) && id in sessions && sessions[id] == rec
      requires fallback == FallbackOf(rec, tokens, proofs, r, checked)
      modifies this
      ensures Tracked() && clock == renewed
      ensures run == old(run) + [Handled(r, now, checked, renewed, fallback, reply.Accepted?)]
      ensures StatusOf(reply) == LiveStatus(mac, rec.expiresAt, r, checked, fallback)
      ensures StatusOf(reply) == 200 <==> reply.Accepted?
      ensures HandsProof(mac, reply, r, renewed + ttl)
    {
      if r.proof.Some? {
        var verified := Verify(mac, r.proof.value);
        if verified.Some? {
          reply := ValidateVerified(id, verified.value.nonce, r, now, checked, renewed, fallback);
          return;
        }
      }
      reply := ValidateUnverified(id, rec, r, now, checked, renewed, fallback);
    }

    /** The early exit of `validate_session`, for a request whose proof verifies. */
    method ValidateVerified(id: string, nonce: string, r: Request, now: int, checked: int, renewed: int,
                            ghost fallback: Option<int>) returns (reply: Reply)
      requires Tracked() && clock <= renewed && renewed + ttl <= I64_MAX
      requires r.cookie == Some(id) && ProofOf(mac, r).Some? && ProofOf(mac, r).value.nonce == nonce
      modifies this
      ensures Tracked() && clock == renewed
      ensures run == old(run) + [Handled(r, now, checked, renewed, fallback, reply.Accepted?)]
      ensures StatusOf(reply) == if TokenAgrees(r, nonce) then 200 else 403
      ensures StatusOf(reply) == 200 <==> reply.Accepted?
      ensures HandsProof(mac, reply, r, renewed + ttl)
    {
      if r.token.Some? && r.token.value != nonce {
        reply := Refuse(403, r, now, checked, renewed, fallback);
        return;
      }
      VerifiedNonceHasNoDot(mac, r.proof.value);
      BuiltVouches(mac, nonce, renewed + ttl);
      reply := Accept(id, nonce, Build(mac, nonce, renewed + ttl), r, now, checked, renewed, fallback);
    }

    /** The rest of `validate_session`, for a live session whose request carries no proof that verifies. */
    method ValidateUnverified(id: string, rec: Record, r: Request, now: int, checked: int, renewed: int,
                            ghost fallback: Option<int>) returns (reply: Reply)
      requires Tracked() && clock == now <= checked <= renewed && renewed + ttl <= I64_MAX
      requires r.cookie == Some(id) && id in sessions && sessions[id] == rec && ProofOf(mac, r).None?
      requires fallback == FallbackOf(rec, tokens, proofs, r, checked)
      modifies this
      ensures Tracked() && clock == renewed
      ensures run == old(run) + [Handled(r, now, checked, renewed, fallback, reply.Accepted?)]
      ensures StatusOf(reply) == HeldStatus(rec.expiresAt, r, checked, fallback)
      ensures StatusOf(reply) == 200 <==> reply.Accepted?
      ensures HandsProof(mac, reply, r, renewed + ttl)
    {
      var nonce, proof, expiresAt := Consult(rec, r, checked, fallback);
      if expiresAt.None? {
        reply := Refuse(401, r, now, checked, renewed, fallback);
        return;
      }
      if checked > expiresAt.value {
        reply := Expire(id, nonce, proof, r, now, checked, renewed, fallback);
        return;
      }
      reply := Conclude(id, nonce, match nonce case Some(n) => n case None => rec.nonce, proof, r, now, checked, renewed,
                        fallback);
    }

    /** The late CSRF check, which no unsafe request without a verified proof passes, and the renewal. */
    method Conclude(id: string, nonce: Option<string>, kept: string, proof: Option<string>, r: Request, now: int,
                    checked: int, renewed: int, ghost fallback: Option<int>) returns (reply: Reply)
      requires Tracked() && clock <= renewed && r.cookie == Some(id) && ProofOf(mac, r).None?
      requires Vouched(mac, Record(kept, 0, proof))
      modifies this
      ensures Tracked() && clock == renewed
      ensures run == old(run) + [Handled(r, now, checked, renewed, fallback, reply.Accepted?)]
      ensures StatusOf(reply) == if r.safe then 200 else 403
      ensures StatusOf(reply) == 200 <==> reply.Accepted?
      ensures HandsProof(mac, reply, r, renewed + ttl)
    {
      if !r.safe {
        var ok := LateCheck(r, nonce);
        if !ok {
          reply := Refuse(403, r, now, checked, renewed, fallback);
          return;
        }
      }
      reply := Accept(id, kept, proof.value, r, now, checked, renewed, fallback);
    }

    /** The session has run out since it was looked up: remove it with its CSRF records. */
    method Expire(id: string, nonce: Option<string>, proof: Option<string>, r: Request, now: int, checked: int,
                  renewed: int, ghost fallback: Option<int>) returns (reply: Reply)
      requires Tracked() && clock <= checked <= renewed && id in sessions && checked > sessions[id].expiresAt
      modifies this
      ensures Tracked() && clock == renewed
      ensures run == old(run) + [Handled(r, now, checked, renewed, fallback, false)]
      ensures reply == Refused(401)
    {
      TracksRemoval(ttl, run, sessions, clock, checked, id);
      sessions := sessions - {id};
      clock := checked;
      DeleteCsrf(nonce, proof);
      reply := Refuse(401, r, now, checked, renewed, fallback);
    }

    /** `SessionStore::get`, keeping the stores in step with the history. */
    method LookUp(id: string, now: int) returns (r: Option<Record>)
      requires Tracked() && clock <= now
      modifies `sessions, `clock
      ensures Tracked() && clock == now && run == old(run)
      ensures r.Some? <==> Deadline(ttl, run, id).Some? && now <= Deadline(ttl, run, id).value
      ensures r.Some? ==> id in sessions && sessions[id] == r.value && sessions == old(sessions)
      ensures r.Some? ==> Deadline(ttl, run, id).value == r.value.expiresAt
    {
      if id in sessions && now > sessions[id].expiresAt {
        TracksRemoval(ttl, run, sessions, clock, now, id);
      }
      r := GetSession(id, now);
      clock := now;
    }
  }

  /** An accepted request is handed its session's new expiry and a proof that vouches for the nonce it is handed. */
  ghost predicate HandsProof(mac: string -> seq<Byte>, reply: Reply, r: Request, expiresAt: int) {
    reply.Accepted? ==>
      && r.cookie == Some(reply.snapshot.sessionId) && reply.snapshot.expiresAt == expiresAt
      && Usable(mac, reply.snapshot)
  }

  /** The proof handed out vouches for the nonce handed out. */
  ghost predicate Usable(mac: string -> seq<Byte>, s: Snapshot) {
    Verify(mac, s.csrfProof).Some? && Verify(mac, s.csrfProof).value.nonce == s.nonce
  }

  /** A client that sends back what it was handed is accepted while its session lives, by any method. */
  lemma HandedProofWorks(mac: string -> seq<Byte>, ttl: nat, run: seq<Event>, n: nat, s: Snapshot)
    requires Ruled(mac, ttl, run) && n < |run| && run[n].Handled? && Usable(mac, s)
    requires run[n].request.(safe := true) == Request(Some(s.sessionId), Some(s.nonce), Some(s.csrfProof), true)
    requires LiveAt(ttl, run, s.sessionId, n, run[n].now)
    ensures run[n].accepted
  {
    assert RuledAt(mac, ttl, run[..n], run[n]);
    LiveByDeadline(ttl, run, s.sessionId, n, run[n].now);
  }
}
