/**
 The gateway's bounded in-memory cache (api-gateway-service/src/cache.rs): every
 access first drops expired entries and then evicts soonest-expiring ones until
 there is room. Which of several equally old entries goes is not determined.
 */
module GatewayCache {
  import opened Wrappers

  datatype Entry = Entry(value: string, expiresAt: int)

  type Store = map<string, Entry>

  /** One access; a `Set` reads the clock twice, for pruning and for the expiry. */
  datatype Op = Get(key: string, now: int) | Set(key: string, value: string, now: int, stored: int)

  // ----- One step -----

  function Live(s: Store, now: int): (r: Store)
    ensures forall k :: k in r <==> k in s && s[k].expiresAt > now
    ensures forall k :: k in r ==> r[k] == s[k]
  {
    map k | k in s && s[k].expiresAt > now :: s[k]
  }

  /** `r` is what may remain of `s`: live entries, room for one more, and no evicted entry outlasting a kept one. */
  ghost predicate Pruned(s: Store, now: int, maxEntries: nat, r: Store) {
    && r.Keys <= Live(s, now).Keys
    && (forall k :: k in r ==> r[k] == s[k])
    && (forall k, j :: k in r && j in Live(s, now) && j !in r ==> s[j].expiresAt <= s[k].expiresAt)
    && |r| < maxEntries
    && (r != Live(s, now) ==> |r| == maxEntries - 1)
  }

  ghost predicate Step(maxEntries: nat, ttl: nat, s: Store, op: Op, r: Store) {
    match op
    case Get(_, now) => Pruned(s, now, maxEntries, r)
    case Set(key, value, now, stored) =>
      exists p :: Pruned(s, now, maxEntries, p) && r == p[key := Entry(value, stored + ttl)]
  }

  // ----- The last write of a key -----

  datatype Write = Write(value: string, at: int)

  /** The last `Set` of the key, whatever the cache has kept. */
  function LastWrite(ops: seq<Op>, key: string): Option<Write> {
    if ops == [] then None
    else
      match ops[|ops| - 1]
      case Get(_, _) => LastWrite(ops[..|ops| - 1], key)
      case Set(k, value, _, stored) => if k == key then Some(Write(value, stored)) else LastWrite(ops[..|ops| - 1], key)
  }

  function Written(ops: seq<Op>): set<string> {
    if ops == [] then {}
    else Written(ops[..|ops| - 1]) + (match ops[|ops| - 1] case Get(_, _) => {} case Set(k, _, _, _) => {k})
  }

  lemma {:induction false} WrittenExact(ops: seq<Op>, key: string)
    ensures key in Written(ops) <==> LastWrite(ops, key).Some?
  {
    if ops != [] {
      WrittenExact(ops[..|ops| - 1], key);
    }
  }

  predicate IsLive(ops: seq<Op>, key: string, now: int, ttl: nat) {
    LastWrite(ops, key).Some? && LastWrite(ops, key).value.at + ttl > now
  }

  /** Other live keys whose last write is not before that of `key`. */
  function Rivals(ops: seq<Op>, key: string, now: int, ttl: nat): set<string> {
    set k | k in Written(ops) && k != key && IsLive(ops, k, now, ttl)
            && LastWrite(ops, key).Some? && LastWrite(ops, k).Some?
            && LastWrite(ops, k).value.at >= LastWrite(ops, key).value.at
  }

  /** Other live keys written strictly later than `key`. */
  function LaterRivals(ops: seq<Op>, key: string, now: int, ttl: nat): set<string> {
    set k | k in Written(ops) && k != key && IsLive(ops, k, now, ttl)
            && LastWrite(ops, key).Some? && LastWrite(ops, k).Some?
            && LastWrite(ops, k).value.at > LastWrite(ops, key).value.at
  }

  // ----- Runs -----

  function Start(op: Op): int {
    op.now
  }

  function End(op: Op): int {
    match op case Get(_, now) => now case Set(_, _, _, stored) => stored
  }

  /** The clock never goes back, neither between accesses nor within one. */
  ghost predicate MonotoneClock(ops: seq<Op>) {
    && (forall i :: 0 <= i < |ops| ==> Start(ops[i]) <= End(ops[i]))
    && (forall i, j :: 0 <= i < j < |ops| ==> End(ops[i]) <= Start(ops[j]))
  }

  ghost predicate Run(maxEntries: nat, ttl: nat, ops: seq<Op>, stores: seq<Store>) {
    && MonotoneClock(ops)
    && |stores| == |ops| + 1
    && stores[0] == map[]
    && forall i :: 0 <= i < |ops| ==> Step(maxEntries, ttl, stores[i], ops[i], stores[i + 1])
  }

  /** `now` is no earlier than anything in the run. */
  ghost predicate After(ops: seq<Op>, now: int) {
    forall i :: 0 <= i < |ops| ==> End(ops[i]) <= now
  }

  // ----- The invariant -----

  /** Entries are last writes. */
  ghost predicate HoldsLastWrites(ops: seq<Op>, ttl: nat, s: Store) {
    forall k :: k in s ==>
      LastWrite(ops, k).Some? && s[k] == Entry(LastWrite(ops, k).value.value, LastWrite(ops, k).value.at + ttl)
  }

  /** A live key that is missing has been displaced by enough rivals. */
  ghost predicate MissingWereDisplaced(maxEntries: nat, ops: seq<Op>, ttl: nat, s: Store, now: int) {
    forall k :: IsLive(ops, k, now, ttl) && k !in s ==> |Rivals(ops, k, now, ttl)| >= maxEntries - 1
  }

  /** Live keys written after a kept one are kept. */
  ghost predicate KeepsLater(ops: seq<Op>, ttl: nat, s: Store, now: int) {
    forall k, j :: k in s && IsLive(ops, j, now, ttl) && WrittenLater(ops, j, k) ==> j in s
  }

  predicate WrittenLater(ops: seq<Op>, j: string, k: string) {
    LastWrite(ops, j).Some? && LastWrite(ops, k).Some? && LastWrite(ops, j).value.at > LastWrite(ops, k).value.at
  }

  ghost predicate Inv(maxEntries: nat, ttl: nat, ops: seq<Op>, s: Store, now: int) {
    && HoldsLastWrites(ops, ttl, s)
    && MissingWereDisplaced(maxEntries, ops, ttl, s, now)
    && KeepsLater(ops, ttl, s, now)
    && |s| <= maxEntries
  }

  lemma LaterClock(maxEntries: nat, ttl: nat, ops: seq<Op>, s: Store, now: int, later: int)
    requires Inv(maxEntries, ttl, ops, s, now) && now <= later
    ensures Inv(maxEntries, ttl, ops, s, later)
  {
    forall k | IsLive(ops, k, later, ttl) && k !in s ensures |Rivals(ops, k, later, ttl)| >= maxEntries - 1 {
      assert IsLive(ops, k, now, ttl);
      assert Rivals(ops, k, later, ttl) == Rivals(ops, k, now, ttl);
    }
  }

  lemma SubsetSize(a: set<string>, b: set<string>)
    requires a <= b
    ensures |a| <= |b|
  {
    assert b == a + (b - a);
  }

  lemma PruneOk(maxEntries: nat, ttl: nat, ops: seq<Op>, s: Store, now: int, r: Store)
    requires Inv(maxEntries, ttl, ops, s, now) && Pruned(s, now, maxEntries, r)
    ensures Inv(maxEntries, ttl, ops, r, now) && |r| < maxEntries
  {
    forall k | IsLive(ops, k, now, ttl) && k !in r ensures |Rivals(ops, k, now, ttl)| >= maxEntries - 1 {
      if k in s {
        assert k in Live(s, now);
        forall j | j in r ensures j in Rivals(ops, k, now, ttl) {
          WrittenExact(ops, j);
        }
        SubsetSize(r.Keys, Rivals(ops, k, now, ttl));
      }
    }
    forall k, j | k in r && IsLive(ops, j, now, ttl) && WrittenLater(ops, j, k) ensures j in r {
      assert j in s && j in Live(s, now);
    }
  }

  lemma LastWriteSnoc(ops: seq<Op>, op: Op, key: string)
    ensures LastWrite(ops + [op], key)
            == if op.Set? && op.key == key then Some(Write(op.value, op.stored)) else LastWrite(ops, key)
  {
    assert (ops + [op])[..|ops|] == ops;
  }

  lemma {:induction false} WritesBefore(ops: seq<Op>, key: string, now: int)
    requires After(ops, now) && LastWrite(ops, key).Some?
    ensures LastWrite(ops, key).value.at <= now
  {
    var op := ops[|ops| - 1];
    assert End(op) <= now;
    if op.Get? || op.key != key {
      WritesBefore(ops[..|ops| - 1], key, now);
    }
  }

  lemma SetKeepsRivals(maxEntries: nat, ttl: nat, ops: seq<Op>, op: Op, k: string)
    requires op.Set? && After(ops, op.stored) && k != op.key && IsLive(ops, k, op.stored, ttl)
    ensures Rivals(ops, k, op.stored, ttl) <= Rivals(ops + [op], k, op.stored, ttl)
  {
    LastWriteSnoc(ops, op, k);
    WritesBefore(ops, k, op.stored);
    forall j | j in Rivals(ops, k, op.stored, ttl) ensures j in Rivals(ops + [op], k, op.stored, ttl) {
      LastWriteSnoc(ops, op, j);
      WrittenExact(ops + [op], j);
    }
  }

  lemma SetOk(maxEntries: nat, ttl: nat, ops: seq<Op>, op: Op, p: Store)
    requires op.Set? && After(ops, op.stored)
    requires Inv(maxEntries, ttl, ops, p, op.stored) && |p| < maxEntries
    ensures Inv(maxEntries, ttl, ops + [op], p[op.key := Entry(op.value, op.stored + ttl)], op.stored)
  {
    var s, all := p[op.key := Entry(op.value, op.stored + ttl)], ops + [op];
    assert s.Keys == p.Keys + {op.key};
    forall k ensures LastWrite(all, k) == if op.key == k then Some(Write(op.value, op.stored)) else LastWrite(ops, k) {
      LastWriteSnoc(ops, op, k);
    }
    forall k | IsLive(all, k, op.stored, ttl) && k !in s ensures |Rivals(all, k, op.stored, ttl)| >= maxEntries - 1 {
      assert IsLive(ops, k, op.stored, ttl) && k !in p;
      SetKeepsRivals(maxEntries, ttl, ops, op, k);
      SubsetSize(Rivals(ops, k, op.stored, ttl), Rivals(all, k, op.stored, ttl));
    }
    SetKeepsLater(ttl, ops, op, p);
  }

  lemma SetKeepsLater(ttl: nat, ops: seq<Op>, op: Op, p: Store)
    requires op.Set? && After(ops, op.stored) && KeepsLater(ops, ttl, p, op.stored)
    ensures KeepsLater(ops + [op], ttl, p[op.key := Entry(op.value, op.stored + ttl)], op.stored)
  {
    var s, all := p[op.key := Entry(op.value, op.stored + ttl)], ops + [op];
    forall k, j | k in s && IsLive(all, j, op.stored, ttl) && WrittenLater(all, j, k) ensures j in s {
      LastWriteSnoc(ops, op, j);
      LastWriteSnoc(ops, op, k);
      if j != op.key {
        WritesBefore(ops, j, op.stored);
        assert k != op.key && WrittenLater(ops, j, k) && IsLive(ops, j, op.stored, ttl);
      }
    }
  }

  lemma GetOk(maxEntries: nat, ttl: nat, ops: seq<Op>, op: Op, r: Store)
    requires op.Get? && Inv(maxEntries, ttl, ops, r, op.now)
    ensures Inv(maxEntries, ttl, ops + [op], r, op.now)
  {
    var all := ops + [op];
    assert all[..|ops|] == ops;
    forall k ensures LastWrite(all, k) == LastWrite(ops, k) {
      LastWriteSnoc(ops, op, k);
    }
    forall k ensures Rivals(all, k, op.now, ttl) == Rivals(ops, k, op.now, ttl) {
    }
    forall k, j | k in r && IsLive(all, j, op.now, ttl) && WrittenLater(all, j, k) ensures j in r {
      assert IsLive(ops, j, op.now, ttl) && WrittenLater(ops, j, k);
    }
  }

  lemma StepOk(maxEntries: nat, ttl: nat, ops: seq<Op>, s: Store, op: Op, r: Store)
    requires After(ops, Start(op)) && Start(op) <= End(op)
    requires Inv(maxEntries, ttl, ops, s, Start(op)) && Step(maxEntries, ttl, s, op, r)
    ensures Inv(maxEntries, ttl, ops + [op], r, End(op))
  {
    match op
    case Get(_, now) =>
      PruneOk(maxEntries, ttl, ops, s, now, r);
      GetOk(maxEntries, ttl, ops, op, r);
    case Set(key, value, now, stored) =>
      var p :| Pruned(s, now, maxEntries, p) && r == p[key := Entry(value, stored + ttl)];
      PruneOk(maxEntries, ttl, ops, s, now, p);
      LaterClock(maxEntries, ttl, ops, p, now, stored);
      SetOk(maxEntries, ttl, ops, op, p);
  }

  lemma {:induction false} RunOk(maxEntries: nat, ttl: nat, ops: seq<Op>, stores: seq<Store>, n: nat, now: int)
    requires Run(maxEntries, ttl, ops, stores) && n <= |ops| && After(ops[..n], now)
    ensures Inv(maxEntries, ttl, ops[..n], stores[n], now)
  {
    if n == 0 {
      assert ops[..0] == [];
    } else {
      var op := ops[n - 1];
      assert ops[..n] == ops[..n - 1] + [op];
      assert End(ops[..n][n - 1]) <= now;
      RunOk(maxEntries, ttl, ops, stores, n - 1, Start(op));
      assert Step(maxEntries, ttl, stores[n - 1], op, stores[n]);
      StepOk(maxEntries, ttl, ops[..n - 1], stores[n - 1], op, stores[n]);
      LaterClock(maxEntries, ttl, ops[..n], stores[n], End(op), now);
    }
  }

  // ----- What a lookup after any run finds -----

  lemma LaterRivalsAreKept(maxEntries: nat, ttl: nat, ops: seq<Op>, r: Store, key: string, now: int)
    requires KeepsLater(ops, ttl, r, now) && key in r && |r| < maxEntries
    ensures |LaterRivals(ops, key, now, ttl)| < maxEntries - 1
  {
    var later := LaterRivals(ops, key, now, ttl);
    forall j | j in later ensures j in r.Keys {
      assert WrittenLater(ops, j, key);
    }
    assert key in r.Keys && key !in later;
    SubsetSize(later + {key}, r.Keys);
  }

  /**
   The cache never exceeds its bound; a hit is the last value written, unexpired;
   a live key hits unless `maxEntries - 1` other live keys were written no earlier,
   and misses if that many were written strictly later.
   */
  lemma LookupGuarantee(maxEntries: nat, ttl: nat, ops: seq<Op>, stores: seq<Store>, key: string, now: int, r: Store)
    requires Run(maxEntries, ttl, ops, stores) && After(ops, now)
    requires Step(maxEntries, ttl, stores[|ops|], Get(key, now), r)
    ensures |stores[|ops|]| <= maxEntries && |r| < maxEntries
    ensures key in r ==> IsLive(ops, key, now, ttl) && r[key].value == LastWrite(ops, key).value.value
    ensures IsLive(ops, key, now, ttl) && |Rivals(ops, key, now, ttl)| < maxEntries - 1 ==> key in r
    ensures |LaterRivals(ops, key, now, ttl)| >= maxEntries - 1 ==> key !in r
  {
    assert ops[..|ops|] == ops;
    RunOk(maxEntries, ttl, ops, stores, |ops|, now);
    PruneOk(maxEntries, ttl, ops, stores[|ops|], now, r);
    if key in r {
      LaterRivalsAreKept(maxEntries, ttl, ops, r, key, now);
    }
  }

  /** With no two writes at one instant, a lookup hits exactly when fewer than `maxEntries - 1` rivals are live. */
  lemma LookupExactly(maxEntries: nat, ttl: nat, ops: seq<Op>, stores: seq<Store>, key: string, now: int, r: Store)
    requires Run(maxEntries, ttl, ops, stores) && After(ops, now)
    requires Step(maxEntries, ttl, stores[|ops|], Get(key, now), r)
    requires forall k, j :: k in Written(ops) && j in Written(ops) && k != j
                            && LastWrite(ops, k).Some? && LastWrite(ops, j).Some? ==>
               LastWrite(ops, k).value.at != LastWrite(ops, j).value.at
    ensures key in r <==> IsLive(ops, key, now, ttl) && |Rivals(ops, key, now, ttl)| < maxEntries - 1
  {
    LookupGuarantee(maxEntries, ttl, ops, stores, key, now, r);
    WrittenExact(ops, key);
    assert Rivals(ops, key, now, ttl) == LaterRivals(ops, key, now, ttl);
  }

  // ----- The cache -----

  class MemoryCache {
    const maxEntries: nat
    var store: Store

    constructor (maxEntries: nat)
      ensures this.maxEntries == (if maxEntries < 10 then 10 else maxEntries) && store == map[]
    {
      this.maxEntries := if maxEntries < 10 then 10 else maxEntries;
      store := map[];
    }

    method Prune(now: int)
      requires maxEntries >= 1
      modifies this
      ensures Pruned(old(store), now, maxEntries, store)
    {
      store := Live(store, now);
      ghost var live := store;
      while |store| >= maxEntries
        invariant Pruning(live, store, maxEntries)
        decreases |store|
      {
        SoonestExists(store);
        var evict :| evict in store && Soonest(store, evict);
        EvictOk(live, store, evict, maxEntries);
        store := store - {evict};
      }
    }

    method Get(key: string, now: int) returns (r: Option<string>)
      requires maxEntries >= 1
      modifies this
      ensures forall ttl :: Step(maxEntries, ttl, old(store), Op.Get(key, now), store)
      ensures r == if key in store then Some(store[key].value) else None
    {
      Prune(now);
      r := if key in store then Some(store[key].value) else None;
    }

    method Set(key: string, value: string, ttl: nat, now: int, stored: int)
      requires maxEntries >= 1 && now <= stored
      modifies this
      ensures Step(maxEntries, ttl, old(store), Op.Set(key, value, now, stored), store)
    {
      Prune(now);
      store := store[key := Entry(value, stored + ttl)];
    }
  }

  predicate Soonest(s: Store, e: string)
    requires e in s
  {
    forall k :: k in s ==> s[e].expiresAt <= s[k].expiresAt
  }

  /** Part of the way through an eviction of `live`. */
  ghost predicate Pruning(live: Store, s: Store, maxEntries: nat) {
    && s.Keys <= live.Keys
    && (forall k :: k in s ==> s[k] == live[k])
    && (forall k, j :: k in s && j in live && j !in s ==> live[j].expiresAt <= live[k].expiresAt)
    && (s != live ==> |s| >= maxEntries - 1)
  }

  lemma EvictOk(live: Store, s: Store, e: string, maxEntries: nat)
    requires Pruning(live, s, maxEntries) && e in s && Soonest(s, e) && |s| >= maxEntries
    ensures Pruning(live, s - {e}, maxEntries) && |s - {e}| < |s|
  {
    var r := s - {e};
    assert s.Keys == r.Keys + {e};
    forall k, j | k in r && j in live && j !in r ensures live[j].expiresAt <= live[k].expiresAt {
      assert j == e || j !in s;
    }
  }

  /** `min_by_key` on a non-empty map finds something. */
  lemma {:induction false} SoonestExists(s: Store)
    requires s != map[]
    ensures exists e :: e in s && Soonest(s, e)
    decreases |s|
  {
    var x :| x in s;
    var rest := s - {x};
    assert s.Keys == rest.Keys + {x};
    if rest == map[] {
      assert forall k :: k in s ==> k == x;
      assert Soonest(s, x);
    } else {
      SoonestExists(rest);
      var e :| e in rest && Soonest(rest, e);
      var best := if s[x].expiresAt <= s[e].expiresAt then x else e;
      forall k | k in s ensures s[best].expiresAt <= s[k].expiresAt {
        assert k == x || k in rest;
      }
      assert Soonest(s, best);
    }
  }
}
