/** Concurrent Validate calls around the token cache: look up, verify and store are three separate
    critical sections, and any number of threads interleave between them. */
module ValidateProtocol {
  import opened Wrappers
  import opened TokenCache

  const MAX_TOKEN_SIZE := 8192

  /** The surroundings: the cache settings, the hash that keys it, and the exp claim of each token. */
  datatype World = World(settings: Settings, hash: string -> string, expOf: string -> Option<int>)

  ghost predicate GoodHash(w: World) {
    (forall s :: w.hash(s) != "") && (forall s, u :: w.hash(s) == w.hash(u) ==> s == u)
  }

  datatype Pc<I> =
    | Idle
    | LookingUp(token: string)
    | Verifying(token: string)
    | Storing(token: string, identity: I)

  datatype Event<I> =
    | Verified(token: string, identity: I, at: int)
    | Stored(token: string, identity: I, t1: int, t2: int)
    | Hit(token: string, identity: I, at: int)

  datatype Config<I> = Config(
    clock: int,
    entries: map<string, Entry<I>>,
    threads: map<nat, Pc<I>>,
    history: seq<Event<I>>)

  datatype Action<I> =
    | Request(t: nat, token: string)
    | LookUp(t: nat, now: int)
    | Verify(t: nat, now: int, verdict: Option<I>)
    | Store(t: nat, t1: int, t2: int, t3: int, after: map<string, Entry<I>>)

  function PcOf<I>(c: Config<I>, t: nat): Pc<I> {
    if t in c.threads then c.threads[t] else Idle
  }

  /** The clock never runs backwards, and put leaves one of the maps it may leave. */
  ghost predicate Enabled<I>(w: World, c: Config<I>, a: Action<I>) {
    match a
    case Request(t, _) => PcOf(c, t).Idle?
    case LookUp(t, now) => PcOf(c, t).LookingUp? && c.clock <= now
    case Verify(t, now, _) => PcOf(c, t).Verifying? && c.clock <= now
    case Store(t, t1, t2, t3, after) =>
      && PcOf(c, t).Storing? && c.clock <= t1 <= t2 <= t3
      && match w.expOf(PcOf(c, t).token)
         case None => after == c.entries
         case Some(e) =>
           PutResult(c.entries, after, w.settings, w.hash(PcOf(c, t).token), PcOf(c, t).identity, e, t1, t2, t3)
  }

  /** Validate rejects an empty or oversized token before anything else. */
  predicate Acceptable(token: string) {
    0 < |token| <= MAX_TOKEN_SIZE
  }

  /** Whether put, reading the clock at t1, stores the token at all. */
  predicate Cacheable(w: World, token: string, t1: int) {
    w.expOf(token).Some? && EffectiveTtl(w.settings.ttl, w.expOf(token).value, t1) > 0
  }

  datatype ValidationError = Rejected | NotVerified

  /** Validate without interference: looked up at now, verified with this verdict, stored at t1, t2, t3. */
  method Validate<I>(w: World, cache: Cache<I>, token: string, now: int, verdict: Option<I>, t1: int, t2: int, t3: int)
    returns (r: Result<I, ValidationError>)
    requires cache.settings == w.settings
    modifies cache
    ensures r == Failure(Rejected) <==> token == "" || |token| > 8192
    ensures var hit := Lookup(old(cache.entries), w.hash(token), now);
            if !Acceptable(token) then r == Failure(Rejected) && cache.entries == old(cache.entries)
            else if hit.Some? then r == Success(hit.value) && cache.entries == old(cache.entries)
            else if verdict.None? then r == Failure(NotVerified) && cache.entries == old(cache.entries)
            else
              && r == Success(verdict.value)
              && match w.expOf(token)
                 case None => cache.entries == old(cache.entries)
                 case Some(e) =>
                   PutResult(old(cache.entries), cache.entries, w.settings, w.hash(token), verdict.value, e, t1, t2, t3)
  {
    if token == "" || |token| > MAX_TOKEN_SIZE {
      return Failure(Rejected);
    }
    var hash := w.hash(token);
    var hit := cache.Get(hash, now);
    if hit.Some? {
      return Success(hit.value);
    }
    if verdict.None? {
      return Failure(NotVerified);
    }
    var exp := w.expOf(token);
    if exp.Some? {
      cache.Put(hash, verdict.value, exp.value, t1, t2, t3);
    }
    return Success(verdict.value);
  }

  ghost function Step<I>(w: World, c: Config<I>, a: Action<I>): Config<I> {
    if !Enabled(w, c, a) then c
    else match a
      case Request(t, token) =>
        if Acceptable(token) then c.(threads := c.threads[t := LookingUp(token)]) else c
      case LookUp(t, now) =>
        var token := PcOf(c, t).token;
        (match Lookup(c.entries, w.hash(token), now)
         case Some(identity) =>
           c.(clock := now, threads := c.threads[t := Idle], history := c.history + [Hit(token, identity, now)])
         case None => c.(clock := now, threads := c.threads[t := Verifying(token)]))
      case Verify(t, now, verdict) =>
        var token := PcOf(c, t).token;
        (match verdict
         case Some(identity) =>
           c.(clock := now, threads := c.threads[t := Storing(token, identity)],
              history := c.history + [Verified(token, identity, now)])
         case None => c.(clock := now, threads := c.threads[t := Idle]))
      case Store(t, t1, t2, t3, after) =>
        var pc := PcOf(c, t);
        c.(clock := t3, entries := after, threads := c.threads[t := Idle],
           history := c.history +
             (if Cacheable(w, pc.token, t1) then [Stored(pc.token, pc.identity, t1, t2)] else []))
  }

  ghost function Exec<I>(w: World, start: int, run: seq<Action<I>>): Config<I> {
    if run == [] then Config(start, map[], map[], [])
    else Step(w, Exec(w, start, run[..|run| - 1]), run[|run| - 1])
  }

  /** A call that no other thread interrupts does what Validate promises: the token is rejected, answered
      from the cache, not verified, or verified and put. */
  lemma UninterruptedCall<I>(w: World, c: Config<I>, t: nat, token: string, now: int, verdict: Option<I>,
                             tv: int, t1: int, t2: int, t3: int, after: map<string, Entry<I>>)
    requires PcOf(c, t).Idle? && c.clock <= now <= tv <= t1 <= t2 <= t3
    requires verdict.Some? ==>
               match w.expOf(token)
               case None => after == c.entries
               case Some(e) => PutResult(c.entries, after, w.settings, w.hash(token), verdict.value, e, t1, t2, t3)
    ensures var c1 := Step(w, Step(w, c, Request(t, token)), LookUp(t, now));
            var c' := Step(w, Step(w, c1, Verify(t, tv, verdict)), Store(t, t1, t2, t3, after));
            var hit := Lookup(c.entries, w.hash(token), now);
            && PcOf(c', t).Idle?
            && if token == "" || |token| > 8192 then c' == c
               else if hit.Some? then c'.entries == c.entries && c'.history == c.history + [Hit(token, hit.value, now)]
               else if verdict.None? then c'.entries == c.entries && c'.history == c.history
               else && c'.entries == after
                    && c'.history == c.history + [Verified(token, verdict.value, tv)] +
                         if Cacheable(w, token, t1) then [Stored(token, verdict.value, t1, t2)] else []
  {
  }

  // ---------------------------------------------------------------------------------------------
  // Every hit is backed by an earlier store, and that by an earlier verification
  // ---------------------------------------------------------------------------------------------

  /** The expiry put gives to an entry stored at readings t1 and t2. */
  function ExpiryOf(w: World, token: string, t1: int, t2: int): int
    requires w.expOf(token).Some?
  {
    t2 + EffectiveTtl(w.settings.ttl, w.expOf(token).value, t1)
  }

  ghost predicate WasVerified<I>(past: seq<Event<I>>, token: string, identity: I) {
    exists e :: e in past && e.Verified? && e.token == token && e.identity == identity
  }

  /** The latest store for a token. */
  function LastStore<I>(history: seq<Event<I>>, token: string): Option<Event<I>> {
    if history == [] then None
    else
      var last := history[|history| - 1];
      if last.Stored? && last.token == token then Some(last) else LastStore(history[..|history| - 1], token)
  }

  /** e is the store that put this entry for the token, at or before now. */
  ghost predicate Backs<I>(w: World, e: Event<I>, token: string, entry: Entry<I>, now: int) {
    && e.Stored? && w.expOf(token).Some? && e.token == token && e.t2 <= now
    && entry == Entry(e.identity, ExpiryOf(w, token, e.t1, e.t2))
  }

  /** e is the store that justifies a hit. */
  ghost predicate Justifies<I>(w: World, e: Event<I>, hit: Event<I>)
    requires hit.Hit?
  {
    && e.Stored? && w.expOf(e.token).Some?
    && e.token == hit.token && e.identity == hit.identity
    && e.t2 <= hit.at <= ExpiryOf(w, e.token, e.t1, e.t2)
  }

  ghost predicate EventOk<I>(w: World, past: seq<Event<I>>, e: Event<I>) {
    match e
    case Verified(_, _, _) => true
    case Stored(token, identity, t1, t2) => t1 <= t2 && WasVerified(past, token, identity)
    case Hit(token, _, _) => LastStore(past, token).Some? && Justifies(w, LastStore(past, token).value, e)
  }

  ghost predicate HistoryOk<I>(w: World, history: seq<Event<I>>) {
    history != [] ==>
      && HistoryOk(w, history[..|history| - 1])
      && EventOk(w, history[..|history| - 1], history[|history| - 1])
  }

  /** An entry found under a token's hash is what the latest store for that token put there. */
  ghost predicate EntriesBacked<I>(w: World, entries: map<string, Entry<I>>, history: seq<Event<I>>, now: int) {
    forall token :: w.hash(token) in entries ==>
      LastStore(history, token).Some? && Backs(w, LastStore(history, token).value, token, entries[w.hash(token)], now)
  }

  ghost predicate StoringVerified<I>(c: Config<I>) {
    forall t :: t in c.threads && c.threads[t].Storing? ==>
      WasVerified(c.history, c.threads[t].token, c.threads[t].identity)
  }

  ghost predicate Sound<I>(w: World, c: Config<I>) {
    HistoryOk(w, c.history) && StoringVerified(c) && EntriesBacked(w, c.entries, c.history, c.clock)
  }

  lemma HistorySnoc<I>(w: World, history: seq<Event<I>>, e: Event<I>)
    requires HistoryOk(w, history) && EventOk(w, history, e)
    ensures HistoryOk(w, history + [e])
  {
    assert (history + [e])[..|history|] == history;
  }

  lemma LastStoreSnoc<I>(history: seq<Event<I>>, e: Event<I>, token: string)
    ensures LastStore(history + [e], token) ==
            if e.Stored? && e.token == token then Some(e) else LastStore(history, token)
  {
    assert (history + [e])[..|history|] == history;
  }

  lemma WasVerifiedSnoc<I>(history: seq<Event<I>>, e: Event<I>, token: string, identity: I)
    requires WasVerified(history, token, identity) || (e.Verified? && e.token == token && e.identity == identity)
    ensures WasVerified(history + [e], token, identity)
  {
    if e.Verified? && e.token == token && e.identity == identity {
      assert e in history + [e];
    } else {
      var v :| v in history && v.Verified? && v.token == token && v.identity == identity;
      assert v in history + [e];
    }
  }

  // An event that is no store leaves the entries backed, and time may pass.
  lemma EntriesStayBacked<I>(w: World, c: Config<I>, e: Event<I>, now: int)
    requires EntriesBacked(w, c.entries, c.history, c.clock) && !e.Stored? && c.clock <= now
    ensures EntriesBacked(w, c.entries, c.history + [e], now)
  {
    forall token | w.hash(token) in c.entries
      ensures LastStore(c.history + [e], token) == LastStore(c.history, token)
    {
      LastStoreSnoc(c.history, e, token);
    }
  }

  lemma LookUpSound<I>(w: World, c: Config<I>, t: nat, now: int)
    requires Sound(w, c) && Enabled(w, c, LookUp(t, now))
    ensures Sound(w, Step(w, c, LookUp(t, now)))
  {
    var token := PcOf(c, t).token;
    var key := w.hash(token);
    if Lookup(c.entries, key, now).Some? {
      var hit := Hit(token, c.entries[key].identity, now);
      assert Justifies(w, LastStore(c.history, token).value, hit);
      HistorySnoc(w, c.history, hit);
      EntriesStayBacked(w, c, hit, now);
      OthersStillVerified(c, hit);
    }
  }

  lemma OthersStillVerified<I>(c: Config<I>, e: Event<I>)
    requires StoringVerified(c)
    ensures forall t :: t in c.threads && c.threads[t].Storing? ==>
              WasVerified(c.history + [e], c.threads[t].token, c.threads[t].identity)
  {
    forall t | t in c.threads && c.threads[t].Storing?
      ensures WasVerified(c.history + [e], c.threads[t].token, c.threads[t].identity)
    {
      WasVerifiedSnoc(c.history, e, c.threads[t].token, c.threads[t].identity);
    }
  }

  lemma VerifySound<I>(w: World, c: Config<I>, t: nat, now: int, verdict: Option<I>)
    requires Sound(w, c) && Enabled(w, c, Verify(t, now, verdict))
    ensures Sound(w, Step(w, c, Verify(t, now, verdict)))
  {
    if verdict.Some? {
      var e := Verified(PcOf(c, t).token, verdict.value, now);
      HistorySnoc(w, c.history, e);
      EntriesStayBacked(w, c, e, now);
      OthersStillVerified(c, e);
      WasVerifiedSnoc(c.history, e, e.token, e.identity);
    }
  }

  // put only ever adds the new entry.
  lemma PutAddsOne<I>(before: map<string, Entry<I>>, after: map<string, Entry<I>>, c: Settings,
                      hash: string, identity: I, tokenExp: int, t1: int, t2: int, t3: int)
    requires PutResult(before, after, c, hash, identity, tokenExp, t1, t2, t3)
    requires EffectiveTtl(c.ttl, tokenExp, t1) > 0
    ensures forall k :: k in after ==>
              if k == hash then after[k] == Entry(identity, t2 + EffectiveTtl(c.ttl, tokenExp, t1))
              else k in before && after[k] == before[k]
  {
  }

  // After a store the new entry is backed by it, and the entries of other tokens by what backed them.
  lemma StoreBacks<I>(w: World, before: map<string, Entry<I>>, after: map<string, Entry<I>>, history: seq<Event<I>>,
                      e: Event<I>, now: int, t3: int)
    requires GoodHash(w) && EntriesBacked(w, before, history, now)
    requires e.Stored? && now <= e.t2 <= t3 && Cacheable(w, e.token, e.t1)
    requires PutResult(before, after, w.settings, w.hash(e.token), e.identity, w.expOf(e.token).value, e.t1, e.t2, t3)
    ensures EntriesBacked(w, after, history + [e], t3)
  {
    PutAddsOne(before, after, w.settings, w.hash(e.token), e.identity, w.expOf(e.token).value, e.t1, e.t2, t3);
    forall token | w.hash(token) in after
      ensures LastStore(history + [e], token).Some?
      ensures Backs(w, LastStore(history + [e], token).value, token, after[w.hash(token)], t3)
    {
      LastStoreSnoc(history, e, token);
    }
  }

  lemma StoreSound<I>(w: World, c: Config<I>, a: Action<I>)
    requires GoodHash(w) && Sound(w, c) && a.Store? && Enabled(w, c, a)
    ensures Sound(w, Step(w, c, a))
  {
    var pc := PcOf(c, a.t);
    if Cacheable(w, pc.token, a.t1) {
      var e := Stored(pc.token, pc.identity, a.t1, a.t2);
      HistorySnoc(w, c.history, e);
      OthersStillVerified(c, e);
      StoreBacks(w, c.entries, a.after, c.history, e, c.clock, a.t3);
    } else {
      assert c.history + [] == c.history;
    }
  }

  lemma StepSound<I>(w: World, c: Config<I>, a: Action<I>)
    requires GoodHash(w) && Sound(w, c)
    ensures Sound(w, Step(w, c, a))
  {
    if Enabled(w, c, a) {
      match a
      case Request(_, _) =>
      case LookUp(t, now) => LookUpSound(w, c, t, now);
      case Verify(t, now, verdict) => VerifySound(w, c, t, now, verdict);
      case Store(_, _, _, _, _) => StoreSound(w, c, a);
    }
  }

  lemma {:induction false} EveryRunIsSound<I>(w: World, start: int, run: seq<Action<I>>)
    requires GoodHash(w)
    ensures Sound(w, Exec(w, start, run))
  {
    if run != [] {
      EveryRunIsSound(w, start, run[..|run| - 1]);
      StepSound(w, Exec(w, start, run[..|run| - 1]), run[|run| - 1]);
    }
  }

  lemma {:induction false} HistoryAt<I>(w: World, history: seq<Event<I>>, i: nat)
    requires HistoryOk(w, history) && i < |history|
    ensures EventOk(w, history[..i], history[i])
  {
    if i < |history| - 1 {
      var front := history[..|history| - 1];
      HistoryAt(w, front, i);
      assert front[..i] == history[..i];
    }
  }

  /** The cache is used whenever it can be: a token that is looked up while its entry has not expired is
      answered from the entry without verification, and only then. */
  lemma LiveEntriesAreServed<I>(w: World, c: Config<I>, t: nat, now: int)
    requires Enabled(w, c, LookUp(t, now))
    ensures var token, c' := PcOf(c, t).token, Step(w, c, LookUp(t, now));
            && c'.entries == c.entries
            && if w.hash(token) in c.entries && now <= c.entries[w.hash(token)].expiresAt
               then PcOf(c', t).Idle? && c'.history == c.history + [Hit(token, c.entries[w.hash(token)].identity, now)]
               else PcOf(c', t) == Verifying(token) && c'.history == c.history
  {
  }

  /** A verified identity that put stores is served to the next request for its token, up to and including
      the smaller of the TTL and the remaining lifetime (for a token already expired at t1: the TTL). */
  lemma StoreThenHit<I>(w: World, c: Config<I>, a: Action<I>, t: nat, now: int)
    requires GoodHash(w) && Sound(w, c) && a.Store? && Enabled(w, c, a)
    requires w.settings.ttl > 0 && w.expOf(PcOf(c, a.t).token).Some? && "" !in c.entries
    requires var c' := Step(w, c, a); Enabled(w, c', LookUp(t, now)) && PcOf(c', t).token == PcOf(c, a.t).token
    ensures var token, exp := PcOf(c, a.t).token, w.expOf(PcOf(c, a.t).token).value;
            var left := exp - a.t1;
            var life := if left > 0 && left < w.settings.ttl then left else w.settings.ttl;
            var c'' := Step(w, Step(w, c, a), LookUp(t, now));
            if now <= a.t2 + life
            then c''.history == Step(w, c, a).history + [Hit(token, PcOf(c, a.t).identity, now)]
            else c''.history == Step(w, c, a).history
  {
    var pc := PcOf(c, a.t);
    PutEvictsMinimally(c.entries, a.after, w.settings, w.hash(pc.token), pc.identity, w.expOf(pc.token).value,
                       a.t1, a.t2, a.t3);
    LiveEntriesAreServed(w, Step(w, c, a), t, now);
  }

  /** In every interleaving only tokens of 1 to 8192 characters get as far as a cache or a verifier. */
  lemma {:induction false} OnlyAcceptableTokens<I>(w: World, start: int, run: seq<Action<I>>, t: nat)
    ensures var pc := PcOf(Exec(w, start, run), t); pc.Idle? || 1 <= |pc.token| <= 8192
  {
    if run != [] {
      var front, a := run[..|run| - 1], run[|run| - 1];
      OnlyAcceptableTokens(w, start, front, t);
      if Enabled(w, Exec(w, start, front), a) && a.t == t {
        assert PcOf(Exec(w, start, run), t) == PcOf(Step(w, Exec(w, start, front), a), t);
      }
    }
  }

  // The latest store for a token, by its place in the history.
  lemma {:induction false} LastStoreIndex<I>(history: seq<Event<I>>, token: string) returns (j: nat)
    requires LastStore(history, token).Some?
    ensures j < |history| && LastStore(history, token) == Some(history[j])
    ensures forall m :: j < m < |history| && history[m].Stored? ==> history[m].token != token
  {
    var front, last := history[..|history| - 1], history[|history| - 1];
    if last.Stored? && last.token == token {
      j := |history| - 1;
    } else {
      j := LastStoreIndex(front, token);
    }
  }

  // The verification behind the store at j.
  lemma VerificationBehind<I>(w: World, history: seq<Event<I>>, j: nat) returns (k: nat)
    requires HistoryOk(w, history) && j < |history| && history[j].Stored?
    ensures history[j].t1 <= history[j].t2
    ensures k < j && history[k].Verified?
    ensures history[k].token == history[j].token && history[k].identity == history[j].identity
  {
    HistoryAt(w, history, j);
    var v :| v in history[..j] && v.Verified? && v.token == history[j].token && v.identity == history[j].identity;
    k :| 0 <= k < j && history[..j][k] == v;
  }

  /** In every interleaving, a cache hit returns exactly the identity of the latest store for that very
      token, which rests on an earlier successful verification of it; it was put at most ttl before the
      hit; and if the token was still alive at put's first reading t1, the hit comes no later than exp
      plus (t2 - t1). */
  lemma HitsAreJustified<I>(w: World, start: int, run: seq<Action<I>>, i: nat)
    requires GoodHash(w)
    requires i < |Exec(w, start, run).history| && Exec(w, start, run).history[i].Hit?
    ensures var h := Exec(w, start, run).history;
            exists k, j :: 0 <= k < j < i && h[k].Verified? && h[j].Stored?
              && h[k].token == h[j].token == h[i].token && h[k].identity == h[j].identity == h[i].identity
              && (forall m :: j < m < i && h[m].Stored? ==> h[m].token != h[i].token)
              && h[j].t1 <= h[j].t2 <= h[i].at <= h[j].t2 + w.settings.ttl
              && match w.expOf(h[i].token)
                 case Some(e) => e > h[j].t1 ==> h[i].at <= e + (h[j].t2 - h[j].t1)
                 case None => false
  {
    var h := Exec(w, start, run).history;
    EveryRunIsSound(w, start, run);
    HistoryAt(w, h, i);
    var j := LastStoreIndex(h[..i], h[i].token);
    assert h[j] == h[..i][j];
    assert forall m :: j < m < i ==> h[m] == h[..i][m];
    var k := VerificationBehind(w, h, j);
  }

  /** The cache stays within its capacity in every interleaving. */
  lemma {:induction false} CapacityHolds<I>(w: World, start: int, run: seq<Action<I>>)
    requires GoodHash(w) && w.settings.maxSize >= 1
    ensures var c := Exec(w, start, run); |c.entries| <= w.settings.maxSize && "" !in c.entries
  {
    if run != [] {
      var a := run[|run| - 1];
      CapacityHolds(w, start, run[..|run| - 1]);
      var c := Exec(w, start, run[..|run| - 1]);
      if a.Store? && Enabled(w, c, a) && w.expOf(PcOf(c, a.t).token).Some? {
        var pc := PcOf(c, a.t);
        PutKeepsCapacity(c.entries, a.after, w.settings, w.hash(pc.token), pc.identity,
                         w.expOf(pc.token).value, a.t1, a.t2, a.t3);
      }
    }
  }
}
