/** The in-memory cache of validated identities: expiry, capacity and the two-stage eviction. Every
    time.Now is its own clock reading, and map iteration picks the next key arbitrarily. */
module TokenCache {
  import opened Wrappers

  datatype Entry<I> = Entry(identity: I, expiresAt: int)

  datatype Settings = Settings(ttl: int, maxSize: int)

  /** The lifetime put grants: the token's remaining lifetime, but only when it is positive. */
  function EffectiveTtl(ttl: int, tokenExp: int, t1: int): int {
    var remaining := tokenExp - t1;
    if 0 < remaining < ttl then remaining else ttl
  }

  function Lookup<I>(entries: map<string, Entry<I>>, hash: string, now: int): Option<I> {
    if hash in entries && now <= entries[hash].expiresAt then Some(entries[hash].identity) else None
  }

  function Live<I>(entries: map<string, Entry<I>>, now: int): map<string, Entry<I>> {
    map k | k in entries && now <= entries[k].expiresAt :: entries[k]
  }

  ghost predicate Oldest<I>(entries: map<string, Entry<I>>, k: string) {
    k in entries && forall j :: j in entries ==> entries[k].expiresAt <= entries[j].expiresAt
  }

  /** after is what put may leave of before; t1, t2 and t3 are its three clock readings. */
  ghost predicate PutResult<I>(before: map<string, Entry<I>>, after: map<string, Entry<I>>, c: Settings,
                               hash: string, identity: I, tokenExp: int, t1: int, t2: int, t3: int)
  {
    var ttl := EffectiveTtl(c.ttl, tokenExp, t1);
    var e := Entry(identity, t2 + ttl);
    if ttl <= 0 then after == before
    else if |before| < c.maxSize then after == before[hash := e]
    else
      var live := Live(before, t3);
      if |live| < c.maxSize || live == map[] then after == live[hash := e]
      else exists victim :: Oldest(live, victim) && after == WithoutVictim(live, victim)[hash := e]
  }

  // The empty string marks "no victim found", so an entry under the empty key would survive.
  function WithoutVictim<I>(entries: map<string, Entry<I>>, victim: string): map<string, Entry<I>> {
    if victim == "" then entries else entries - {victim}
  }

  class Cache<I> {
    var entries: map<string, Entry<I>>
    const settings: Settings

    constructor (settings: Settings)
      ensures entries == map[] && this.settings == settings
    {
      entries := map[];
      this.settings := settings;
    }

    method Get(hash: string, now: int) returns (r: Option<I>)
      ensures r == Lookup(entries, hash, now)
    {
      if hash !in entries {
        return None;
      }
      var entry := entries[hash];
      if now > entry.expiresAt {
        return None;
      }
      return Some(entry.identity);
    }

    method EvictExpiredLocked(now: int)
      modifies this
      ensures entries == Live(old(entries), now)
      ensures forall k :: k in entries <==> k in old(entries) && now <= old(entries)[k].expiresAt
      ensures forall k :: k in entries ==> entries[k] == old(entries)[k]
    {
      var unseen := entries.Keys;
      while unseen != {}
        invariant unseen <= entries.Keys <= old(entries).Keys
        invariant forall k :: k in entries ==> entries[k] == old(entries)[k]
        invariant forall k :: k in old(entries) && k !in unseen ==>
                    (k in entries <==> now <= old(entries)[k].expiresAt)
        decreases |unseen|
      {
        var k :| k in unseen;
        unseen := unseen - {k};
        if now > entries[k].expiresAt {
          entries := entries - {k};
        }
      }
    }

    /** The key found by scanning for the earliest expiry, or "" when there is nothing to scan. */
    method OldestKey() returns (oldestKey: string)
      ensures entries == map[] ==> oldestKey == ""
      ensures entries != map[] ==> Oldest(entries, oldestKey)
    {
      oldestKey := "";
      var oldestTime := 0;
      var first := true;
      var unseen := entries.Keys;
      while unseen != {}
        invariant unseen <= entries.Keys
        invariant first ==> unseen == entries.Keys && oldestKey == ""
        invariant !first ==> oldestKey in entries && entries[oldestKey].expiresAt == oldestTime
        invariant !first ==> forall j :: j in entries && j !in unseen ==> oldestTime <= entries[j].expiresAt
        decreases |unseen|
      {
        var k :| k in unseen;
        unseen := unseen - {k};
        if first || entries[k].expiresAt < oldestTime {
          oldestKey, oldestTime, first := k, entries[k].expiresAt, false;
        }
      }
      assert entries != map[] ==> entries.Keys != {};
    }

    method Put(hash: string, identity: I, tokenExp: int, t1: int, t2: int, t3: int)
      modifies this
      ensures PutResult(old(entries), entries, settings, hash, identity, tokenExp, t1, t2, t3)
    {
      var ttl := settings.ttl;
      var remaining := tokenExp - t1;
      if remaining > 0 && remaining < ttl {
        ttl := remaining;
      }
      if ttl <= 0 {
        return;
      }
      var expiresAt := t2 + ttl;
      if |entries| >= settings.maxSize {
        EvictExpiredLocked(t3);
      }
      if |entries| >= settings.maxSize {
        var oldestKey := OldestKey();
        ghost var live := entries;
        if oldestKey != "" {
          entries := entries - {oldestKey};
        }
        assert entries == WithoutVictim(live, oldestKey);
      }
      entries := entries[hash := Entry(identity, expiresAt)];
    }
  }

  // ---------------------------------------------------------------------------------------------
  // What put promises, stated on the entries it keeps and drops
  // ---------------------------------------------------------------------------------------------

  /** The capacity holds across put, for any iteration order. */
  lemma PutKeepsCapacity<I>(before: map<string, Entry<I>>, after: map<string, Entry<I>>, c: Settings,
                            hash: string, identity: I, tokenExp: int, t1: int, t2: int, t3: int)
    requires PutResult(before, after, c, hash, identity, tokenExp, t1, t2, t3)
    requires c.maxSize >= 1 && hash != "" && "" !in before && |before| <= c.maxSize
    ensures |after| <= c.maxSize && "" !in after
  {
    var live := Live(before, t3);
    assert live.Keys <= before.Keys;
    SubsetSize(live.Keys, before.Keys);
    var e := Entry(identity, t2 + EffectiveTtl(c.ttl, tokenExp, t1));
    GrowByOne(before, hash, e);
    GrowByOne(live, hash, e);
    if EffectiveTtl(c.ttl, tokenExp, t1) > 0 && |live| >= c.maxSize {
      var victim :| Oldest(live, victim) && after == WithoutVictim(live, victim)[hash := e];
      assert (live - {victim}).Keys == live.Keys - {victim};
      GrowByOne(live - {victim}, hash, e);
    }
  }

  lemma SubsetSize<T>(a: set<T>, b: set<T>)
    requires a <= b
    ensures |a| <= |b|
  {
    assert b == a + (b - a);
  }

  lemma GrowByOne<V>(m: map<string, V>, k: string, v: V)
    ensures |m[k := v]| <= |m| + 1
  {
    assert m[k := v].Keys == m.Keys + {k};
  }

  lemma LiveKeys<I>(before: map<string, Entry<I>>, now: int)
    ensures var alive := set k | k in before && now <= before[k].expiresAt;
            Live(before, now).Keys == alive && |Live(before, now)| == |alive|
  {
    assert Live(before, now).Keys == set k | k in before && now <= before[k].expiresAt;
  }

  /** Eviction is minimal. Below capacity nothing goes. At capacity exactly the expired entries go; only if
      the ones still alive fill the cache does exactly one of them go, which expires no later than any
      other of them. Survivors keep their values, and the new entry is there. */
  lemma PutEvictsMinimally<I>(before: map<string, Entry<I>>, after: map<string, Entry<I>>, c: Settings,
                              hash: string, identity: I, tokenExp: int, t1: int, t2: int, t3: int)
    requires PutResult(before, after, c, hash, identity, tokenExp, t1, t2, t3)
    requires c.ttl > 0 && "" !in before
    ensures hash in after && after[hash] == Entry(identity, t2 + EffectiveTtl(c.ttl, tokenExp, t1))
    ensures forall k :: k in after && k != hash ==> k in before && after[k] == before[k]
    ensures |before| < c.maxSize ==> after.Keys == before.Keys + {hash}
    ensures var alive := set k | k in before && t3 <= before[k].expiresAt;
            |before| >= c.maxSize ==>
              && (|alive| < c.maxSize || alive == {} ==> after.Keys == alive + {hash})
              && (|alive| >= c.maxSize && alive != {} ==>
                    exists v :: v in alive && (forall k :: k in alive ==> before[v].expiresAt <= before[k].expiresAt)
                      && after.Keys == alive - {v} + {hash})
  {
    PutKeepsSurvivors(before, after, c, hash, identity, tokenExp, t1, t2, t3);
    if |before| >= c.maxSize {
      PutEvictsAtCapacity(before, after, c, hash, identity, tokenExp, t1, t2, t3);
    }
  }

  lemma PutKeepsSurvivors<I>(before: map<string, Entry<I>>, after: map<string, Entry<I>>, c: Settings,
                             hash: string, identity: I, tokenExp: int, t1: int, t2: int, t3: int)
    requires PutResult(before, after, c, hash, identity, tokenExp, t1, t2, t3)
    requires c.ttl > 0
    ensures hash in after && after[hash] == Entry(identity, t2 + EffectiveTtl(c.ttl, tokenExp, t1))
    ensures forall k :: k in after && k != hash ==> k in before && after[k] == before[k]
    ensures |before| < c.maxSize ==> after.Keys == before.Keys + {hash}
  {
  }

  lemma PutEvictsAtCapacity<I>(before: map<string, Entry<I>>, after: map<string, Entry<I>>, c: Settings,
                               hash: string, identity: I, tokenExp: int, t1: int, t2: int, t3: int)
    requires PutResult(before, after, c, hash, identity, tokenExp, t1, t2, t3)
    requires c.ttl > 0 && "" !in before && |before| >= c.maxSize
    ensures var alive := set k | k in before && t3 <= before[k].expiresAt;
            && (|alive| < c.maxSize || alive == {} ==> after.Keys == alive + {hash})
            && (|alive| >= c.maxSize && alive != {} ==>
                  exists v :: v in alive && (forall k :: k in alive ==> before[v].expiresAt <= before[k].expiresAt)
                    && after.Keys == alive - {v} + {hash})
  {
    var live := Live(before, t3);
    var alive := set k | k in before && t3 <= before[k].expiresAt;
    LiveKeys(before, t3);
    var e := Entry(identity, t2 + EffectiveTtl(c.ttl, tokenExp, t1));
    if |live| < c.maxSize || live == map[] {
      assert after == live[hash := e];
      assert live.Keys == {} <==> live == map[];
    } else {
      var victim :| Oldest(live, victim) && after == WithoutVictim(live, victim)[hash := e];
      OldestIsEarliest(before, t3, victim);
      assert after.Keys == alive - {victim} + {hash};
    }
  }

  lemma OldestIsEarliest<I>(before: map<string, Entry<I>>, now: int, victim: string)
    requires Oldest(Live(before, now), victim)
    ensures victim in before && now <= before[victim].expiresAt
    ensures forall k :: k in before && now <= before[k].expiresAt ==> before[victim].expiresAt <= before[k].expiresAt
  {
    forall k | k in before && now <= before[k].expiresAt ensures before[victim].expiresAt <= before[k].expiresAt {
      assert k in Live(before, now);
    }
  }

  /** Only a TTL that is not positive keeps put from storing anything, whatever the token's expiry. */
  lemma PutSkipsExactly<I>(before: map<string, Entry<I>>, after: map<string, Entry<I>>, c: Settings,
                           hash: string, identity: I, tokenExp: int, t1: int, t2: int, t3: int)
    requires PutResult(before, after, c, hash, identity, tokenExp, t1, t2, t3)
    ensures EffectiveTtl(c.ttl, tokenExp, t1) <= 0 <==> c.ttl <= 0
    ensures c.ttl <= 0 ==> after == before
  {
  }

  /** The documented "minimum of the TTL and the remaining lifetime" holds exactly for a token that is
      still alive at the first reading, or one whose remaining lifetime the TTL does not exceed. */
  lemma EffectiveTtlIsTheMinimumExactly(ttl: int, tokenExp: int, t1: int)
    ensures EffectiveTtl(ttl, tokenExp, t1) == (if tokenExp - t1 < ttl then tokenExp - t1 else ttl) <==>
            (tokenExp > t1 || ttl <= tokenExp - t1)
  {
  }

  /** An expired token (accepted within the clock skew) is cached all the same, for the full TTL, whatever
      the cache held before. */
  lemma ExpiredTokenIsCached<I>(before: map<string, Entry<I>>, after: map<string, Entry<I>>, c: Settings,
                                hash: string, identity: I, tokenExp: int, t1: int, t2: int, t3: int)
    requires c.ttl > 0 && tokenExp <= t1 && "" !in before
    requires PutResult(before, after, c, hash, identity, tokenExp, t1, t2, t3)
    ensures hash in after && after[hash] == Entry(identity, t2 + c.ttl)
    ensures forall now :: Lookup(after, hash, now) == if now <= t2 + c.ttl then Some(identity) else None
  {
    PutEvictsMinimally(before, after, c, hash, identity, tokenExp, t1, t2, t3);
  }
}
