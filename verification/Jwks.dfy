/** The JWKS cache: which keys one response yields, and what concurrent getKey calls may answer. */
module Jwks {
  import opened Wrappers

  /** The fields of a JSON Web Key (RFC 7517, section 4) that key reconstruction reads. */
  datatype JwkKey = JwkKey(kty: string, kid: string, n: string, e: string, crv: string, x: string, y: string)

  /** Key reconstruction, which may fail on malformed material. */
  datatype Parsers<!K> = Parsers(rsa: (string, string) -> Option<K>, ec: (string, string, string) -> Option<K>)

  /** The key a set member contributes: none if it has no kid, an unsupported type or is malformed. */
  function KeyOf<K>(p: Parsers<K>, k: JwkKey): Option<K> {
    if k.kid == "" then None
    else if k.kty == "RSA" then p.rsa(k.n, k.e)
    else if k.kty == "EC" then p.ec(k.crv, k.x, k.y)
    else None
  }

  /** Member i is the last usable one with this kid. */
  ghost predicate LastUsable<K>(p: Parsers<K>, keys: seq<JwkKey>, kid: string, i: int) {
    && 0 <= i < |keys| && keys[i].kid == kid && KeyOf(p, keys[i]).Some?
    && forall j :: i < j < |keys| && keys[j].kid == kid ==> KeyOf(p, keys[j]).None?
  }

  /** The last usable member with this kid holds this key. */
  ghost predicate HasKey<K>(p: Parsers<K>, keys: seq<JwkKey>, kid: string, key: K) {
    exists i :: LastUsable(p, keys, kid, i) && KeyOf(p, keys[i]) == Some(key)
  }

  /** m is the key map of a response: a kid is present exactly when some usable member carries it, and
      stands for the last such member. */
  ghost predicate IsKeyMap<K>(p: Parsers<K>, keys: seq<JwkKey>, m: map<string, K>) {
    && (forall kid :: kid in m ==> HasKey(p, keys, kid, m[kid]))
    && (forall i :: 0 <= i < |keys| && KeyOf(p, keys[i]).Some? ==> keys[i].kid in m)
  }

  /** The response determines its key map. */
  lemma KeyMapIsUnique<K>(p: Parsers<K>, keys: seq<JwkKey>, m1: map<string, K>, m2: map<string, K>)
    requires IsKeyMap(p, keys, m1) && IsKeyMap(p, keys, m2)
    ensures m1 == m2
  {
    forall kid | kid in m1 ensures kid in m2 && m2[kid] == m1[kid] {
      SameKey(p, keys, m1, m2, kid);
    }
    forall kid | kid in m2 ensures kid in m1 {
      SameKey(p, keys, m2, m1, kid);
    }
  }

  lemma SameKey<K>(p: Parsers<K>, keys: seq<JwkKey>, m1: map<string, K>, m2: map<string, K>, kid: string)
    requires IsKeyMap(p, keys, m1) && IsKeyMap(p, keys, m2) && kid in m1
    ensures kid in m2 && m2[kid] == m1[kid]
  {
    var i :| LastUsable(p, keys, kid, i) && KeyOf(p, keys[i]) == Some(m1[kid]);
    assert HasKey(p, keys, kid, m2[kid]);
    var j :| LastUsable(p, keys, kid, j) && KeyOf(p, keys[j]) == Some(m2[kid]);
    assert !(i < j) && !(j < i);
  }

  /** What the key map of a response means, member by member: a kid is there exactly when some member with
      that non-empty kid is an RSA key or an EC key that can be read, and it stands for the last of them,
      read from that member's own parameters. */
  lemma KeyMapMeaning<K>(p: Parsers<K>, keys: seq<JwkKey>, m: map<string, K>, kid: string)
    requires IsKeyMap(p, keys, m)
    ensures kid in m <==> exists i :: 0 <= i < |keys| && keys[i].kid == kid && Readable(p, keys[i])
    ensures kid in m ==>
              exists i ::
                && 0 <= i < |keys| && keys[i].kid == kid && Readable(p, keys[i])
                && (keys[i].kty == "RSA" ==> p.rsa(keys[i].n, keys[i].e) == Some(m[kid]))
                && (keys[i].kty == "EC" ==> p.ec(keys[i].crv, keys[i].x, keys[i].y) == Some(m[kid]))
                && forall j :: i < j < |keys| && keys[j].kid == kid ==> !Readable(p, keys[j])
  {
    forall i | 0 <= i < |keys| ensures Readable(p, keys[i]) <==> KeyOf(p, keys[i]).Some? {
    }
    if kid in m {
      var i :| LastUsable(p, keys, kid, i) && KeyOf(p, keys[i]) == Some(m[kid]);
      assert Readable(p, keys[i]);
    }
  }

  predicate Readable<K>(p: Parsers<K>, k: JwkKey) {
    && k.kid != ""
    && ((k.kty == "RSA" && p.rsa(k.n, k.e).Some?) || (k.kty == "EC" && p.ec(k.crv, k.x, k.y).Some?))
  }

  /** The collecting loop of fetchJWKS. */
  method CollectKeys<K>(p: Parsers<K>, keys: seq<JwkKey>) returns (m: map<string, K>)
    ensures IsKeyMap(p, keys, m)
    ensures m == KeyMap(p, keys)
  {
    m := map[];
    var i := 0;
    while i < |keys|
      invariant 0 <= i <= |keys|
      invariant m == KeyMap(p, keys[..i])
    {
      var k := keys[i];
      assert keys[..i + 1][..i] == keys[..i];
      if k.kid != "" {
        var parsed := None;
        match k.kty {
          case "RSA" => parsed := p.rsa(k.n, k.e);
          case "EC" => parsed := p.ec(k.crv, k.x, k.y);
          case _ =>
        }
        if parsed.Some? {
          m := m[k.kid := parsed.value];
        }
      }
      i := i + 1;
    }
    assert keys[..i] == keys;
    KeyMapIsKeyMap(p, keys);
  }

  function KeyMap<K>(p: Parsers<K>, keys: seq<JwkKey>): map<string, K> {
    if keys == [] then map[]
    else
      var m, last := KeyMap(p, keys[..|keys| - 1]), keys[|keys| - 1];
      match KeyOf(p, last)
      case Some(key) => m[last.kid := key]
      case None => m
  }

  lemma {:induction false} KeyMapIsKeyMap<K>(p: Parsers<K>, keys: seq<JwkKey>)
    ensures IsKeyMap(p, keys, KeyMap(p, keys))
  {
    if keys != [] {
      var front, last := keys[..|keys| - 1], keys[|keys| - 1];
      KeyMapIsKeyMap(p, front);
      var m := KeyMap(p, keys);
      forall kid | kid in m ensures HasKey(p, keys, kid, m[kid]) {
        KeyIsLast(p, keys, kid);
      }
      forall i | 0 <= i < |keys| && KeyOf(p, keys[i]).Some? ensures keys[i].kid in m {
        if i < |front| {
          assert front[i] == keys[i];
        }
      }
    }
  }

  // One key of the map, when the front's map is one.
  lemma KeyIsLast<K>(p: Parsers<K>, keys: seq<JwkKey>, kid: string)
    requires keys != [] && IsKeyMap(p, keys[..|keys| - 1], KeyMap(p, keys[..|keys| - 1]))
    requires kid in KeyMap(p, keys)
    ensures HasKey(p, keys, kid, KeyMap(p, keys)[kid])
  {
    var last := keys[|keys| - 1];
    if kid == last.kid && KeyOf(p, last).Some? {
      assert LastUsable(p, keys, kid, |keys| - 1);
    } else {
      assert KeyOf(p, last).None? || last.kid != kid;
      HasKeyInFront(p, keys, kid, KeyMap(p, keys)[kid]);
    }
  }

  lemma HasKeyInFront<K>(p: Parsers<K>, keys: seq<JwkKey>, kid: string, key: K)
    requires keys != [] && HasKey(p, keys[..|keys| - 1], kid, key)
    requires KeyOf(p, keys[|keys| - 1]).None? || keys[|keys| - 1].kid != kid
    ensures HasKey(p, keys, kid, key)
  {
    var front := keys[..|keys| - 1];
    var i :| LastUsable(p, front, kid, i) && KeyOf(p, front[i]) == Some(key);
    assert forall j :: i < j < |front| ==> front[j] == keys[j];
    assert LastUsable(p, keys, kid, i);
  }

  // ---------------------------------------------------------------------------------------------
  // The cache object
  // ---------------------------------------------------------------------------------------------

  datatype Entry<K> = Entry(keys: map<string, K>, fetchedAt: int)

  datatype KeyError = FetchFailed | KidNotFound

  function Fresh<K>(entries: map<string, Entry<K>>, ttl: int, url: string, kid: string, now: int): Option<K> {
    if url in entries && now - entries[url].fetchedAt < ttl && kid in entries[url].keys
    then Some(entries[url].keys[kid])
    else None
  }

  class JwksCache<K> {
    var entries: map<string, Entry<K>>
    const ttl: int

    constructor (ttl: int)
      ensures entries == map[] && this.ttl == ttl
    {
      entries := map[];
      this.ttl := ttl;
    }

    /** getKey without interference: looked up at t1; if that misses, the endpoint answers response
        (None for any failure) and the keys are stored at t2. */
    method GetKey(p: Parsers<K>, url: string, kid: string, t1: int, response: Option<seq<JwkKey>>, t2: int)
      returns (r: Result<K, KeyError>)
      modifies this
      ensures var hit := Fresh(old(entries), ttl, url, kid, t1);
              if hit.Some? then r == Success(hit.value) && entries == old(entries)
              else if response.None? then r == Failure(FetchFailed) && entries == old(entries)
              else
                && url in entries && IsKeyMap(p, response.value, entries[url].keys)
                && entries == old(entries)[url := Entry(entries[url].keys, t2)]
                && r == if kid in entries[url].keys then Success(entries[url].keys[kid]) else Failure(KidNotFound)
    {
      if url in entries {
        var entry := entries[url];
        if t1 - entry.fetchedAt < ttl && kid in entry.keys {
          return Success(entry.keys[kid]);
        }
      }
      if response.None? {
        return Failure(FetchFailed);
      }
      var keys := CollectKeys(p, response.value);
      entries := entries[url := Entry(keys, t2)];
      if kid !in keys {
        return Failure(KidNotFound);
      }
      return Success(keys[kid]);
    }
  }

  // ---------------------------------------------------------------------------------------------
  // Concurrent getKey calls
  // ---------------------------------------------------------------------------------------------

  datatype Pc =
    | Idle
    | LookingUp(url: string, kid: string)
    | Fetching(url: string, kid: string)
    | Storing(url: string, kid: string, response: seq<JwkKey>)

  datatype Event<K> =
    | Requested(t: nat, url: string, kid: string)
    | Fetched(t: nat, url: string, response: seq<JwkKey>)
    | StoredKeys(t: nat, url: string, response: seq<JwkKey>, at: int)
    | FromCache(t: nat, url: string, kid: string, key: K, at: int)
    | FromFetch(t: nat, url: string, kid: string, key: K)
    | NotFound(t: nat, url: string, kid: string)

  datatype Config<K> = Config(
    clock: int,
    entries: map<string, Entry<K>>,
    threads: map<nat, Pc>,
    history: seq<Event<K>>)

  datatype Action =
    | Request(t: nat, url: string, kid: string)
    | LookUp(t: nat, now: int)
    | FetchReturns(t: nat, response: Option<seq<JwkKey>>)
    | Store(t: nat, now: int)

  function PcOf<K>(c: Config<K>, t: nat): Pc {
    if t in c.threads then c.threads[t] else Idle
  }

  predicate Enabled<K>(c: Config<K>, a: Action) {
    match a
    case Request(t, _, _) => PcOf(c, t).Idle?
    case LookUp(t, now) => PcOf(c, t).LookingUp? && c.clock <= now
    case FetchReturns(t, _) => PcOf(c, t).Fetching?
    case Store(t, now) => PcOf(c, t).Storing? && c.clock <= now
  }

  function Step<K>(p: Parsers<K>, ttl: int, c: Config<K>, a: Action): Config<K> {
    if !Enabled(c, a) then c
    else match a
      case Request(t, url, kid) =>
        c.(threads := c.threads[t := LookingUp(url, kid)], history := c.history + [Requested(t, url, kid)])
      case LookUp(t, now) =>
        var pc := PcOf(c, t);
        (match Fresh(c.entries, ttl, pc.url, pc.kid, now)
         case Some(key) =>
           c.(clock := now, threads := c.threads[t := Idle],
              history := c.history + [FromCache(t, pc.url, pc.kid, key, now)])
         case None => c.(clock := now, threads := c.threads[t := Fetching(pc.url, pc.kid)]))
      case FetchReturns(t, response) =>
        var pc := PcOf(c, t);
        (match response
         case Some(keys) =>
           c.(threads := c.threads[t := Storing(pc.url, pc.kid, keys)],
              history := c.history + [Fetched(t, pc.url, keys)])
         case None => c.(threads := c.threads[t := Idle]))
      case Store(t, now) =>
        var pc := PcOf(c, t);
        var keys := KeyMap(p, pc.response);
        c.(clock := now, entries := c.entries[pc.url := Entry(keys, now)], threads := c.threads[t := Idle],
           history := c.history + [StoredKeys(t, pc.url, pc.response, now)] +
             [if pc.kid in keys then FromFetch(t, pc.url, pc.kid, keys[pc.kid]) else NotFound(t, pc.url, pc.kid)])
  }

  function Exec<K>(p: Parsers<K>, ttl: int, start: int, run: seq<Action>): Config<K> {
    if run == [] then Config(start, map[], map[], [])
    else Step(p, ttl, Exec(p, ttl, start, run[..|run| - 1]), run[|run| - 1])
  }

  /** A call that no other thread interrupts does what GetKey promises: answer from the cache, fail with the
      fetch and change nothing, or store the whole key map and answer from it. */
  lemma UninterruptedCall<K>(p: Parsers<K>, ttl: int, c: Config<K>, t: nat, url: string, kid: string, t1: int,
                             response: Option<seq<JwkKey>>, t2: int)
    requires PcOf(c, t).Idle? && c.clock <= t1 <= t2
    ensures var c1 := Step(p, ttl, Step(p, ttl, c, Request(t, url, kid)), LookUp(t, t1));
            var c' := Step(p, ttl, Step(p, ttl, c1, FetchReturns(t, response)), Store(t, t2));
            var hit, asked := Fresh(c.entries, ttl, url, kid, t1), c.history + [Requested(t, url, kid)];
            && PcOf(c', t).Idle?
            && if hit.Some? then
                 c'.entries == c.entries && c'.history == asked + [FromCache(t, url, kid, hit.value, t1)]
               else if response.None? then c'.entries == c.entries && c'.history == asked
               else
                 var keys := KeyMap(p, response.value);
                 && c'.entries == c.entries[url := Entry(keys, t2)]
                 && c'.history == asked + [Fetched(t, url, response.value), StoredKeys(t, url, response.value, t2)] +
                      [if kid in keys then FromFetch(t, url, kid, keys[kid]) else NotFound(t, url, kid)]
  {
  }

  /** The call thread t is in, or was in last: what it was asked for. */
  function Asked<K>(history: seq<Event<K>>, t: nat): Option<Event<K>> {
    if history == [] then None
    else
      var last := history[|history| - 1];
      if last.Requested? && last.t == t then Some(last) else Asked(history[..|history| - 1], t)
  }

  /** What that very call fetched: nothing of an earlier call of the thread counts. */
  function OwnFetch<K>(history: seq<Event<K>>, t: nat): Option<Event<K>> {
    if history == [] then None
    else
      var last := history[|history| - 1];
      if last.Fetched? && last.t == t then Some(last)
      else if last.Requested? && last.t == t then None
      else OwnFetch(history[..|history| - 1], t)
  }

  /** The latest store for a URL. */
  function LastStore<K>(history: seq<Event<K>>, url: string): Option<Event<K>> {
    if history == [] then None
    else
      var last := history[|history| - 1];
      if last.StoredKeys? && last.url == url then Some(last) else LastStore(history[..|history| - 1], url)
  }

  ghost predicate EventOk<K>(p: Parsers<K>, ttl: int, past: seq<Event<K>>, e: Event<K>) {
    match e
    case Requested(_, _, _) => true
    case Fetched(t, url, _) => Asked(past, t).Some? && Asked(past, t).value.url == url
    case StoredKeys(t, url, response, _) => OwnFetch(past, t) == Some(Fetched(t, url, response))
    case FromCache(t, url, kid, key, at) =>
      var s := LastStore(past, url);
      && Asked(past, t) == Some(Requested(t, url, kid)) && OwnFetch(past, t).None?
      && s.Some? && s.value.StoredKeys? && s.value.at <= at < s.value.at + ttl
      && kid in KeyMap(p, s.value.response) && KeyMap(p, s.value.response)[kid] == key
    case FromFetch(t, url, kid, key) =>
      var f := OwnFetch(past, t);
      && Asked(past, t) == Some(Requested(t, url, kid))
      && f.Some? && f.value.Fetched? && f.value.url == url
      && kid in KeyMap(p, f.value.response) && KeyMap(p, f.value.response)[kid] == key
    case NotFound(t, url, kid) =>
      var f := OwnFetch(past, t);
      && Asked(past, t) == Some(Requested(t, url, kid))
      && f.Some? && f.value.Fetched? && f.value.url == url && kid !in KeyMap(p, f.value.response)
  }

  ghost predicate HistoryOk<K>(p: Parsers<K>, ttl: int, history: seq<Event<K>>) {
    history != [] ==>
      && HistoryOk(p, ttl, history[..|history| - 1])
      && EventOk(p, ttl, history[..|history| - 1], history[|history| - 1])
  }

  /** Each entry is the whole key map of the response stored last for its URL, and nothing else is cached. */
  ghost predicate EntriesOk<K>(p: Parsers<K>, c: Config<K>) {
    forall url ::
      match LastStore(c.history, url)
      case None => url !in c.entries
      case Some(s) =>
        && url in c.entries && s.StoredKeys? && s.url == url && s.at <= c.clock
        && c.entries[url] == Entry(KeyMap(p, s.response), s.at)
  }

  /** A thread works on the call it was asked for, with what that call has fetched so far. */
  ghost predicate ThreadOk<K>(history: seq<Event<K>>, t: nat, pc: Pc) {
    match pc
    case Idle => true
    case LookingUp(url, kid) => Asked(history, t) == Some(Requested(t, url, kid)) && OwnFetch(history, t).None?
    case Fetching(url, kid) => Asked(history, t) == Some(Requested(t, url, kid)) && OwnFetch(history, t).None?
    case Storing(url, kid, response) =>
      Asked(history, t) == Some(Requested(t, url, kid)) && OwnFetch(history, t) == Some(Fetched(t, url, response))
  }

  ghost predicate ThreadsOk<K>(c: Config<K>) {
    forall t :: t in c.threads ==> ThreadOk(c.history, t, c.threads[t])
  }

  ghost predicate Sound<K>(p: Parsers<K>, ttl: int, c: Config<K>) {
    HistoryOk(p, ttl, c.history) && EntriesOk(p, c) && ThreadsOk(c)
  }

  lemma Snoc<K>(p: Parsers<K>, ttl: int, history: seq<Event<K>>, e: Event<K>)
    ensures HistoryOk(p, ttl, history + [e]) <==> HistoryOk(p, ttl, history) && EventOk(p, ttl, history, e)
    ensures forall url :: LastStore(history + [e], url) ==
                          if e.StoredKeys? && e.url == url then Some(e) else LastStore(history, url)
  {
    assert (history + [e])[..|history|] == history;
  }

  lemma SnocOf<K>(history: seq<Event<K>>, e: Event<K>, t: nat)
    ensures Asked(history + [e], t) == if e.Requested? && e.t == t then Some(e) else Asked(history, t)
    ensures OwnFetch(history + [e], t) ==
            if e.Fetched? && e.t == t then Some(e)
            else if e.Requested? && e.t == t then None
            else OwnFetch(history, t)
  {
    assert (history + [e])[..|history|] == history;
  }

  // What thread t does leaves the other threads as they were.
  lemma OthersOk<K>(c: Config<K>, e: Event<K>, t: nat)
    requires ThreadsOk(c) && e.t == t
    ensures forall u :: u in c.threads && u != t ==> ThreadOk(c.history + [e], u, c.threads[u])
  {
    forall u | u in c.threads && u != t ensures ThreadOk(c.history + [e], u, c.threads[u]) {
      SnocOf(c.history, e, u);
    }
  }

  lemma RequestSound<K>(p: Parsers<K>, ttl: int, c: Config<K>, t: nat, url: string, kid: string)
    requires Sound(p, ttl, c) && Enabled(c, Request(t, url, kid))
    ensures Sound(p, ttl, Step(p, ttl, c, Request(t, url, kid)))
  {
    var e := Requested(t, url, kid);
    Snoc(p, ttl, c.history, e);
    SnocOf(c.history, e, t);
    OthersOk(c, e, t);
  }

  lemma LookUpSound<K>(p: Parsers<K>, ttl: int, c: Config<K>, t: nat, now: int)
    requires Sound(p, ttl, c) && Enabled(c, LookUp(t, now))
    ensures Sound(p, ttl, Step(p, ttl, c, LookUp(t, now)))
  {
    var pc := PcOf(c, t);
    var hit := Fresh(c.entries, ttl, pc.url, pc.kid, now);
    assert ThreadOk(c.history, t, pc);
    if hit.Some? {
      var e := FromCache(t, pc.url, pc.kid, hit.value, now);
      assert LastStore(c.history, pc.url).Some?;
      Snoc(p, ttl, c.history, e);
      OthersOk(c, e, t);
    }
  }

  lemma FetchSound<K>(p: Parsers<K>, ttl: int, c: Config<K>, t: nat, response: Option<seq<JwkKey>>)
    requires Sound(p, ttl, c) && Enabled(c, FetchReturns(t, response))
    ensures Sound(p, ttl, Step(p, ttl, c, FetchReturns(t, response)))
  {
    var pc := PcOf(c, t);
    assert ThreadOk(c.history, t, pc);
    if response.Some? {
      var e := Fetched(t, pc.url, response.value);
      Snoc(p, ttl, c.history, e);
      SnocOf(c.history, e, t);
      OthersOk(c, e, t);
    }
  }

  lemma StoreSound<K>(p: Parsers<K>, ttl: int, c: Config<K>, t: nat, now: int)
    requires Sound(p, ttl, c) && Enabled(c, Store(t, now))
    ensures Sound(p, ttl, Step(p, ttl, c, Store(t, now)))
  {
    var pc := PcOf(c, t);
    var keys := KeyMap(p, pc.response);
    var stored := StoredKeys(t, pc.url, pc.response, now);
    var answer := if pc.kid in keys then FromFetch(t, pc.url, pc.kid, keys[pc.kid]) else NotFound(t, pc.url, pc.kid);
    assert ThreadOk(c.history, t, pc);
    Snoc(p, ttl, c.history, stored);
    SnocOf(c.history, stored, t);
    OthersOk(c, stored, t);
    Snoc(p, ttl, c.history + [stored], answer);
    OthersOk(c.(threads := c.threads[t := Idle], history := c.history + [stored]), answer, t);
  }

  lemma StepSound<K>(p: Parsers<K>, ttl: int, c: Config<K>, a: Action)
    requires Sound(p, ttl, c)
    ensures Sound(p, ttl, Step(p, ttl, c, a))
  {
    if Enabled(c, a) {
      match a
      case Request(t, url, kid) => RequestSound(p, ttl, c, t, url, kid);
      case LookUp(t, now) => LookUpSound(p, ttl, c, t, now);
      case FetchReturns(t, response) => FetchSound(p, ttl, c, t, response);
      case Store(t, now) => StoreSound(p, ttl, c, t, now);
    }
  }

  /** In every interleaving of getKey calls: each cached entry is the complete key map of the response
      stored last for that URL, and no other URL is cached. */
  lemma {:induction false} EveryRunIsSound<K>(p: Parsers<K>, ttl: int, start: int, run: seq<Action>)
    ensures Sound(p, ttl, Exec(p, ttl, start, run))
  {
    if run != [] {
      EveryRunIsSound(p, ttl, start, run[..|run| - 1]);
      StepSound(p, ttl, Exec(p, ttl, start, run[..|run| - 1]), run[|run| - 1]);
    }
  }

  lemma {:induction false} HistoryAt<K>(p: Parsers<K>, ttl: int, history: seq<Event<K>>, i: nat)
    requires HistoryOk(p, ttl, history) && i < |history|
    ensures EventOk(p, ttl, history[..i], history[i])
  {
    if i < |history| - 1 {
      var front := history[..|history| - 1];
      HistoryAt(p, ttl, front, i);
      assert front[..i] == history[..i];
    }
  }

  /** What each answer of getKey rests on, in every interleaving. An answer is for the URL and the kid
      its own call was asked for. A key served from cache comes from the response stored last for that
      URL, less than ttl ago, and that call fetched nothing. A key served from a fetch, and "kid not
      found", speak of the response that very call fetched, after it was asked. The key is that of the
      last usable member of the response with that kid. */
  lemma AnswersAreJustified<K>(p: Parsers<K>, ttl: int, start: int, run: seq<Action>, i: nat)
    requires i < |Exec(p, ttl, start, run).history|
    ensures var h := Exec(p, ttl, start, run).history;
            match h[i]
            case FromCache(t, url, kid, key, at) =>
              var s := LastStore(h[..i], url);
              && Asked(h[..i], t) == Some(Requested(t, url, kid)) && OwnFetch(h[..i], t).None?
              && s.Some? && s.value.StoredKeys? && s.value.at <= at < s.value.at + ttl
              && HasKey(p, s.value.response, kid, key)
            case FromFetch(t, url, kid, key) =>
              var f := OwnFetch(h[..i], t);
              && Asked(h[..i], t) == Some(Requested(t, url, kid))
              && f.Some? && f.value.Fetched? && f.value.url == url
              && HasKey(p, f.value.response, kid, key)
            case NotFound(t, url, kid) =>
              var f := OwnFetch(h[..i], t);
              && Asked(h[..i], t) == Some(Requested(t, url, kid))
              && f.Some? && f.value.Fetched? && f.value.url == url
              && forall k :: k in f.value.response && k.kid == kid ==> KeyOf(p, k).None?
            case StoredKeys(t, url, response, _) => OwnFetch(h[..i], t) == Some(Fetched(t, url, response))
            case Fetched(t, url, _) => Asked(h[..i], t).Some? && Asked(h[..i], t).value.url == url
            case Requested(_, _, _) => true
  {
    var h := Exec(p, ttl, start, run).history;
    EveryRunIsSound(p, ttl, start, run);
    HistoryAt(p, ttl, h, i);
    match h[i]
    case FromCache(_, url, _, _, _) => KeyMapIsKeyMap(p, LastStore(h[..i], url).value.response);
    case FromFetch(t, _, _, _) => KeyMapIsKeyMap(p, OwnFetch(h[..i], t).value.response);
    case NotFound(t, _, _) => KeyMapIsKeyMap(p, OwnFetch(h[..i], t).value.response);
    case _ =>
  }

  /** OwnFetch is a fetch inside the call: no request of the thread lies between it and the answer, and
      the call's own request lies before it. */
  lemma {:induction false} OwnFetchIsInTheCall<K>(p: Parsers<K>, ttl: int, history: seq<Event<K>>, t: nat)
    returns (asked: nat, fetched: nat)
    requires HistoryOk(p, ttl, history) && OwnFetch(history, t).Some?
    ensures asked < fetched < |history|
    ensures Asked(history, t) == Some(history[asked]) && OwnFetch(history, t) == Some(history[fetched])
    ensures forall m :: asked < m < |history| && history[m].t == t ==> !history[m].Requested?
    ensures forall m :: fetched < m < |history| && history[m].t == t ==> !history[m].Fetched?
  {
    var front, last := history[..|history| - 1], history[|history| - 1];
    if last.Fetched? && last.t == t {
      fetched := |history| - 1;
      asked := AskedIndex(front, t);
    } else {
      asked, fetched := OwnFetchIsInTheCall(p, ttl, front, t);
    }
  }

  lemma {:induction false} AskedIndex<K>(history: seq<Event<K>>, t: nat) returns (asked: nat)
    requires Asked(history, t).Some?
    ensures asked < |history| && Asked(history, t) == Some(history[asked])
    ensures forall m :: asked < m < |history| && history[m].t == t ==> !history[m].Requested?
  {
    var front, last := history[..|history| - 1], history[|history| - 1];
    if last.Requested? && last.t == t {
      asked := |history| - 1;
    } else {
      asked := AskedIndex(front, t);
    }
  }

  /** The cache is used whenever it can be: a request is answered from the cached keys exactly when they are
      younger than ttl and hold its kid; otherwise the thread goes on to fetch. */
  lemma FreshKeysAreServed<K>(p: Parsers<K>, ttl: int, c: Config<K>, t: nat, now: int)
    requires Enabled(c, LookUp(t, now))
    ensures var pc, c' := PcOf(c, t), Step(p, ttl, c, LookUp(t, now));
            && c'.entries == c.entries
            && if pc.url in c.entries && now < c.entries[pc.url].fetchedAt + ttl && pc.kid in c.entries[pc.url].keys
               then && PcOf(c', t).Idle?
                    && c'.history == c.history +
                         [FromCache(t, pc.url, pc.kid, c.entries[pc.url].keys[pc.kid], now)]
               else PcOf(c', t) == Fetching(pc.url, pc.kid) && c'.history == c.history
  {
  }

  /** Keys that were stored are served to the next request for their URL and a kid they hold, while they are
      younger than ttl. */
  lemma StoreThenServe<K>(p: Parsers<K>, ttl: int, c: Config<K>, s: Action, t: nat, now: int)
    requires s.Store? && Enabled(c, s) && Enabled(Step(p, ttl, c, s), LookUp(t, now))
    requires PcOf(c, s.t).url == PcOf(Step(p, ttl, c, s), t).url
    ensures var stored, pc := PcOf(c, s.t), PcOf(Step(p, ttl, c, s), t);
            var c'' := Step(p, ttl, Step(p, ttl, c, s), LookUp(t, now));
            if now < s.now + ttl && exists k :: k in stored.response && k.kid == pc.kid && Readable(p, k)
            then |c''.history| == |c.history| + 3 && c''.history[|c.history| + 2].FromCache?
            else PcOf(c'', t) == Fetching(pc.url, pc.kid)
  {
    ResponseHolds(p, PcOf(c, s.t).response, PcOf(Step(p, ttl, c, s), t).kid);
    FreshKeysAreServed(p, ttl, Step(p, ttl, c, s), t, now);
  }

  lemma ResponseHolds<K>(p: Parsers<K>, keys: seq<JwkKey>, kid: string)
    ensures kid in KeyMap(p, keys) <==> exists k :: k in keys && k.kid == kid && Readable(p, k)
  {
    KeyMapIsKeyMap(p, keys);
    KeyMapMeaning(p, keys, KeyMap(p, keys), kid);
    if exists k :: k in keys && k.kid == kid && Readable(p, k) {
      var k :| k in keys && k.kid == kid && Readable(p, k);
      var i :| 0 <= i < |keys| && keys[i] == k;
      assert keys[i].kid == kid;
    }
  }

  /** A failed fetch, and every step but the closing store, changes no entry; a store changes one URL. */
  lemma OnlyAStoreChangesEntries<K>(p: Parsers<K>, ttl: int, c: Config<K>, a: Action, url: string)
    ensures var c' := Step(p, ttl, c, a);
            || ((url in c.entries <==> url in c'.entries) && (url in c.entries ==> c.entries[url] == c'.entries[url]))
            || (a.Store? && PcOf(c, a.t).Storing? && PcOf(c, a.t).url == url)
  {
  }
}

/** getOIDCJWKSURL: the discovered URL is kept for good. */
module OidcDiscovery {
  import opened Wrappers

  class Discovery {
    var jwksUrl: string
    var discovered: bool
    // How many discovery requests were sent.
    var requests: nat

    constructor ()
      ensures jwksUrl == "" && !discovered && requests == 0
    {
      jwksUrl, discovered, requests := "", false, 0;
    }

    /** document is what the provider would answer: discovery rejects a document without a URL. */
    method GetJwksUrl(document: Option<string>) returns (r: Option<string>)
      modifies this
      ensures (jwksUrl, discovered, requests, r) == Next(old(jwksUrl), old(discovered), old(requests), document)
    {
      if discovered && jwksUrl != "" {
        return Some(jwksUrl);
      }
      requests := requests + 1;
      if document.None? || document.value == "" {
        return None;
      }
      jwksUrl, discovered := document.value, true;
      return Some(jwksUrl);
    }
  }

  function Next(url: string, discovered: bool, requests: nat, document: Option<string>)
    : (string, bool, nat, Option<string>)
  {
    if discovered && url != "" then (url, discovered, requests, Some(url))
    else if document.None? || document.value == "" then (url, discovered, requests + 1, None)
    else (document.value, true, requests + 1, Some(document.value))
  }

  /** The object after a run of calls, one document per call. */
  function After(documents: seq<Option<string>>): (string, bool, nat, Option<string>) {
    if documents == [] then ("", false, 0, None)
    else
      var s := After(documents[..|documents| - 1]);
      Next(s.0, s.1, s.2, documents[|documents| - 1])
  }

  /** Over every run, once call first has discovered a URL every later call returns that URL, and no
      further request is sent; until then every call fails and sends one. */
  lemma {:induction false} FirstDiscoveryIsKept(documents: seq<Option<string>>, first: nat)
    requires first < |documents|
    requires forall i :: 0 <= i < first ==> documents[i] in {None, Some("")}
    requires documents[first] !in {None, Some("")}
    ensures After(documents) == (documents[first].value, true, first + 1, documents[first])
  {
    var front := documents[..|documents| - 1];
    if first == |documents| - 1 {
      NothingDiscovered(front);
    } else {
      FirstDiscoveryIsKept(front, first);
    }
  }

  lemma {:induction false} NothingDiscovered(documents: seq<Option<string>>)
    requires forall i :: 0 <= i < |documents| ==> documents[i] in {None, Some("")}
    ensures After(documents) == ("", false, |documents|, None)
  {
    if documents != [] {
      NothingDiscovered(documents[..|documents| - 1]);
    }
  }
}
