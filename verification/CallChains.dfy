/** The call chain carried across service hops, over gRPC metadata and HTTP headers. */
module CallChains {
  import opened Wrappers
  import opened Base64Url
  import opened Propagation

  const MAX_CALL_CHAIN_DEPTH := 32

  /** The last n elements, or all of them. */
  function LastN<T>(s: seq<T>, n: nat): seq<T> {
    if |s| <= n then s else s[|s| - n..]
  }

  /** The chain with one more caller; the oldest make room. The original chain is a value and stays. */
  method AppendCaller(chain: CallChain, caller: CallerInfo) returns (r: CallChain)
    ensures r == Appended(chain, caller)
    ensures r.originalId == chain.originalId && r.originalKind == chain.originalKind
    ensures |r.callers| == if |chain.callers| >= 32 then 32 else |chain.callers| + 1
    ensures r.callers[|r.callers| - 1] == caller
    ensures r.callers[..|r.callers| - 1] == chain.callers[|chain.callers| + 1 - |r.callers|..]
  {
    var callers := chain.callers;
    callers := callers + [caller];
    if |callers| > MAX_CALL_CHAIN_DEPTH {
      callers := callers[|callers| - MAX_CALL_CHAIN_DEPTH..];
    }
    return CallChain(chain.originalId, chain.originalKind, callers);
  }

  function Appended(chain: CallChain, caller: CallerInfo): CallChain {
    chain.(callers := LastN(chain.callers + [caller], MAX_CALL_CHAIN_DEPTH))
  }

  /** A service that sends a request on: its name and the identity it validated itself, if any. */
  datatype Sender = Sender(service: string, identity: Option<Identity>)

  /** What a sender enters into the chain. Without an identity it sends no chain at all. */
  function InfoOf(s: Sender): CallerInfo {
    match s.identity
    case Some(identity) => CallerInfo(s.service, identity.id, identity.kind)
    case None => CallerInfo(s.service, "", "")
  }

  /** The chain a sender extends: the one it received, or a new one that starts with its own identity. */
  function ChainToExtend(s: Sender, received: Option<CallChain>): CallChain {
    match received
    case Some(chain) => chain
    case None => CallChain(InfoOf(s).id, InfoOf(s).kind, [])
  }

  function Extended(s: Sender, received: Option<CallChain>): CallChain {
    Appended(ChainToExtend(s, received), InfoOf(s))
  }

  /** The headers a sender adds; None leaves the request as it is. */
  function Outgoing(j: Codec, s: Sender, received: Option<CallChain>): Option<Headers> {
    if s.identity.None? then None
    else match HeadersOf(j, s.identity.value, s.service, Some(Extended(s, received)))
      case Success(h) => Some(h)
      case Failure(_) => None
  }

  /** A sender leaves the request as it is exactly when it validated no identity, or the claims or the
      extended chain cannot be encoded in 6144 bytes of JSON each. */
  lemma OutgoingExactly(j: Codec, s: Sender, received: Option<CallChain>)
    ensures Outgoing(j, s, received).Some? <==>
            && s.identity.Some?
            && (s.identity.value.claims != map[] ==> Fits(j.marshalClaims(s.identity.value.claims)))
            && Fits(j.marshalChain(Extended(s, received)))
  {
    if s.identity.Some? {
      HeadersSucceedExactly(j, s.identity.value, s.service, Some(Extended(s, received)));
    }
  }

  /** What a receiver makes of the call chain value it reads; a malformed one is ignored. */
  function ReadChain(j: Codec, value: string): Option<CallChain> {
    match DeserializeCallChain(j, value) case Success(chain) => chain case Failure(_) => None
  }

  /** A chain is read exactly when the value is there, decodes and unmarshals; anything else is ignored. */
  lemma ReadsExactly(j: Codec, value: string, chain: CallChain)
    ensures ReadChain(j, value) == Some(chain) <==>
            value != "" && Decode(value).Some? && j.unmarshalChain(Decode(value).value) == Some(chain)
  {
  }

  // ---------------------------------------------------------------------------------------------
  // The two transports
  // ---------------------------------------------------------------------------------------------

  type Metadata = map<string, seq<string>>

  function Values(md: Metadata, key: string): seq<string> {
    if key in md then md[key] else []
  }

  function FirstValue(md: Metadata, key: string): string {
    if |Values(md, key)| > 0 then Values(md, key)[0] else ""
  }

  /** metadata.Join of the existing outgoing metadata and one pair per header: old values come first. */
  function Joined(existing: Metadata, headers: Headers): Metadata {
    map k | k in existing.Keys + headers.Keys ::
      Values(existing, k) + (if k in headers then [headers[k]] else [])
  }

  /** The headers for the extended chain; failing to serialise is not an error of the call. */
  method BuildHeaders(j: Codec, s: Sender, received: Option<CallChain>) returns (r: Option<Headers>)
    ensures r == Outgoing(j, s, received)
  {
    if s.identity.None? {
      return None;
    }
    var identity := s.identity.value;
    var chain := if received.Some? then received.value else CallChain(identity.id, identity.kind, []);
    chain := AppendCaller(chain, CallerInfo(s.service, identity.id, identity.kind));
    var headers := IdentityToHeaders(j, identity, s.service, Some(chain));
    return if headers.Success? then Some(headers.value) else None;
  }

  lemma JoinedGrows(existing: Metadata, h: Headers, k: string, v: string)
    requires k !in h
    ensures Values(Joined(existing, h), k) == Values(existing, k)
    ensures Joined(existing, h[k := v]) == Joined(existing, h)[k := Values(existing, k) + [v]]
  {
    var before, after := Joined(existing, h), Joined(existing, h[k := v]);
    assert after.Keys == before.Keys + {k};
    forall q | q in after ensures after[q] == if q == k then Values(existing, k) + [v] else before[q] {
    }
  }

  lemma JoinedNothing(existing: Metadata)
    ensures Joined(existing, map[]) == existing
  {
    forall k | k in existing ensures Joined(existing, map[])[k] == existing[k] {
      assert existing[k] + [] == existing[k];
    }
  }

  // Taking k out of the headers still to do.
  lemma JoinedNext(existing: Metadata, h: Headers, rest: set<string>, k: string)
    requires k in h && k in rest
    ensures var md := Joined(existing, h - rest);
            Joined(existing, h - (rest - {k})) == md[k := Values(md, k) + [h[k]]]
  {
    assert h - (rest - {k}) == (h - rest)[k := h[k]];
    JoinedGrows(existing, h - rest, k, h[k]);
  }

  /** Pairs are collected in any order of the header map. */
  method JoinAll(existing: Metadata, h: Headers) returns (md: Metadata)
    ensures md == Joined(existing, h)
  {
    md := existing;
    var rest := h.Keys;
    assert h - rest == map[];
    JoinedNothing(existing);
    while rest != {}
      invariant rest <= h.Keys
      invariant md == Joined(existing, h - rest)
      decreases |rest|
    {
      var k :| k in rest;
      JoinedNext(existing, h, rest, k);
      md := md[k := Values(md, k) + [h[k]]];
      rest := rest - {k};
    }
    assert h - rest == h;
  }

  /** Headers are set in any order of the header map. */
  method SetAll(request: Headers, h: Headers) returns (clone: Headers)
    ensures clone == request + h
  {
    clone := request;
    var rest := h.Keys;
    while rest != {}
      invariant rest <= h.Keys
      invariant clone.Keys == request.Keys + (h.Keys - rest)
      invariant forall k :: k in clone ==> clone[k] == if k in h && k !in rest then h[k] else request[k]
      decreases |rest|
    {
      var k :| k in rest;
      rest := rest - {k};
      clone := clone[k := h[k]];
    }
  }

  /** propagateIdentityToGRPC. */
  method PropagateToGrpc(j: Codec, s: Sender, received: Option<CallChain>, existing: Metadata) returns (md: Metadata)
    ensures md == match Outgoing(j, s, received) case None => existing case Some(h) => Joined(existing, h)
  {
    var headers := BuildHeaders(j, s, received);
    if headers.None? {
      return existing;
    }
    md := JoinAll(existing, headers.value);
  }

  /** PropagatingRoundTripper.RoundTrip: the headers are set on a clone of the request. */
  method PropagateToHttp(j: Codec, s: Sender, received: Option<CallChain>, request: Headers) returns (clone: Headers)
    ensures clone == match Outgoing(j, s, received) case None => request case Some(h) => request + h
  {
    var headers := BuildHeaders(j, s, received);
    if headers.None? {
      return request;
    }
    clone := SetAll(request, headers.value);
  }

  /** One hop: who sends, and the request it is put on. */
  datatype Hop =
    | Grpc(sender: Sender, metadata: Metadata)
    | Http(sender: Sender, headers: Headers)

  /** The chain the next service finds in its context. */
  function Deliver(j: Codec, hop: Hop, received: Option<CallChain>): Option<CallChain> {
    var out := Outgoing(j, hop.sender, received);
    match hop
    case Grpc(_, md) => ReadChain(j, FirstValue(if out.Some? then Joined(md, out.value) else md, CALL_CHAIN))
    case Http(_, h) => ReadChain(j, Header(if out.Some? then h + out.value else h, CALL_CHAIN))
  }

  /** The request carries no call chain of its own before propagation. */
  predicate Clean(hop: Hop) {
    match hop
    case Grpc(_, md) => Values(md, CALL_CHAIN) == []
    case Http(_, h) => CALL_CHAIN !in h
  }

  lemma OutgoingChain(j: Codec, s: Sender, received: Option<CallChain>)
    requires GoodCodec(j) && Outgoing(j, s, received).Some?
    ensures var h := Outgoing(j, s, received).value;
            && CALL_CHAIN in h && h[CALL_CHAIN] != ""
            && ReadChain(j, h[CALL_CHAIN]) == Some(Extended(s, received))
  {
    var chain := Extended(s, received);
    HeadersCarry(j, s.identity.value, s.service, Some(chain));
    CallChainRoundTrip(j, chain);
  }

  /** A clean hop delivers exactly the extended chain, or none when propagation is skipped, over either
      transport. */
  lemma CleanHopDelivers(j: Codec, hop: Hop, received: Option<CallChain>)
    requires GoodCodec(j) && Clean(hop)
    ensures Deliver(j, hop, received) ==
            if Outgoing(j, hop.sender, received).Some? then Some(Extended(hop.sender, received)) else None
  {
    if Outgoing(j, hop.sender, received).Some? {
      OutgoingChain(j, hop.sender, received);
    }
  }

  /** Over HTTP a stale chain on the request is overwritten; over gRPC it shadows the new one, because
      the receiver reads the first value. */
  lemma StaleChain(j: Codec, hop: Hop, received: Option<CallChain>)
    requires GoodCodec(j) && Outgoing(j, hop.sender, received).Some?
    ensures hop.Http? ==> Deliver(j, hop, received) == Some(Extended(hop.sender, received))
    ensures hop.Grpc? && Values(hop.metadata, CALL_CHAIN) != [] ==>
              Deliver(j, hop, received) == ReadChain(j, Values(hop.metadata, CALL_CHAIN)[0])
  {
    OutgoingChain(j, hop.sender, received);
  }

  /** No older chain stands before the new one: HTTP overwrites it, and in gRPC metadata there is none,
      or one that reads the same. */
  predicate Unshadowed(j: Codec, hop: Hop, received: Option<CallChain>) {
    hop.Grpc? && Values(hop.metadata, CALL_CHAIN) != [] ==>
      ReadChain(j, Values(hop.metadata, CALL_CHAIN)[0]) == Some(Extended(hop.sender, received))
  }

  /** A propagating hop delivers the extended chain exactly when no older chain shadows it. */
  lemma DeliversExactly(j: Codec, hop: Hop, received: Option<CallChain>)
    requires GoodCodec(j) && Outgoing(j, hop.sender, received).Some?
    ensures Deliver(j, hop, received) == Some(Extended(hop.sender, received)) <==> Unshadowed(j, hop, received)
  {
    StaleChain(j, hop, received);
    if Clean(hop) {
      CleanHopDelivers(j, hop, received);
    }
  }

  /** The failing family: whatever chain the metadata already holds is what the next service finds. */
  lemma StaleChainWins(j: Codec, s: Sender, received: Option<CallChain>, stale: CallChain, md: Metadata)
    requires GoodCodec(j) && Outgoing(j, s, received).Some?
    requires SerializeCallChain(j, stale).Success? && Values(md, CALL_CHAIN) != []
    requires Values(md, CALL_CHAIN)[0] == SerializeCallChain(j, stale).value
    ensures Deliver(j, Grpc(s, md), received) == Some(stale)
  {
    StaleChain(j, Grpc(s, md), received);
    CallChainRoundTrip(j, stale);
  }

  /** One such input: Alice's request leaves on metadata that still holds Bob's chain, and Bob's chain
      is what arrives. */
  lemma StaleChainWitness() returns (j: Codec, hop: Hop, stale: CallChain)
    ensures GoodCodec(j) && hop.Grpc? && Outgoing(j, hop.sender, None).Some?
    ensures Deliver(j, hop, None) == Some(stale) && stale != Extended(hop.sender, None)
    ensures stale.originalId != hop.sender.identity.value.id
  {
    var sender := Sender("orders", Some(Identity("alice", "user", map[])));
    var chain := Extended(sender, None);
    stale := CallChain("bob", "user", []);
    // A codec that knows these two chains only.
    j := Codec(_ => None, _ => None,
               c => if c == chain then Some([0]) else if c == stale then Some([1]) else None,
               json => if json == [0] then Some(chain) else if json == [1] then Some(stale) else None);
    AcceptedSizesExactly([0]);
    AcceptedSizesExactly([1]);
    var md := map[CALL_CHAIN := [SerializeCallChain(j, stale).value]];
    hop := Grpc(sender, md);
    StaleChainWins(j, sender, None, stale, md);
  }

  // ---------------------------------------------------------------------------------------------
  // Runs of hops
  // ---------------------------------------------------------------------------------------------

  /** The chain found after a run of hops, when the first sender found start. */
  function Travel(j: Codec, hops: seq<Hop>, start: Option<CallChain>): Option<CallChain> {
    if hops == [] then start
    else Deliver(j, hops[|hops| - 1], Travel(j, hops[..|hops| - 1], start))
  }

  /** Every hop has an identity and its headers serialise. */
  predicate AllSerialise(j: Codec, hops: seq<Hop>, start: Option<CallChain>) {
    forall k :: 0 <= k < |hops| ==> SerialisesAt(j, hops, start, k)
  }

  predicate SerialisesAt(j: Codec, hops: seq<Hop>, start: Option<CallChain>, k: nat)
    requires k < |hops|
  {
    Outgoing(j, hops[k].sender, Travel(j, hops[..k], start)).Some?
  }

  /** The gRPC hops go out on metadata without a call chain. HTTP requests may carry anything. */
  predicate CleanOverGrpc(hops: seq<Hop>) {
    forall k :: 0 <= k < |hops| && hops[k].Grpc? ==> Clean(hops[k])
  }

  /** The callers of a run, in order. */
  function Infos(hops: seq<Hop>): seq<CallerInfo> {
    if hops == [] then [] else Infos(hops[..|hops| - 1]) + [InfoOf(hops[|hops| - 1].sender)]
  }

  /** The origin of a chain with the newest of its callers and some more. */
  function Window(origin: CallChain, more: seq<CallerInfo>): CallChain {
    origin.(callers := LastN(origin.callers + more, MAX_CALL_CHAIN_DEPTH))
  }

  lemma WindowSlides(origin: CallChain, more: seq<CallerInfo>, c: CallerInfo)
    ensures Appended(Window(origin, more), c) == Window(origin, more + [c])
    ensures Appended(origin, c) == Window(origin, [c])
  {
    assert origin.callers + (more + [c]) == origin.callers + more + [c];
  }

  /** Callers appended one by one. */
  function AppendAll(chain: CallChain, callers: seq<CallerInfo>): CallChain {
    if callers == [] then chain
    else Appended(AppendAll(chain, callers[..|callers| - 1]), callers[|callers| - 1])
  }

  /** Of all callers so far a chain keeps the newest 32, or all if there are no more; and its origin. */
  lemma WindowKeepsTheNewest(chain: CallChain, callers: seq<CallerInfo>)
    ensures var all, w := chain.callers + callers, Window(chain, callers);
            && w.originalId == chain.originalId && w.originalKind == chain.originalKind
            && |w.callers| == (if |all| > 32 then 32 else |all|)
            && w.callers == all[|all| - |w.callers|..]
  {
  }

  /** Truncating at every step loses no more than truncating once: what is left are the newest 32 of all
      callers, or all of them. */
  lemma {:induction false} AppendAllIsAWindow(chain: CallChain, callers: seq<CallerInfo>)
    requires callers != []
    ensures AppendAll(chain, callers) == Window(chain, callers)
    ensures var all, kept := chain.callers + callers, AppendAll(chain, callers).callers;
            && |kept| == (if |all| > 32 then 32 else |all|)
            && kept == all[|all| - |kept|..]
            && kept[|kept| - 1] == callers[|callers| - 1]
  {
    WindowKeepsTheNewest(chain, callers);
    var front, last := callers[..|callers| - 1], callers[|callers| - 1];
    WindowSlides(chain, front, last);
    assert callers == front + [last];
    if front != [] {
      AppendAllIsAWindow(chain, front);
    }
  }

  /** Over every run of hops that propagate, the chain received keeps the origin the first sender had,
      and its callers are the last 32 of the initial callers followed by all hops in order. */
  lemma ChainIsAWindow(j: Codec, hops: seq<Hop>, start: Option<CallChain>)
    requires GoodCodec(j) && hops != [] && AllSerialise(j, hops, start) && CleanOverGrpc(hops)
    ensures Travel(j, hops, start) == Some(Window(ChainToExtend(hops[0].sender, start), Infos(hops)))
    ensures forall i :: 0 <= i < |hops| ==> hops[i].sender.identity.Some?
    ensures var first := hops[0].sender.identity.value;
            var initial := if start.Some? then start.value else CallChain(first.id, first.kind, []);
            var all := initial.callers + seq(|hops|, i requires 0 <= i < |hops| => CallerAt(hops[i]));
            var got := Travel(j, hops, start).value;
            && got.originalId == initial.originalId && got.originalKind == initial.originalKind
            && |got.callers| == (if |all| > 32 then 32 else |all|)
            && got.callers == all[|all| - |got.callers|..]
  {
    forall i | 0 <= i < |hops| ensures Unshadowed(j, hops[i], Travel(j, hops[..i], start)) {
      NotShadowed(j, hops[i], Travel(j, hops[..i], start));
    }
    WindowUpTo(j, hops, start, |hops|);
    assert hops[..|hops|] == hops;
    AllIdentified(j, hops, start);
    WindowInFull(hops, start);
  }

  lemma NotShadowed(j: Codec, hop: Hop, received: Option<CallChain>)
    requires hop.Grpc? ==> Clean(hop)
    ensures Unshadowed(j, hop, received)
  {
  }

  // The window over all hops, written out.
  lemma WindowInFull(hops: seq<Hop>, start: Option<CallChain>)
    requires hops != [] && forall i :: 0 <= i < |hops| ==> hops[i].sender.identity.Some?
    ensures var first := hops[0].sender.identity.value;
            var initial := if start.Some? then start.value else CallChain(first.id, first.kind, []);
            var all := initial.callers + seq(|hops|, i requires 0 <= i < |hops| => CallerAt(hops[i]));
            var got := Window(ChainToExtend(hops[0].sender, start), Infos(hops));
            && got.originalId == initial.originalId && got.originalKind == initial.originalKind
            && |got.callers| == (if |all| > 32 then 32 else |all|)
            && got.callers == all[|all| - |got.callers|..]
  {
    InfosAre(hops);
    WindowKeepsTheNewest(ChainToExtend(hops[0].sender, start), Infos(hops));
  }

  /** What one hop adds to the chain. */
  function CallerAt(hop: Hop): CallerInfo
    requires hop.sender.identity.Some?
  {
    CallerInfo(hop.sender.service, hop.sender.identity.value.id, hop.sender.identity.value.kind)
  }

  lemma AllIdentified(j: Codec, hops: seq<Hop>, start: Option<CallChain>)
    requires AllSerialise(j, hops, start)
    ensures forall i :: 0 <= i < |hops| ==> hops[i].sender.identity.Some?
  {
    forall i | 0 <= i < |hops| ensures hops[i].sender.identity.Some? {
      assert SerialisesAt(j, hops, start, i);
    }
  }

  lemma {:induction false} InfosAre(hops: seq<Hop>)
    requires forall i :: 0 <= i < |hops| ==> hops[i].sender.identity.Some?
    ensures Infos(hops) == seq(|hops|, i requires 0 <= i < |hops| => CallerAt(hops[i]))
  {
    if hops != [] {
      InfosAre(hops[..|hops| - 1]);
    }
  }

  /** The window over the first k hops. */
  function WindowAt(hops: seq<Hop>, start: Option<CallChain>, k: nat): CallChain
    requires 0 < k <= |hops|
  {
    Window(ChainToExtend(hops[0].sender, start), Infos(hops[..k]))
  }

  // One hop on from a chain that is the window so far.
  lemma WindowGrows(hops: seq<Hop>, start: Option<CallChain>, k: nat, received: Option<CallChain>)
    requires k < |hops| && received == if k == 0 then start else Some(WindowAt(hops, start, k))
    ensures Extended(hops[k].sender, received) == WindowAt(hops, start, k + 1)
  {
    assert hops[..k + 1][..k] == hops[..k];
    var origin := ChainToExtend(hops[0].sender, start);
    WindowSlides(origin, Infos(hops[..k]), InfoOf(hops[k].sender));
    assert k == 0 ==> Infos(hops[..k + 1]) == [InfoOf(hops[0].sender)];
  }

  /** Every service of a run finds the window over the hops before it if and only if no hop's chain is
      shadowed by an older one in its metadata. */
  lemma WindowThroughoutExactly(j: Codec, hops: seq<Hop>, start: Option<CallChain>)
    requires GoodCodec(j) && AllSerialise(j, hops, start)
    ensures (forall k :: 0 < k <= |hops| ==> Travel(j, hops[..k], start) == Some(WindowAt(hops, start, k))) <==>
            (forall k :: 0 <= k < |hops| ==> Unshadowed(j, hops[k], Travel(j, hops[..k], start)))
  {
    if forall k :: 0 < k <= |hops| ==> Travel(j, hops[..k], start) == Some(WindowAt(hops, start, k)) {
      forall k | 0 <= k < |hops| ensures Unshadowed(j, hops[k], Travel(j, hops[..k], start)) {
        HopDeliversWindow(j, hops, start, k);
      }
    }
    if forall k :: 0 <= k < |hops| ==> Unshadowed(j, hops[k], Travel(j, hops[..k], start)) {
      forall k | 0 < k <= |hops| ensures Travel(j, hops[..k], start) == Some(WindowAt(hops, start, k)) {
        WindowUpTo(j, hops, start, k);
      }
    }
  }

  lemma HopDeliversWindow(j: Codec, hops: seq<Hop>, start: Option<CallChain>, k: nat)
    requires GoodCodec(j) && AllSerialise(j, hops, start) && k < |hops|
    requires k > 0 ==> Travel(j, hops[..k], start) == Some(WindowAt(hops, start, k))
    ensures Travel(j, hops[..k + 1], start) == Some(WindowAt(hops, start, k + 1)) <==>
            Unshadowed(j, hops[k], Travel(j, hops[..k], start))
  {
    assert hops[..k + 1][..k] == hops[..k];
    assert SerialisesAt(j, hops, start, k);
    WindowGrows(hops, start, k, Travel(j, hops[..k], start));
    DeliversExactly(j, hops[k], Travel(j, hops[..k], start));
  }

  lemma {:induction false} WindowUpTo(j: Codec, hops: seq<Hop>, start: Option<CallChain>, k: nat)
    requires GoodCodec(j) && AllSerialise(j, hops, start) && 0 < k <= |hops|
    requires forall i :: 0 <= i < |hops| ==> Unshadowed(j, hops[i], Travel(j, hops[..i], start))
    ensures Travel(j, hops[..k], start) == Some(WindowAt(hops, start, k))
  {
    if k > 1 {
      WindowUpTo(j, hops, start, k - 1);
    }
    HopDeliversWindow(j, hops, start, k - 1);
  }

  /** A clean hop that does not propagate (no identity, or headers too large) cuts the chain: whatever
      came before, the run goes on as if it started after that hop. */
  lemma SkippedHopRestarts(j: Codec, hops: seq<Hop>, start: Option<CallChain>, f: nat)
    requires GoodCodec(j) && f < |hops| && Clean(hops[f])
    requires Outgoing(j, hops[f].sender, Travel(j, hops[..f], start)).None?
    ensures Travel(j, hops, start) == Travel(j, hops[f + 1..], None)
  {
    assert hops[..f + 1] + hops[f + 1..] == hops;
    TravelIsFold(j, hops, start);
    TravelIsFold(j, hops[..f + 1], start);
    TravelIsFold(j, hops[f + 1..], None);
    FoldConcat(HopStep(j), hops[..f + 1], hops[f + 1..], start);
    SkippedHopDelivers(j, hops, start, f);
  }

  lemma SkippedHopDelivers(j: Codec, hops: seq<Hop>, start: Option<CallChain>, f: nat)
    requires GoodCodec(j) && f < |hops| && Clean(hops[f])
    requires Outgoing(j, hops[f].sender, Travel(j, hops[..f], start)).None?
    ensures Travel(j, hops[..f + 1], start) == None
  {
    CleanHopDelivers(j, hops[f], Travel(j, hops[..f], start));
    assert hops[..f + 1][..f] == hops[..f];
  }

  function HopStep(j: Codec): (Hop, Option<CallChain>) -> Option<CallChain> {
    (hop, received) => Deliver(j, hop, received)
  }

  function Fold<H, C>(step: (H, C) -> C, hops: seq<H>, start: C): C {
    if hops == [] then start else step(hops[|hops| - 1], Fold(step, hops[..|hops| - 1], start))
  }

  lemma {:induction false} FoldConcat<H, C>(step: (H, C) -> C, a: seq<H>, b: seq<H>, start: C)
    ensures Fold(step, a + b, start) == Fold(step, b, Fold(step, a, start))
  {
    if b == [] {
      assert a + b == a;
    } else {
      FoldConcat(step, a, b[..|b| - 1], start);
      assert (a + b)[..|a + b| - 1] == a + b[..|b| - 1];
    }
  }

  lemma {:induction false} TravelIsFold(j: Codec, hops: seq<Hop>, start: Option<CallChain>)
    ensures Travel(j, hops, start) == Fold(HopStep(j), hops, start)
  {
    if hops != [] {
      TravelIsFold(j, hops[..|hops| - 1], start);
    }
  }
}
