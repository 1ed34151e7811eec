/** Identity and call chain as transport headers, and back. */
module Propagation {
  import opened Wrappers
  import opened ClaimValues
  import opened Base64Url

  datatype Identity = Identity(id: string, kind: string, claims: Claims)

  datatype CallerInfo = CallerInfo(service: string, id: string, kind: string)

  datatype CallChain = CallChain(originalId: string, originalKind: string, callers: seq<CallerInfo>)

  const IDENTITY_ID := "x-identity-id"
  const IDENTITY_TYPE := "x-identity-type"
  const IDENTITY_CLAIMS := "x-identity-claims"
  const CALLER_SERVICE := "x-caller-service"
  const CALL_CHAIN := "x-call-chain"

  const SERVICE_KIND := "service"
  const KINDS: set<string> := {"user", SERVICE_KIND, "agent", "system"}

  const MAX_HEADER_VALUE_SIZE := 8192

  /** The JSON encoder and decoder; encoding may fail. */
  datatype Codec = Codec(
    marshalClaims: Claims -> Option<seq<Byte>>,
    unmarshalClaims: seq<Byte> -> Option<Claims>,
    marshalChain: CallChain -> Option<seq<Byte>>,
    unmarshalChain: seq<Byte> -> Option<CallChain>)

  /** A JSON text is never empty, and what was marshalled unmarshals to itself. */
  ghost predicate GoodCodec(j: Codec) {
    && (forall c :: j.marshalClaims(c).Some? ==>
          j.marshalClaims(c).value != [] && j.unmarshalClaims(j.marshalClaims(c).value) == Some(c))
    && (forall c :: j.marshalChain(c).Some? ==>
          j.marshalChain(c).value != [] && j.unmarshalChain(j.marshalChain(c).value) == Some(c))
  }

  datatype HeaderError = MarshalFailed | TooLarge | DecodeFailed

  /** Encoding one JSON text as a header value. */
  function HeaderValue(json: Option<seq<Byte>>): Result<string, HeaderError> {
    if json.None? then Failure(MarshalFailed)
    else if |Encode(json.value)| > MAX_HEADER_VALUE_SIZE then Failure(TooLarge)
    else Success(Encode(json.value))
  }

  function SerializeClaims(j: Codec, claims: Claims): Result<string, HeaderError> {
    if |claims| == 0 then Success("") else HeaderValue(j.marshalClaims(claims))
  }

  function DeserializeClaims(j: Codec, encoded: string): Result<Claims, HeaderError> {
    if encoded == "" then Success(map[])
    else match Decode(encoded)
      case None => Failure(DecodeFailed)
      case Some(json) =>
        match j.unmarshalClaims(json) case None => Failure(DecodeFailed) case Some(claims) => Success(claims)
  }

  function SerializeCallChain(j: Codec, chain: CallChain): Result<string, HeaderError> {
    HeaderValue(j.marshalChain(chain))
  }

  function DeserializeCallChain(j: Codec, encoded: string): Result<Option<CallChain>, HeaderError> {
    if encoded == "" then Success(None)
    else match Decode(encoded)
      case None => Failure(DecodeFailed)
      case Some(json) =>
        match j.unmarshalChain(json) case None => Failure(DecodeFailed) case Some(chain) => Success(Some(chain))
  }

  /** Serialisation accepts exactly the JSON texts of at most 6144 bytes. */
  lemma AcceptedSizesExactly(json: seq<Byte>)
    ensures HeaderValue(Some(json)).Success? <==> |json| <= 6144
  {
    EncodedLength(json);
  }

  lemma CallChainRoundTrip(j: Codec, chain: CallChain)
    requires GoodCodec(j) && SerializeCallChain(j, chain).Success?
    ensures SerializeCallChain(j, chain).value != ""
    ensures DeserializeCallChain(j, SerializeCallChain(j, chain).value) == Success(Some(chain))
  {
    var json := j.marshalChain(chain).value;
    RoundTrip(json);
    EncodedLength(json);
  }

  lemma ClaimsRoundTrip(j: Codec, claims: Claims)
    requires GoodCodec(j) && SerializeClaims(j, claims).Success?
    ensures DeserializeClaims(j, SerializeClaims(j, claims).value) == Success(claims)
    ensures SerializeClaims(j, claims).value == "" <==> claims == map[]
  {
    if |claims| > 0 {
      var json := j.marshalClaims(claims).value;
      RoundTrip(json);
      EncodedLength(json);
    } else {
      assert claims == map[];
    }
  }

  type Headers = map<string, string>

  function Header(h: Headers, key: string): string {
    if key in h then h[key] else ""
  }

  /** The headers for an identity, filled one by one; any serialisation error gives up. */
  method IdentityToHeaders(j: Codec, identity: Identity, callerService: string, chain: Option<CallChain>)
    returns (r: Result<Headers, HeaderError>)
    ensures r == HeadersOf(j, identity, callerService, chain)
  {
    var headers := map[IDENTITY_ID := identity.id, IDENTITY_TYPE := identity.kind];
    if |identity.claims| > 0 {
      var encoded := SerializeClaims(j, identity.claims);
      if encoded.Failure? {
        return Failure(encoded.error);
      }
      headers := headers[IDENTITY_CLAIMS := encoded.value];
    }
    if callerService != "" {
      headers := headers[CALLER_SERVICE := callerService];
    }
    if chain.Some? {
      var encoded := SerializeCallChain(j, chain.value);
      if encoded.Failure? {
        return Failure(encoded.error);
      }
      headers := headers[CALL_CHAIN := encoded.value];
    }
    return Success(headers);
  }

  function With(h: Headers, present: bool, key: string, value: string): Headers {
    if present then h[key := value] else h
  }

  function HeadersOf(j: Codec, identity: Identity, callerService: string, chain: Option<CallChain>)
    : Result<Headers, HeaderError>
  {
    var claims := SerializeClaims(j, identity.claims);
    var encodedChain := match chain case Some(c) => SerializeCallChain(j, c) case None => Success("");
    if claims.Failure? then Failure(claims.error)
    else if encodedChain.Failure? then Failure(encodedChain.error)
    else
      var h := map[IDENTITY_ID := identity.id, IDENTITY_TYPE := identity.kind];
      var h := With(h, |identity.claims| > 0, IDENTITY_CLAIMS, claims.value);
      var h := With(h, callerService != "", CALLER_SERVICE, callerService);
      Success(With(h, chain.Some?, CALL_CHAIN, encodedChain.value))
  }

  datatype Received = Received(identity: Option<Identity>, callerService: string, chain: Option<CallChain>)

  /** identityFromHeaders, over a getter that yields "" for a missing key. */
  function IdentityFromHeaders(j: Codec, get: string -> string): Result<Received, HeaderError> {
    if get(IDENTITY_ID) == "" then Success(Received(None, "", None))
    else
      var kind := if get(IDENTITY_TYPE) in KINDS then get(IDENTITY_TYPE) else SERVICE_KIND;
      match DeserializeClaims(j, get(IDENTITY_CLAIMS))
      case Failure(e) => Failure(e)
      case Success(claims) =>
        match DeserializeCallChain(j, get(CALL_CHAIN))
        case Failure(e) => Failure(e)
        case Success(chain) =>
          Success(Received(Some(Identity(get(IDENTITY_ID), kind, claims)), get(CALLER_SERVICE), chain))
  }

  /** Some JSON text that is short enough for a header. */
  predicate Fits(json: Option<seq<Byte>>) {
    json.Some? && |json.value| <= 6144
  }

  /** The headers can be built exactly when the claims, if any, and the chain, if any, can be encoded in
      6144 bytes of JSON each. Otherwise the claims' error comes first, and tells apart what cannot be
      encoded from what is too large. */
  lemma HeadersSucceedExactly(j: Codec, identity: Identity, callerService: string, chain: Option<CallChain>)
    ensures var r := HeadersOf(j, identity, callerService, chain);
            var claimsFit := identity.claims == map[] || Fits(j.marshalClaims(identity.claims));
            && (r.Success? <==> claimsFit && (chain.Some? ==> Fits(j.marshalChain(chain.value))))
            && (!claimsFit ==>
                  r == Failure(if j.marshalClaims(identity.claims).None? then MarshalFailed else TooLarge))
            && (claimsFit && chain.Some? && !Fits(j.marshalChain(chain.value)) ==>
                  r == Failure(if j.marshalChain(chain.value).None? then MarshalFailed else TooLarge))
  {
    if identity.claims != map[] {
      assert |identity.claims| > 0;
      ValueExactly(j.marshalClaims(identity.claims));
    }
    if chain.Some? {
      ValueExactly(j.marshalChain(chain.value));
    }
  }

  lemma ValueExactly(json: Option<seq<Byte>>)
    ensures HeaderValue(json).Success? <==> Fits(json)
    ensures !Fits(json) ==> HeaderValue(json) == Failure(if json.None? then MarshalFailed else TooLarge)
  {
    if json.Some? {
      AcceptedSizesExactly(json.value);
    }
  }

  /** Headers without an identity ID carry no identity and nothing else; with one, they are refused exactly
      when the claims or the chain are there and cannot be decoded. */
  lemma ReadingExactly(j: Codec, get: string -> string)
    ensures var claims, chain := get("x-identity-claims"), get("x-call-chain");
            var claimsBad := claims != "" && (Decode(claims).None? || j.unmarshalClaims(Decode(claims).value).None?);
            var chainBad := chain != "" && (Decode(chain).None? || j.unmarshalChain(Decode(chain).value).None?);
            var r := IdentityFromHeaders(j, get);
            && (get("x-identity-id") == "" ==> r == Success(Received(None, "", None)))
            && (r.Success? <==> get("x-identity-id") == "" || (!claimsBad && !chainBad))
            && (r.Failure? ==> r == Failure(DecodeFailed))
            && (r.Success? && get("x-identity-id") != "" ==>
                  r.value.identity.Some? && r.value.identity.value.id == get("x-identity-id")
                  && (r.value.chain.None? <==> chain == "") && r.value.callerService == get("x-caller-service"))
  {
    KeysAreDistinct();
  }

  lemma KeysAreDistinct()
    ensures |IDENTITY_ID| == 13 && |IDENTITY_TYPE| == 15 && |IDENTITY_CLAIMS| == 17
    ensures |CALLER_SERVICE| == 16 && |CALL_CHAIN| == 12
  {
  }

  /** Every header carries its own part and no other's. */
  lemma HeadersCarry(j: Codec, identity: Identity, callerService: string, chain: Option<CallChain>)
    requires HeadersOf(j, identity, callerService, chain).Success?
    ensures var h := HeadersOf(j, identity, callerService, chain).value;
            && Header(h, "x-identity-id") == identity.id && Header(h, "x-identity-type") == identity.kind
            && Header(h, "x-identity-claims") == SerializeClaims(j, identity.claims).value
            && Header(h, "x-caller-service") == callerService
            && Header(h, "x-call-chain") ==
               (match chain case Some(c) => SerializeCallChain(j, c).value case None => "")
  {
    KeysAreDistinct();
    var h0: Headers := map[IDENTITY_ID := identity.id, IDENTITY_TYPE := identity.kind];
    var h1 := With(h0, |identity.claims| > 0, IDENTITY_CLAIMS, SerializeClaims(j, identity.claims).value);
    var h2 := With(h1, callerService != "", CALLER_SERVICE, callerService);
    assert Header(h0, IDENTITY_ID) == identity.id && Header(h0, IDENTITY_TYPE) == identity.kind;
    forall key
      ensures Header(h1, key) ==
              if key == IDENTITY_CLAIMS then SerializeClaims(j, identity.claims).value else Header(h0, key)
    {
    }
    forall key
      ensures Header(h2, key) == if key == CALLER_SERVICE then callerService else Header(h1, key)
    {
    }
  }

  /** Whenever serialisation succeeds, reading the headers gives back identity, caller service and call
      chain exactly when the identity has an ID and one of the four types. */
  lemma HeadersRoundTripExactly(j: Codec, identity: Identity, callerService: string, chain: Option<CallChain>)
    requires GoodCodec(j) && HeadersOf(j, identity, callerService, chain).Success?
    ensures var h := HeadersOf(j, identity, callerService, chain).value;
            IdentityFromHeaders(j, key => Header(h, key)) ==
              Success(Received(Some(identity), callerService, chain)) <==>
              identity.id != "" && identity.kind in {"user", "service", "agent", "system"}
  {
    HeadersCarry(j, identity, callerService, chain);
    ClaimsRoundTrip(j, identity.claims);
    if chain.Some? {
      CallChainRoundTrip(j, chain.value);
    }
  }

  /** An identity of another type arrives as a service, with everything else intact. */
  lemma UnknownTypeBecomesService(j: Codec, identity: Identity, callerService: string, chain: Option<CallChain>)
    requires GoodCodec(j) && HeadersOf(j, identity, callerService, chain).Success?
    requires identity.id != "" && identity.kind !in {"user", "service", "agent", "system"}
    ensures var h := HeadersOf(j, identity, callerService, chain).value;
            IdentityFromHeaders(j, key => Header(h, key)) ==
              Success(Received(Some(identity.(kind := "service")), callerService, chain))
  {
    HeadersCarry(j, identity, callerService, chain);
    ClaimsRoundTrip(j, identity.claims);
    if chain.Some? {
      CallChainRoundTrip(j, chain.value);
    }
  }
}
