# Verified model of the StricklySoft core SDK

A Dafny 4.11 model of the parts of the Go SDK that hold state or structure, with proofs of what they
promise. `dafny verify dfyconfig.toml` checks everything.

| files | what they model |
|---|---|
| `Lifecycle`, `AgentProtocol`, `AgentLives`, `SerialAgent`, `Agent` | the agent state machine; Start, Stop, Pause and Resume cut at every lock release and interleaved over any number of threads; whose start time a running agent reports; the same operations called serially; the object they update |
| `TokenCache`, `ValidateProtocol` | the cache of validated tokens with expiry and two-stage eviction; concurrent Validate calls around it |
| `Jwks` | key collection from a JWKS response, the per-URL key cache under concurrent getKey calls, OIDC discovery |
| `Permissions`, `PermissionSet`, `ClaimGrants` | permission parsing, printing and matching; the three-index permission set; permissions from token claims |
| `Base64Url`, `Propagation`, `CallChains` | header values, identity headers, and the call chain over any run of gRPC and HTTP hops |
| `ConfigSchema`, `ConfigLoader` | defaults, file and environment layered over a tagged struct in place; required fields |
| `K8sClaims` | service account claims in three formats |
| `Strings`, `Wrappers` | Go's string functions as used above; Option and Result |

## How the model reads the source

- A protocol is a step function over a configuration of shared state and one program counter per thread. A run is
  any sequence of actions; an action whose thread is elsewhere changes nothing. Statements about runs
  hold for every interleaving.
- Every `time.Now` is its own clock reading. In the cache protocols the readings never go backwards.
- Map iteration picks an arbitrary next key. Hook outcomes, verification verdicts, HTTP responses and file
  contents are inputs of the step that receives them.
- Hashing, JSON encoding, key reconstruction and scalar parsing are parameters. `ValidateProtocol.GoodHash` takes the token
  hash to be injective and never empty; `Propagation.GoodCodec` takes a marshalled value to be non-empty and
  to unmarshal to itself, which JSON gives for values that came from JSON.
- A config struct is its field tree and an array with one slot per leaf in preorder; the passes write the array.
- A length counts characters, which for tokens and header values are bytes.
- A panic in a hook ends the call where it stands; a panicking state change handler is recovered, as in the code.

## What turned out differently from the documentation

- "Running implies a start time" (pkg/lifecycle/agent.go:473-475) fails in some interleavings: a Resume whose hook
  outlives a Stop can commit Running in the middle of the next Start. `StaleResumeWitness` gives the run,
  `StartKnownExactly` the exact condition, `StartKnownWithoutOverlap` the overlap condition that rules it out.
- Even where nobody calls Stop, a running agent may report the start time of an earlier life: a Resume that
  commits in the middle of a restart after a failure (`PreviousLifeWitness`; exact condition
  `OfThisLifeExactly`, overlap condition `OfThisLifeWithoutOverlap`).
- `put` does not skip a token that has already expired (comment at pkg/auth/jwt.go:341): one accepted within the clock skew is
  cached for the full TTL, whatever the cache holds. `EffectiveTtlIsTheMinimumExactly` says when the documented minimum holds,
  `ExpiredTokenIsCached` shows the failing family.
- `Permission.String` and the parser are inverse except for a `*` scope and for parts containing colons
  (`RoundTripExactly`); `ParsesExactly` says which text stands for which permission.
- A call chain already present in outgoing gRPC metadata shadows the propagated one; over HTTP it is
  overwritten. A propagating hop delivers the extended chain exactly when nothing older stands before it
  (`DeliversExactly`, over whole runs `WindowThroughoutExactly`); `StaleChainWins` is the failing family,
  `StaleChainWitness` an input where one user's request arrives with another's chain.
- An ID built for a Kubernetes service account reads back only when neither part contains a colon
  (`BuiltIdReparses`).
- A default tag that does not parse fails the load even when the file or the environment would override it
  (`LoadSucceedsExactly`, `BadDefaultFailsTheLoad`, with an input in `BadDefaultWitness`).
- An unsupported file extension is an error (comment at pkg/config/loader.go:99) only when something is at the path
  (`UnsupportedExtensionExactly`).

## Model

| member | source | states |
|---|---|---|
| Lifecycle.TransitionGraph | pkg/lifecycle/state.go:134-162 | who may enter each state: Failed from the live states, Starting from Unknown and the terminal ones, Running from Starting and Paused, Paused from Running, Stopping from these three, Stopped from Stopping, Unknown from nowhere; a terminal state leads only to Starting |
| Lifecycle.RestartsArePaidFor | pkg/lifecycle/state.go:134-142 | on every path the entries into Starting number at most one more than the entries into Stopped or Failed |
| Lifecycle.StartsAreSeparated | pkg/lifecycle/state.go:134-142 | between two Starting-to-Running transitions of a path there is an entry into Stopped or Failed |
| AgentProtocol.EveryRunIsRecorded | pkg/lifecycle/agent.go:359-397 | in every interleaving the committed transitions are a path from Unknown to the current state, and the handlers were called exactly one round per transition, in registration order |
| AgentProtocol.EachHandlerSeesTheLog | pkg/lifecycle/agent.go:377-394 | in every interleaving each handler has seen exactly the transition log |
| AgentProtocol.HandlersAreCalledInOrder | pkg/lifecycle/agent.go:377-394 | in every interleaving call number i * handlers + j is that of handler j with transition i: commit by commit, by ascending registration index |
| AgentProtocol.StoppedByWayOfStopping | pkg/lifecycle/state.go:134-142 | in every interleaving Stopped is entered right after Stopping, and Paused right after Running |
| AgentProtocol.SetStateExactly | pkg/lifecycle/agent.go:359-397 | SetState takes an allowed transition and tells every handler, or changes nothing |
| AgentProtocol.EveryEntryIsAnswered | pkg/lifecycle/agent.go:447-705 | in every interleaving Starts and Resumes that returned nil number exactly the entries into Running, Pauses that returned nil the entries into Paused, and no entry into Stopped is without a Stop that returned nil |
| AgentProtocol.SuccessfulStartsAreBounded | pkg/lifecycle/agent.go:447-484 | in every interleaving, Start calls that returned nil number at most one plus the entries into Stopped or Failed |
| AgentProtocol.RunningTwiceNeedsRest | pkg/lifecycle/agent.go:447-484 | in every interleaving, between two transitions from Starting to Running the agent entered Stopped or Failed |
| AgentProtocol.StepKeepsStartKnown | pkg/lifecycle/agent.go:667-696 | from a state where Running or Paused implies a start time, one step loses it exactly when it is a Resume committing from Starting with no start time |
| AgentProtocol.StartKnownExactly | pkg/lifecycle/agent.go:473-484 | a run keeps the start time throughout if and only if no such stale Resume occurs in it |
| AgentProtocol.StartKnownWithoutOverlap | pkg/lifecycle/agent.go:554-562 | if no Stop completes between a Resume's check and its commit, Running or Paused, and a Resume in flight, imply a start time, in every interleaving |
| AgentProtocol.StaleResumeWitness | pkg/lifecycle/agent.go:693 | a run of three threads that ends Running without a start time |
| AgentProtocol.StoppedHasNoStartTime | pkg/lifecycle/agent.go:554-562 | in every interleaving with external SetState limited to Failed, Stopped implies no start time |
| AgentProtocol.FailedHookEndsAtRest | pkg/lifecycle/agent.go:461-470 | right after the SetState(Failed) that follows a failing hook, accepted or rejected, the state is terminal, in every interleaving |
| AgentLives.OfThisLifeExactly | pkg/lifecycle/agent.go:473-484 | throughout a run the start time of a running or paused agent is that of the latest Start completed since the last entry into Starting, if and only if no Resume commits from Starting |
| AgentLives.OfThisLifeWithoutOverlap | pkg/lifecycle/agent.go:667-696 | if no entry into Starting falls between a Resume's check and its commit, the start time is that of the current life, in every interleaving |
| AgentLives.PreviousLifeWitness | pkg/lifecycle/agent.go:693 | a run without any Stop that ends Running with the start time of the life before |
| SerialAgent.UninterruptedCall | pkg/lifecycle/agent.go:430-705 | a call no other thread interrupts visits the states, leaves the state and gives the answer of a table over (state, cancelled, hook result), and moves no other thread |
| SerialAgent.AnswersMeanExactly | pkg/lifecycle/agent.go:430-705 | nil exactly when the agent was taken to the operation's state, or a Stop found it at rest; timeout exactly for a cancelled context, conflict exactly for a wrong state, and both change nothing; a hook error leaves it Failed |
| SerialAgent.SerialRunIsARun | pkg/lifecycle/agent.go:430-705 | the protocol run one whole call after another, on any threads, leaves the state and gives the answers of the folded table, with no thread inside a call |
| SerialAgent.SerialRunsSettle | pkg/lifecycle/agent.go:293-312 | in every serial run without hook panics the agent is never left in Starting or Stopping, and Info reports exactly while Running the reading of the latest successful Start, across any pauses |
| SerialAgent.LeftInBetweenExactly | pkg/lifecycle/agent.go:447-562 | after a settled run, a call leaves Starting or Stopping exactly when it is an accepted Start or Stop whose hook panics |
| Agent.BaseAgent.SetStateLocked | pkg/lifecycle/agent.go:368-397 | the object commits exactly the specified transition, notifies every handler in order and logs exactly the panics, whatever subset panics |
| Agent.BaseAgent.CommitStarted | pkg/lifecycle/agent.go:476-484 | the closing section of Start moves to Running and sets the start time together, or changes nothing |
| Agent.BaseAgent.CommitStopped | pkg/lifecycle/agent.go:555-562 | the closing section of Stop moves to Stopped and clears the start time together, or changes nothing |
| Agent.BaseAgent.StartAgent | pkg/lifecycle/agent.go:430-493 | the object follows the serial table on Start |
| Agent.BaseAgent.StopAgent | pkg/lifecycle/agent.go:506-571 | the object follows the serial table on Stop |
| Agent.BaseAgent.PauseAgent | pkg/lifecycle/agent.go:582-639 | the object follows the serial table on Pause |
| Agent.BaseAgent.ResumeAgent | pkg/lifecycle/agent.go:650-705 | the object follows the serial table on Resume |
| Agent.BaseAgent.Info | pkg/lifecycle/agent.go:293-312 | the reported start time and uptime |
| TokenCache.Cache.Get | pkg/auth/jwt.go:311-323 | an entry is returned up to and including its expiry |
| TokenCache.Cache.EvictExpiredLocked | pkg/auth/jwt.go:383-390 | exactly the entries expired at the reading are removed, for any iteration order |
| TokenCache.Cache.OldestKey | pkg/auth/jwt.go:351-361 | the scan finds an entry of minimal expiry, for any iteration order |
| TokenCache.Cache.Put | pkg/auth/jwt.go:330-371 | put leaves one of the maps PutResult allows |
| TokenCache.PutKeepsCapacity | pkg/auth/jwt.go:346-365 | with a non-empty key and a positive capacity the size stays within the capacity |
| TokenCache.PutEvictsMinimally | pkg/auth/jwt.go:346-390 | below capacity no key goes; at capacity exactly the keys expired at the third reading go, and only if the others fill the cache exactly one more, of minimal expiry among them; survivors keep their values |
| TokenCache.PutSkipsExactly | pkg/auth/jwt.go:334-345 | put stores nothing exactly when the configured TTL is not positive |
| TokenCache.EffectiveTtlIsTheMinimumExactly | pkg/auth/jwt.go:334-342 | the lifetime granted is the documented minimum exactly when the token is alive at the first reading or the TTL does not exceed what remains |
| TokenCache.ExpiredTokenIsCached | pkg/auth/jwt.go:337-342 | an already expired token is stored for the full TTL, and served until then, whatever the cache held before |
| ValidateProtocol.Validate | pkg/auth/jwt.go:673-765 | a hit returns the cached identity and changes nothing, a failed verification changes nothing, a success is put under the token's exp |
| ValidateProtocol.UninterruptedCall | pkg/auth/jwt.go:673-765 | the steps of the protocol taken without interruption have the effect and the answer of Validate |
| ValidateProtocol.LiveEntriesAreServed | pkg/auth/jwt.go:691-700 | a lookup answers from the cache exactly when an unexpired entry is there; otherwise it goes on to verify |
| ValidateProtocol.StoreThenHit | pkg/auth/jwt.go:311-371 | a stored identity is served to the next request for its token up to and including its expiry, and not after |
| ValidateProtocol.OnlyAcceptableTokens | pkg/auth/jwt.go:673-690 | in every interleaving only tokens of 1 to 8192 characters reach the cache or the verifier |
| ValidateProtocol.HitsAreJustified | pkg/auth/jwt.go:691-756 | in every interleaving a hit returns the identity of the latest store for that token, which an earlier successful verification of it produced, put at most ttl before, and no later than exp plus t2 - t1 if the token was alive at t1 |
| ValidateProtocol.CapacityHolds | pkg/auth/jwt.go:346-371 | in every interleaving the cache stays within its capacity |
| Jwks.CollectKeys | pkg/auth/jwt.go:513-533 | a kid is present exactly when a usable member carries it, and stands for the last such member |
| Jwks.KeyMapIsUnique | pkg/auth/jwt.go:513-533 | the response determines its key map |
| Jwks.KeyMapMeaning | pkg/auth/jwt.go:513-533 | a kid is in the map exactly when a readable RSA or EC member carries it, and its key is read from the own parameters of the last such member |
| Jwks.JwksCache.GetKey | pkg/auth/jwt.go:426-458 | hit, failed fetch, stored response and missing kid, with the new cache in each case |
| Jwks.UninterruptedCall | pkg/auth/jwt.go:426-458 | the steps of the protocol taken without interruption have the effect and the answer of GetKey |
| Jwks.FreshKeysAreServed | pkg/auth/jwt.go:426-439 | a lookup answers from the cache exactly when the keys are younger than ttl and hold the kid; otherwise the thread fetches |
| Jwks.StoreThenServe | pkg/auth/jwt.go:426-451 | stored keys are served to the next request for a kid some readable member carries, while younger than ttl |
| Jwks.EveryRunIsSound | pkg/auth/jwt.go:446-451 | in every interleaving each cached entry is the whole key map of the response stored last for its URL, and nothing else is cached |
| Jwks.AnswersAreJustified | pkg/auth/jwt.go:426-458 | in every interleaving an answer is for what its own call asked; a key from cache was stored last for the URL, less than ttl ago; a fetched key and "kid not found" rest on what that very call fetched; keys are those of the last usable member |
| Jwks.OwnFetchIsInTheCall | pkg/auth/jwt.go:441 | that fetch lies after the call's request, with no other request or fetch of the thread in between or since |
| OidcDiscovery.FirstDiscoveryIsKept | pkg/auth/jwt.go:936-952 | over every run, after the first discovered URL every call returns it and no further request is sent |
| Permissions.MatchMeaning | pkg/auth/identity.go:251-258 | a permission covers itself, nothing outside a concrete resource, action or scope, and with "*" in one place whatever may stand there and nothing more elsewhere; an empty scope on either side is as good as "*" |
| Permissions.ParsesExactly | pkg/auth/rbac.go:218-243 | a text parses to a permission if and only if it is its resource, action and, unless empty, scope joined by colons, with resource and action non-empty and colon-free |
| Permissions.OutcomesExactly | pkg/auth/rbac.go:218-243 | what a text of each shape gives: the permission, or which of the four errors |
| Permissions.EveryTextHasAShape | pkg/auth/rbac.go:218-243 | every text has one of those shapes |
| Permissions.ParseOfString | pkg/auth/identity.go:267-272 | a permission with non-empty colon-free resource and action prints to a text that parses to it up to a "*" scope, colons in the scope included |
| Permissions.RoundTripExactly | pkg/auth/identity.go:260-272 | parsing undoes printing exactly for printable permissions whose scope is not "*" |
| Permissions.ReprintedText | pkg/auth/rbac.go:218-243 | the permission of any accepted text prints to a text with the same grants; text and permission come back unchanged exactly unless the scope is "*" |
| Permissions.ParseIsInjective | pkg/auth/rbac.go:218-243 | different accepted texts are different permissions |
| PermissionSets.NewPermissionSet | pkg/auth/rbac.go:370-395 | the set indexes the list: exact and wildcard parts partition the deduplicated list, anyScope is the projection of exact |
| PermissionSets.IndexPartitions | pkg/auth/rbac.go:343-395 | every listed permission is in exactly one of the exact map and the wildcard slice, in the slice exactly when a part of it is "*"; Has finds exactly the listed ones without "*" |
| PermissionSets.MatchIsAScan | pkg/auth/rbac.go:427-457 | Match on the set equals a linear scan of the original list for every request |
| PermissionSets.DedupSpec | pkg/auth/rbac.go:376-384 | the kept list has each permission once, ordered by first occurrence |
| PermissionSets.ListsOnceIsUnique | pkg/auth/rbac.go:376-384 | there is only one such list |
| PermissionSets.HasPermission | pkg/auth/identity.go:441-448 | the scope-unaware loop answers as a scan with the empty scope |
| ClaimGrants.ParseScopePermissions | pkg/auth/rbac.go:176-195 | the well-formed tokens of a scope string, in order |
| ClaimGrants.ClaimsToPermissions | pkg/auth/rbac.go:85-147 | the first-occurrence deduplication of direct grants, role grants and scope tokens, malformed entries skipped |
| ClaimGrants.GrantedExactly | pkg/auth/rbac.go:85-147 | the list holds, once each, exactly what a "permissions" entry, a known role in "roles" or a word of "scope" grants; direct grants first, then those only roles grant, then those only the scope grants |
| ClaimGrants.SourcesAreInOrder | pkg/auth/rbac.go:100-190 | inside each source the order is that of the claim, and a role's permissions come as listed |
| ClaimGrants.AllReadersAgree | pkg/auth/rbac.go:85-195 | NewPermissionSet keeps the returned list, and Match, a scan of the list and a scan of the undeduplicated sources agree on every request |
| ClaimGrants.ScopeClaimRoundTrip | pkg/auth/rbac.go:176-195 | a scope claim printed from permissions grants exactly them, in order |
| Strings.FieldsExactly | pkg/auth/rbac.go:181 | words are the tokens of a text if and only if they hold no white space and the text is those words in order, with white space and nothing else between them |
| Strings.SplitNJoins | pkg/auth/rbac.go:219 | splitting a permission string loses nothing and cuts as early as it can |
| Base64Url.RoundTrip | pkg/auth/propagation.go:95-113 | unpadded base64url decoding undoes encoding on all bytes |
| Base64Url.SameBits | pkg/auth/propagation.go:95 | four digits are the 24 bits of their three bytes, most significant first |
| Base64Url.DecodesExactly | pkg/auth/propagation.go:108-113 | a text decodes exactly when it is of the alphabet and leaves no lone digit |
| Base64Url.EncodedLength | pkg/auth/propagation.go:95-98 | four characters for three bytes, rounded up |
| Propagation.AcceptedSizesExactly | pkg/auth/propagation.go:61-99 | serialisation accepts exactly the JSON texts of at most 6144 bytes |
| Propagation.CallChainRoundTrip | pkg/auth/propagation.go:129-160 | a serialised call chain deserialises to itself and is never the empty string |
| Propagation.ClaimsRoundTrip | pkg/auth/propagation.go:87-121 | serialised claims deserialise to themselves, and only empty claims give the empty string |
| Propagation.IdentityToHeaders | pkg/auth/propagation.go:165-199 | the headers built step by step, and which error wins |
| Propagation.HeadersSucceedExactly | pkg/auth/propagation.go:87-199 | the headers can be built exactly when claims and chain, where present, encode in 6144 bytes of JSON each; which error comes otherwise |
| Propagation.ReadingExactly | pkg/auth/propagation.go:208-255 | no ID means no identity and no error; with an ID, reading fails exactly when claims or chain are there and cannot be decoded |
| Propagation.HeadersRoundTripExactly | pkg/auth/propagation.go:208-255 | reading the headers gives back identity, caller and chain exactly for a non-empty ID and a valid type |
| Propagation.UnknownTypeBecomesService | pkg/auth/propagation.go:214-227 | an identity of another type arrives as a service, all else intact |
| CallChains.AppendCaller | pkg/auth/identity.go:518-533 | the new caller comes last, the newest 31 before it are kept, the origin stays |
| CallChains.OutgoingExactly | pkg/auth/grpc.go:163-193 | a sender leaves the request as it is exactly when it has no identity, or claims or extended chain do not fit |
| CallChains.ReadsExactly | pkg/auth/grpc.go:143-156 | a received chain is read exactly when it decodes and unmarshals, and is ignored otherwise |
| CallChains.PropagateToGrpc | pkg/auth/grpc.go:163-210 | old metadata values come first, one header value is appended per key, for any order; nothing changes without identity or on a serialisation error |
| CallChains.PropagateToHttp | pkg/auth/http.go:118-156 | the headers are set on the clone for any order; nothing changes without identity or on a serialisation error |
| CallChains.CleanHopDelivers | pkg/auth/grpc.go:142-156 | over either transport the next service finds exactly the extended chain, or none |
| CallChains.StaleChain | pkg/auth/grpc.go:203-207 | a stale chain shadows the new one over gRPC and is overwritten over HTTP |
| CallChains.DeliversExactly | pkg/auth/grpc.go:203-207 | a propagating hop delivers the extended chain if and only if it goes over HTTP, or the metadata holds no chain, or one that already reads as the extended chain |
| CallChains.StaleChainWins | pkg/auth/grpc.go:203-207 | whatever serialised chain the metadata already holds first is the one that arrives |
| CallChains.StaleChainWitness | pkg/auth/grpc.go:142-156 | an input where the new chain is lost and one of another origin arrives |
| CallChains.AppendAllIsAWindow | pkg/auth/identity.go:518-533 | truncating after every append leaves the newest 32 of all callers, or all of them, as truncating once does |
| CallChains.ChainIsAWindow | pkg/auth/identity.go:518-533 | over every run of hops whose headers serialise, gRPC metadata being free of chains and HTTP requests arbitrary, the origin is the first sender's and the callers are the newest 32, or all, of the initial ones and every hop's service and identity in order |
| CallChains.WindowThroughoutExactly | pkg/auth/identity.go:518-533 | every service of a run finds that window if and only if no hop's chain is shadowed |
| CallChains.SkippedHopRestarts | pkg/auth/http.go:138-147 | a hop that does not propagate cuts the chain, and the run goes on as if it started there |
| ConfigLoader.ApplyDefaults | pkg/config/loader.go:223-259 | every settable zero leaf gets its parsed default; on an error earlier leaves hold theirs, the first offending leaf is named, and it and all later ones are untouched |
| ConfigLoader.ApplyEnv | pkg/config/loader.go:268-319 | the same for the environment, under keys joined from the prefix, the ancestors' tags and the leaf's tag |
| ConfigLoader.SetField | pkg/config/loader.go:331-388 | the slot holds the parsed value, or is left alone on an error |
| ConfigSchema.ExtendIsJoin | pkg/config/loader.go:284-305 | accumulating prefixes part by part is joining the non-empty parts with the separator |
| ConfigSchema.EnvKeysAre | pkg/config/loader.go:284-305 | prefix, ancestors' tags and own tag in this order, with an underscore between those there are |
| ConfigSchema.LeavesAreTrails | pkg/config/loader.go:223-305 | the leaves are exactly the ends of the ways down the field tree, each settable when all fields on its way are exported, with their tags and names |
| ConfigSchema.ParsesAs | pkg/config/loader.go:331-388 | what a text becomes in a field of each scalar kind, and when it is refused |
| ConfigSchema.SliceParsesAs | pkg/config/loader.go:362-380 | a string slice holds the comma-separated parts, each without the white space around it |
| ConfigSchema.ZeroValues | pkg/config/loader.go:248 | the values that count as zero |
| ConfigSchema.RanIsUnique | pkg/config/loader.go:223-319 | a stage's outcome, values and first failing leaf, is determined by its input |
| ConfigLoader.MissingIsFirst | pkg/config/validation.go:66-102 | validateRequired fails exactly when a required settable leaf is zero and names the dotted path of the preorder-first one |
| ConfigLoader.Load | pkg/config/loader.go:125-157 | anything but a pointer to a struct is refused; else the stages in order, the error is that of the first stage that fails and the values are those left so far |
| ConfigLoader.UnsupportedExtensionExactly | pkg/config/loader.go:183-219 | an unsupported extension is refused exactly when the path traverses upwards or something is found there; else the load goes on as without a file |
| ConfigLoader.ExtensionIs | pkg/config/loader.go:199 | the extension is the part from the last dot of the last path element, in lower case |
| ConfigLoader.NoExtension | pkg/config/loader.go:199 | a last path element without a dot has no extension, whatever its directories are called |
| ConfigLoader.Validate | pkg/config/validation.go:41-61 | required leaves come first, then the configuration's own check |
| ConfigLoader.LoadResolvesEveryLeaf | pkg/config/loader.go:138-156 | a successful load leaves each leaf with env, else file, else non-zero or untagged initial, else default value, and no required leaf zero |
| ConfigLoader.LayersInOrder | pkg/config/loader.go:138-219 | the same written out for one leaf, down to the file's YAML or JSON slots chosen by extension |
| ConfigLoader.HalfReadFile | pkg/config/loader.go:144-148 | a file that fails half-way fails the load; what it wrote stays and the rest holds its default or what it was |
| ConfigLoader.RefusedFilesExactly | pkg/config/loader.go:183-219 | which paths and files stop a load |
| ConfigLoader.LoadSucceedsExactly | pkg/config/loader.go:125-157 | a load succeeds if and only if every consulted text parses, the file is readable, and the resolved values pass validation |
| ConfigLoader.BadDefaultFailsTheLoad | pkg/config/loader.go:223-259 | the first consulted default that does not parse fails the load with its field's name, whatever the file and the environment hold |
| ConfigLoader.BadDefaultWitness | pkg/config/loader.go:138-142 | an input whose environment value the priority rule would take and whose load fails on the default |
| K8sClaims.ParseServiceAccountClaims | pkg/auth/k8s.go:80-138 | namespace and name each come from the first of the nested, flat and subject forms that has them |
| K8sClaims.AccountExactly | pkg/auth/k8s.go:123-137 | the ID is the subject claim, or built from namespace and name; refused exactly when one is missing, the namespace first |
| K8sClaims.NestedFormWins | pkg/auth/k8s.go:84-95 | a namespace and a name in the nested claim are the account's |
| K8sClaims.FlatFormIsNext | pkg/auth/k8s.go:97-107 | without the nested claim the flat claims decide, one by one |
| K8sClaims.SubjectExactly | pkg/auth/k8s.go:109-122 | a subject is taken apart exactly when it is system:serviceaccount:namespace:name |
| K8sClaims.BuiltSubjectExactly | pkg/auth/k8s.go:111-121 | a subject built from namespace and name splits back into them exactly when neither contains a colon |
| K8sClaims.BuiltIdReparses | pkg/auth/k8s.go:131-135 | a built ID, read as a lone subject claim, gives the same account exactly when neither part contains a colon |

## Left out

- ValidateProtocol.HitsAreJustified: takes the token hash to be injective, where SHA-256 is only collision resistant.
- JSON and YAML encoding, HTTP transport, signature checking and RSA or EC reconstruction: foreign code, taken as parameters.
- CallChains.AppendCaller: the original slice is a value here, so the absence of aliasing is not stated.
- `WithEnvPrefix`'s upper-casing is done before the call; what a file's bytes decode to is an input, once as YAML and once as JSON.
- Validate's routing by issuer and algorithm and the classification of errors: only success or failure reaches the cache.
- Bearer token extraction and the authentication step of the interceptors: the identity a service validated is an input of its hop.
- Spans, logging, contexts as carriers, capability cloning and the builders: no state the properties speak about.
- Roles, the default role table and the permission list's defensive copies: single-branch facts.
- The database, object store, vector and cache clients under pkg/clients, pkg/errors and pkg/models: wrappers without shared state.
