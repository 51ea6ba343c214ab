# A verified model of authzen

A Dafny model of five parts of the authzen Go module, and proofs of what they
promise:

- the **approval store** (`approval/store.go`): approvals that expire lazily, are
  decided at most once, are swept, and are reported to a hook outside the lock;
- the **MCP challenge** (`mcp/challenge.go`) and the **enforcer** built on it
  (`mcp/middleware.go`): printing, parsing and relaying a WWW-Authenticate header
  (section 3 of RFC 6750, section 2.1 of RFC 7235, section 3.2.6 of RFC 7230);
- **batch evaluation** (`evaluations.go`, `server/server.go`): defaulting and the
  short-circuiting semantics (sections 7.1.1 and 7.1.2.1 of the OpenID AuthZEN
  Authorization API 1.0) against a PDP that overwrites what it is given;
- the **gRPC codec** (`grpc/conv.go`) against the core types and their JSON form;
- the **access-request validator** (`accessrequest/validate.go`).

`dafny verify dfyconfig.toml` checks everything.

## How the model is laid out

| file | what it holds |
|---|---|
| `Wrappers`, `References`, `Values` | Option and Result; the pointer, slice or map a Go struct shares; free-form values and their trip through JSON |
| `ApprovalModel` | the lifecycle on values: what each locked section does, answers and owes to the hook; the invariant of every store |
| `ApprovalEager` | the same calls on a store that expires records at their deadline; the simulation |
| `ApprovalPromises` | what each call records, answers and reports, field by field |
| `ApprovalProtocol`, `ApprovalHistory` | the store as a step system: locked sections and hook calls of any number of callers, interleaved; decisions and polls over whole runs |
| `ApprovalObjects`, `ApprovalStore` | the approval and the store on the heap, method by method, proved against `ApprovalModel` |
| `ChallengeText`, `ChallengeScanner`, `ChallengeGrammar`, `Challenges` | text operations, the index-driven scanner, the grammar it implements, the header |
| `ChallengePromises` | the header in terms of its characters: white space, the case of names, repeated names, escapes and the order of fields |
| `DenyContexts`, `Enforcement` | the challenge inside a decision context, and the middleware |
| `Evaluations`, `BatchSemantics` | requests, defaulting and validation on values; what a batch must return |
| `EvaluationObjects`, `BatchEvaluation` | requests on the heap, `Resolved`, `Validate`, and the evaluation loop |
| `WireCodec`, `ResponseBindings`, `OptionsCodec` | the gRPC conversions and the JSON shapes |
| `AccessRequest` | submissions and their validation |

In the step system a locked section is one step, with its readings of the clock,
and a hook call is another; approvals that are owed to the hook and calls
that were made are both part of the state, and so is the set of ids ever minted.
On the heap, a class keeps its objects in a ghost `Repr` and what they hold in a
ghost `Value`. The hook and the PDP are the environment: each notes what it is
given and then overwrites it arbitrarily, the PDP with all it was given before.

## Results that differ from the documentation

- `approval/store.go:96` promises one hook call for every approval that reaches a
  terminal state, and so it is. For a deleted approval the count is one if and only if it was no longer pending when it was deleted
  (`ApprovalProtocol.ExactlyOnceUnlessDeletedPending`); one past its deadline
  whose expiry no call has observed still counts as pending, and the hook never
  hears of it (`ApprovalProtocol.DeletedPendingExample` shows a run).
- Sending a batch request over gRPC does not commute with defaulting when a
  member clears a top-level context with a present but empty one; that is the
  only case (`WireCodec.WireCommutesWithDefaulting`, `WireCodec.ClearingIsLost`).
- A response that sets both shapes reads differently over JSON and gRPC, except
  when its one member repeats its decision (`ResponseBindings.DecisionsAgreeExactly`,
  `ResponseBindings.TwoShapesDiffer`).
- An unknown semantic is rejected by validation before the wire and accepted after
  it (`WireCodec.WireKeepsValidation`, `WireCodec.MisspeltIsForgiven`), though the
  same answers make the same outcome (`WireCodec.WireKeepsOutcome`).
- Options whose additional keys include `evaluations_semantic` do not survive JSON
  (`OptionsCodec.OptionsRoundTrip`, `OptionsCodec.ReservedKeyIsTaken`,
  `OptionsCodec.ReservedKeyExamples`).
- The deadline is exact up to an `expires_in` of 9223372036 seconds and for no
  larger one, and `Create` sets no bound (`ApprovalModel.DeadlineIsExact`); one
  second more and the approval has expired as soon as it is created
  (`ApprovalModel.OneSecondTooLong`).

## Model

| member | source | states |
|---|---|---|
| ApprovalEager.NewStoresAgree | approval/store.go:215-463 | under a clock that never goes back, not even within a sweep, every run of calls on the lazily expiring store gets the replies of a store that expires each record at its deadline by itself |
| ApprovalEager.LazyIsEager | approval/store.go:215-463 | the same from any pair of related stores: the induction over runs |
| ApprovalEager.CallSimulates | approval/store.go:215-463 | one call of any kind gives the same reply on related stores and leaves them related |
| ApprovalProtocol.ResolvedExactlyOnce | approval/store.go:261-415 | in every reachable interleaving, hook calls made plus owed for an id are one if its record left the pending state and none otherwise, and each carries the final terminal approval, which the store still holds unless it was removed |
| ApprovalProtocol.GoneStaysGone | approval/store.go:372-415 | once an id is gone no later step brings it back, and the hook calls made and owed for it stay as they are |
| ApprovalProtocol.DeleteDecidesTheCount | approval/store.go:368-380 | after a delete and any further run, the hook calls made and owed for the id are none if the record was pending when it was deleted, past its deadline or not, and one otherwise |
| ApprovalProtocol.ExactlyOnceUnlessDeletedPending | approval/store.go:96-107 | in every run from a new store in which an approval is deleted, the hook hears of it exactly once if and only if it was no longer pending at the delete |
| ApprovalProtocol.DeletedPendingExample | approval/store.go:372-380 | a run that creates an approval and deletes it, of which the hook hears nothing |
| ApprovalHistory.DecisionsAreSafe | approval/store.go:261-366 | over every interleaving at most one Approve, Deny or Cancel of an id succeeds; a poll says approved exactly when an Approve of the id succeeded before it, denied exactly when a Deny did, canceled exactly when a Cancel did, and then it shows every field as that decision answered it |
| ApprovalProtocol.RunKeepsResolving | approval/store.go:261-482 | the invariant behind both holds in every reachable state |
| ApprovalProtocol.FiredAreTheOnesThatLeft | approval/store.go:261-310 | what a locked section owes to the hook is exactly the records that its own effect takes out of the pending state |
| ApprovalModel.ApplyKeepsInv | approval/store.go:215-463 | every locked section keeps: key is the id, pending iff a positive lifetime remains, terminal iff it is zero, a positive interval, and the size cap |
| ApprovalModel.PollIsNeverStale | approval/store.go:261-278 | a poll never answers with a pending approval at or after its deadline, and answers a pending one with the expires_in it was created with |
| ApprovalModel.DecidedOnlyBeforeDeadline | approval/store.go:431-463 | a decision is accepted if and only if the record is pending and the expiry check falls before the deadline, whatever decidedAt is read later |
| ApprovalModel.DeadlineIsExact | approval/store.go:452-463 | int64 nanosecond arithmetic gives the true deadline if and only if expires_in is at most 9223372036 |
| ApprovalModel.OneSecondTooLong | approval/store.go:452-463 | at 9223372037 seconds an approval is due when it is created, at 9223372036 it is not |
| ApprovalModel.TerminalIsImmutable | approval/store.go:431-445 | no operation changes a terminal record except to remove it |
| ApprovalModel.SweepConserves | approval/store.go:392-415 | the count a sweep returns plus the records it leaves is the number there were |
| ApprovalModel.SweepLeavesLiveRecords | approval/store.go:392-415 | a sweep leaves a record if and only if it is still pending before its deadline at the instant the sweep looks at it, and leaves it untouched |
| ApprovalModel.SweepIsOrderFree | approval/store.go:396-409 | in whatever order a sweep meets the records, each once, what it leaves, counts and reports is the same |
| ApprovalPromises.ApproveIsRecorded | approval/store.go:284-310 | an Approve that succeeds leaves, answers and reports the record as approved, with its decider and time, the grant if one is given and otherwise the old one, and every other field as it was |
| ApprovalPromises.DenyIsRecorded | approval/store.go:314-340 | a Deny that succeeds does the same with status denied, and the reason if it is not empty; the grant stays |
| ApprovalPromises.CancelIsRecorded | approval/store.go:344-366 | a Cancel that succeeds does the same with status canceled; the decider, the grant and the reason stay |
| ApprovalPromises.DecisionIsAnswered | approval/store.go:431-463 | a decision is answered not-found, expired, already-resolved or with the approval, each exactly when the record is missing, expired or past its deadline, decided before, or pending before its deadline |
| ApprovalPromises.LapseIsRecorded | approval/store.go:261-278 | a poll or decision that meets a record past its deadline stores and reports it as expired, changes no other field, and answers it or refuses |
| ApprovalPromises.OtherwiseUnchanged | approval/store.go:261-278 | in every other case a poll and a refused decision change and report nothing |
| ApprovalPromises.CreateIsRecorded | approval/store.go:215-249 | the new record is pending and undecided, with the lifetime and interval asked for, or 300 and 5 when they are not positive; a missing id and a full store are refused, in this order, with nothing stored |
| ApprovalPromises.SweepIsRecorded | approval/store.go:392-415 | a sweep leaves exactly the pending records before their deadline and reports each record past it once, as expired and otherwise as it was |
| ApprovalPromises.DeleteAndLen | approval/store.go:372-424 | a delete removes one record in whatever state, tells whether there was one, and reports nothing; Len counts all records |
| ApprovalObjects.Approval.Clone | approval/store.go:484-526 | a clone holds the same value in objects none of which existed before |
| ApprovalObjects.Approval.Prepare | approval/store.go:215-240 | what Create writes into the caller's request before it takes the lock, field by field, and no other field |
| ApprovalObjects.Approval.MarkApproved | approval/store.go:296-303 | the record becomes approved with its decider and time, the grant is taken over only if one is given, and no other field changes |
| ApprovalObjects.Approval.MarkDenied | approval/store.go:326-333 | the record becomes denied with its decider and time, the reason is taken over only if it is not empty, and no other field changes |
| ApprovalObjects.Approval.MarkCanceled | approval/store.go:356-359 | the record becomes canceled with the time, and no other field changes, the decider among them |
| ApprovalStore.Store.constructor | approval/store.go:143-157 | a new store is empty and meets the invariant |
| ApprovalStore.Store.Create | approval/store.go:215-249 | the records become those of the value model, the reply is a fresh clone sharing no object with the store, entropy failure changes nothing, and the request is prepared even when the store is full; requests may share their parts with each other |
| ApprovalStore.Store.Get | approval/store.go:261-278 | the records, the cloned reply and the multiset of hook calls are those of the value model, and the store keeps its invariant |
| ApprovalStore.Store.Approve | approval/store.go:284-310 | the same, for an approval with its grant, which may be one that was given before; nothing but the one approval is written to |
| ApprovalStore.Store.Deny | approval/store.go:314-340 | the same, for a denial with its reason, which may be one that was given before; `ApprovalPromises.DenyIsRecorded` says what is stored and answered |
| ApprovalStore.Store.Cancel | approval/store.go:344-366 | the same, for a withdrawal; see `ApprovalPromises.CancelIsRecorded` |
| ApprovalStore.Store.Delete | approval/store.go:372-380 | the record goes, expiry is not applied and the hook is not called |
| ApprovalStore.Store.Sweep | approval/store.go:392-415 | for any iteration order and any clock readings on the way: the records left, the count, and the multiset of hook calls are those of the value model |
| ApprovalStore.Store.Len | approval/store.go:420-424 | the number of records, with no expiry applied |
| ApprovalStore.Store.MutableLocked | approval/store.go:431-445 | expires the record if due, and then refuses or lets the decision through as the value model does |
| ApprovalStore.Store.ExpireLocked | approval/store.go:452-463 | only a due record changes, to expired, and the result tells whether it did |
| ApprovalStore.Store.FireResolve | approval/store.go:472-482 | the hook, if there is one, is called once with the given clone, and the store is unharmed by what the hook does to it |
| ApprovalStore.Store.CallerOverwrites | approval/store.go:484-526 | overwriting everything that was handed out changes neither the store's state nor its invariant |
| ChallengeText.StripControl | mcp/challenge.go:310-327 | the builder loop drops exactly the control characters |
| ChallengeScanner.ParseAuthParams | mcp/challenge.go:353-406 | the index-driven scanner ends on every text and assigns, last writer winning, the pairs that the text means; what those are is the subject of the grammar, and of `ChallengePromises` for the case of names |
| ChallengeScanner.ScanPair | mcp/challenge.go:356-400 | one round of the loop reads one pair and strictly advances, or finds that no pair is left |
| ChallengeScanner.ScanValue | mcp/challenge.go:375-400 | the value after '=', quoted or bare, and where it ends |
| ChallengeScanner.ScanQuoted | mcp/challenge.go:376-393 | the loop over a quoted-string decodes it up to the first unescaped quote |
| ChallengePromises.StrippedByCharacter | mcp/challenge.go:310-327 | stripping goes character by character and drops U+0000 to U+001F and U+007F, and nothing else |
| ChallengePromises.SanitizedByCharacter | mcp/challenge.go:338-346 | sanitizing a scheme drops these and white space, and nothing else |
| ChallengePromises.TrimmedText | mcp/challenge.go:262-262 | trimming takes white space off both ends and nothing else |
| ChallengeGrammar.ScannerMeetsGrammar | mcp/challenge.go:353-406 | on every well-formed list of parameters the scanner returns the meaning of the list |
| ChallengeGrammar.EveryTextIsWellFormed | mcp/challenge.go:353-406 | every text at all is a well-formed list, so the previous row covers every input |
| ChallengeGrammar.CutListIsScanned | mcp/challenge.go:262-283 | white space cut off the end of a header is lost to an unclosed quoted-string and to nothing else |
| Challenges.ParametersMayBeReordered | mcp/challenge.go:261-406 | two headers whose lists mean the same up to order parse to the same challenge, however they are spaced or quoted and whatever other keys they hold, if no key that a challenge reads occurs twice |
| Challenges.String | mcp/challenge.go:74-106 | the rendered header, of which the next rows speak |
| Challenges.ParseChallenge | mcp/challenge.go:261-283 | the parsed challenge, of which the next rows speak; only a blank header is rejected |
| Challenges.HeaderMeansItsList | mcp/challenge.go:261-283 | a header with any well-formed list parses to the meaning of the list, and the cut at its end changes that meaning if and only if the list ends in an unclosed quoted-string that ends in white space |
| ChallengePromises.NamesAreCaseInsensitive | mcp/challenge.go:353-406 | two headers that differ only in the case of ASCII letters in their parameter names parse to the same challenge |
| ChallengePromises.NameFillsField | mcp/challenge.go:261-283 | a parameter fills the field of its name, in whatever case that is written, and no other field |
| ChallengePromises.TwoNamesFillTheirFields | mcp/challenge.go:353-406 | a bare value and then a quoted one, with a comma and any commas, spaces and tabs between them, each fill the field of their name |
| ChallengePromises.CapitalsAreRead | mcp/challenge.go:353-374 | Realm fills the realm and SCOPE the scope |
| ChallengePromises.LastPairCounts | mcp/challenge.go:401-404 | of the pairs with the same key the last one counts |
| ChallengePromises.OnlyBlankIsRejected | mcp/challenge.go:261-266 | a header is rejected if and only if it is all white space |
| ChallengePromises.SurroundingSpaceIsIgnored | mcp/challenge.go:262-262 | white space around a header does not matter |
| ChallengePromises.SchemeAlone | mcp/challenge.go:261-283 | a header of one word is a scheme without parameters |
| Challenges.ParseInvertsRender | mcp/challenge.go:74-283 | parsing a rendered challenge succeeds and gives it back with control characters dropped, the scheme sanitized or defaulted, and no status |
| ChallengePromises.FieldsAreInOrder | mcp/challenge.go:74-106 | a challenge with every field prints realm, error, error_description, scope and resource_metadata in this order, quoted and escaped |
| ChallengePromises.EscapedByCharacter | mcp/challenge.go:297-303 | a backslash goes before each quote and backslash, and nothing else is added |
| ChallengePromises.EmptyFieldsAreLeftOut | mcp/challenge.go:74-106 | without a field to print the header is the scheme, Bearer if it has none |
| Challenges.RenderIsFixpoint | mcp/challenge.go:261-406 | for every header the parser accepts, rendering what it parsed is stable under parsing and rendering again |
| Challenges.RenderIsInjectiveOnNormalized | mcp/challenge.go:74-106 | two challenges render alike if and only if they agree once normalized |
| Challenges.HeaderHasNoControl | mcp/challenge.go:297-345 | no control character reaches the header |
| DenyContexts.ChallengeFromDenyContext | mcp/challenge.go:162-198 | the reader's field-by-field assignments give the challenge that the next rows speak of |
| DenyContexts.DenyContextRoundTrip | mcp/challenge.go:121-198 | reading a deny context always succeeds and gives the challenge back exactly, but for the scheme and the error description, which are normalized |
| DenyContexts.DenyContextKeepsHeader | mcp/challenge.go:121-198 | what is read back renders to the header of the original |
| DenyContexts.DenyContextKeys | mcp/challenge.go:121-150 | under which keys a deny context holds the header, the scope, the metadata, the realm, the status and the error, and that it leaves out those that are empty |
| DenyContexts.HoldsChallengeExactly | mcp/challenge.go:162-198 | a context holds a challenge if and only if its mcp object has a header object, a non-empty error or a number as status |
| DenyContexts.KeysOverrideHeader | mcp/challenge.go:162-222 | the header gives every field, and a key that is set takes precedence over it; a fractional status is cut off towards zero |
| DenyContexts.NoHeaderNoMore | mcp/challenge.go:162-198 | without a header object the error and the status are all that is read |
| DenyContexts.ReadOverJson | mcp/challenge.go:162-222 | sending a context over JSON changes nothing that the reader returns, if its mcp entry is built of JSON-like values and the status is one a double holds |
| Enforcement.Handle | mcp/middleware.go:187-281 | the wrapped handler runs if and only if extraction, assembly and evaluation succeed with a permit; every other path, panics included, is answered with a status in 400 to 599, once, or once more if the responder itself panics. The default response to a deny by DenyContext(c), in process or over JSON, has the header of c with an empty scope, metadata or realm replaced by the enforcer's, and the status of c if it is in 400 to 599 and 403 otherwise; a deny without a challenge, a failed evaluation and a panic get 403 insufficient_scope with the enforcer's defaults; a failed extraction or assembly gets 401 exactly when a missing token or subject is among the causes, and 403 otherwise |
| Enforcement.ChallengeFromResponse | mcp/middleware.go:246-263 | the PDP's challenge with its gaps filled from the enforcer, or the default |
| Enforcement.PdpChallengeReachesClient | mcp/middleware.go:246-345 | a PDP that denies with DenyContext(c), in process or over JSON, gets the rendering of c on the wire with its empty scope, realm and metadata filled in, its own status if that is an error status, and in the body its own error, or else the one its status stands for |
| Enforcement.DenyHeaderParses | mcp/middleware.go:283-345 | what a client parses out of the header of any deny is its challenge, normalized |
| Enforcement.UnevaluatedDenyAdvertisesDefaults | mcp/middleware.go:234-281 | a request denied before it is evaluated advertises the enforcer's scope, realm and metadata, and names insufficient_scope in the header if and only if the status is not 401 |
| Enforcement.UnauthorizedExactlyWithoutIdentity | mcp/middleware.go:234-239 | before evaluation the status is 401 if and only if a missing token or a missing subject is among the causes of the error, however wrapped or joined |
| Evaluations.OwnPartsComeFirst | evaluations.go:141-182 | a batch resolves to one request for each member, in order, whose subject, action, resource and context are each the member's own if present and the batch's otherwise; without members, to one request of the top-level fields |
| Evaluations.SemanticInForce | server/server.go:135-139 | an absent or empty semantic means execute_all, and any other is in force as it is |
| Evaluations.RejectedForFirstLack | evaluation.go:80-91 | a request is accepted if and only if it names a subject with type and id, an action with a name, and a resource with type and id; the error is that of the first part missing, in this order |
| Evaluations.AcceptedExactlyWhenValid | evaluations.go:250-271 | a batch is accepted if and only if its semantic is absent, empty or one of the three defined ones, and every request it resolves to names a subject with type and id, an action with a name, and a resource with type and id |
| Evaluations.RejectionNamesFirstLack | evaluations.go:250-271 | a rejection is of the semantic if that is not defined, and otherwise names the first incomplete request, by its index if the batch has members, and the first part it lacks |
| EvaluationObjects.CloneSubject | evaluations.go:187-194 | a copy with the same contents in objects that did not exist before |
| EvaluationObjects.CloneAction | evaluations.go:197-204 | the same for an action |
| EvaluationObjects.CloneResource | evaluations.go:207-214 | the same for a resource |
| EvaluationObjects.EvaluationsRequest.Resolved | evaluations.go:141-182 | the requests of `Evaluations.OwnPartsComeFirst`, in fresh objects, no two sharing one and none sharing one with the batch, however the batch shares among its members |
| EvaluationObjects.EvaluationsRequest.Validate | evaluations.go:250-271 | the loop over the resolved members accepts exactly the batches with a defined semantic and complete requests, and returns the error of the value model |
| EvaluationObjects.EvaluationRequest.Validate | evaluation.go:80-91 | accepts exactly the complete requests, and names the first part that is missing in the order subject, action, resource |
| BatchEvaluation.EvaluateBatch | server/server.go:127-177 | the PDP is asked in order, once per member and no further than needed; it sees each member as originally resolved, complete whenever the batch is valid, although it may at every call overwrite all it was ever given and all it ever returned; the caller's request is unchanged unless the PDP held parts of it before; decisions and the contexts of failures are those of the outcome the next rows speak of, and so are the contexts the PDP returned if it does not rewrite those itself |
| BatchEvaluation.EvaluateAll | server/server.go:141-177 | the loop itself, for requests in separate objects, with the same guarantees |
| BatchSemantics.AskedIsShortestPrefix | server/server.go:141-176 | the members asked are the shortest prefix that ends at a deciding answer, or all of them |
| BatchSemantics.LastIsConjunction | server/server.go:165-169 | under deny_on_first_deny the last decision is the conjunction over all members, failures counting as denies, and the earlier ones are permits |
| BatchSemantics.LastIsDisjunction | server/server.go:170-174 | under permit_on_first_permit it is the disjunction, and the earlier ones are denies |
| BatchSemantics.OthersExecuteAll | server/server.go:135-176 | any other semantic, known or not, answers every member |
| BatchSemantics.FailsExactlyWhenDone | server/server.go:143-149 | the call fails if and only if a member that is reached fails with the context done |
| BatchSemantics.EndsExactlyWhen | server/server.go:143-176 | a member ends the batch if and only if it fails with the context done, denies or fails under deny_on_first_deny, or permits under permit_on_first_permit |
| BatchSemantics.FailsWithContextError | server/server.go:143-149 | the error of the call is that of the context when the first member to end the batch failed |
| BatchSemantics.FailureIsShown | server/server.go:217-232 | a failure is shown as status 500 with the message, or a generic one unless verbose, and the id under which it is logged |
| BatchSemantics.FailuresAreClosed | server/server.go:143-163 | a response permits only what the PDP permitted; that of a failure denies and carries an error and nothing else |
| BatchSemantics.MessagesAreRedacted | server/server.go:150-232 | unless verbose, runs that differ only in failure messages give the same result |
| WireCodec.NormalizeMap | grpc/conv.go:65-75 | value by value in any order, with EvaluationError spelled out by hand, the result is that of a JSON round trip of the whole map, and it fails exactly when that would |
| WireCodec.NormalizeValue | grpc/conv.go:86-108 | the special cases agree with the general JSON round trip |
| WireCodec.MapToStruct | grpc/conv.go:52-61 | an empty map is not set, and others are normalized |
| WireCodec.EvaluationsRequestToProto | grpc/conv.go:327-367 | the early-exit conversion of the request and its members succeeds if and only if every map can be encoded, sends each defined semantic as its enum value and any other text as none, and is the one the next rows speak of |
| WireCodec.TripExactlyWhen | grpc/conv.go:327-367 | a batch can be converted if and only if every one of its maps can be encoded: those of its top-level fields, of its members and of its options |
| WireCodec.TripFieldByField | grpc/conv.go:327-390 | of every part the kind, id and name arrive as they are, of every map the same keys with their JSON values, of an empty map nothing, and of the semantic the text if it is one of the three defined ones |
| WireCodec.WireCommutesWithDefaulting | grpc/conv.go:327-390 | resolving after the trip equals the trip of each resolved member if and only if no member has a present but empty context while the batch has a non-empty one |
| WireCodec.ResolvedCanBeCarried | grpc/conv.go:202-225 | when the batch can be converted, so can every request it resolves to |
| WireCodec.WireKeepsValidation | grpc/conv.go:267-323 | validation gives the same verdict and error after the trip if and only if the semantic is known |
| WireCodec.WireKeepsSemantic | grpc/conv.go:267-294 | the semantic in force is kept if and only if it is known |
| WireCodec.WireKeepsOutcome | grpc/conv.go:267-294 | the same answers make the same outcome before and after the trip, for every semantic |
| WireCodec.WireKeepsEvaluation | grpc/conv.go:327-390 | a PDP that answers a request and its JSON form alike evaluates the batch to the same outcome after the trip, if no member clears a context |
| WireCodec.ClearingIsLost | grpc/conv.go:37-61 | a batch whose member clears the context: after the trip the member inherits it |
| WireCodec.MisspeltIsForgiven | grpc/conv.go:267-294 | a batch with a misspelt semantic: rejected before the trip, accepted after it |
| WireCodec.WireIsIdempotent | grpc/conv.go:327-390 | a second trip succeeds and changes nothing |
| Values.DecodedTwice | grpc/conv.go:86-108 | a JSON value normalizes to itself: normalization is idempotent |
| Values.EncodableExactlyWhen | grpc/conv.go:98-107 | a value can be encoded if and only if none of its parts, however deep, is one that encoding/json rejects |
| Values.DecodedIsJsonOf | grpc/conv.go:86-108 | the normalized value is the one value that has doubles for numbers, an object of status and message for an EvaluationError, and the same shape otherwise |
| ResponseBindings.EvaluationsResponseToProto | grpc/conv.go:402-426 | a single decision travels as a batch of one, and members one by one up to the first that cannot be encoded |
| ResponseBindings.UnmarshalJSON | evaluations.go:348-374 | of a document with an evaluations array a client reads the items of the array, whatever decision and context it also holds; of one without, the single decision if there is one; the result never sets both shapes, and a value of the wrong type is an error |
| ResponseBindings.ItemIsRead | evaluations.go:348-374 | a member reads as a permit only if its decision is true, and as a deny if it has none |
| ResponseBindings.DocumentIsRead | evaluations.go:348-374 | which response each document decodes to, and which documents are rejected |
| ResponseBindings.DocumentIsSent | evaluations.go:323-343 | a single decision is sent as its decision and its context unless that is empty, and anything else as an object that holds the array of members and nothing more |
| ResponseBindings.JsonCarries | evaluations.go:323-374 | encoding the whole document and decoding it gives the single decision, or else the members, with their contexts normalized and empty ones dropped; it fails if and only if one of the contexts shown cannot be encoded |
| ResponseBindings.GrpcCarries | grpc/conv.go:402-441 | the early-exit conversion succeeds if and only if every context can be encoded, and normalizes them all |
| ResponseBindings.GrpcMemberByMember | grpc/conv.go:402-441 | over gRPC members arrive in order with their decisions and contexts, and a single decision without members as one of them |
| ResponseBindings.BindingsAgree | evaluations.go:323-374 | for a response of one shape, JSON and gRPC both carry it or neither does, and a client reads the same decisions and contexts from both |
| ResponseBindings.DecisionsAgreeExactly | grpc/conv.go:402-441 | the decisions agree if and only if the response does not set both shapes, or its one member repeats its decision |
| ResponseBindings.TwoShapesDiffer | grpc/conv.go:402-426 | a permit with a denying member: JSON shows the permit, gRPC the deny |
| ResponseBindings.BindingsAreIdempotent | grpc/conv.go:402-441 | a second trip over the same binding changes nothing |
| OptionsCodec.Marshal | evaluations.go:59-68 | the copying loop and the reserved key over it |
| OptionsCodec.Unmarshal | evaluations.go:75-103 | the reserved key is taken out, and rejected if it is not a string |
| OptionsCodec.ObjectKeyByKey | evaluations.go:59-68 | the encoded object has the additional keys, and the semantic, if set, under evaluations_semantic |
| OptionsCodec.ReadKeyByKey | evaluations.go:75-103 | decoding takes evaluations_semantic for the semantic and keeps every other key, and fails if and only if it is not a string |
| OptionsCodec.OptionsRoundTrip | evaluations.go:59-103 | options survive JSON, numbers as doubles, if and only if the additional keys leave the reserved one alone |
| OptionsCodec.ReservedKeyIsTaken | evaluations.go:59-103 | otherwise the key is lost under a semantic, taken for one when it is a string, and rejected when it is not |
| OptionsCodec.ReservedKeyExamples | evaluations.go:75-103 | an additional key that is taken for a semantic, and one that is rejected |
| AccessRequest.ValidateItems | accessrequest/validate.go:103-125 | the loop over the items returns the error of the value model |
| AccessRequest.AcceptedExactlyWhenWellFormed | accessrequest/validate.go:57-101 | a submission is accepted if and only if its subject is valid, it names one target or a bundle but not both, every target is named in full and covered by a binding denial of its own or of the submission, and callback and actor are well formed |
| AccessRequest.RejectionIsDue | accessrequest/validate.go:35-176 | the error of a rejection is the first that is due, in the order subject, target or items, denial, callback, actor, with its field and kind; no submission at all lacks its subject |
| AccessRequest.RejectedForFirstOffender | accessrequest/validate.go:103-125 | a bundle rejected for an item gets the error of the first offending one |
| AccessRequest.UnneededDenialIsIgnored | accessrequest/validate.go:103-125 | a top-level denial that no item needs is never looked at |

## Left out

- Text: a Go string is a sequence of code points; invalid UTF-8 and its repair are not modelled, and lower-casing is modelled only where it can reach ASCII, which decides every key that is read.
- The clock: its readings are parameters, one for the expiry check of a call, one more for the decidedAt of a decision, and one for each record that a sweep meets.
- ApprovalStore.Store.Create: ids are fresh, as 256 random bits are taken to be, and an entropy failure is a parameter; the request becomes the record, so it must not be a record already. The store keeps the caller's pointers to a request, a grant and a reason; they may be shared, but writing to them after they were handed over is not modelled.
- ApprovalStore.Store.FireResolve: the hook does not call back into the store on the heap; calls it makes are steps of other callers in the step system. A panic of the hook counts as a call. The hook overwrites the approval of its current call; what it does later to an earlier one is `CallerOverwrites`.
- ApprovalObjects: a nil pointer, slice or map is a reference of its own that holds nothing, and nil and empty slices are alike.
- The janitor goroutine: its sweeps are calls like any other.
- BatchEvaluation.EvaluateBatch: a PDP that panics, or that returns neither a response nor an error, and the log line of a failure are not modelled; correlation ids are a parameter. What a PDP does to a context it returned, after the call, is not modelled.
- EvaluationObjects: copies are of the top level of a map, as in the source; what nested values share is not modelled.
- WireCodec: the bytes on the wire; a message is what the conversion builds. Pages, searches and metadata are left out, as they would add conversions of the same kind.
- ResponseBindings.UnmarshalJSON: object keys are matched exactly, where encoding/json also matches them ignoring case.
- Values: JSON text. Encoding is a function on values with a failure case, and the nearest double is a parameter.
- Enforcement.Handle: header and body writing, and the extraction of a request; the enforcer's parts are parameters that may fail or panic.
- AccessRequest: requested access, context and the validation of responses, tasks and results, which add no rule across fields.
- HTTP routing, clients, notifier delivery, command line and generated code.
