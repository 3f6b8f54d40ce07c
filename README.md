# Kubewarden policy-evaluator core, modelled in Dafny

This project models the core of the Kubewarden policy evaluator. It covers:

- the validation of a policy's metadata document (`src/policy_metadata.rs`). This includes the Kubernetes-derived wildcard check on a rule's `resources` list, the `*`-exclusivity checks, the non-empty-list constraints, operation parsing, the conversion from a Kubernetes `NamedRuleWithOperations`, and protocol-version/execution-mode coherence;
- the evaluation front end (`src/policy_evaluator.rs`): the host-call router guests call back into, the process-wide policy registry filled by `from_contents_internal`, and the decision logic of `validate`, `validate_settings` and `protocol_version` over the waPC and burrego runtimes;
- the waPC runtime (`src/runtimes/wapc.rs`), which duplicates that decision logic and the host-call router.

The waPC guest, the burrego OPA evaluator, serde, the `Policy::log` sink and the `ValidationResponse` builders are foreign code, so they are oracles. Each one is a function value passed in: `GuestCall`, `Evaluation`, `Codec`, `LogSink`, `Engines`, `BuildFailure`. The model proves what the core does with whatever those oracles answer.

Modules:

- `Wrappers`: `Option` and `Result`.
- `Json`: JSON values and `Value::get`.
- `Sdk`: the policy SDK types.
- `ValidationResponse`: the admission response, with its builders as uninterpreted constructors that carry the uid.
- `PolicyMetadata`: models `src/policy_metadata.rs`.
- `PolicyEvaluator`: models `src/policy_evaluator.rs`.
- `WapcRuntime`: models `src/runtimes/wapc.rs`.

`validate_resources` is the only loop in the core. It is modelled as the method `PolicyMetadata.ValidateResources`, with the same two sets, three flags and early returns. The method is proved equal to the declarative verdict `PolicyMetadata.ResourcesVerdict`, and the lemmas about the wildcard check are stated on that verdict. `WAPC_POLICY_MAPPING` is modelled as the class `PolicyEvaluator.PolicyRegistry`, whose methods update its `mapping` field. Those methods are specified by the pure functions `RegisterOutcome` and `FromContentsOutcome`.

The code orders the wildcard check in a way that makes the verdict depend on element order:

- Each element without `/` assigns `has_resource_without_subresource` anew, so only the *last* such element counts.
- The `res/*` and `*/sub` conflicts are checked only against *earlier* elements.

The model follows the code on both points. It does not follow a reading in which the flags are set-like and order does not matter.

## Model

| member | source | states |
|---|---|---|
| PolicyMetadata.OperationName | src/policy_metadata.rs:16-28 | each operation's wire name; the name is `*` exactly for `All` |
| PolicyMetadata.ParseOperation | src/policy_metadata.rs:30-43 | succeeds exactly on `CREATE`, `UPDATE`, `DELETE`, `CONNECT`, `*`; the operation's name is the input; otherwise the error is "unknown operation" |
| PolicyMetadata.ParseOperationName | src/policy_metadata.rs:16-43 | every operation's name parses back to that operation |
| PolicyMetadata.ParseOperationInjective | src/policy_metadata.rs:30-43 | two names that parse to the same operation are the same name |
| PolicyMetadata.SplitResource | src/policy_metadata.rs:104-110 | `splitn(2, '/')`: no split exactly when there is no '/'; otherwise the element is `res + "/" + sub` with no '/' in `res` |
| PolicyMetadata.SplitJoined | src/policy_metadata.rs:104-110 | joining a slash-free `res` and any `sub` with '/' splits back into the same two parts |
| PolicyMetadata.SplitKeepsLaterSlashes | src/policy_metadata.rs:104 | `a/b/c` splits as `a` and `b/c` |
| PolicyMetadata.ElementFault | src/policy_metadata.rs:95-97 | an element is refused as empty exactly when it is the empty string |
| PolicyMetadata.FirstFault | src/policy_metadata.rs:94-126 | the first element at or after a position that the loop refuses, with every element before it passing |
| PolicyMetadata.LastBareIndex | src/policy_metadata.rs:104-107 | the position of the last element without '/', which is the only one the flag remembers; absent exactly when every element has a '/', and every later element has a '/' |
| PolicyMetadata.ResourcesVerdict | src/policy_metadata.rs:79-139 | the verdict of the wildcard check on a list: the first faulting element decides, then `*/*` in a longer list, then `*` beside a last bare element other than `*`; its pass condition is stated by `ResourcesVerdictSuccessIff` and the method is proved equal to it |
| PolicyMetadata.ResourcesVerdictSuccessIff | src/policy_metadata.rs:79-139 | a list passes exactly when no element faults, `*/*` does not share the list, and `*` is not combined with a last bare element other than `*` |
| PolicyMetadata.WildcardSubresourceOwnersHas | src/policy_metadata.rs:120-122 | `res` is recorded exactly when some element is `res/*` |
| PolicyMetadata.WildcardResourceSubresourcesHas | src/policy_metadata.rs:123-125 | `sub` is recorded exactly when some element is `*/sub` |
| PolicyMetadata.ValidateResources | src/policy_metadata.rs:79-139 | the loop with its two sets, three flags and early returns computes exactly `ResourcesVerdict` |
| PolicyMetadata.SplitElementFault | src/policy_metadata.rs:109-119 | an element with a '/' faults with a subresource conflict exactly when an earlier element is `<its resource>/*`, and otherwise with a resource conflict exactly when an earlier element is `*/<its subresource>` |
| PolicyMetadata.OccursBeforeIn | src/policy_metadata.rs:98-102 | the `*/*` and `*` flags after `n` steps are set exactly when that element is among the first `n` |
| PolicyMetadata.FaultAfterPassingPrefix | src/policy_metadata.rs:94-126 | once every element before `i` has passed, a fault on element `i` is the verdict of the whole list |
| PolicyMetadata.VerdictWithoutFault | src/policy_metadata.rs:128-138 | when no element faults, `*/*` in a longer list and then `*` beside a bare element other than `*` decide |
| PolicyMetadata.FirstElementFault | src/policy_metadata.rs:94-126 | the first element is refused only when it is empty |
| PolicyMetadata.SecondElementFault | src/policy_metadata.rs:109-119 | in a two-element list, `res/sub` is refused exactly when the first element is `res/*` or `*/sub`, with the matching error |
| PolicyMetadata.EmptyResourceRejected | src/policy_metadata.rs:95-97 | any list that contains an empty element is refused |
| PolicyMetadata.DoubleWildcardExclusive | src/policy_metadata.rs:98-130 | `*/*` beside any other element is refused |
| PolicyMetadata.EarlierWildcardSubresourceRejects | src/policy_metadata.rs:112-115 | `res/sub` after an earlier `res/*` is refused |
| PolicyMetadata.EarlierWildcardResourceRejects | src/policy_metadata.rs:116-119 | `res/sub` after an earlier `*/sub` is refused |
| PolicyMetadata.SingleWildcardDecidedByLastBare | src/policy_metadata.rs:100-135 | with `*` present and nothing else wrong, the list is refused exactly when the last bare element is not `*` |
| PolicyMetadata.ResourceErrorMessage | src/policy_metadata.rs:95-136 | the text of each refusal; each conflict message names the pattern that is present and the element it forbids (corrected at line 113, see Findings) |
| PolicyMetadata.WildcardSubresourceMessageAsWritten | src/policy_metadata.rs:113 | the text as written: the refused element plus `/*` where the pattern belongs and the bare resource where the refused element belongs, the reverse of the corrected message |
| PolicyMetadata.ConflictMessageQuotesEarlierElement | src/policy_metadata.rs:112-119 | a conflict message quotes an earlier list element as the pattern and the refused later element as forbidden |
| PolicyMetadata.ConflictFaultQuotes | src/policy_metadata.rs:112-119 | a conflict fault on element `i` quotes an element before `i` as its pattern and element `i` as forbidden |
| PolicyMetadata.AsWrittenMessageMisquotes | src/policy_metadata.rs:113 | on `["a/*", "a/x"]` the message as written quotes `a/x/*`, which is not in the list, and differs from the corrected message |
| PolicyMetadata.AcceptsSingleWildcardWithSubresources | src/policy_metadata.rs:506-535 | `["*", "a/b", "a/*", "*/b"]` passes |
| PolicyMetadata.SubresourcePatternsDoNotFault | src/policy_metadata.rs:511-516 | no element of `["*", "a/b", "a/*", "*/b"]` conflicts with an earlier one |
| PolicyMetadata.SubresourceWithoutConflict | src/policy_metadata.rs:109-119 | `res/sub` passes when neither `res/*` nor `*/sub` comes before it |
| PolicyMetadata.RejectsSingleWildcardThenBare | src/policy_metadata.rs:538-562 | `["*", "a"]` is refused because `*` is mixed with bare resources |
| PolicyMetadata.AcceptsBareThenSingleWildcard | src/policy_metadata.rs:100-135 | `["a", "*"]` passes, because the last bare element is `*` |
| PolicyMetadata.RejectsWildcardSubresourceThenSubresource | src/policy_metadata.rs:565-589 | `["a/*", "a/x"]` is refused at `a/x` |
| PolicyMetadata.AcceptsSubresourceThenWildcardSubresource | src/policy_metadata.rs:112-122 | `["a/x", "a/*"]` passes, because conflicts look only backwards |
| PolicyMetadata.RejectsRepeatedWildcardSubresource | src/policy_metadata.rs:112-122 | a repeated `a/*` is refused at its second occurrence |
| PolicyMetadata.RejectsWildcardResourceThenSubresource | src/policy_metadata.rs:618-641 | `["*/a", "x/a"]` is refused at `x/a` |
| PolicyMetadata.RejectsDoubleWildcardWithBare | src/policy_metadata.rs:644-667 | `["*/*", "a"]` is refused |
| PolicyMetadata.AcceptsWildcardSubresourceWithBare | src/policy_metadata.rs:592-615 | `["a/*", "a"]` passes |
| PolicyMetadata.AsteriskUsage | src/policy_metadata.rs:61-68 | fails exactly when the list contains `*` and has more than one element, with the source's message |
| PolicyMetadata.OperationsAsteriskUsage | src/policy_metadata.rs:70-77 | fails exactly when the list contains `All` and has more than one element, with the source's message |
| PolicyMetadata.AsteriskAlone | src/policy_metadata.rs:61-68 | a list that passes and contains `*` is exactly `["*"]` |
| PolicyMetadata.AllOperationsAlone | src/policy_metadata.rs:70-77 | an operation list that passes and contains `All` is exactly `[All]` |
| PolicyMetadata.NameListFaults | src/policy_metadata.rs:48-51 | a group or version list is faulted as too short exactly when empty, and for `*` exactly when `AsteriskUsage` fails |
| PolicyMetadata.ResourceListFaults | src/policy_metadata.rs:52-53 | the resource list is faulted as too short exactly when empty, and with error `e` exactly when the wildcard verdict fails with `e` |
| PolicyMetadata.OperationListFaults | src/policy_metadata.rs:54-58 | the operation list is faulted as too short exactly when empty, and for `All` exactly when `OperationsAsteriskUsage` fails |
| PolicyMetadata.RuleFaults | src/policy_metadata.rs:45-59 | every fault of each field's checks is reported, and every reported fault comes from its field's checks; a rule has no fault exactly when every list is non-empty and passes its custom check |
| PolicyMetadata.ValidRuleAsteriskExclusive | src/policy_metadata.rs:45-77 | a valid rule has non-empty lists, and `*` or `All`, wherever present, stands alone |
| PolicyMetadata.PodRuleIsValid | src/policy_metadata.rs:282-296 | the pod rule (`""`, `v1`, `pods`, `CREATE`) has no faults |
| PolicyMetadata.RefusedRules | src/policy_metadata.rs:300-337 | `*` beside another group, an empty group list, and `All` beside another operation each produce exactly their one fault |
| PolicyMetadata.ContextAwareResourceFaults | src/policy_metadata.rs:162-169 | a context-aware resource is faulted on a field exactly when that field is empty |
| PolicyMetadata.RemoveQuotes | src/policy_metadata.rs:194 | the result has no '"', is no longer than the input, equals a quote-free input and is empty for a lone quote; with `RemoveQuotesAppend` this fixes the result of every input, as `str::replace('"', "")` does |
| PolicyMetadata.RemoveQuotesAppend | src/policy_metadata.rs:194 | removing quotes distributes over concatenation |
| PolicyMetadata.ParsePolicyType | src/policy_metadata.rs:182-189 | a name is read as a policy type only if it is that type's serde name |
| PolicyMetadata.PolicyTypeDisplay | src/policy_metadata.rs:191-196 | the display of a policy type is its serde name without the JSON quotes |
| PolicyMetadata.PolicyTypeDisplayRoundTrip | src/policy_metadata.rs:182-196 | the displayed name reads back as the same policy type |
| PolicyMetadata.ValidateMetadata | src/policy_metadata.rs:198-273 | a missing protocol version is reported; the native mode with `Unknown` is reported; every rule fault and context-aware-resource fault is reported, indexed; all checks run together |
| PolicyMetadata.DefaultMetadata | src/policy_metadata.rs:226-240 | `Metadata::default()`: no protocol version, no rules, empty annotations, not mutating, background audit on, native mode, Kubernetes policy type, no context-aware resources; `DefaultMetadataNeedsProtocolVersion` shows it fails validation only for the missing version |
| PolicyMetadata.RulesReport | src/policy_metadata.rs:204-205 | each fault of each rule is reported under that rule's position, and nothing else |
| PolicyMetadata.ContextAwareReport | src/policy_metadata.rs:216-217 | each fault of each context-aware resource is reported under that resource, and nothing else |
| PolicyMetadata.ValidateMetadataEmptyIff | src/policy_metadata.rs:198-273 | a document is valid exactly when it has a protocol version, does not pair the native mode with `Unknown`, and all its rules and context-aware resources are valid |
| PolicyMetadata.ValidMetadataHasUsableProtocol | src/policy_metadata.rs:264-273 | a valid document has a protocol version, and in the native mode it is not `Unknown` |
| PolicyMetadata.DefaultMetadataNeedsProtocolVersion | src/policy_metadata.rs:226-240 | `Metadata::default()` fails validation only because its protocol version is missing |
| PolicyMetadata.ProtocolVersionAgainstMode | src/policy_metadata.rs:377-406 | `Unknown` is refused in the native mode and accepted in both Rego modes; `V1` is accepted in the native mode |
| PolicyMetadata.MetadataWithPodRuleIsValid | src/policy_metadata.rs:282-296 | a `V1` document with the pod rule is valid |
| PolicyMetadata.MetadataWithRefusedRuleIsInvalid | src/policy_metadata.rs:300-317 | a `V1` document whose rule puts `*` beside another group is invalid |
| PolicyMetadata.EmptyContextAwareFieldsRefused | src/policy_metadata.rs:670-715 | a context-aware resource with an empty api version or kind makes the document invalid |
| PolicyMetadata.ParseOperations | src/policy_metadata.rs:145-151 | converting an operation list succeeds exactly when every name parses, element by element; otherwise the error is "unknown operation" |
| PolicyMetadata.RuleFromNamed | src/policy_metadata.rs:141-160 | the conversion fails exactly when a present operation name is unknown; absent lists become empty, present lists are kept, and the operations are the parsed list, element by element |
| PolicyMetadata.ParseOperationNames | src/policy_metadata.rs:141-160 | converting the names of a list of operations gives back the list |
| PolicyMetadata.MissingListsFailValidation | src/policy_metadata.rs:141-160 | a converted rule whose groups, resources or operations were absent fails rule validation |
| PolicyEvaluator.Uid | src/policy_evaluator.rs:38-44 | the request's `uid` member when it is a string; otherwise the empty string |
| PolicyEvaluator.HostCallback | src/policy_evaluator.rs:47-98 | succeeds exactly on the known routes; the log route answers with no bytes and delivers the payload to the registered policy; each cluster route serves its snapshot; other names give the error of the first level that fails |
| PolicyEvaluator.KubernetesRouteIgnoresOperation | src/policy_evaluator.rs:81-86 | a cluster snapshot does not depend on the operation or the payload |
| PolicyEvaluator.LogReplyIgnoresSink | src/policy_evaluator.rs:55-70 | the log route answers with no bytes whether or not logging fails |
| PolicyEvaluator.UnknownRouteNamed | src/policy_evaluator.rs:71-97 | an unknown route fails with an unknown binding, namespace or operation error, and logs nothing |
| PolicyEvaluator.GuestInput | src/policy_evaluator.rs:218-221 | the guest input is an object with exactly the keys `request` and `settings`, holding the request and the settings |
| PolicyEvaluator.BurregoEvaluation | src/policy_evaluator.rs:267-271 | a burrego runtime always evaluates its stored entrypoint, input and data; `BurregoIgnoresRequestBody` shows the request body plays no part |
| PolicyEvaluator.WapcValidationOutcome | src/policy_evaluator.rs:236-265 | a failed call (with its error), an undecodable answer (with the prefixed decoding error) and a failed build (with the builder's error) each give an internal-server-error rejection with the uid; the response is built from the decoded answer exactly when all three succeed |
| PolicyEvaluator.Validate | src/policy_evaluator.rs:205-305 | every response carries the request's uid; a 400 rejection happens exactly when the object is missing; a serialization failure is an internal error; the waPC arm lets the guest decide; the burrego arm gives its first result's boolean or an internal error |
| PolicyEvaluator.MissingObjectIgnoresRuntime | src/policy_evaluator.rs:208-217 | a request without an object gets the same 400 rejection from every runtime and codec |
| PolicyEvaluator.BurregoIgnoresRequestBody | src/policy_evaluator.rs:266-303 | burrego evaluates its stored input and data: requests with the same uid get the same answer |
| PolicyEvaluator.WapcVerdictFromGuest | src/policy_evaluator.rs:236-249 | when the call, the decoding and the build succeed, the response is built from the guest's decoded answer and the request's object |
| PolicyEvaluator.WapcSettingsOutcome | src/policy_evaluator.rs:320-338 | the guest's decoded answer unchanged; a call failure or a decode failure gives `valid: false` with its message |
| PolicyEvaluator.WapcSettingsValidOnlyFromGuest | src/policy_evaluator.rs:320-338 | a valid settings response is always the guest's own decoded answer |
| PolicyEvaluator.ValidateSettings | src/policy_evaluator.rs:308-347 | unserializable settings are invalid, with a message; burrego accepts any settings; a waPC guest decides |
| PolicyEvaluator.InvalidSettingsExplained | src/policy_evaluator.rs:308-347 | an invalid settings response always carries a message, as long as the guest explains its own refusals |
| PolicyEvaluator.WapcProtocolVersion | src/policy_evaluator.rs:351-363 | succeeds exactly when the empty-payload call and the conversion both succeed, with the converted version; a call failure is `CannotInvoke` with its error, a conversion failure is `CannotConvert` with the answer and the conversion error |
| PolicyEvaluator.ProtocolVersion | src/policy_evaluator.rs:349-369 | on a waPC runtime: succeeds exactly when the empty-payload call and the conversion both succeed, with the converted version; a call failure is `CannotInvoke` with its error, a conversion failure is `CannotConvert` with the answer and the conversion error |
| PolicyEvaluator.RegisterOutcome | src/policy_evaluator.rs:183-202 | registration succeeds exactly when both initializers do, and then files the policy under the engine key, replacing any entry there; a failure leaves the mapping unchanged and carries the first error |
| PolicyEvaluator.RegisteredUnderKey | src/policy_evaluator.rs:196-199 | after registration the policy is under its key, and every other key is as before |
| PolicyEvaluator.RegistrationOverwrites | src/policy_evaluator.rs:196-199 | a second registration under the same key replaces the first |
| PolicyEvaluator.RegisteredPolicyReceivesLogs | src/policy_evaluator.rs:55-70 | once registered, a policy receives the payloads its guest logs |
| PolicyEvaluator.PolicyIsRegisteredInTheMapping | src/policy_evaluator.rs:376-396 | an absent key is present, holding the policy, after registration |
| PolicyEvaluator.FromContentsOutcome | src/policy_evaluator.rs:139-181 | construction succeeds exactly when the policy is created and the host (native) or the evaluator (Rego) is built, each failure surfacing its own error; a native evaluator runs the created host and is filed under its id; a Rego evaluator runs the built evaluation with entrypoint 0 and empty input and data and is filed under 0; settings default to empty; a failed host creation leaves the mapping unchanged |
| PolicyEvaluator.RegoFailureKeepsRegistration | src/policy_evaluator.rs:158-165 | a Rego policy whose evaluator cannot be built still leaves its entry under key 0 |
| PolicyEvaluator.RegoPoliciesShareKeyZero | src/policy_evaluator.rs:158-164 | two Rego policies share key 0, and the later one replaces the earlier |
| PolicyEvaluator.PolicyRegistry.constructor | src/policy_evaluator.rs:25-28 | the mapping starts empty |
| PolicyEvaluator.PolicyRegistry.FromContentsInternal | src/policy_evaluator.rs:183-202 | the method's result and new mapping are exactly `RegisterOutcome` on the old mapping |
| PolicyEvaluator.PolicyRegistry.FromContents | src/policy_evaluator.rs:139-181 | the method's result and new mapping are exactly `FromContentsOutcome` on the old mapping |
| WapcRuntime.Validate | src/runtimes/wapc.rs:77-142 | every response carries the uid; a 400 rejection happens exactly when the object is missing; a serialization failure is an internal error; otherwise the guest decides through `WapcValidationOutcome` |
| WapcRuntime.MissingObjectBeforeGuestCall | src/runtimes/wapc.rs:82-93 | a request without an object gets the same 400 rejection whatever the host |
| WapcRuntime.FailedGuestCallIsInternalError | src/runtimes/wapc.rs:137-140 | a failed `validate` call gives an internal-server-error rejection with the call's error |
| WapcRuntime.AgreesWithEvaluator | src/runtimes/wapc.rs:77-142 | the runtime decides exactly as a native `PolicyEvaluator` with the same host and settings |
| WapcRuntime.ValidateSettings | src/runtimes/wapc.rs:144-162 | the guest's decoded answer unchanged; a call failure or a decode failure gives `valid: false` with its message |
| WapcRuntime.SettingsAgreeWithEvaluator | src/runtimes/wapc.rs:144-162 | the runtime's answer on the serialized settings equals a native evaluator's |
| WapcRuntime.ProtocolVersion | src/runtimes/wapc.rs:164-178 | succeeds exactly when the empty-payload call and the conversion both succeed, with the converted version; a call failure is `CannotInvoke` with its error, a conversion failure is `CannotConvert` with the answer and the conversion error |
| WapcRuntime.HostCallbackRoutes | src/runtimes/wapc.rs:23-74 | the routing table read against this runtime's own mapping: log gives no bytes and reaches the mapped policy; `ingresses`, `namespaces` and `services` each serve their own snapshot; an unknown binding, namespace or operation fails with `unknown binding: `, `unknown namespace: ` or `unknown operation: ` and the name, and logs nothing |

## Left out

- Wasm custom-section scanning in `Metadata::from_contents` and `from_path`: this is parsing and file I/O through wasmparser.
- serde (de)serialization, its camelCase renaming and its defaults. The metadata is modelled as a value. Serializing, decoding guest answers and converting a protocol version are `Codec` oracles. The `background_audit` default of `true` is modelled only through `DefaultMetadata`.
- `minimum_kubewarden_version` is kept as text, because semver parsing is foreign code.
- The waPC/wasmtime engine, the burrego evaluator, `ClusterContext::get` and `Policy::log` are foreign calls, so they are oracles. Each guest call is a function of export name and payload: changes to a guest's own state across calls are not modelled.
- The `tracing` error events are not modelled: they are output only. The log sink's failure is kept in `HostReply.logFailure`, so that the reply can be shown to ignore it.
- `ValidationResponse` internals are not modelled: JSON patches, base64 and status codes. Their file is not part of this model, so the builders are uninterpreted constructors.
- Error texts that the source renders with `{:?}` are not rendered. The model uses the inner error's string for the debug rendering. The bytes quoted in the "Cannot create ProtocolVersion object" message are kept as the bytes, in `ProtocolVersionError.CannotConvert`.
- `RwLock` and process-wide concurrency are not modelled. The registry is a single-threaded map.
- Nothing removes policies from the registry, because the modelled code never removes an entry. `src/runtimes/wapc.rs` has its own mapping: its callback is the same router read against that mapping.
- Three panics in the source are modelled as preconditions or left unreachable:
  - `PolicyEvaluator.HostCallback`: only the log route requires the policy id to be registered, because the source unwraps that lookup.
  - `PolicyEvaluator.Validate`: a burrego evaluation that succeeds must yield at least one result set when it is reached, because the source unwraps `get(0)`.
  - `PolicyEvaluator.ProtocolVersion`: it requires a waPC runtime, because the burrego arm is `unimplemented!()`.
- `PolicyEvaluator::from_file` is not modelled: it only reads a file and calls `from_contents`.
- The `Debug` formatting of `PolicyEvaluator` is not modelled: it is output only.
- src/callback_handler/sigstore_verification.rs is not modelled: it is an async wrapper over a verifier that does network I/O.
- src/lib.rs is not modelled: it holds module declarations only.
- JSON numbers are integers: floating point is not modelled.
- The texts the `validator` crate attaches to the length check and the text of the `validate_metadata` refusal are not modelled: validation reports its faults as data (`RuleFault`, `MetadataFault`), with the texts of `validate_resources` and of the asterisk checks kept where those functions are modelled.

## Findings

| source | as written | input that shows it | evidently intended | confidence | as-written member | corrected member |
|---|---|---|---|---|---|---|
| src/policy_metadata.rs:113 | the wildcard-subresource refusal message is formatted as "if '{resource}/*' is present, must not specify {res}", with the refused element and its resource swapped | `["a/*", "a/x"]`: the message reads "if 'a/x/*' is present, must not specify a", which quotes a pattern that is not in the list | "if 'a/*' is present, must not specify a/x". This matches the Kubernetes check the function transposes and the `*/{sub}` message at line 117 | high; not executed | PolicyMetadata.AsWrittenMessageMisquotes | PolicyMetadata.ConflictMessageQuotesEarlierElement |
