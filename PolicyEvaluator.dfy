/**
 * The evaluation front end (`src/policy_evaluator.rs`): the host-call router
 * the guests call back into, the process-wide registry of policies by waPC
 * host id, and the decision logic of `PolicyEvaluator` over its two
 * runtimes. The waPC guest, the burrego OPA evaluator, serde and the
 * response builder are foreign code; each is an oracle passed in as a
 * function value.
 */
module PolicyEvaluator {
  import opened Wrappers
  import Json
  import Sdk
  import opened ValidationResponse

  /** How a policy is executed: natively over waPC, or as compiled Rego. */
  datatype PolicyExecutionMode = KubewardenWapc | Opa | OpaGatekeeper

  type u64 = x: int | 0 <= x < 0x1_0000_0000_0000_0000

  type byte = Json.byte

  /** A loaded policy; only its identifier plays a part here. */
  datatype Policy = Policy(id: string)

  /** `ValidateRequest`: the admission request as a JSON document. */
  datatype ValidateRequest = ValidateRequest(value: Json.Value)

  /** `ValidateRequest::uid`: the `uid` member when it is a string, else the empty string. */
  function Uid(request: ValidateRequest): (r: string)
    ensures Json.Get(request.value, "uid") == Some(Json.String(r))
            || (r == "" && !(Json.Get(request.value, "uid").Some? && Json.Get(request.value, "uid").value.String?))
  {
    var uid := Json.Get(request.value, "uid");
    if uid.Some? && uid.value.String? then uid.value.s else ""
  }

  // ---------------------------------------------------------------------
  // Host callbacks

  /** The snapshot of cluster state the host serves to guests. */
  datatype ClusterContext = ClusterContext(ingresses: seq<byte>, namespaces: seq<byte>, services: seq<byte>)

  /** A payload a guest asked to log, and the policy it was logged for. */
  datatype LogEntry = LogEntry(policy: Policy, payload: seq<byte>)

  /**
   * What a host call produces: the reply to the guest, the log entry handed
   * to `Policy::log` (if any), and the error that sink reported (if any),
   * which the host only traces.
   */
  datatype HostReply = HostReply(reply: Result<seq<byte>, string>, logged: Option<LogEntry>, logFailure: Option<string>)

  /** The `Policy::log` sink; its outcome is decided outside this model. */
  type LogSink = (Policy, seq<byte>) -> Result<(), string>

  const KubernetesNamespaces: set<string> := {"ingresses", "namespaces", "services"}

  /** The routes a guest can reach: the tracing log and the three cluster snapshots. */
  predicate IsKnownRoute(binding: string, namespace: string, operation: string) {
    || (binding == "kubewarden" && namespace == "tracing" && operation == "log")
    || (binding == "kubernetes" && namespace in KubernetesNamespaces)
  }

  predicate IsLogRoute(binding: string, namespace: string, operation: string) {
    binding == "kubewarden" && namespace == "tracing" && operation == "log"
  }

  /**
   * `host_callback`: dispatch on binding, then namespace, then operation.
   * The log route looks the calling policy up in `registry` (the source
   * unwraps that lookup, hence the precondition), hands it the payload and
   * answers with no bytes whatever the sink says. A name that matches no
   * route is named in the error by the first level that fails.
   */
  function HostCallback(registry: map<u64, Policy>, cluster: ClusterContext, log: LogSink,
                        policyId: u64, binding: string, namespace: string, operation: string,
                        payload: seq<byte>): (r: HostReply)
    requires IsLogRoute(binding, namespace, operation) ==> policyId in registry
    ensures r.reply.Success? <==> IsKnownRoute(binding, namespace, operation)
    ensures r.logged.Some? <==> IsLogRoute(binding, namespace, operation)
    ensures IsLogRoute(binding, namespace, operation) ==>
              r.reply == Success([]) && r.logged == Some(LogEntry(registry[policyId], payload))
    ensures r.logFailure.Some? ==> r.logged.Some? && log(registry[policyId], payload).Failure?
    ensures binding == "kubernetes" && namespace == "ingresses" ==> r.reply == Success(cluster.ingresses)
    ensures binding == "kubernetes" && namespace == "namespaces" ==> r.reply == Success(cluster.namespaces)
    ensures binding == "kubernetes" && namespace == "services" ==> r.reply == Success(cluster.services)
    ensures binding != "kubewarden" && binding != "kubernetes" ==> r.reply == Failure("unknown binding: " + binding)
    ensures binding == "kubewarden" && namespace != "tracing" ==> r.reply == Failure("unknown namespace: " + namespace)
    ensures binding == "kubewarden" && namespace == "tracing" && operation != "log" ==>
              r.reply == Failure("unknown operation: " + operation)
    ensures binding == "kubernetes" && namespace !in KubernetesNamespaces ==>
              r.reply == Failure("unknown namespace: " + namespace)
  {
    match binding
    case "kubewarden" =>
      (match namespace
       case "tracing" =>
         (match operation
          case "log" =>
            var policy := registry[policyId];
            var failure := match log(policy, payload)
              case Failure(e) => Some(e)
              case Success(_) => None;
            HostReply(Success([]), Some(LogEntry(policy, payload)), failure)
          case _ => HostReply(Failure("unknown operation: " + operation), None, None))
       case _ => HostReply(Failure("unknown namespace: " + namespace), None, None))
    case "kubernetes" =>
      (match namespace
       case "ingresses" => HostReply(Success(cluster.ingresses), None, None)
       case "namespaces" => HostReply(Success(cluster.namespaces), None, None)
       case "services" => HostReply(Success(cluster.services), None, None)
       case _ => HostReply(Failure("unknown namespace: " + namespace), None, None))
    case _ => HostReply(Failure("unknown binding: " + binding), None, None)
  }

  /** A cluster snapshot does not depend on the operation named or on the payload. */
  lemma KubernetesRouteIgnoresOperation(registry: map<u64, Policy>, cluster: ClusterContext, log: LogSink,
                                        policyId: u64, namespace: string,
                                        op1: string, op2: string, p1: seq<byte>, p2: seq<byte>)
    requires namespace in KubernetesNamespaces
    ensures HostCallback(registry, cluster, log, policyId, "kubernetes", namespace, op1, p1).reply
            == HostCallback(registry, cluster, log, policyId, "kubernetes", namespace, op2, p2).reply
  {
  }

  /** The log route answers with no bytes whether or not the sink fails. */
  lemma LogReplyIgnoresSink(registry: map<u64, Policy>, cluster: ClusterContext, log1: LogSink, log2: LogSink,
                            policyId: u64, payload: seq<byte>)
    requires policyId in registry
    ensures HostCallback(registry, cluster, log1, policyId, "kubewarden", "tracing", "log", payload).reply
            == HostCallback(registry, cluster, log2, policyId, "kubewarden", "tracing", "log", payload).reply
            == Success([])
  {
  }

  /** Every failed host call is named by exactly one of the three levels. */
  lemma UnknownRouteNamed(registry: map<u64, Policy>, cluster: ClusterContext, log: LogSink,
                          policyId: u64, binding: string, namespace: string, operation: string, payload: seq<byte>)
    requires !IsKnownRoute(binding, namespace, operation)
    ensures var r := HostCallback(registry, cluster, log, policyId, binding, namespace, operation, payload).reply;
            || r == Failure("unknown binding: " + binding)
            || r == Failure("unknown namespace: " + namespace)
            || r == Failure("unknown operation: " + operation)
    ensures HostCallback(registry, cluster, log, policyId, binding, namespace, operation, payload).logged.None?
  {
  }

  // ---------------------------------------------------------------------
  // Runtimes

  /** A waPC guest call: export name and payload in, the guest's bytes or an error out. */
  type GuestCall = (string, seq<byte>) -> Result<seq<byte>, string>

  /** A host running one native guest; `id` is the key the registry files its policy under. */
  datatype WapcHost = WapcHost(id: u64, call: GuestCall)

  /** An OPA evaluation: entrypoint, input and data in, one boolean per result set out. */
  type Evaluation = (int, Json.Value, Json.Value) -> Result<seq<bool>, string>

  /** `BurregoEvaluator`: the evaluator and the arguments it is always evaluated with. */
  datatype BurregoEvaluator = BurregoEvaluator(evaluate: Evaluation, entrypointId: int, input: Json.Value, data: Json.Value)

  datatype Runtime = Wapc(host: WapcHost) | Burrego(burrego: BurregoEvaluator)

  /** `PolicyEvaluator`: a runtime, the policy it runs and the policy's settings. */
  datatype PolicyEvaluator = PolicyEvaluator(runtime: Runtime, policy: Policy, settings: map<string, Json.Value>)

  /**
   * The serde and SDK conversions the evaluator relies on: JSON to bytes,
   * the guests' two answers from bytes, a protocol version from bytes, and
   * when building a response from a guest's answer fails.
   */
  datatype Codec = Codec(
    serialize: Json.Value -> Result<seq<byte>, string>,
    decodeValidationResponse: seq<byte> -> Result<Sdk.PolicyValidationResponse, string>,
    decodeSettingsResponse: seq<byte> -> Result<Sdk.SettingsValidationResponse, string>,
    protocolVersionFromBytes: seq<byte> -> Result<Sdk.ProtocolVersion, string>,
    buildFailure: BuildFailure)

  /** `hyper::StatusCode::BAD_REQUEST` */
  const BadRequest: nat := 400

  const MissingObjectMessage := "request doesn't have an 'object' value"

  /** The document handed to a guest's `validate` export: the request and the settings, and nothing else. */
  function GuestInput(request: ValidateRequest, settings: map<string, Json.Value>): (r: Json.Value)
    ensures r.Object? && r.fields.Keys == {"request", "settings"}
    ensures r.fields["request"] == request.value && r.fields["settings"] == Json.Object(settings)
  {
    var fields := map["request" := request.value, "settings" := Json.Object(settings)];
    assert fields.Keys == {"request", "settings"};
    Json.Object(fields)
  }

  /**
   * The waPC half of `validate` once the guest input is serialized: a failed
   * call, an undecodable answer and a failed build all become internal
   * server errors; otherwise the response is built from the guest's answer.
   */
  function WapcValidationOutcome(uid: string, reqObject: Json.Value, host: WapcHost, input: seq<byte>, codec: Codec)
    : (r: ValidationResponse)
    ensures r.uid == uid
    ensures r.RejectInternalServerError? || r.FromPolicyValidationResponse?
    ensures host.call("validate", input).Failure? ==>
              r == RejectInternalServerError(uid, host.call("validate", input).error)
    ensures host.call("validate", input).Success? &&
            codec.decodeValidationResponse(host.call("validate", input).value).Failure? ==>
              r == RejectInternalServerError(uid, "cannot deserialize policy validation response: "
                                                    + codec.decodeValidationResponse(host.call("validate", input).value).error)
    ensures r.FromPolicyValidationResponse? <==>
              && host.call("validate", input).Success?
              && codec.decodeValidationResponse(host.call("validate", input).value).Success?
              && codec.buildFailure(uid, reqObject,
                                    codec.decodeValidationResponse(host.call("validate", input).value).value).None?
    ensures r.FromPolicyValidationResponse? ==>
              r.reqObject == reqObject
              && r.response == codec.decodeValidationResponse(host.call("validate", input).value).value
    ensures host.call("validate", input).Success? &&
            codec.decodeValidationResponse(host.call("validate", input).value).Success? &&
            codec.buildFailure(uid, reqObject,
                               codec.decodeValidationResponse(host.call("validate", input).value).value).Some? ==>
              r == RejectInternalServerError(uid, codec.buildFailure(uid, reqObject,
                     codec.decodeValidationResponse(host.call("validate", input).value).value).value)
  {
    match host.call("validate", input)
    case Failure(e) => RejectInternalServerError(uid, e)
    case Success(answer) =>
      match codec.decodeValidationResponse(answer)
      case Failure(e) => RejectInternalServerError(uid, "cannot deserialize policy validation response: " + e)
      case Success(response) =>
        match FromPolicy(uid, reqObject, response, codec.buildFailure)
        case Success(v) => v
        case Failure(e) => RejectInternalServerError(uid, e)
  }

  /** The evaluation a burrego runtime performs: its stored entrypoint, input and data. */
  function BurregoEvaluation(b: BurregoEvaluator): Result<seq<bool>, string> {
    b.evaluate(b.entrypointId, b.input, b.data)
  }

  /** The source takes the first result set with `unwrap`: a successful evaluation yields one. */
  predicate BurregoAnswers(runtime: Runtime) {
    runtime.Burrego? && BurregoEvaluation(runtime.burrego).Success? ==> |BurregoEvaluation(runtime.burrego).value| > 0
  }

  /** Whether `validate` gets as far as its runtime: the request has an object and the guest input serializes. */
  predicate ReachesRuntime(e: PolicyEvaluator, request: ValidateRequest, codec: Codec) {
    Json.Get(request.value, "object").Some? && codec.serialize(GuestInput(request, e.settings)).Success?
  }

  /**
   * `PolicyEvaluator::validate`. Every response carries the request's uid;
   * a request without an object is refused with 400 before anything else
   * runs; a guest input that does not serialize is an internal error; then
   * the runtime decides.
   */
  function Validate(e: PolicyEvaluator, request: ValidateRequest, codec: Codec): (r: ValidationResponse)
    requires ReachesRuntime(e, request, codec) ==> BurregoAnswers(e.runtime)
    ensures r.uid == Uid(request)
    ensures r.Reject? <==> Json.Get(request.value, "object").None?
    ensures r.Reject? ==> r.message == MissingObjectMessage && r.code == BadRequest
    ensures Json.Get(request.value, "object").Some? && codec.serialize(GuestInput(request, e.settings)).Failure? ==>
              r == RejectInternalServerError(Uid(request), codec.serialize(GuestInput(request, e.settings)).error)
    ensures ReachesRuntime(e, request, codec) && e.runtime.Wapc? ==>
              r == WapcValidationOutcome(Uid(request), Json.Get(request.value, "object").value, e.runtime.host,
                                         codec.serialize(GuestInput(request, e.settings)).value, codec)
    ensures ReachesRuntime(e, request, codec) && e.runtime.Burrego? ==>
              if BurregoEvaluation(e.runtime.burrego).Success?
              then r == Decision(Uid(request), BurregoEvaluation(e.runtime.burrego).value[0])
              else r == RejectInternalServerError(Uid(request), BurregoEvaluation(e.runtime.burrego).error)
  {
    var uid := Uid(request);
    match Json.Get(request.value, "object")
    case None => Reject(uid, MissingObjectMessage, BadRequest)
    case Some(reqObject) =>
      match codec.serialize(GuestInput(request, e.settings))
      case Failure(err) => RejectInternalServerError(uid, err)
      case Success(input) =>
        match e.runtime
        case Wapc(host) => WapcValidationOutcome(uid, reqObject, host, input, codec)
        case Burrego(b) =>
          match BurregoEvaluation(b)
          case Success(results) => Decision(uid, results[0])
          case Failure(err) => RejectInternalServerError(uid, err)
  }

  /** A request without an object is refused the same way by every evaluator and every codec. */
  lemma MissingObjectIgnoresRuntime(e1: PolicyEvaluator, e2: PolicyEvaluator, c1: Codec, c2: Codec,
                                    request: ValidateRequest)
    requires Json.Get(request.value, "object").None?
    ensures Validate(e1, request, c1) == Validate(e2, request, c2)
            == Reject(Uid(request), MissingObjectMessage, BadRequest)
  {
  }

  /**
   * A burrego runtime evaluates its stored input and data, not the request:
   * two requests with the same uid that both reach it get the same answer.
   */
  lemma BurregoIgnoresRequestBody(e: PolicyEvaluator, codec: Codec, q1: ValidateRequest, q2: ValidateRequest)
    requires e.runtime.Burrego? && BurregoAnswers(e.runtime)
    requires ReachesRuntime(e, q1, codec) && ReachesRuntime(e, q2, codec) && Uid(q1) == Uid(q2)
    ensures Validate(e, q1, codec) == Validate(e, q2, codec)
    ensures Validate(e, q1, codec).Decision? || Validate(e, q1, codec).RejectInternalServerError?
  {
  }

  /**
   * A native policy's verdict is its guest's: when call, decoding and
   * building succeed, the response is built from the decoded answer and
   * the request's object.
   */
  lemma WapcVerdictFromGuest(e: PolicyEvaluator, request: ValidateRequest, codec: Codec)
    requires e.runtime.Wapc? && ReachesRuntime(e, request, codec)
    ensures var input := codec.serialize(GuestInput(request, e.settings)).value;
            var answer := e.runtime.host.call("validate", input);
            answer.Success? && codec.decodeValidationResponse(answer.value).Success?
            && codec.buildFailure(Uid(request), Json.Get(request.value, "object").value,
                                  codec.decodeValidationResponse(answer.value).value).None?
            ==> Validate(e, request, codec)
                == FromPolicyValidationResponse(Uid(request), Json.Get(request.value, "object").value,
                                                codec.decodeValidationResponse(answer.value).value)
  {
  }

  // ---------------------------------------------------------------------
  // Settings validation and protocol version

  const SettingsCallPrefix := "Error invoking settings validation callback: "
  const SettingsDecodePrefix := "error: cannot convert response: "

  /**
   * The waPC half of `validate_settings` once the settings are serialized:
   * the guest's decoded answer unchanged, or `valid: false` with the
   * reason when the call or the decoding fails.
   */
  function WapcSettingsOutcome(host: WapcHost, settings: seq<byte>, codec: Codec): (r: Sdk.SettingsValidationResponse)
    ensures host.call("validate_settings", settings).Failure? ==>
              r == Sdk.SettingsValidationResponse(false, Some(SettingsCallPrefix + host.call("validate_settings", settings).error))
    ensures host.call("validate_settings", settings).Success? ==>
              var decoded := codec.decodeSettingsResponse(host.call("validate_settings", settings).value);
              if decoded.Success? then r == decoded.value
              else r == Sdk.SettingsValidationResponse(false, Some(SettingsDecodePrefix + decoded.error))
  {
    match host.call("validate_settings", settings)
    case Failure(err) => Sdk.SettingsValidationResponse(false, Some(SettingsCallPrefix + err))
    case Success(answer) =>
      match codec.decodeSettingsResponse(answer)
      case Success(v) => v
      case Failure(err) => Sdk.SettingsValidationResponse(false, Some(SettingsDecodePrefix + err))
  }

  /** A settings response is only ever valid when the guest's own decoded answer says so. */
  lemma WapcSettingsValidOnlyFromGuest(host: WapcHost, settings: seq<byte>, codec: Codec)
    requires WapcSettingsOutcome(host, settings, codec).valid
    ensures host.call("validate_settings", settings).Success?
    ensures codec.decodeSettingsResponse(host.call("validate_settings", settings).value)
            == Success(WapcSettingsOutcome(host, settings, codec))
  {
  }

  const SerializeSettingsPrefix := "Cannot serialize validation params: "

  /**
   * `PolicyEvaluator::validate_settings`: settings that do not serialize are
   * invalid; a burrego runtime accepts any settings; a waPC guest decides.
   */
  function ValidateSettings(e: PolicyEvaluator, codec: Codec): (r: Sdk.SettingsValidationResponse)
    ensures codec.serialize(Json.Object(e.settings)).Failure? ==>
              r == Sdk.SettingsValidationResponse(false, Some(SerializeSettingsPrefix
                                                               + codec.serialize(Json.Object(e.settings)).error))
    ensures codec.serialize(Json.Object(e.settings)).Success? && e.runtime.Burrego? ==>
              r == Sdk.SettingsValidationResponse(true, None)
    ensures codec.serialize(Json.Object(e.settings)).Success? && e.runtime.Wapc? ==>
              r == WapcSettingsOutcome(e.runtime.host, codec.serialize(Json.Object(e.settings)).value, codec)
  {
    match codec.serialize(Json.Object(e.settings))
    case Failure(err) => Sdk.SettingsValidationResponse(false, Some(SerializeSettingsPrefix + err))
    case Success(s) =>
      match e.runtime
      case Wapc(host) => WapcSettingsOutcome(host, s, codec)
      case Burrego(_) => Sdk.SettingsValidationResponse(true, None)
  }

  /** Invalid settings always come with a message saying why. */
  lemma InvalidSettingsExplained(e: PolicyEvaluator, codec: Codec)
    requires !ValidateSettings(e, codec).valid
    requires e.runtime.Wapc? ==> forall answer :: codec.decodeSettingsResponse(answer).Success? ==>
                                    codec.decodeSettingsResponse(answer).value.valid
                                    || codec.decodeSettingsResponse(answer).value.message.Some?
    ensures ValidateSettings(e, codec).message.Some?
  {
  }

  /** Why asking a guest for its protocol version failed. */
  datatype ProtocolVersionError =
    | CannotInvoke(callError: string)                       // the guest call failed
    | CannotConvert(response: seq<byte>, conversionError: string)  // its answer is no protocol version

  /** `protocol_version` on a waPC host: call the export with an empty payload and convert the answer. */
  function WapcProtocolVersion(host: WapcHost, codec: Codec): (r: Result<Sdk.ProtocolVersion, ProtocolVersionError>)
    ensures r.Success? <==> host.call("protocol_version", []).Success?
                            && codec.protocolVersionFromBytes(host.call("protocol_version", []).value).Success?
    ensures r.Success? ==> r.value == codec.protocolVersionFromBytes(host.call("protocol_version", []).value).value
    ensures host.call("protocol_version", []).Failure? ==> r == Failure(CannotInvoke(host.call("protocol_version", []).error))
    ensures r.Failure? && r.error.CannotConvert? ==> r.error.response == host.call("protocol_version", []).value
    ensures host.call("protocol_version", []).Success? &&
            codec.protocolVersionFromBytes(host.call("protocol_version", []).value).Failure? ==>
              r == Failure(CannotConvert(host.call("protocol_version", []).value,
                                         codec.protocolVersionFromBytes(host.call("protocol_version", []).value).error))
  {
    match host.call("protocol_version", [])
    case Failure(err) => Failure(CannotInvoke(err))
    case Success(answer) =>
      match codec.protocolVersionFromBytes(answer)
      case Success(v) => Success(v)
      case Failure(err) => Failure(CannotConvert(answer, err))
  }

  /** `PolicyEvaluator::protocol_version`; the source does not implement it for burrego and panics. */
  function ProtocolVersion(e: PolicyEvaluator, codec: Codec): (r: Result<Sdk.ProtocolVersion, ProtocolVersionError>)
    requires e.runtime.Wapc?
    ensures r.Success? <==> e.runtime.host.call("protocol_version", []).Success?
                            && codec.protocolVersionFromBytes(e.runtime.host.call("protocol_version", []).value).Success?
    ensures r.Success? ==>
              r.value == codec.protocolVersionFromBytes(e.runtime.host.call("protocol_version", []).value).value
    ensures e.runtime.host.call("protocol_version", []).Failure? ==>
              r == Failure(CannotInvoke(e.runtime.host.call("protocol_version", []).error))
    ensures e.runtime.host.call("protocol_version", []).Success? &&
            codec.protocolVersionFromBytes(e.runtime.host.call("protocol_version", []).value).Failure? ==>
              r == Failure(CannotConvert(e.runtime.host.call("protocol_version", []).value,
                                         codec.protocolVersionFromBytes(e.runtime.host.call("protocol_version", []).value).error))
  {
    WapcProtocolVersion(e.runtime.host, codec)
  }

  // ---------------------------------------------------------------------
  // The policy registry

  /** Creates a policy from its identifier: `Policy::new`. */
  type PolicyInitializer = string -> Result<Policy, string>

  /**
   * Registering a policy: the engine's key, then the policy, each of which
   * may fail; on success the policy is filed under the key, replacing any
   * earlier entry. Returns the policy (or the first error) and the new map.
   */
  function RegisterOutcome(mapping: map<u64, Policy>, engineId: Result<u64, string>, policy: Result<Policy, string>)
    : (r: (Result<Policy, string>, map<u64, Policy>))
    ensures r.0.Success? <==> engineId.Success? && policy.Success?
    ensures r.0.Success? ==> r.0.value == policy.value && r.1 == mapping[engineId.value := policy.value]
    ensures r.0.Failure? ==> r.1 == mapping
    ensures engineId.Failure? ==> r.0 == Failure(engineId.error)
    ensures engineId.Success? && policy.Failure? ==> r.0 == Failure(policy.error)
  {
    match engineId
    case Failure(e) => (Failure(e), mapping)
    case Success(id) =>
      match policy
      case Failure(e) => (Failure(e), mapping)
      case Success(p) => (Success(p), mapping[id := p])
  }

  /** After a registration the policy is found under its key and every other entry is as before. */
  lemma RegisteredUnderKey(mapping: map<u64, Policy>, key: u64, policy: Policy, other: u64)
    requires other != key
    ensures var m := RegisterOutcome(mapping, Success(key), Success(policy)).1;
            key in m && m[key] == policy
            && (other in m <==> other in mapping) && (other in mapping ==> m[other] == mapping[other])
  {
  }

  /** A second registration under the same key replaces the first. */
  lemma RegistrationOverwrites(mapping: map<u64, Policy>, key: u64, p1: Policy, p2: Policy)
    ensures var m1 := RegisterOutcome(mapping, Success(key), Success(p1)).1;
            RegisterOutcome(m1, Success(key), Success(p2)).1 == mapping[key := p2]
  {
  }

  /** Once registered, a policy receives what its guest logs. */
  lemma RegisteredPolicyReceivesLogs(mapping: map<u64, Policy>, key: u64, policy: Policy,
                                     cluster: ClusterContext, log: LogSink, payload: seq<byte>)
    ensures var m := RegisterOutcome(mapping, Success(key), Success(policy)).1;
            key in m &&
            HostCallback(m, cluster, log, key, "kubewarden", "tracing", "log", payload).logged
            == Some(LogEntry(policy, payload))
  {
  }

  /** The registry test: an absent key is present with the policy after registration. */
  lemma PolicyIsRegisteredInTheMapping(mapping: map<u64, Policy>)
    requires 1 !in mapping
    ensures var r := RegisterOutcome(mapping, Success(1), Success(Policy("")));
            r.0 == Success(Policy("")) && 1 in r.1 && r.1[1] == Policy("")
  {
  }

  /** The foreign constructors `from_contents` relies on. */
  datatype Engines = Engines(
    newWapcHost: seq<byte> -> Result<WapcHost, string>,             // wasmtime engine and `WapcHost::new`
    newPolicy: PolicyInitializer,                                   // `Policy::new`
    newBurrego: (string, seq<byte>) -> Result<Evaluation, string>)  // burrego `Evaluator::new`

  /**
   * `PolicyEvaluator::from_contents`, as a value: the evaluator (or the
   * first error) and the registry afterwards. A native policy is filed under
   * its host's id once the host exists; a Rego policy is filed under 0
   * before its evaluator is built, so that entry stays when building fails.
   */
  function FromContentsOutcome(mapping: map<u64, Policy>, id: string, contents: seq<byte>, mode: PolicyExecutionMode,
                               settings: Option<map<string, Json.Value>>, engines: Engines)
    : (r: (Result<PolicyEvaluator, string>, map<u64, Policy>))
    ensures engines.newPolicy(id).Failure? ==> r.0.Failure? && r.1 == mapping
    ensures r.0.Success? <==>
              && engines.newPolicy(id).Success?
              && (if mode == KubewardenWapc then engines.newWapcHost(contents).Success?
                  else engines.newBurrego(id, contents).Success?)
    ensures mode == KubewardenWapc && engines.newWapcHost(contents).Success? && engines.newPolicy(id).Failure? ==>
              r.0 == Failure(engines.newPolicy(id).error)
    ensures mode != KubewardenWapc && engines.newPolicy(id).Failure? ==> r.0 == Failure(engines.newPolicy(id).error)
    ensures mode != KubewardenWapc && engines.newPolicy(id).Success? && engines.newBurrego(id, contents).Failure? ==>
              r.0 == Failure(engines.newBurrego(id, contents).error)
    ensures r.0.Success? && mode == KubewardenWapc ==> r.0.value.runtime == Wapc(engines.newWapcHost(contents).value)
    ensures r.0.Success? && mode != KubewardenWapc ==>
              r.0.value.runtime.Burrego? && r.0.value.runtime.burrego.evaluate == engines.newBurrego(id, contents).value
    ensures r.0.Success? ==> r.0.value.settings == settings.GetOr(map[])
    ensures r.0.Success? ==> (r.0.value.runtime.Wapc? <==> mode == KubewardenWapc)
    ensures r.0.Success? ==> r.0.value.policy == engines.newPolicy(id).value
    ensures r.0.Success? && mode == KubewardenWapc ==>
              r.1 == mapping[r.0.value.runtime.host.id := r.0.value.policy]
    ensures r.0.Success? && mode != KubewardenWapc ==> r.1 == mapping[0 := r.0.value.policy]
    ensures r.0.Success? && mode != KubewardenWapc ==>
              r.0.value.runtime.burrego.entrypointId == 0
              && r.0.value.runtime.burrego.input == Json.Object(map[])
              && r.0.value.runtime.burrego.data == Json.Object(map[])
    ensures mode == KubewardenWapc && engines.newWapcHost(contents).Failure? ==>
              r == (Failure(engines.newWapcHost(contents).error), mapping)
  {
    match mode
    case KubewardenWapc =>
      (match engines.newWapcHost(contents)
       case Failure(e) => (Failure(e), mapping)
       case Success(host) =>
         var (p, m) := RegisterOutcome(mapping, Success(host.id), engines.newPolicy(id));
         match p
         case Failure(e) => (Failure(e), m)
         case Success(policy) => (Success(PolicyEvaluator(Wapc(host), policy, settings.GetOr(map[]))), m))
    case _ =>
      var (p, m) := RegisterOutcome(mapping, Success(0), engines.newPolicy(id));
      match p
      case Failure(e) => (Failure(e), m)
      case Success(policy) =>
        match engines.newBurrego(id, contents)
        case Failure(e) => (Failure(e), m)
        case Success(evaluate) =>
          var b := BurregoEvaluator(evaluate, 0, Json.Object(map[]), Json.Object(map[]));
          (Success(PolicyEvaluator(Burrego(b), policy, settings.GetOr(map[]))), m)
  }

  /** A Rego policy whose evaluator cannot be built still leaves its entry under key 0. */
  lemma RegoFailureKeepsRegistration(mapping: map<u64, Policy>, id: string, contents: seq<byte>,
                                     mode: PolicyExecutionMode, settings: Option<map<string, Json.Value>>,
                                     engines: Engines)
    requires mode != KubewardenWapc && engines.newPolicy(id).Success? && engines.newBurrego(id, contents).Failure?
    ensures var r := FromContentsOutcome(mapping, id, contents, mode, settings, engines);
            r == (Failure(engines.newBurrego(id, contents).error), mapping[0 := engines.newPolicy(id).value])
  {
  }

  /** Two Rego policies share key 0: the later one's entry replaces the earlier one's. */
  lemma RegoPoliciesShareKeyZero(mapping: map<u64, Policy>, id1: string, id2: string, contents: seq<byte>,
                                 settings: Option<map<string, Json.Value>>, engines: Engines)
    requires engines.newPolicy(id1).Success? && engines.newPolicy(id2).Success?
    ensures var m1 := FromContentsOutcome(mapping, id1, contents, Opa, settings, engines).1;
            var m2 := FromContentsOutcome(m1, id2, contents, OpaGatekeeper, settings, engines).1;
            m2 == mapping[0 := engines.newPolicy(id2).value]
  {
  }

  /**
   * `WAPC_POLICY_MAPPING`: the process-wide map from waPC host id to the
   * policy that host runs; entries are only ever added or replaced.
   */
  class PolicyRegistry {
    var mapping: map<u64, Policy>

    /** The mapping starts empty. */
    constructor()
      ensures mapping == map[]
    {
      mapping := map[];
    }

    /**
     * `from_contents_internal`: ask the engine for its key, create the
     * policy, file it under the key.
     */
    method FromContentsInternal(id: string, engineInitializer: PolicyExecutionMode -> Result<u64, string>,
                                policyInitializer: PolicyInitializer, mode: PolicyExecutionMode)
      returns (r: Result<Policy, string>)
      modifies this
      ensures (r, mapping) == RegisterOutcome(old(mapping), engineInitializer(mode), policyInitializer(id))
    {
      var engineId := engineInitializer(mode);
      if engineId.Failure? {
        return Failure(engineId.error);
      }
      var policy := policyInitializer(id);
      if policy.Failure? {
        return Failure(policy.error);
      }
      mapping := mapping[engineId.value := policy.value];
      r := Success(policy.value);
    }

    /** `from_contents`: build the runtime for the mode and register the policy. */
    method FromContents(id: string, contents: seq<byte>, mode: PolicyExecutionMode,
                        settings: Option<map<string, Json.Value>>, engines: Engines)
      returns (r: Result<PolicyEvaluator, string>)
      modifies this
      ensures (r, mapping) == FromContentsOutcome(old(mapping), id, contents, mode, settings, engines)
    {
      if mode == KubewardenWapc {
        var host := engines.newWapcHost(contents);
        if host.Failure? {
          return Failure(host.error);
        }
        var hostId := host.value.id;
        var policy := FromContentsInternal(id, _ => Success(hostId), engines.newPolicy, mode);
        if policy.Failure? {
          return Failure(policy.error);
        }
        r := Success(PolicyEvaluator(Wapc(host.value), policy.value, settings.GetOr(map[])));
      } else {
        var policy := FromContentsInternal(id, _ => Success(0), engines.newPolicy, mode);
        if policy.Failure? {
          return Failure(policy.error);
        }
        var evaluate := engines.newBurrego(id, contents);
        if evaluate.Failure? {
          return Failure(evaluate.error);
        }
        var b := BurregoEvaluator(evaluate.value, 0, Json.Object(map[]), Json.Object(map[]));
        r := Success(PolicyEvaluator(Burrego(b), policy.value, settings.GetOr(map[])));
      }
    }
  }
}
