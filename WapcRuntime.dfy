/**
 * The waPC runtime (`src/runtimes/wapc.rs`): the same decisions as the
 * native arm of `PolicyEvaluator`, made by a runtime that borrows a waPC
 * host and is handed the settings on every call. Its host callback has the
 * routing table of `PolicyEvaluator.HostCallback`, read against this
 * runtime's own policy mapping.
 */
module WapcRuntime {
  import opened Wrappers
  import Json
  import Sdk
  import opened ValidationResponse
  import opened Evaluator = PolicyEvaluator

  /** `Runtime`: the waPC host it drives. */
  datatype Runtime = Runtime(host: WapcHost)

  /**
   * `Runtime::validate`. Every response carries the request's uid; a request
   * without an object is refused with 400 before the guest is called; a
   * guest input that does not serialize is an internal error; otherwise the
   * guest's answer decides.
   */
  function Validate(rt: Runtime, settings: map<string, Json.Value>, request: ValidateRequest, codec: Codec)
    : (r: ValidationResponse)
    ensures r.uid == Uid(request)
    ensures r.Reject? <==> Json.Get(request.value, "object").None?
    ensures r.Reject? ==> r.message == MissingObjectMessage && r.code == BadRequest
    ensures Json.Get(request.value, "object").Some? && codec.serialize(GuestInput(request, settings)).Failure? ==>
              r == RejectInternalServerError(Uid(request), codec.serialize(GuestInput(request, settings)).error)
    ensures Json.Get(request.value, "object").Some? && codec.serialize(GuestInput(request, settings)).Success? ==>
              r == WapcValidationOutcome(Uid(request), Json.Get(request.value, "object").value, rt.host,
                                         codec.serialize(GuestInput(request, settings)).value, codec)
    ensures r.Reject? || r.RejectInternalServerError? || r.FromPolicyValidationResponse?
  {
    var uid := Uid(request);
    match Json.Get(request.value, "object")
    case None => Reject(uid, MissingObjectMessage, BadRequest)
    case Some(reqObject) =>
      match codec.serialize(GuestInput(request, settings))
      case Failure(err) => RejectInternalServerError(uid, err)
      case Success(input) => WapcValidationOutcome(uid, reqObject, rt.host, input, codec)
  }

  /** A request without an object never reaches the guest: any two hosts answer it alike. */
  lemma MissingObjectBeforeGuestCall(h1: WapcHost, h2: WapcHost, settings: map<string, Json.Value>,
                                     request: ValidateRequest, codec: Codec)
    requires Json.Get(request.value, "object").None?
    ensures Validate(Runtime(h1), settings, request, codec) == Validate(Runtime(h2), settings, request, codec)
            == Reject(Uid(request), MissingObjectMessage, BadRequest)
  {
  }

  /** A failed `validate` call is reported as an internal server error with the call's error. */
  lemma FailedGuestCallIsInternalError(rt: Runtime, settings: map<string, Json.Value>, request: ValidateRequest,
                                       codec: Codec)
    requires Json.Get(request.value, "object").Some? && codec.serialize(GuestInput(request, settings)).Success?
    requires rt.host.call("validate", codec.serialize(GuestInput(request, settings)).value).Failure?
    ensures Validate(rt, settings, request, codec)
            == RejectInternalServerError(Uid(request),
                                         rt.host.call("validate", codec.serialize(GuestInput(request, settings)).value).error)
  {
  }

  /** The runtime decides exactly as a native `PolicyEvaluator` with the same host and settings. */
  lemma AgreesWithEvaluator(e: Evaluator.PolicyEvaluator, request: ValidateRequest, codec: Codec)
    requires e.runtime.Wapc?
    ensures Validate(Runtime(e.runtime.host), e.settings, request, codec) == Evaluator.Validate(e, request, codec)
  {
  }

  /**
   * `Runtime::validate_settings` on already serialized settings: the
   * guest's decoded answer unchanged, or `valid: false` with the reason.
   */
  function ValidateSettings(rt: Runtime, settings: seq<byte>, codec: Codec): (r: Sdk.SettingsValidationResponse)
    ensures rt.host.call("validate_settings", settings).Failure? ==>
              r == Sdk.SettingsValidationResponse(false, Some(SettingsCallPrefix
                                                               + rt.host.call("validate_settings", settings).error))
    ensures rt.host.call("validate_settings", settings).Success? ==>
              var decoded := codec.decodeSettingsResponse(rt.host.call("validate_settings", settings).value);
              if decoded.Success? then r == decoded.value
              else r == Sdk.SettingsValidationResponse(false, Some(SettingsDecodePrefix + decoded.error))
  {
    WapcSettingsOutcome(rt.host, settings, codec)
  }

  /** The runtime's answer on the serialized settings is a native evaluator's answer. */
  lemma SettingsAgreeWithEvaluator(e: Evaluator.PolicyEvaluator, codec: Codec)
    requires e.runtime.Wapc? && codec.serialize(Json.Object(e.settings)).Success?
    ensures ValidateSettings(Runtime(e.runtime.host), codec.serialize(Json.Object(e.settings)).value, codec)
            == Evaluator.ValidateSettings(e, codec)
  {
  }

  /** `Runtime::protocol_version`: the guest's export called with an empty payload. */
  function ProtocolVersion(rt: Runtime, codec: Codec): (r: Result<Sdk.ProtocolVersion, ProtocolVersionError>)
    ensures r.Success? <==> rt.host.call("protocol_version", []).Success?
                            && codec.protocolVersionFromBytes(rt.host.call("protocol_version", []).value).Success?
    ensures rt.host.call("protocol_version", []).Failure? ==>
              r == Failure(CannotInvoke(rt.host.call("protocol_version", []).error))
    ensures r.Success? ==> r.value == codec.protocolVersionFromBytes(rt.host.call("protocol_version", []).value).value
    ensures rt.host.call("protocol_version", []).Success? &&
            codec.protocolVersionFromBytes(rt.host.call("protocol_version", []).value).Failure? ==>
              r == Failure(CannotConvert(rt.host.call("protocol_version", []).value,
                                         codec.protocolVersionFromBytes(rt.host.call("protocol_version", []).value).error))
  {
    WapcProtocolVersion(rt.host, codec)
  }

  /**
   * The routing table of this runtime's host callback, read against its own
   * mapping: the log route answers with no bytes and delivers the payload to
   * the mapped policy, the cluster routes serve their snapshot, and every
   * other name is an error.
   */
  lemma HostCallbackRoutes(mapping: map<u64, Policy>, cluster: ClusterContext, log: LogSink,
                           policyId: u64, binding: string, namespace: string, operation: string,
                           payload: seq<byte>)
    requires IsLogRoute(binding, namespace, operation) ==> policyId in mapping
    ensures var r := HostCallback(mapping, cluster, log, policyId, binding, namespace, operation, payload);
            && (IsLogRoute(binding, namespace, operation) ==>
                  r.reply == Success([]) && r.logged == Some(LogEntry(mapping[policyId], payload)))
            && (binding == "kubernetes" && namespace == "ingresses" ==> r.reply == Success(cluster.ingresses))
            && (binding == "kubernetes" && namespace == "namespaces" ==> r.reply == Success(cluster.namespaces))
            && (binding == "kubernetes" && namespace == "services" ==> r.reply == Success(cluster.services))
            && (binding != "kubewarden" && binding != "kubernetes" ==>
                  r.reply == Failure("unknown binding: " + binding))
            && ((binding == "kubewarden" && namespace != "tracing")
                || (binding == "kubernetes" && namespace !in KubernetesNamespaces) ==>
                  r.reply == Failure("unknown namespace: " + namespace))
            && (binding == "kubewarden" && namespace == "tracing" && operation != "log" ==>
                  r.reply == Failure("unknown operation: " + operation))
            && (!IsKnownRoute(binding, namespace, operation) ==> r.logged.None?)
  {
  }
}
