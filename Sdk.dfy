/** The types the core takes from the Kubewarden policy SDK. */
module Sdk {
  import opened Wrappers
  import Json

  type u16 = x: int | 0 <= x < 0x1_0000

  /** The guest ABI versions; `Unknown` is the sentinel for an unrecognised one. */
  datatype ProtocolVersion = Unknown | V1

  /** What a native guest's `validate` export answers. */
  datatype PolicyValidationResponse = PolicyValidationResponse(
    accepted: bool,
    message: Option<string>,
    code: Option<u16>,
    mutatedObject: Option<Json.Value>)

  /** What a guest's `validate_settings` export answers. */
  datatype SettingsValidationResponse = SettingsValidationResponse(valid: bool, message: Option<string>)
}
