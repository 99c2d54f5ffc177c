/** The failures a command can end in. Each is reported to the issuer as a plain
    message; none escapes as a process-level error. */
module CommandErrors {
  import ConfigValueTypes

  datatype CommandError =
    | InvalidArgument(message: string)   // InvalidCommandArgument thrown by a handler or resolver
    | ConditionFailed(message: string)   // ConditionFailedException thrown by a condition
    | NullPlayer                         // a player accessor used on an issuer that is not a player
    | NullValueType                      // `convert` called on a null ConfigValueType
    | IllegalArgument(message: string)   // IllegalArgumentException from a server lookup given null
    | ConversionFailed(cause: ConfigValueTypes.ConvertError)   // an exception escaping `convert`
}
