/** The `edit-value` sub-command of `ConfigCommand`: validate the optional input,
    convert it with the chosen `ConfigValueType`, write it at `path` and tell the
    player what was written. */
module ConfigCommand {
  import opened Wrappers
  import opened ConfigValueTypes
  import opened CommandErrors

  /** The configuration store, one value per path. */
  type Config = map<string, Value>

  const MissingInputMessage := "Must provide an input value if you are not deleting the current config value!"
  const SuccessPrefix := "Successfully set the configuration value to "

  /** What one invocation leaves behind: the configuration, the messages sent to
      the player, and the failure it ended in, if any. */
  datatype Effect = Effect(config: Config, sent: seq<string>, failure: Option<CommandError>)

  /** The message reporting that `v` was written. */
  function SuccessMessage(v: Value, fp: FloatingPoint): (m: string)
    ensures |m| >= |SuccessPrefix| && m[..|SuccessPrefix|] == SuccessPrefix
    ensures m[|SuccessPrefix|..] == Render(v, fp)
  {
    SuccessPrefix + Render(v, fp)
  }

  /** `onEditConfigString(player, type, path, input)`, with `None` for an omitted input. */
  function EditValue(config: Config, fp: FloatingPoint, t: ConfigValueType, path: string, input: Option<string>): (r: Effect)
    // it succeeds exactly when the input is present or not needed, and converts
    ensures r.failure.None? <==> (input.Some? || t == Delete) && Convert(t, input, fp).Success?
    // a missing input is rejected before anything is converted
    ensures input.None? && t != Delete ==> r.failure == Some(InvalidArgument(MissingInputMessage))
    // a converter exception surfaces as it was thrown
    ensures (input.Some? || t == Delete) && Convert(t, input, fp).Failure? ==>
      r.failure == Some(ConversionFailed(Convert(t, input, fp).error))
    // on failure nothing is written and nothing is sent
    ensures r.failure.Some? ==> r.config == config && r.sent == []
    // on success `path` holds the converted input ...
    ensures r.failure.None? ==>
      path in r.config && Fits(t, r.config[path]) && Success(r.config[path]) == Convert(t, input, fp)
    // ... every other path is untouched ...
    ensures r.failure.None? ==> r.config.Keys == config.Keys + {path}
    ensures r.failure.None? ==> forall k :: k in config && k != path ==> r.config[k] == config[k]
    // ... and the one message sent reports the value that was written
    ensures r.failure.None? ==> r.sent == [SuccessMessage(r.config[path], fp)]
    // DELETE always succeeds and writes null; STRING writes its input unchanged
    ensures t == Delete ==> r.failure.None? && r.config[path] == Null
    ensures t == String && input.Some? ==> r.failure.None? && r.config[path] == StringValue(input.value)
  {
    if input.None? && t != Delete then
      Effect(config, [], Some(InvalidArgument(MissingInputMessage)))
    else
      match Convert(t, input, fp)
      case Failure(e) => Effect(config, [], Some(ConversionFailed(e)))
      case Success(newValue) =>
        // the Java code converts a second time for the store; conversion is a function
        var written := Convert(t, input, fp).value;
        Effect(config[path := written], [SuccessMessage(newValue, fp)], None)
  }

  /** `onEditConfigString` when the type argument may be null, as the
      ConfigValueType context yields for a name it does not know. The missing-input
      check still comes first (null is not DELETE); with an input present the
      first `convert` call dereferences the null type. */
  function EditValueWithNullableType(config: Config, fp: FloatingPoint, t: Option<ConfigValueType>, path: string, input: Option<string>): (r: Effect)
    ensures t.None? && input.None? ==> r == Effect(config, [], Some(InvalidArgument(MissingInputMessage)))
    ensures t.None? && input.Some? ==> r == Effect(config, [], Some(NullValueType))
    ensures t.Some? ==> r == EditValue(config, fp, t.value, path, input)
  {
    match t
    case None =>
      if input.None? then Effect(config, [], Some(InvalidArgument(MissingInputMessage)))
      else Effect(config, [], Some(NullValueType))
    case Some(nonNull) => EditValue(config, fp, nonNull, path, input)
  }

  /** Repeating a successful edit changes nothing further: the second run writes
      the same value at the same path and sends the same message. */
  lemma EditValueIdempotent(config: Config, fp: FloatingPoint, t: ConfigValueType, path: string, input: Option<string>)
    requires EditValue(config, fp, t, path, input).failure.None?
    ensures var once := EditValue(config, fp, t, path, input);
      var twice := EditValue(once.config, fp, t, path, input);
      twice.config == once.config && twice.sent == once.sent && twice.failure.None?
  {
  }

  /** The text after the message prefix, typed back in as the input with the same
      BOOLEAN, STRING or INTEGER type, converts to exactly the value that was written. */
  lemma ReportedValueReconverts(config: Config, fp: FloatingPoint, t: ConfigValueType, path: string, s: string)
    requires t in {Boolean, String, Integer}
    requires EditValue(config, fp, t, path, Some(s)).failure.None?
    ensures var r := EditValue(config, fp, t, path, Some(s));
      Convert(t, Some(r.sent[0][|SuccessPrefix|..]), fp) == Success(r.config[path])
  {
  }

  /** `edit-value INTEGER max-players 50` stores the integer 50 and reports "50". */
  lemma IntegerEditScenario(config: Config, fp: FloatingPoint)
    ensures var r := EditValue(config, fp, Integer, "max-players", Some("50"));
      r.failure.None? && r.config["max-players"] == IntValue(50)
      && r.sent == ["Successfully set the configuration value to 50"]
  {
    assert Decimal.DigitsValue("50") == 50 by {
      assert "50"[..1] == "5";
    }
    assert Decimal.NatToDigits(50) == "50";
    assert SuccessPrefix + "50" == "Successfully set the configuration value to 50";
  }

  /** `edit-value INTEGER max-players fifty` fails with a number-format error and
      leaves the configuration as it was. */
  lemma IntegerRejectsWordScenario(config: Config, fp: FloatingPoint)
    ensures EditValue(config, fp, Integer, "max-players", Some("fifty"))
      == Effect(config, [], Some(ConversionFailed(NumberFormat)))
  {
  }

  /** `edit-value DELETE max-players` with no input writes null. */
  lemma DeleteWithoutInputScenario(config: Config, fp: FloatingPoint)
    ensures EditValue(config, fp, Delete, "max-players", None)
      == Effect(config["max-players" := Null], ["Successfully set the configuration value to null"], None)
  {
    assert SuccessPrefix + "null" == "Successfully set the configuration value to null";
  }
}
