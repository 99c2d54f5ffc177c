/** The `ConfigValueType` enum: six kinds of configuration value, each carrying
    the converter that turns the (possibly absent) command input into a value. */
module ConfigValueTypes {
  import opened Wrappers
  import Decimal

  /** The enum constants, in declaration order. */
  datatype ConfigValueType = Delete | Boolean | String | Integer | Double | Float

  /** `ConfigValueType.values()`. */
  const AllTypes: seq<ConfigValueType> := [Delete, Boolean, String, Integer, Double, Float]

  /** `Enum.name()`: the constant's identifier as declared. */
  function Name(t: ConfigValueType): string {
    match t
    case Delete => "DELETE"
    case Boolean => "BOOLEAN"
    case String => "STRING"
    case Integer => "INTEGER"
    case Double => "DOUBLE"
    case Float => "FLOAT"
  }

  /** `Enum.ordinal()`: the constant's position in the declaration. */
  function Ordinal(t: ConfigValueType): nat {
    match t
    case Delete => 0
    case Boolean => 1
    case String => 2
    case Integer => 3
    case Double => 4
    case Float => 5
  }

  /** The objects a converter can return. `Null` is Java's null, the marker for
      "remove this value"; a double or float is kept as its IEEE bit pattern. */
  datatype Value =
    | Null
    | BoolValue(b: bool)
    | StringValue(s: string)
    | IntValue(i: int)
    | DoubleValue(doubleBits: bv64)
    | FloatValue(floatBits: bv32)

  /** The exceptions a converter can throw. */
  datatype ConvertError =
    | NumberFormat   // NumberFormatException: text that is not a number of the type
    | NullPointer    // NullPointerException: a floating-point parse of a null input

  /** Java's floating-point text conversions, which this model does not define:
      `Double.valueOf`/`Float.valueOf` (`None` where they throw
      `NumberFormatException`) and `String.valueOf` of a double or float. */
  datatype FloatingPoint = FloatingPoint(
    parseDouble: string -> Option<bv64>,
    parseFloat: string -> Option<bv32>,
    showDouble: bv64 -> string,
    showFloat: bv32 -> string)

  /** ASCII case folding. Compared against "true" it agrees with Java's
      `equalsIgnoreCase`: no character other than t, r, u, e and their capitals
      folds onto those letters. */
  function LowerAscii(c: char): char {
    if 'A' <= c <= 'Z' then (c as int + 32) as char else c
  }

  predicate EqualsIgnoreCase(a: string, b: string) {
    |a| == |b| && forall i :: 0 <= i < |a| ==> LowerAscii(a[i]) == LowerAscii(b[i])
  }

  /** `Boolean.parseBoolean`: true exactly for "true" in any letter case; false for
      everything else, null included. */
  function ParseBoolean(input: Option<string>): (b: bool)
    ensures b <==>
      && input.Some? && |input.value| == 4
      && input.value[0] in {'t', 'T'} && input.value[1] in {'r', 'R'}
      && input.value[2] in {'u', 'U'} && input.value[3] in {'e', 'E'}
  {
    input.Some? && EqualsIgnoreCase(input.value, "true")
  }

  /** `String.valueOf(value)`: the text a value contributes to a concatenated message. */
  function Render(v: Value, fp: FloatingPoint): (s: string)
    ensures v.Null? ==> s == "null"
    ensures v.BoolValue? ==> s == (if v.b then "true" else "false") && ParseBoolean(Some(s)) == v.b
    ensures v.StringValue? ==> s == v.s
    ensures v.IntValue? && Decimal.InIntRange(v.i) ==> Decimal.ParseInt(s) == Some(v.i)
    ensures v.IntValue? ==> Decimal.CanonicalInt(s)
    ensures v.DoubleValue? ==> s == fp.showDouble(v.doubleBits)
    ensures v.FloatValue? ==> s == fp.showFloat(v.floatBits)
  {
    match v
    case Null => "null"
    case BoolValue(b) => if b then "true" else "false"
    case StringValue(s) => s
    case IntValue(i) => Decimal.IntToString(i)
    case DoubleValue(bits) => fp.showDouble(bits)
    case FloatValue(bits) => fp.showFloat(bits)
  }

  /** The kind of value each converter may produce: DELETE only null, STRING its
      input (null for a null input), the others their own kind. */
  predicate Fits(t: ConfigValueType, v: Value) {
    match t
    case Delete => v.Null?
    case Boolean => v.BoolValue?
    case String => v.StringValue? || v.Null?
    case Integer => v.IntValue? && Decimal.InIntRange(v.i)
    case Double => v.DoubleValue?
    case Float => v.FloatValue?
  }

  /** `ConfigValueType.convert(input)`: applies the constant's converter, with
      `None` standing for a null input. */
  function Convert(t: ConfigValueType, input: Option<string>, fp: FloatingPoint): (r: Result<Value, ConvertError>)
    ensures r.Success? ==> Fits(t, r.value)
    ensures t == Delete ==> r == Success(Null)
    ensures t == String ==> r == Success(if input.Some? then StringValue(input.value) else Null)
    ensures t == Boolean ==> r.Success? && (r.value.b <==> input.Some? && EqualsIgnoreCase(input.value, "true"))
    ensures t == Integer ==>
      (r.Success? <==> input.Some? && Decimal.ParseInt(input.value).Some?)
      && (r.Success? ==> r.value == IntValue(Decimal.ParseInt(input.value).value))
    ensures input.None? ==> (r.Success? <==> t in {Delete, Boolean, String})
    ensures t == Integer && !(input.Some? && Decimal.ParseInt(input.value).Some?) ==> r == Failure(NumberFormat)
    ensures input.None? && t in {Double, Float} ==> r == Failure(NullPointer)
    ensures t == Double && input.Some? ==>
      r == (match fp.parseDouble(input.value)
            case Some(bits) => Success(DoubleValue(bits))
            case None => Failure(NumberFormat))
    ensures t == Float && input.Some? ==>
      r == (match fp.parseFloat(input.value)
            case Some(bits) => Success(FloatValue(bits))
            case None => Failure(NumberFormat))
  {
    match t
    case Delete => Success(Null)
    case Boolean => Success(BoolValue(ParseBoolean(input)))
    case String => if input.Some? then Success(StringValue(input.value)) else Success(Null)
    case Integer =>
      if input.None? then Failure(NumberFormat)
      else (match Decimal.ParseInt(input.value)
            case Some(n) => Success(IntValue(n))
            case None => Failure(NumberFormat))
    case Double =>
      if input.None? then Failure(NullPointer)
      else (match fp.parseDouble(input.value)
            case Some(bits) => Success(DoubleValue(bits))
            case None => Failure(NumberFormat))
    case Float =>
      if input.None? then Failure(NullPointer)
      else (match fp.parseFloat(input.value)
            case Some(bits) => Success(FloatValue(bits))
            case None => Failure(NumberFormat))
  }

  /** `values()` lists each constant exactly once, at its ordinal, and the names
      tell the constants apart. */
  lemma DeclarationOrder()
    ensures |AllTypes| == 6
    ensures forall t: ConfigValueType :: AllTypes[Ordinal(t)] == t
    ensures forall i, j :: 0 <= i < j < |AllTypes| ==> AllTypes[i] != AllTypes[j]
    ensures forall t, u: ConfigValueType :: Name(t) == Name(u) ==> t == u
  {
  }

  /** For the converters whose text form is defined here (BOOLEAN, STRING, INTEGER),
      the text a converted value is reported as converts back to the same value. */
  lemma ReportedTextReconverts(t: ConfigValueType, s: string, fp: FloatingPoint)
    requires t in {Boolean, String, Integer}
    requires Convert(t, Some(s), fp).Success?
    ensures Convert(t, Some(Render(Convert(t, Some(s), fp).value, fp)), fp) == Convert(t, Some(s), fp)
  {
  }
}
