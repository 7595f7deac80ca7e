/**
 * The `.action` callback of the command line: it checks both display-mode
 * strings, lets the passthru baud rate fall back to the target's with
 * `||=`, replaces both baud-rate strings by `parseInt` of them, and only
 * then calls main. The options object it mutates is the class Options.
 */
module Config {
  import opened Wrappers
  import opened Format

  /** A property of the options object: a string from the command line, absent, or a number (None is NaN). */
  datatype Value = Undefined | Str(s: string) | Num(n: Option<nat>)

  /** JavaScript truthiness: undefined, "", NaN and 0 are falsy. */
  predicate Truthy(v: Value)
  {
    match v
    case Undefined => false
    case Str(s) => s != ""
    case Num(n) => n.Some? && n.value != 0
  }

  /** The two names `["text", "binary"].includes(value)` accepts. */
  predicate IsModeName(s: string)
  {
    s == "text" || s == "binary"
  }

  function ModeName(m: DisplayMode): (s: string)
    ensures IsModeName(s)
  {
    if m == Text then "text" else "binary"
  }

  /** A validated type string read as the display mode it names. */
  function ParseMode(s: string): (r: Option<DisplayMode>)
    ensures r.Some? <==> IsModeName(s)
    ensures r.Some? ==> ModeName(r.value) == s
  {
    if s == "text" then Some(Text) else if s == "binary" then Some(Binary) else None
  }

  lemma ModeNameRoundTrip(m: DisplayMode)
    ensures ParseMode(ModeName(m)) == Some(m)
  {
  }

  /** What the callback throws: `invalid type: ${value}`. */
  datatype ConfigError = InvalidType(value: string)

  /**
   * `[inputType, outputType].forEach(...)`: the first string that is not a
   * mode name is thrown; if both are names, both modes are returned.
   */
  function CheckTypes(inputType: string, outputType: string): (r: Result<(DisplayMode, DisplayMode), ConfigError>)
    ensures r.Success? <==> IsModeName(inputType) && IsModeName(outputType)
    ensures r.Success? ==> ModeName(r.value.0) == inputType && ModeName(r.value.1) == outputType
    ensures !IsModeName(inputType) ==> r == Failure(InvalidType(inputType))
    ensures IsModeName(inputType) && !IsModeName(outputType) ==> r == Failure(InvalidType(outputType))
  {
    match ParseMode(inputType)
    case None => Failure(InvalidType(inputType))
    case Some(i) =>
      match ParseMode(outputType)
      case None => Failure(InvalidType(outputType))
      case Some(o) => Success((i, o))
  }

  // ---------------------------------------------------------------------
  // parseInt, on its decimal-digit reading
  // ---------------------------------------------------------------------

  predicate IsDigit(c: char)
  {
    '0' <= c <= '9'
  }

  /** The length of the run of decimal digits `s` begins with. */
  function LeadingDigits(s: string): (k: nat)
    ensures k <= |s|
    ensures forall i :: 0 <= i < k ==> IsDigit(s[i])
    ensures k < |s| ==> !IsDigit(s[k])
  {
    if |s| == 0 || !IsDigit(s[0]) then 0 else 1 + LeadingDigits(s[1..])
  }

  /** The value of a string of decimal digits, most significant first. */
  function DigitsValue(ds: string): nat
    requires forall i :: 0 <= i < |ds| ==> IsDigit(ds[i])
  {
    if |ds| == 0 then 0
    else
      assert IsDigit(ds[|ds| - 1]);
      DigitsValue(ds[..|ds| - 1]) * 10 + (ds[|ds| - 1] as int - '0' as int)
  }

  /** `parseInt(s)` for a string: the leading digits, NaN when there are none. */
  function ParseDecimal(s: string): (r: Option<nat>)
    ensures r.None? <==> |s| == 0 || !IsDigit(s[0])
  {
    var k := LeadingDigits(s);
    if k == 0 then None else Some(DigitsValue(s[..k]))
  }

  /** `parseInt(v)`: strings are parsed; `undefined` and NaN give NaN; a number stays itself. */
  function ParseInt(v: Value): Option<nat>
  {
    match v
    case Undefined => None
    case Str(s) => ParseDecimal(s)
    case Num(n) => n
  }

  /** The decimal numeral of `n`, without leading zeros. */
  function DecimalString(n: nat): (s: string)
    ensures |s| >= 1
    ensures forall i :: 0 <= i < |s| ==> IsDigit(s[i])
  {
    var last := [('0' as int + n % 10) as char];
    if n < 10 then last else DecimalString(n / 10) + last
  }

  lemma {:induction false} DigitsValueOfDecimal(n: nat)
    ensures DigitsValue(DecimalString(n)) == n
  {
    var s := DecimalString(n);
    if n >= 10 {
      DigitsValueOfDecimal(n / 10);
      assert s[..|s| - 1] == DecimalString(n / 10);
    }
  }

  /** The decimal reading gives a numeral's value back, and ignores whatever non-digit text follows it ("9600abc"). */
  lemma ParseDecimalRoundTrip(n: nat, rest: string)
    requires |rest| == 0 || !IsDigit(rest[0])
    ensures ParseDecimal(DecimalString(n) + rest) == Some(n)
  {
    var d := DecimalString(n);
    var s := d + rest;
    LeadingDigitsOfDigits(d, rest);
    assert s[..|d|] == d;
    DigitsValueOfDecimal(n);
  }

  /** Leading zeros do not change the decimal reading: "09600" is 9600. */
  lemma ParseDecimalLeadingZeros(zs: string, n: nat, rest: string)
    requires forall i :: 0 <= i < |zs| ==> zs[i] == '0'
    requires |rest| == 0 || !IsDigit(rest[0])
    ensures ParseDecimal(zs + DecimalString(n) + rest) == Some(n)
  {
    var d := DecimalString(n);
    var s := zs + d + rest;
    assert forall i :: 0 <= i < |zs + d| ==> IsDigit((zs + d)[i]);
    LeadingDigitsOfDigits(zs + d, rest);
    assert s[..|zs + d|] == zs + d;
    ZerosDoNotCount(zs, d);
    DigitsValueOfDecimal(n);
  }

  lemma {:induction false} ZerosDoNotCount(zs: string, d: string)
    requires forall i :: 0 <= i < |zs| ==> zs[i] == '0'
    requires forall i :: 0 <= i < |d| ==> IsDigit(d[i])
    ensures forall i :: 0 <= i < |zs + d| ==> IsDigit((zs + d)[i])
    ensures DigitsValue(zs + d) == DigitsValue(d)
    decreases |d|, |zs|
  {
    assert forall i :: 0 <= i < |zs + d| ==> IsDigit((zs + d)[i]);
    if |d| > 0 {
      var front := d[..|d| - 1];
      assert (zs + d)[..|zs + d| - 1] == zs + front;
      ZerosDoNotCount(zs, front);
    } else if |zs| > 0 {
      assert zs + d == zs;
      assert zs[..|zs| - 1] + [] == zs[..|zs| - 1];
      ZerosDoNotCount(zs[..|zs| - 1], []);
    }
  }

  lemma {:induction false} LeadingDigitsOfDigits(d: string, rest: string)
    requires forall i :: 0 <= i < |d| ==> IsDigit(d[i])
    requires |rest| == 0 || !IsDigit(rest[0])
    ensures LeadingDigits(d + rest) == |d|
  {
    if |d| > 0 {
      assert (d + rest)[1..] == d[1..] + rest;
      LeadingDigitsOfDigits(d[1..], rest);
    } else {
      assert d + rest == rest;
    }
  }

  // ---------------------------------------------------------------------
  // The options object and the callback
  // ---------------------------------------------------------------------

  /** The arguments main is called with. */
  datatype MainArgs = MainArgs(
    targetPath: string,
    targetBaudRate: Option<nat>,
    passthruPath: string,
    passthruBaudRate: Option<nat>,
    inputType: DisplayMode,
    outputType: DisplayMode)

  /** The options object the command-line parser hands to the callback. */
  class Options {
    var targetPath: string
    var targetBaudRate: Value
    var passthruPath: string
    var passthruBaudRate: Value
    var inputType: string
    var outputType: string

    /** Required options are always strings; --passthru-baud-rate may be absent. */
    constructor (targetPath: string, targetBaudRate: string, passthruPath: string,
                 passthruBaudRate: Option<string>, inputType: string, outputType: string)
      ensures this.targetPath == targetPath && this.targetBaudRate == Str(targetBaudRate)
      ensures this.passthruPath == passthruPath
      ensures this.passthruBaudRate == (if passthruBaudRate.Some? then Str(passthruBaudRate.value) else Undefined)
      ensures this.inputType == inputType && this.outputType == outputType
    {
      this.targetPath := targetPath;
      this.targetBaudRate := Str(targetBaudRate);
      this.passthruPath := passthruPath;
      this.passthruBaudRate := if passthruBaudRate.Some? then Str(passthruBaudRate.value) else Undefined;
      this.inputType := inputType;
      this.outputType := outputType;
    }

    /**
     * The callback. A Failure is the exception thrown before anything is
     * changed and before main runs; a Success carries main's arguments.
     */
    method Action() returns (r: Result<MainArgs, ConfigError>)
      modifies this
      ensures r.Failure? <==> !(IsModeName(old(inputType)) && IsModeName(old(outputType)))
      ensures r.Failure? ==>
                && r.error == InvalidType(if IsModeName(old(inputType)) then old(outputType) else old(inputType))
                && unchanged(this)
      ensures r.Success? ==>
                && targetPath == old(targetPath) && passthruPath == old(passthruPath)
                && inputType == old(inputType) && outputType == old(outputType)
                && targetBaudRate == Num(ParseInt(old(targetBaudRate)))
                && passthruBaudRate == Num(ParseInt(if Truthy(old(passthruBaudRate)) then old(passthruBaudRate)
                                                    else old(targetBaudRate)))
                && r.value == MainArgs(targetPath, targetBaudRate.n, passthruPath, passthruBaudRate.n,
                                       ParseMode(inputType).value, ParseMode(outputType).value)
      ensures r.Success? && !Truthy(old(passthruBaudRate)) ==> passthruBaudRate == targetBaudRate
    {
      var modes := CheckTypes(inputType, outputType);
      if modes.Failure? {
        return Failure(modes.error);
      }
      if !Truthy(passthruBaudRate) {
        passthruBaudRate := targetBaudRate;
      }
      targetBaudRate := Num(ParseInt(targetBaudRate));
      passthruBaudRate := Num(ParseInt(passthruBaudRate));
      r := Success(MainArgs(targetPath, targetBaudRate.n, passthruPath, passthruBaudRate.n,
                            modes.value.0, modes.value.1));
    }
  }

  /** `--input-type json` stops at the check; an omitted or empty passthru rate takes the target's. */
  method ActionScenarios()
  {
    var bad := new Options("/dev/ttyUSB0", "9600", "/dev/ttyUSB1", None, "json", "text");
    var r := bad.Action();
    assert r == Failure(InvalidType("json"));

    var good := new Options("/dev/ttyUSB0", "9600", "/dev/ttyUSB1", Some(""), "text", "binary");
    var s := good.Action();
    assert s.Success? && s.value.passthruBaudRate == s.value.targetBaudRate;
    assert s.value.inputType == Text && s.value.outputType == Binary;

    var omitted := new Options("/dev/ttyUSB0", "115200", "/dev/ttyUSB1", None, "binary", "binary");
    var t := omitted.Action();
    assert t.Success? && t.value.passthruBaudRate == t.value.targetBaudRate;
  }
}
