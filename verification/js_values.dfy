/** The JavaScript values the handler touches: the parsed JSON request body,
    its fields, and whatever a `catch` clause receives. */
module JsValues {
  import opened Wrappers

  /** A value produced by the JSON body parser (plus `undefined`, what a missing
      property reads as). Numbers are modelled by their integer value. */
  datatype JsValue =
    | Undefined
    | Null
    | Bool(b: bool)
    | Num(n: int)
    | Str(s: string)
    | Arr(items: seq<JsValue>)
    | Obj(props: map<string, JsValue>)

  /** What a `catch (e)` clause can receive: an instance of `Error` (or of a
      subclass such as `TypeError`) carrying a message, or any other value. */
  datatype Thrown = ErrorInstance(name: string, message: string) | NonError(value: JsValue)

  function TypeError(message: string): Thrown
  {
    ErrorInstance("TypeError", message)
  }

  predicate IsNullish(v: JsValue)
  {
    v.Undefined? || v.Null?
  }

  /** JavaScript truthiness (`!v` is its negation). */
  predicate Truthy(v: JsValue)
  {
    match v
    case Undefined => false
    case Null => false
    case Bool(b) => b
    case Num(n) => n != 0
    case Str(s) => s != ""
    case Arr(_) => true
    case Obj(_) => true
  }

  /** Reading `v.key` for one of the field names the handler reads (none of
      which exists on a built-in prototype): an own property of an object, or
      `undefined`; a `TypeError` on `null` and `undefined`, worded as V8 words it. */
  function ReadField(v: JsValue, key: string): (r: Result<JsValue, Thrown>)
    ensures r.Failure? <==> IsNullish(v)
    ensures v.Obj? && key in v.props ==> r == Success(v.props[key])
    ensures v.Obj? && key !in v.props ==> r == Success(Undefined)
    ensures !v.Obj? && !IsNullish(v) ==> r == Success(Undefined)
  {
    match v
    case Undefined => Failure(TypeError("Cannot read properties of undefined (reading '" + key + "')"))
    case Null => Failure(TypeError("Cannot read properties of null (reading '" + key + "')"))
    case Obj(props) => Success(if key in props then props[key] else Undefined)
    case _ => Success(Undefined)
  }

  function DigitChar(d: nat): char
    requires d < 10
  {
    "0123456789"[d]
  }

  function DigitValue(c: char): nat
  {
    if '0' <= c <= '9' then c as int - '0' as int else 0
  }

  predicate IsDigit(c: char)
  {
    '0' <= c <= '9'
  }

  /** The shortest decimal spelling of a natural number, as `String(n)` and
      `${n}` produce it for integers below 10^21. */
  function DecimalString(n: nat): (r: string)
    ensures |r| >= 1
    ensures forall i :: 0 <= i < |r| ==> IsDigit(r[i])
    ensures r[0] == '0' ==> n == 0
  {
    if n < 10 then [DigitChar(n)] else DecimalString(n / 10) + [DigitChar(n % 10)]
  }

  /** Reads a string of decimal digits back as a number. */
  function ParseDecimal(s: string): nat
  {
    if |s| == 0 then 0 else ParseDecimal(s[..|s| - 1]) * 10 + DigitValue(s[|s| - 1])
  }

  lemma {:induction false} ParseDecimalString(n: nat)
    ensures ParseDecimal(DecimalString(n)) == n
  {
    var r := DecimalString(n);
    if n >= 10 {
      assert r[..|r| - 1] == DecimalString(n / 10);
      ParseDecimalString(n / 10);
    }
  }

  /** Different numbers are spelled differently. */
  lemma DecimalStringInjective(m: nat, n: nat)
    requires DecimalString(m) == DecimalString(n)
    ensures m == n
  {
    ParseDecimalString(m);
    ParseDecimalString(n);
  }

  function NumberString(n: int): string
  {
    if n < 0 then "-" + DecimalString(-n) else DecimalString(n)
  }

  /** ToString as a template literal `${v}` applies it: primitives spell
      themselves, an array joins its elements with "," (nullish elements as
      ""), and a plain object becomes "[object Object]" unless it carries an
      own "toString" property, which (not being callable) leaves nothing to
      convert it with and raises a `TypeError`. */
  function ToString(v: JsValue): (r: Result<string, Thrown>)
    ensures v.Undefined? ==> r == Success("undefined")
    ensures v.Null? ==> r == Success("null")
    ensures v.Bool? ==> r == Success(if v.b then "true" else "false")
    ensures v.Num? ==> r == Success(NumberString(v.n))
    ensures v.Str? ==> r == Success(v.s)
    ensures v.Obj? ==> (r.Failure? <==> "toString" in v.props)
    ensures v.Obj? && "toString" !in v.props ==> r == Success("[object Object]")
    ensures v.Arr? ==> r == Join(v.items)
    ensures r.Failure? ==> r.error.ErrorInstance? && r.error.name == "TypeError"
    ensures r.Failure? ==> v.Arr? || v.Obj?
    decreases v
  {
    match v
    case Undefined => Success("undefined")
    case Null => Success("null")
    case Bool(b) => Success(if b then "true" else "false")
    case Num(n) => Success(NumberString(n))
    case Str(s) => Success(s)
    case Arr(items) => Join(items)
    case Obj(props) =>
      if "toString" in props then Failure(TypeError("Cannot convert object to primitive value"))
      else Success("[object Object]")
  }

  /** `Array.prototype.join` with the default "," separator. */
  function Join(items: seq<JsValue>): (r: Result<string, Thrown>)
    ensures r.Success? <==> forall i :: 0 <= i < |items| ==> IsNullish(items[i]) || ToString(items[i]).Success?
    ensures r.Failure? ==> r.error.ErrorInstance? && r.error.name == "TypeError"
    decreases items
  {
    if |items| == 0 then Success("")
    else
      var first := if IsNullish(items[0]) then Success("") else ToString(items[0]);
      match first
      case Failure(e) => Failure(e)
      case Success(s) =>
        if |items| == 1 then Success(s)
        else match Join(items[1..])
          case Failure(e) => Failure(e)
          case Success(rest) => Success(s + "," + rest)
  }

  /** The text an array element contributes to a join: nothing for `null`
      and `undefined`, its conversion otherwise. */
  function ElementText(v: JsValue): Result<string, Thrown>
  {
    if IsNullish(v) then Success("") else ToString(v)
  }

  /** Texts separated by ",", built from the last text backwards. */
  function CommaJoined(texts: seq<string>): string
  {
    if |texts| == 0 then ""
    else if |texts| == 1 then texts[0]
    else CommaJoined(texts[..|texts| - 1]) + "," + texts[|texts| - 1]
  }

  lemma {:induction false} CommaJoinedCons(t: string, rest: seq<string>)
    ensures CommaJoined([t] + rest) == if |rest| == 0 then t else t + "," + CommaJoined(rest)
    decreases |rest|
  {
    if |rest| == 1 {
      assert ([t] + rest)[..1] == [t];
    } else if |rest| >= 2 {
      var init := rest[..|rest| - 1];
      assert ([t] + rest)[..|rest|] == [t] + init;
      assert ([t] + rest)[|rest|] == rest[|rest| - 1];
      CommaJoinedCons(t, init);
    }
  }

  /** An array whose elements all convert joins to their texts separated
      by ",". */
  lemma {:induction false} JoinText(items: seq<JsValue>, texts: seq<string>)
    requires |texts| == |items|
    requires forall i :: 0 <= i < |items| ==> ElementText(items[i]) == Success(texts[i])
    ensures Join(items) == Success(CommaJoined(texts))
    decreases |items|
  {
    if |items| > 1 {
      assert ElementText(items[0]) == Success(texts[0]);
      var rest, restTexts := items[1..], texts[1..];
      forall i | 0 <= i < |rest|
        ensures ElementText(rest[i]) == Success(restTexts[i])
      {
        assert rest[i] == items[i + 1] && restTexts[i] == texts[i + 1];
      }
      JoinText(rest, restTexts);
      assert texts == [texts[0]] + restTexts;
      CommaJoinedCons(texts[0], restTexts);
    } else if |items| == 1 {
      assert ElementText(items[0]) == Success(texts[0]);
    }
  }
}
