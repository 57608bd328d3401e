/** JavaScript values as the relay handlers see a decoded JSON request body,
    with the truthiness and `typeof` tests the handlers apply to them, and
    the integer conversion that `ethers.BigNumber.from` performs. */
module JsValues {

  datatype Option<T> = None | Some(value: T)

  /** The result of an awaited call: a value, or a thrown error with its `message`. */
  datatype Outcome<T> = Ok(value: T) | Fail(message: string)

  /** A JSON value after `express.json()`; `Undefined` stands for a property
      the body does not have. Numbers are mathematical integers. */
  datatype JsValue =
    | Undefined
    | Null
    | Bool(b: bool)
    | Num(n: int)
    | Str(s: string)
    | Arr(items: seq<JsValue>)
    | Obj(fields: map<string, JsValue>)

  /** A request body: the properties of the decoded JSON object. */
  type Body = map<string, JsValue>

  /** Property read `body.key`, `undefined` when the key is absent. */
  function Get(body: Body, key: string): JsValue {
    if key in body then body[key] else Undefined
  }

  /** JavaScript's ToBoolean: what `!v` negates. */
  predicate Truthy(v: JsValue) {
    match v
    case Undefined => false
    case Null => false
    case Bool(b) => b
    case Num(n) => n != 0
    case Str(s) => s != ""
    case Arr(_) => true
    case Obj(_) => true
  }

  /** The falsy values of JavaScript that a JSON body can carry are exactly
      `undefined`, `null`, `false`, `0` and the empty string. */
  lemma FalsyValues(v: JsValue)
    ensures !Truthy(v) <==> v == Undefined || v == Null || v == Bool(false) || v == Num(0) || v == Str("")
  {
  }

  /** The message of the `TypeError` raised when an object has no usable
      conversion to a primitive value. */
  const NoPrimitive: string := "Cannot convert object to primitive value"

  /** Converting `v` to a string, as a template literal `${v}` does, throws.
      An object converts through `toString`, or else `valueOf`, and one of
      them must return a primitive. A decoded JSON object has no callable
      property of its own: its inherited `toString` (giving `"[object Object]"`)
      runs unless an own `toString` property hides it, and then the inherited
      `valueOf` returns the object itself, so the conversion throws. An array
      converts through `join`, which converts every element other than
      `null` and `undefined`. */
  predicate ToStringThrows(v: JsValue) {
    match v
    case Obj(fields) => "toString" in fields
    case Arr(items) => exists i | 0 <= i < |items| :: ToStringThrows(items[i])
    case _ => false
  }

  /** Only an object with its own `toString` property, or an array holding
      such a value at any depth, fails to convert: `{"toString": 0}` and
      `[1, [{"toString": 0}]]` fail, `{}` and every primitive convert. */
  lemma ToStringThrowsExamples(v: JsValue)
    requires !v.Obj? && !v.Arr?
    ensures !ToStringThrows(v)
    ensures ToStringThrows(Obj(map["toString" := Num(0)]))
    ensures !ToStringThrows(Obj(map[]))
    ensures ToStringThrows(Arr([Num(1), Arr([Obj(map["toString" := Num(0)])])]))
    ensures !ToStringThrows(Arr([v, Obj(map["valueOf" := Num(0)])]))
  {
    var bad := Obj(map["toString" := Num(0)]);
    assert ToStringThrows(Arr([bad]).items[0]);
    var nested := Arr([Num(1), Arr([bad])]);
    assert ToStringThrows(nested.items[1]);
    var fine := Arr([v, Obj(map["valueOf" := Num(0)])]);
    assert fine.items[0] == v && fine.items[1] == Obj(map["valueOf" := Num(0)]);
    assert "toString" !in map["valueOf" := Num(0)];
  }

  /** An array fails to convert exactly when one of its elements does; the
      elements are converted in order, so a prefix that converts does not
      change the outcome. */
  lemma ArrayToStringThrows(front: seq<JsValue>, back: seq<JsValue>)
    ensures ToStringThrows(Arr(front + back)) <==> ToStringThrows(Arr(front)) || ToStringThrows(Arr(back))
  {
    var all := front + back;
    if ToStringThrows(Arr(all)) {
      var i :| 0 <= i < |all| && ToStringThrows(all[i]);
      if i < |front| {
        assert all[i] == front[i];
      } else {
        assert all[i] == back[i - |front|];
      }
    }
    if ToStringThrows(Arr(front)) {
      var i :| 0 <= i < |front| && ToStringThrows(front[i]);
      assert all[i] == front[i];
    }
    if ToStringThrows(Arr(back)) {
      var i :| 0 <= i < |back| && ToStringThrows(back[i]);
      assert all[i + |front|] == back[i];
    }
  }

  /** `typeof v === 'string'` */
  predicate IsString(v: JsValue) { v.Str? }

  /** `typeof v === 'number'` */
  predicate IsNumber(v: JsValue) { v.Num? }

  /** `s.startsWith(prefix)` */
  predicate StartsWith(s: string, prefix: string) {
    |prefix| <= |s| && s[..|prefix|] == prefix
  }

  // ---------------------------------------------------------------------------
  // ethers.BigNumber.from
  // ---------------------------------------------------------------------------

  const InvalidBigNumber: string := "invalid BigNumber value"

  predicate IsDecimalDigit(c: char) { '0' <= c <= '9' }

  predicate IsHexDigit(c: char) {
    IsDecimalDigit(c) || 'a' <= c <= 'f' || 'A' <= c <= 'F'
  }

  function HexDigitValue(c: char): (d: nat)
    requires IsHexDigit(c)
    ensures d < 16
  {
    if IsDecimalDigit(c) then c as int - '0' as int
    else if 'a' <= c <= 'f' then c as int - 'a' as int + 10
    else c as int - 'A' as int + 10
  }

  predicate AllDecimal(s: string) { forall i | 0 <= i < |s| :: IsDecimalDigit(s[i]) }

  predicate AllHex(s: string) { forall i | 0 <= i < |s| :: IsHexDigit(s[i]) }

  /** The value of a most-significant-first digit string in the given base. */
  function DigitsValue(s: string, base: nat): (v: nat)
    requires AllHex(s)
    decreases |s|
  {
    if s == [] then 0
    else DigitsValue(s[..|s| - 1], base) * base + HexDigitValue(s[|s| - 1])
  }

  /** An unsigned numeral `BigNumber.from` accepts: `0x`/`0X` followed by hex
      digits (`/^0x[0-9a-f]+$/i`) or a run of decimal digits (`/^[0-9]+$/`). */
  predicate IsNumeral(s: string) {
    (|s| > 2 && s[0] == '0' && (s[1] == 'x' || s[1] == 'X') && AllHex(s[2..]))
    || (|s| > 0 && AllDecimal(s))
  }

  function NumeralValue(s: string): nat
    requires IsNumeral(s)
  {
    if |s| > 2 && s[0] == '0' && (s[1] == 'x' || s[1] == 'X') && AllHex(s[2..])
    then DigitsValue(s[2..], 16)
    else DigitsValue(s, 10)
  }

  /** `ethers.BigNumber.from(v)`: an integer number is taken as it is, a string
      must be an optionally negated decimal or hex numeral; anything else throws. */
  function ToBigNumber(v: JsValue): (r: Outcome<int>)
    ensures v.Num? ==> r == Ok(v.n)
    ensures r.Fail? ==> r.message == InvalidBigNumber
    ensures r.Ok? ==> v.Num? || v.Str?
    ensures v.Str? ==> (r.Ok? <==> IsNumeral(v.s) || (|v.s| > 0 && v.s[0] == '-' && IsNumeral(v.s[1..])))
  {
    match v
    case Num(n) => Ok(n)
    case Str(s) =>
      if IsNumeral(s) then Ok(NumeralValue(s))
      else if |s| > 0 && s[0] == '-' && IsNumeral(s[1..]) then Ok(0 - NumeralValue(s[1..]) as int)
      else Fail(InvalidBigNumber)
    case _ => Fail(InvalidBigNumber)
  }

  /** The decimal numeral of a natural number, most significant digit first. */
  function Decimal(n: nat): (s: string)
    ensures |s| > 0 && AllDecimal(s)
    decreases n
  {
    if n < 10 then [('0' as int + n) as char]
    else Decimal(n / 10) + [('0' as int + n % 10) as char]
  }

  lemma {:induction false} DecimalValue(n: nat)
    ensures AllHex(Decimal(n)) && DigitsValue(Decimal(n), 10) == n
    decreases n
  {
    var s := Decimal(n);
    assert AllHex(s) by {
      forall i | 0 <= i < |s| ensures IsHexDigit(s[i]) { assert IsDecimalDigit(s[i]); }
    }
    if n >= 10 {
      DecimalValue(n / 10);
      assert s[..|s| - 1] == Decimal(n / 10);
    }
  }

  /** A gas limit sent as a decimal string converts to the same integer as
      the number itself would. */
  lemma BigNumberOfDecimal(n: nat)
    ensures ToBigNumber(Str(Decimal(n))) == Ok(n)
    ensures ToBigNumber(Str(Decimal(n))) == ToBigNumber(Num(n))
  {
    DecimalValue(n);
    assert IsNumeral(Decimal(n));
  }

  /** `"-" + numeral` converts to the negation of the numeral. */
  lemma BigNumberOfNegated(s: string)
    requires IsNumeral(s)
    ensures ToBigNumber(Str("-" + s)) == Ok(0 - NumeralValue(s) as int)
  {
    var t := "-" + s;
    assert t[1..] == s;
    assert !IsNumeral(t) by {
      assert t[0] == '-' && !IsDecimalDigit(t[0]);
    }
  }
}
