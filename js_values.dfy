/** JSON values as the handlers and pages see them, JavaScript truthiness, and `parseInt`. */
module JsValues {
  import opened Text

  datatype Option<+T> = None | Some(value: T)

  /** A JSON value. `undefined` (an absent key) is `None` of `Option<Value>`; numbers are integers. */
  datatype Value =
    | Null
    | Bool(b: bool)
    | Num(n: int)
    | Str(s: string)
    | Arr(items: seq<Value>)
    | Obj(fields: map<string, Value>)

  /** JavaScript truthiness of a possibly absent value. */
  predicate Truthy(v: Option<Value>) {
    match v
    case None => false
    case Some(Null) => false
    case Some(Bool(b)) => b
    case Some(Num(n)) => n != 0
    case Some(Str(s)) => s != ""
    case Some(_) => true
  }

  /** `obj[key]`, `undefined` when the key is absent. */
  function Get(m: map<string, Value>, key: string): (r: Option<Value>)
    ensures r.Some? <==> key in m
    ensures r.Some? ==> r.value == m[key]
  {
    if key in m then Some(m[key]) else None
  }

  /** The value of a digit in base 16 (decimal digits and both cases of a to f). */
  function DigitOf(c: char): Option<nat> {
    if '0' <= c <= '9' then Some(c as int - '0' as int)
    else if 'a' <= c <= 'f' then Some(c as int - 'a' as int + 10)
    else if 'A' <= c <= 'F' then Some(c as int - 'A' as int + 10)
    else None
  }

  predicate IsDigit(c: char, radix: nat) {
    DigitOf(c).Some? && DigitOf(c).value < radix
  }

  /** The longest prefix of `s` made of digits of `radix`. */
  function DigitRun(s: string, radix: nat): (r: string)
    ensures |r| <= |s| && r == s[..|r|]
    ensures forall i :: 0 <= i < |r| ==> IsDigit(r[i], radix)
    ensures |r| < |s| ==> !IsDigit(s[|r|], radix)
  {
    if s != [] && IsDigit(s[0], radix) then [s[0]] + DigitRun(s[1..], radix) else []
  }

  /** The number that a string of digits of `radix` denotes. */
  function DigitsValue(s: string, radix: nat): int
    requires forall i :: 0 <= i < |s| ==> IsDigit(s[i], radix)
  {
    if s == [] then 0
    else
      var init := s[..|s| - 1];
      assert forall i :: 0 <= i < |init| ==> init[i] == s[i];
      assert IsDigit(s[|s| - 1], radix);
      DigitsValue(init, radix) * radix + DigitOf(s[|s| - 1]).value
  }

  /** The digits after an optional sign and, for base 16, after the `0x` prefix. */
  function Radix(u: string): nat {
    if |u| >= 2 && u[0] == '0' && (u[1] == 'x' || u[1] == 'X') then 16 else 10
  }

  function AfterSign(t: string): string {
    if |t| > 0 && (t[0] == '-' || t[0] == '+') then t[1..] else t
  }

  /** `parseInt(s)` with no radix: leading white space skipped, an optional sign, a `0x` prefix
      switching to base 16, then the longest run of digits; `None` stands for `NaN`. */
  function ParseIntText(s: string): Option<int> {
    var t := TrimStart(s);
    var u := AfterSign(t);
    var radix := Radix(u);
    var digits := DigitRun(if radix == 16 then u[2..] else u, radix);
    var magnitude: int := DigitsValue(digits, radix);
    if digits == [] then None
    else if |t| > 0 && t[0] == '-' then Some(-magnitude)
    else Some(magnitude)
  }

  /** `Number(s)`: white space around the text is ignored, blank text is 0, and otherwise the whole
      text must be a decimal integer with an optional sign or an unsigned `0x` hexadecimal one;
      `None` stands for `NaN`. */
  function NumberText(s: string): (r: Option<int>)
    ensures r.Some? && Trim(s) != "" ==> ParseIntText(Trim(s)) == r
  {
    var t := Trim(s);
    if t == [] then Some(0)
    else
      assert TrimStart(t) == t;
      NumberOfTrimmedParses(t);
      NumberOfTrimmed(t)
  }

  /** `Number` of a text already trimmed. */
  function NumberOfTrimmed(t: string): Option<int> {
    if t == [] then Some(0)
    else if Radix(t) == 16 then DigitsNumber(t[2..], 16, false)
    else DigitsNumber(AfterSign(t), 10, t[0] == '-')
  }

  /** The number a whole text of digits denotes, negated after a minus sign; `None` when the text
      is empty or holds anything else. */
  function DigitsNumber(body: string, radix: nat, negative: bool): Option<int> {
    if body == [] || DigitRun(body, radix) != body then None
    else if negative then Some(-DigitsValue(body, radix))
    else Some(DigitsValue(body, radix))
  }

  /** Where `Number` of a text is a number, `parseInt` reads the same number from it. */
  lemma NumberOfTrimmedParses(t: string)
    requires t != [] && TrimStart(t) == t
    ensures NumberOfTrimmed(t).Some? ==> ParseIntText(t) == NumberOfTrimmed(t)
  {
    if NumberOfTrimmed(t).Some? && Radix(t) == 10 {
      var u := AfterSign(t);
      assert DigitRun(u, 10) == u;
      if |u| >= 2 {
        assert IsDigit(u[1], 10);
      }
    }
  }

  /** `+v`, the number subtraction makes of a value; `None` stands for `NaN`. An array is printed
      first, as its elements joined by commas. */
  function NumberValue(v: Option<Value>): Option<int> {
    match v
    case None => None
    case Some(Null) => Some(0)
    case Some(Bool(b)) => Some(if b then 1 else 0)
    case Some(Num(n)) => Some(n)
    case Some(Str(s)) => NumberText(s)
    case Some(Arr(_)) => NumberText(ToText(v.value))
    case Some(Obj(_)) => None
  }

  /** `parseInt(v)` for any JSON value: the value is first turned into a string. */
  function ParseIntValue(v: Value): Option<int> {
    match v
    case Num(n) => Some(n)
    case Str(s) => ParseIntText(s)
    // String([x, ...]) is String(x) followed by a comma, where parsing stops.
    case Arr(items) => if |items| == 0 then None else ParseIntValue(items[0])
    case _ => None  // "null", "true", "false", "[object Object]"
  }

  function ParseInt(v: Option<Value>): Option<int> {
    if v.Some? then ParseIntValue(v.value) else None
  }

  /** The decimal digits of a natural number, as `String(n)` prints them. */
  function DecimalDigits(n: nat): (r: string)
    ensures |r| >= 1
    ensures forall i :: 0 <= i < |r| ==> '0' <= r[i] <= '9'
    ensures n >= 10 ==> |r| >= 2 && r[0] != '0'
  {
    var d := ('0' as int + n % 10) as char;
    if n < 10 then [d] else DecimalDigits(n / 10) + [d]
  }

  /** `String(n)` / `n.toString()` for an integer. */
  function IntToString(n: int): string {
    if n < 0 then "-" + DecimalDigits(-n) else DecimalDigits(n)
  }

  /** `String(v)`: what a form field or a `FormData` entry holds for a value. An array prints its
      elements separated by `,`, with `null` elements printed as nothing. */
  function ToText(v: Value): string
    decreases v, 1
  {
    match v
    case Null => "null"
    case Bool(b) => if b then "true" else "false"
    case Num(n) => IntToString(n)
    case Str(s) => s
    case Arr(items) => Join(ElementTexts(v, 0), ",")
    case Obj(_) => "[object Object]"
  }

  /** The texts `join` prints for the elements of an array from index `i` on. */
  function ElementTexts(v: Value, i: nat): (r: seq<string>)
    requires v.Arr? && i <= |v.items|
    ensures |r| == |v.items| - i
    decreases v, 0, |v.items| - i
  {
    if i == |v.items| then []
    else [if v.items[i].Null? then "" else ToText(v.items[i])] + ElementTexts(v, i + 1)
  }

  lemma {:induction false} DecimalDigitsValue(n: nat)
    ensures forall i :: 0 <= i < |DecimalDigits(n)| ==> IsDigit(DecimalDigits(n)[i], 10)
    ensures DigitsValue(DecimalDigits(n), 10) == n
  {
    var r := DecimalDigits(n);
    assert forall i :: 0 <= i < |r| ==> IsDigit(r[i], 10);
    if n >= 10 {
      DecimalDigitsValue(n / 10);
      assert r[..|r| - 1] == DecimalDigits(n / 10);
    }
  }

  lemma {:induction false} DigitRunOfDigits(s: string, radix: nat)
    requires forall i :: 0 <= i < |s| ==> IsDigit(s[i], radix)
    ensures DigitRun(s, radix) == s
  {
    if s != [] {
      assert IsDigit(s[0], radix);
      DigitRunOfDigits(s[1..], radix);
    }
  }

  /** `parseInt(String(n))` gives back `n`: the round trip the admin forms rely on when they turn a
      stored id into a select value and the store parses it back. */
  lemma ParseIntOfIntToString(n: int)
    ensures ParseIntText(IntToString(n)) == Some(n)
  {
    var m := if n < 0 then -n else n;
    var d := DecimalDigits(m);
    DecimalDigitsValue(m);
    DigitRunOfDigits(d, 10);
    var s := IntToString(n);
    assert !IsSpace(s[0]);
    assert TrimStart(s) == s;
    assert AfterSign(s) == d by {
      if n < 0 { assert s[1..] == d; }
    }
    assert Radix(d) == 10;
  }

  /** `Number(String(n))` gives back `n`: a number stored as its text is the same number to
      arithmetic. */
  lemma NumberTextOfIntToString(n: int)
    ensures NumberText(IntToString(n)) == Some(n)
    ensures NumberValue(Some(Str(IntToString(n)))) == NumberValue(Some(Num(n)))
  {
    var m := if n < 0 then -n else n;
    var d := DecimalDigits(m);
    var s := IntToString(n);
    IntTextTrimmed(n);
    IntTextSign(n);
    DecimalDigitsValue(m);
    DigitRunOfDigits(d, 10);
    assert NumberOfTrimmed(s) == DigitsNumber(d, 10, n < 0);
  }

  lemma IntTextTrimmed(n: int)
    ensures Trim(IntToString(n)) == IntToString(n)
  {
    var s := IntToString(n);
    assert !IsSpace(s[0]) && !IsSpace(s[|s| - 1]);
    TrimOfTrimmed(s);
  }

  lemma IntTextSign(n: int)
    ensures var s := IntToString(n);
      && s != [] && Radix(s) == 10 && AfterSign(s) == DecimalDigits(if n < 0 then -n else n)
      && (s[0] == '-' <==> n < 0)
  {
    var s := IntToString(n);
    if n < 0 {
      assert s[1..] == DecimalDigits(-n);
    }
  }
}
