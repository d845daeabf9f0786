/** JavaScript values as the template engine observes them, and the few
    conversions it applies to them: truthiness, `String(v)`, `typeof` and
    `JSON.stringify` on scalars. */
module Js {

  datatype Option<+T> = None | Some(value: T)

  /** The outcome of a synchronous JavaScript step that may throw. */
  datatype Completion<+T> = Normal(value: T) | Throws

  /** A JavaScript value. A number is carried as its canonical `String()`
      rendering ("3", "0.5", "NaN", "-Infinity"), which is all the engine
      ever observes of it. An object may implement the iteration protocol,
      in which case `iteration` holds the items it yields. */
  datatype Value =
    | Undefined
    | Null
    | Bool(b: bool)
    | Num(text: string)
    | BigInt(digits: string)
    | Str(s: string)
    | Arr(items: seq<Value>)
    | Obj(props: map<string, Value>, iteration: Option<seq<Value>>)
    | Func(source: string)

  /** JavaScript truthiness (`v ? true : false`): the falsy values are
      undefined, null, false, the numbers 0, -0 and NaN (`String(-0)` is
      "0"), the BigInt 0 and the empty string (ECMAScript ToBoolean,
      section 7.1.2). */
  function Truthy(v: Value): (r: bool)
    ensures !r <==> v in {Undefined, Null, Bool(false), Num("0"), Num("NaN"), BigInt("0"), Str("")}
  {
    match v
    case Undefined => false
    case Null => false
    case Bool(b) => b
    case Num(t) => t != "0" && t != "NaN"
    case BigInt(d) => d != "0"
    case Str(s) => s != ""
    case _ => true
  }

  /** `typeof v`. */
  function TypeOf(v: Value): string {
    match v
    case Undefined => "undefined"
    case Null => "object"
    case Bool(_) => "boolean"
    case Num(_) => "number"
    case BigInt(_) => "bigint"
    case Str(_) => "string"
    case Arr(_) => "object"
    case Obj(_, _) => "object"
    case Func(_) => "function"
  }

  /** Joins strings with commas, as `Array.prototype.join()` does. */
  function JoinComma(parts: seq<string>): (r: string)
    ensures parts == [] ==> r == ""
    ensures |parts| == 1 ==> r == parts[0]
  {
    if parts == [] then ""
    else if |parts| == 1 then parts[0]
    else parts[0] + "," + JoinComma(parts[1..])
  }

  /** `String(v)`: an array joins its items with commas, writing null and
      undefined items as empty strings; a plain object has no custom
      `toString` here. */
  function ToStr(v: Value): string
    decreases v
  {
    match v
    case Undefined => "undefined"
    case Null => "null"
    case Bool(b) => if b then "true" else "false"
    case Num(t) => t
    case BigInt(d) => d
    case Str(s) => s
    case Arr(items) =>
      JoinComma(seq(|items|, i requires 0 <= i < |items| =>
        if items[i].Undefined? || items[i].Null? then "" else ToStr(items[i])))
    case Obj(_, _) => "[object Object]"
    case Func(src) => src
  }

  /** The texts of the numbers JSON cannot represent. */
  predicate NonFinite(t: string) {
    t == "NaN" || t == "Infinity" || t == "-Infinity"
  }

  /** `String([x])`: a one-item array reads as its item, with null and
      undefined read as the empty string. */
  lemma StringOfSingleton(x: Value)
    ensures ToStr(Arr([x])) == if x.Undefined? || x.Null? then "" else ToStr(x)
  {
    assert ToStr(Arr([x])) == JoinComma([if x.Undefined? || x.Null? then "" else ToStr(x)]);
  }

  lemma {:induction false} JoinCommaConcat(a: seq<string>, b: seq<string>)
    requires a != [] && b != []
    ensures JoinComma(a + b) == JoinComma(a) + "," + JoinComma(b)
    decreases |a|
  {
    if |a| == 1 {
      assert (a + b)[1..] == b;
    } else {
      assert (a + b)[1..] == a[1..] + b;
      JoinCommaConcat(a[1..], b);
    }
  }

  /** `String(a.concat(b))` of two non-empty arrays is `String(a)`, a comma
      and `String(b)`. */
  lemma StringOfArrayConcat(a: seq<Value>, b: seq<Value>)
    requires a != [] && b != []
    ensures ToStr(Arr(a + b)) == ToStr(Arr(a)) + "," + ToStr(Arr(b))
  {
    var pa := seq(|a|, i requires 0 <= i < |a| =>
      if a[i].Undefined? || a[i].Null? then "" else ToStr(a[i]));
    var pb := seq(|b|, i requires 0 <= i < |b| =>
      if b[i].Undefined? || b[i].Null? then "" else ToStr(b[i]));
    var ab := a + b;
    var pab := seq(|ab|, i requires 0 <= i < |ab| =>
      if ab[i].Undefined? || ab[i].Null? then "" else ToStr(ab[i]));
    assert pab == pa + pb;
    JoinCommaConcat(pa, pb);
  }

  /** `JSON.stringify(v)` for a value whose `typeof` is "boolean", "number"
      or "bigint": non-finite numbers become "null" and a BigInt throws. */
  function JsonScalar(v: Value): (r: Completion<string>)
    requires v.Bool? || v.Num? || v.BigInt?
    ensures r.Throws? <==> v.BigInt?
    ensures v.Num? ==> r == Normal(if NonFinite(v.text) then "null" else ToStr(v))
    ensures v.Bool? ==> r == Normal(ToStr(v))
  {
    match v
    case Bool(b) => Normal(if b then "true" else "false")
    case Num(t) => Normal(if t in {"NaN", "Infinity", "-Infinity"} then "null" else t)
    case BigInt(_) => Throws
  }

  /** ASCII lower-casing of one character. */
  function LowerChar(c: char): (r: char)
    ensures 'A' <= c <= 'Z' ==> 'a' <= r <= 'z'
    ensures !('A' <= c <= 'Z') ==> r == c
  {
    if 'A' <= c <= 'Z' then (c as int - 'A' as int + 'a' as int) as char else c
  }

  function UpperChar(c: char): (r: char)
    ensures 'a' <= c <= 'z' ==> 'A' <= r <= 'Z' && LowerChar(r) == c
    ensures !('a' <= c <= 'z') ==> r == c
  {
    if 'a' <= c <= 'z' then (c as int - 'a' as int + 'A' as int) as char else c
  }

  /** `s.toLowerCase()` on the characters that matter to the engine: no
      character outside 'A'..'Z' lower-cases to one of the ASCII letters
      of "fill", "replace" or "append" as a single character, so comparing
      ASCII-lowered text against those words decides exactly as the source
      does. */
  function Lower(s: string): (r: string)
    ensures |r| == |s|
    ensures forall i | 0 <= i < |s| :: r[i] == LowerChar(s[i])
  {
    seq(|s|, i requires 0 <= i < |s| => LowerChar(s[i]))
  }

  function Upper(s: string): (r: string)
    ensures |r| == |s|
    ensures forall i | 0 <= i < |s| :: r[i] == UpperChar(s[i])
  {
    seq(|s|, i requires 0 <= i < |s| => UpperChar(s[i]))
  }

  /** `s.startsWith(prefix)`. */
  predicate StartsWith(s: string, prefix: string) {
    |prefix| <= |s| && s[..|prefix|] == prefix
  }

  /** A string of decimal digits. */
  predicate IsDigits(s: string) {
    forall i | 0 <= i < |s| :: '0' <= s[i] <= '9'
  }

  /** The digit character for d. */
  function Digit(d: nat): (c: char)
    requires d < 10
    ensures '0' <= c <= '9' && c as int - '0' as int == d
  {
    ('0' as int + d) as char
  }

  /** The value a string of digits denotes. */
  function DigitsValue(s: string): nat
    requires IsDigits(s)
  {
    if s == [] then 0 else DigitsValue(s[..|s| - 1]) * 10 + (s[|s| - 1] as int - '0' as int)
  }

  /** `String(n)` for a natural number: its decimal digits, no leading zero. */
  function Decimal(n: nat): (s: string)
    ensures |s| >= 1 && IsDigits(s)
    ensures s[0] == '0' <==> n == 0
    ensures DigitsValue(s) == n
  {
    if n < 10 then [Digit(n)]
    else
      var prefix := Decimal(n / 10);
      assert (prefix + [Digit(n % 10)])[..|prefix|] == prefix;
      prefix + [Digit(n % 10)]
  }

  /** A property name that denotes an array index: digits in canonical form
      ("0", "7", "12" but not "", "07" or "1.0"). */
  function ArrayIndex(name: string): (r: Option<nat>)
    ensures r.Some? ==> Decimal(r.value) == name
  {
    if |name| >= 1 && IsDigits(name) && (name[0] == '0' ==> |name| == 1) then
      CanonicalDecimal(name);
      Some(DigitsValue(name))
    else None
  }

  /** A canonical digit string is the decimal rendering of its value. */
  lemma {:induction false} CanonicalDecimal(s: string)
    requires |s| >= 1 && IsDigits(s) && (s[0] == '0' ==> |s| == 1)
    ensures Decimal(DigitsValue(s)) == s
    decreases |s|
  {
    if |s| > 1 {
      var prefix := s[..|s| - 1];
      assert prefix[0] == s[0];
      CanonicalDecimal(prefix);
      LeadingDigitPositive(prefix);
      var n := DigitsValue(s);
      assert n / 10 == DigitsValue(prefix) && n % 10 == s[|s| - 1] as int - '0' as int;
      assert s == prefix + [s[|s| - 1]];
    }
  }

  /** Digits with a non-zero first digit denote a positive number. */
  lemma {:induction false} LeadingDigitPositive(s: string)
    requires |s| >= 1 && IsDigits(s) && s[0] != '0'
    ensures DigitsValue(s) >= 1
    decreases |s|
  {
    if |s| > 1 {
      var prefix := s[..|s| - 1];
      assert prefix[0] == s[0];
      LeadingDigitPositive(prefix);
    }
  }

  /** The decimal rendering of every natural number is read back as that
      array index. */
  lemma DecimalIsIndex(n: nat)
    ensures ArrayIndex(Decimal(n)) == Some(n)
  {
  }

  /** `data[name]`: reading a property of null or undefined throws; an array
      and a string answer "length" and their canonical indexes; an object
      answers its own properties. Properties inherited from prototypes are
      not modelled and read as undefined. */
  function Property(data: Value, name: string): (r: Completion<Value>)
    ensures r.Throws? <==> data.Undefined? || data.Null?
    ensures data.Obj? ==> r == Normal(if name in data.props then data.props[name] else Undefined)
    ensures data.Arr? && ArrayIndex(name).Some? && ArrayIndex(name).value < |data.items|
      ==> r == Normal(data.items[ArrayIndex(name).value])
    ensures data.Arr? && name == "length" ==> r == Normal(Num(Decimal(|data.items|)))
  {
    match data
    case Undefined => Throws
    case Null => Throws
    case Obj(props, _) => Normal(if name in props then props[name] else Undefined)
    case Arr(items) =>
      Normal(if name == "length" then Num(Decimal(|items|))
             else match ArrayIndex(name)
                  case Some(i) => if i < |items| then items[i] else Undefined
                  case None => Undefined)
    case Str(s) =>
      Normal(if name == "length" then Num(Decimal(|s|))
             else match ArrayIndex(name)
                  case Some(i) => if i < |s| then Str([s[i]]) else Undefined
                  case None => Undefined)
    case _ => Normal(Undefined)
  }

  /** Every item of an array is reached through the decimal name of its
      position, and every other canonical index reads as undefined. */
  lemma ArrayItemsByName(items: seq<Value>, name: string)
    requires ArrayIndex(name).Some?
    ensures ArrayIndex(name).value < |items| ==> Property(Arr(items), name) == Normal(items[ArrayIndex(name).value])
    ensures ArrayIndex(name).value >= |items| ==> Property(Arr(items), name) == Normal(Undefined)
  {
    assert IsDigits(name);
    assert !IsDigits("length") by { assert "length"[0] == 'l'; }
  }
}
