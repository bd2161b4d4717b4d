/**
  The JavaScript values that cross the HTTP boundary, and the coercions the
  backend and the pages apply to them: truthiness (`!x`, `x || d`), `Number(x)`,
  `String(n)` and `parseFloat`. Numbers are integers here; see the README.
*/
module JsValues {
  import opened Optional
  import opened Text

  /** A field of a JSON request body or response. `Undefined` is a missing key. */
  datatype Json = Undefined | Null | Num(n: int) | Str(s: string)

  /** An HTTP reply: a status code with a body, or a status code with an error message. */
  datatype Reply<T> = Success(code: int, value: T) | Failure(code: int, error: string)

  /** The result of a numeric coercion: NaN or an integer. */
  datatype JsNumber = NaN | Int(n: int)

  /** `!!v` in JavaScript. */
  predicate Truthy(v: Json) {
    match v
    case Undefined => false
    case Null => false
    case Num(n) => n != 0
    case Str(s) => s != ""
  }

  /** `!!t` for a text field that may be absent or null. */
  predicate Present(t: Option<string>) {
    t.Some? && t.value != ""
  }

  /** `t || d` for a text field that may be absent or null. */
  function OrDefault(t: Option<string>, d: string): (r: string)
    ensures Present(t) ==> r == t.value
    ensures !Present(t) ==> r == d
  {
    if Present(t) then t.value else d
  }

  /** Oracle stores the empty string as NULL. */
  function Stored(s: string): (r: Option<string>)
    ensures r.None? <==> s == ""
    ensures OrDefault(r, "") == s
  {
    if s == "" then None else Some(s)
  }

  /** `String(x)` for the result of a numeric coercion. */
  function NumberToString(x: JsNumber): string {
    match x
    case NaN => "NaN"
    case Int(n) => IntToString(n)
  }

  /** `parseInt(String(v), 10)`, as the backend applies it to an id field. */
  function ParseIntField(v: Json): (r: Option<int>)
    ensures v.Num? ==> r == Some(v.n)
  {
    match v
    case Undefined => ParseInt("undefined")
    case Null => ParseInt("null")
    case Num(n) => ParseIntRoundTrip(n); ParseInt(IntToString(n))
    case Str(s) => ParseInt(s)
  }

  /** The numeric prefix `parseFloat` reads: a sign, the digits before the point, and those after it. */
  datatype FloatText = FloatText(negative: bool, whole: string, fraction: string)

  /** Splits trimmed text into the sign, integer digits and fraction digits of its longest decimal prefix. */
  function FloatParts(t: string): (p: FloatText)
    ensures AllDigits(p.whole) && AllDigits(p.fraction)
  {
    var u := Unsigned(t);
    var n := LeadingDigits(u);
    var after := u[n..];
    var rest := if |after| > 0 && after[0] == '.' then after[1..] else [];
    FloatText(Signed(t) && t[0] == '-', u[..n], rest[..LeadingDigits(rest)])
  }

  /** The parts of the number at the start of `s`, after its white space. */
  function NumberText(s: string): FloatText {
    FloatParts(TrimStart(JsWhitespace, s))
  }

  /** The exact value of a decimal prefix, when it has a digit. */
  function PartsValue(p: FloatText): Option<real>
    requires AllDigits(p.whole) && AllDigits(p.fraction)
  {
    if p.whole == [] && p.fraction == [] then None
    else
      var v := DigitsValue(p.whole) as real + FractionValue(p.fraction);
      Some(if p.negative then -v else v)
  }

  /** The integer part of a decimal prefix, NaN when it has no digit. */
  function PartsWhole(p: FloatText): JsNumber
    requires AllDigits(p.whole)
  {
    if p.whole == [] && p.fraction == [] then NaN
    else Int(if p.negative then -(DigitsValue(p.whole) as int) else DigitsValue(p.whole))
  }

  /** The value of the digits after a decimal point. */
  function FractionValue(f: string): (v: real)
    requires AllDigits(f)
    decreases |f|
  {
    if f == [] then 0.0
    else
      assert AllDigits(f[1..]) by { assert forall k :: 0 <= k < |f| - 1 ==> f[1..][k] == f[k + 1]; }
      (DigitValue(f[0]) as real + FractionValue(f[1..])) / 10.0
  }

  /**
    The exact number `parseFloat(s)` reads, when it reads one: white space, an
    optional sign, then digits with at most one decimal point and at least one digit.
  */
  function FloatValue(s: string): Option<real> {
    PartsValue(NumberText(s))
  }

  /** A real number with its fraction dropped, rounding toward zero. */
  function TowardZero(v: real): (n: int)
    ensures v >= 0.0 ==> n >= 0 && n as real <= v < n as real + 1.0
    ensures v < 0.0 ==> n <= 0 && n as real - 1.0 < v <= n as real
  {
    if v >= 0.0 then v.Floor else -((-v).Floor)
  }

  /**
    `parseFloat` over the integer prices of this model: the number read from the
    longest decimal prefix after white space, without its fraction; NaN when there is no digit.
  */
  function ParseFloat(s: string): (r: JsNumber)
    ensures ParseInt(s).Some? ==> r == Int(ParseInt(s).value)
  {
    WholeIsParseSigned(TrimStart(JsWhitespace, s));
    PartsWhole(NumberText(s))
  }

  /** The integer digits of the prefix are what `parseInt` reads. */
  lemma WholeIsParseSigned(t: string)
    ensures ParseSigned(t).Some? ==> PartsWhole(FloatParts(t)) == Int(ParseSigned(t).value)
  {
    var u := Unsigned(t);
    assert FloatParts(t).whole == u[..LeadingDigits(u)];
  }

  /** The digits after a decimal point are worth less than one. */
  lemma {:induction false} FractionBelowOne(f: string)
    requires AllDigits(f)
    ensures 0.0 <= FractionValue(f) < 1.0
    decreases |f|
  {
    if f != [] {
      assert AllDigits(f[1..]) by { assert forall k :: 0 <= k < |f| - 1 ==> f[1..][k] == f[k + 1]; }
      FractionBelowOne(f[1..]);
    }
  }

  /** `parseFloat` reads a number exactly when the prefix has a digit, and the model keeps its part before the point. */
  lemma ParseFloatTruncates(s: string)
    ensures ParseFloat(s) == match FloatValue(s) case None => NaN case Some(v) => Int(TowardZero(v))
  {
    PartsTruncate(NumberText(s));
  }

  lemma PartsTruncate(p: FloatText)
    requires AllDigits(p.whole) && AllDigits(p.fraction)
    ensures PartsWhole(p) == match PartsValue(p) case None => NaN case Some(v) => Int(TowardZero(v))
  {
    if !(p.whole == [] && p.fraction == []) {
      FractionBelowOne(p.fraction);
      var w := DigitsValue(p.whole);
      var v := w as real + FractionValue(p.fraction);
      assert v.Floor == w;
      if p.negative && v > 0.0 {
        assert TowardZero(-v) == -(w as int);
      }
    }
  }

  /** A price of `.5` is a number above zero whose integer part is 0. */
  lemma HalfPrice()
    ensures FloatValue(".5") == Some(0.5)
    ensures ParseFloat(".5") == Int(0)
  {
    TrimStartOfNonBlank(JsWhitespace, ".5");
    HalfParts();
    assert FractionValue("5") == 0.5 by { assert "5"[1..] == []; }
  }

  lemma HalfParts()
    ensures FloatParts(".5") == FloatText(false, [], "5")
  {
    assert LeadingDigits(".5") == 0;
    assert ".5"[1..] == "5";
    assert LeadingDigits("5") == 1;
  }

  /** `12.75` reads as 12.75, and its integer part is 12. */
  lemma PriceWithCents()
    ensures FloatValue("12.75") == Some(12.75) && ParseFloat("12.75") == Int(12)
  {
    TrimStartOfNonBlank(JsWhitespace, "12.75");
    CentsParts();
    assert DigitsValue("12") == 12 by { assert "12"[..1] == "1"; assert "1"[..0] == []; }
    assert FractionValue("75") == 0.75 by { assert "75"[1..] == "5"; assert "5"[1..] == []; }
  }

  lemma CentsParts()
    ensures FloatParts("12.75") == FloatText(false, "12", "75")
  {
    assert LeadingDigits("12.75") == 2;
    assert "12.75"[2..] == ".75" && ".75"[1..] == "75";
    assert LeadingDigits("75") == 2;
  }

  /** Text that starts with a letter holds no number. */
  lemma ParseFloatOfWord(s: string)
    requires s != [] && !IsDigit(s[0]) && !IsBlank(JsWhitespace, s[0])
    requires s[0] != '-' && s[0] != '+' && s[0] != '.'
    ensures FloatValue(s) == None && ParseFloat(s) == NaN
  {
    TrimStartOfNonBlank(JsWhitespace, s);
    FloatPartsOfWord(s);
  }

  lemma FloatPartsOfWord(t: string)
    requires t != [] && !IsDigit(t[0]) && t[0] != '-' && t[0] != '+' && t[0] != '.'
    ensures FloatParts(t) == FloatText(false, [], [])
  {
    assert LeadingDigits(t) == 0;
  }

  /** `parseFloat(v)` for a body field, which JavaScript first turns into text. */
  function ParseFloatField(v: Json): (r: JsNumber)
    ensures v.Num? ==> r == Int(v.n)
    ensures v.Undefined? || v.Null? ==> r == NaN
  {
    match v
    case Undefined => ParseFloatOfWord("undefined"); ParseFloat("undefined")
    case Null => ParseFloatOfWord("null"); ParseFloat("null")
    case Num(n) => ParseIntRoundTrip(n); ParseFloat(IntToString(n))
    case Str(s) => ParseFloat(s)
  }

  /**
    `Number(s)` for the integer texts of this model: the empty or all-white
    string is 0, and an optional sign followed by digits and nothing else is that
    integer. Every other text is NaN here, including the texts `Number` reads as
    a fraction, an exponent, `Infinity` or a `0x`, `0o` or `0b` literal.
  */
  function StringToNumber(s: string): (r: JsNumber)
    ensures Trim(JsWhitespace, s) == [] ==> r == Int(0)
    ensures r.Int? && Trim(JsWhitespace, s) != [] ==> ParseInt(s) == Some(r.n)
  {
    NumberAgreesWithParseInt(s);
    NumberOfTrimmed(Trim(JsWhitespace, s))
  }

  /** `Number` of text without blanks around it. */
  function NumberOfTrimmed(t: string): JsNumber {
    if t == [] then Int(0)
    else
      var d := Unsigned(t);
      if d == [] || !AllDigits(d) then NaN
      else Int(SignedValue(t, d))
  }

  /** The value of the digits `d`, negated when `t` starts with `-`. */
  function SignedValue(t: string, d: string): int
    requires AllDigits(d)
  {
    if |t| > 0 && t[0] == '-' then -(DigitsValue(d) as int) else DigitsValue(d)
  }

  /** Where `Number` reads an integer from non-blank text, `parseInt` reads the same one. */
  lemma NumberAgreesWithParseInt(s: string)
    ensures var t := Trim(JsWhitespace, s);
      t != [] && NumberOfTrimmed(t).Int? ==> ParseInt(s) == Some(NumberOfTrimmed(t).n)
  {
    var t := Trim(JsWhitespace, s);
    var d := Unsigned(t);
    if t != [] && d != [] && AllDigits(d) {
      var post := TrimmedTail(s);
      ParseSignedOfNumberText(t, post);
    }
  }

  /** The blanks `Trim` removes after the text, which `parseInt` never reaches. */
  function TrimmedTail(s: string): (post: string)
    ensures TrimStart(JsWhitespace, s) == Trim(JsWhitespace, s) + post
    ensures post == [] || !IsDigit(post[0])
  {
    var front := TrimStart(JsWhitespace, s);
    TrimEndSplit(JsWhitespace, front);
    var post := front[|front| - TrailingBlanks(JsWhitespace, front)..];
    assert post == [] || IsBlank(JsWhitespace, post[0]);
    post
  }

  lemma ParseSignedOfNumberText(t: string, post: string)
    requires t != [] && Unsigned(t) != [] && AllDigits(Unsigned(t))
    requires post == [] || !IsDigit(post[0])
    ensures ParseSigned(t + post) == Some(SignedValue(t, Unsigned(t)))
  {
    var d := Unsigned(t);
    if t[0] == '-' {
      assert t + post == "-" + (d + post);
      ParseSignedOfNegative(d, post);
    } else if t[0] == '+' {
      assert t + post == "+" + (d + post);
      ParseSignedOfPlus(d, post);
    } else {
      ParseSignedOfDigits(d, post);
    }
  }

  /** `Number(v)`. */
  function ToNumber(v: Json): (r: JsNumber)
    ensures v.Undefined? ==> r == NaN
    ensures v.Null? ==> r == Int(0)
    ensures v.Num? ==> r == Int(v.n)
  {
    match v
    case Undefined => NaN
    case Null => Int(0)
    case Num(n) => Int(n)
    case Str(s) => StringToNumber(s)
  }

  /** `String(x)` is read back by `parseInt` exactly when `x` is not NaN. */
  lemma ParseIntOfNumberString(x: JsNumber)
    ensures ParseInt(NumberToString(x)) == if x.Int? then Some(x.n) else None
  {
    if x.Int? {
      ParseIntRoundTrip(x.n);
    } else {
      ParseIntNoDigits("NaN");
    }
  }

  lemma NumberToStringInjective(x: JsNumber, y: JsNumber)
    requires NumberToString(x) == NumberToString(y)
    ensures x == y
  {
    ParseIntOfNumberString(x);
    ParseIntOfNumberString(y);
  }

  /** `String(x)` holds digits, `-`, or the letters of NaN, and never a `t` or `p`. */
  lemma NumberStringLetters(x: JsNumber)
    ensures forall k :: 0 <= k < |NumberToString(x)| ==> NumberToString(x)[k] !in "tp"
  {
  }
}
