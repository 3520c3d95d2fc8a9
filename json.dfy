/** The JSON document model, parser and printer (transport-catalogue/json.cpp).
    The parser reads a character stream; here the stream is the whole input
    text and a position in it. `input >> c` skips white space and reads one
    character; reading at the end of the text fails. */
module Json {
  import opened Wrappers
  import opened Strings
  import opened Ordered

  /** A JSON value. A Dict is a `std::map`: one value per key, traversed in key
      order. Doubles are exact reals. */
  datatype Node =
    | Null
    | Array(items: seq<Node>)
    | Dict(entries: map<string, Node>)
    | Bool(b: bool)
    | Int(i: Int32)
    | Double(d: real)
    | Str(s: string)

  /** The text of the logic_error the accessors throw; it repeats what the
      standard library's bad_variant_access says, which the standard leaves to
      the implementation. */
  const BAD_VARIANT := "bad variant access"

  const STRING_ERROR := "String parsing error"
  const END_OF_LINE := "Unexpected end of line"
  const END_OF_ARRAY := "Unexpected end of array"
  const NOT_VALID := "Not valid json"
  const WRONG_NULL := "Wrong null value"
  const WRONG_BOOL := "Wrong bool value"
  const DIGIT_EXPECTED := "A digit is expected"

  // ---------------------------------------------------------------------------
  // Accessors

  predicate IsInt(n: Node) { n.Int? }
  /** An int is also a double. */
  predicate IsDouble(n: Node) { n.Int? || n.Double? }
  predicate IsPureDouble(n: Node) { n.Double? }
  predicate IsBool(n: Node) { n.Bool? }
  predicate IsString(n: Node) { n.Str? }
  predicate IsNull(n: Node) { n.Null? }
  predicate IsArray(n: Node) { n.Array? }
  predicate IsMap(n: Node) { n.Dict? }

  function AsInt(n: Node): (r: Result<Int32>)
    ensures r.Success? <==> IsInt(n)
    ensures r.Success? ==> n == Int(r.value)
    ensures r.Failure? ==> r.error == LogicError(BAD_VARIANT)
  {
    if n.Int? then Success(n.i) else Failure(LogicError(BAD_VARIANT))
  }

  function AsBool(n: Node): (r: Result<bool>)
    ensures r.Success? <==> IsBool(n)
    ensures r.Success? ==> n == Bool(r.value)
    ensures r.Failure? ==> r.error == LogicError(BAD_VARIANT)
  {
    if n.Bool? then Success(n.b) else Failure(LogicError(BAD_VARIANT))
  }

  /** A double, or an int converted to double. */
  function AsDouble(n: Node): (r: Result<real>)
    ensures r.Success? <==> IsDouble(n)
    ensures r.Success? ==> n == Double(r.value) || (n.Int? && r.value == n.i as real)
    ensures r.Failure? ==> r.error == LogicError(BAD_VARIANT)
  {
    if n.Double? then Success(n.d)
    else if n.Int? then Success(n.i as real)
    else Failure(LogicError(BAD_VARIANT))
  }

  function AsString(n: Node): (r: Result<string>)
    ensures r.Success? <==> IsString(n)
    ensures r.Success? ==> n == Str(r.value)
    ensures r.Failure? ==> r.error == LogicError(BAD_VARIANT)
  {
    if n.Str? then Success(n.s) else Failure(LogicError(BAD_VARIANT))
  }

  function AsArray(n: Node): (r: Result<seq<Node>>)
    ensures r.Success? <==> IsArray(n)
    ensures r.Success? ==> n == Array(r.value)
    ensures r.Failure? ==> r.error == LogicError(BAD_VARIANT)
  {
    if n.Array? then Success(n.items) else Failure(LogicError(BAD_VARIANT))
  }

  function AsMap(n: Node): (r: Result<map<string, Node>>)
    ensures r.Success? <==> IsMap(n)
    ensures r.Success? ==> n == Dict(r.value)
    ensures r.Failure? ==> r.error == LogicError(BAD_VARIANT)
  {
    if n.Dict? then Success(n.entries) else Failure(LogicError(BAD_VARIANT))
  }

  /** `dict.at(key)`: throws out_of_range for a missing key. */
  function At(entries: map<string, Node>, key: string): (r: Result<Node>)
    ensures r.Success? <==> key in entries
    ensures r.Success? ==> r.value == entries[key]
    ensures r.Failure? ==> r.error == OutOfRange
  {
    if key in entries then Success(entries[key]) else Failure(OutOfRange)
  }

  // ---------------------------------------------------------------------------
  // The stream

  /** The position of the next character that is not white space. */
  function SkipSpaces(s: string, p: nat): (q: nat)
    requires p <= |s|
    ensures p <= q <= |s|
    ensures q < |s| ==> !IsSpace(s[q])
    decreases |s| - p
  {
    if p < |s| && IsSpace(s[p]) then SkipSpaces(s, p + 1) else p
  }

  /** `input >> c`: the next character that is not white space and the position
      after it; None when only white space is left. */
  function ReadChar(s: string, p: nat): (r: Option<(char, nat)>)
    requires p <= |s|
    ensures r.None? <==> SkipSpaces(s, p) == |s|
    ensures r.Some? ==> r.value.1 == SkipSpaces(s, p) + 1 && r.value.0 == s[r.value.1 - 1]
    ensures r.Some? ==> p < r.value.1 <= |s| && !IsSpace(r.value.0)
  {
    var q := SkipSpaces(s, p);
    if q == |s| then None else Some((s[q], q + 1))
  }

  // ---------------------------------------------------------------------------
  // Strings

  /** The character an escape sequence `\e` stands for. */
  function Unescape(e: char): (r: Result<char>)
    ensures r.Success? <==> e in "ntr\"\\"
    ensures r.Failure? ==> r.error == ParsingError("Unrecognized escape sequence \\" + [e])
  {
    match e
    case 'n' => Success('\n')
    case 't' => Success('\t')
    case 'r' => Success('\r')
    case '"' => Success('"')
    case '\\' => Success('\\')
    case _ => Failure(ParsingError("Unrecognized escape sequence \\" + [e]))
  }

  /** The string body starting at `p` (after the opening quote), decoded, and the
      position after the closing quote. */
  function ParseString(s: string, p: nat): (r: Result<(string, nat)>)
    requires p <= |s|
    decreases |s| - p
    ensures r.Success? ==> p < r.value.1 <= |s| && s[r.value.1 - 1] == '"'
  {
    if p == |s| then Failure(ParsingError(STRING_ERROR))
    else if s[p] == '"' then Success(([], p + 1))
    else if s[p] == '\\' then
      if p + 1 == |s| then Failure(ParsingError(STRING_ERROR))
      else
        var c :- Unescape(s[p + 1]);
        var rest :- ParseString(s, p + 2);
        Success(([c] + rest.0, rest.1))
    else if s[p] == '\n' || s[p] == '\r' then Failure(ParsingError(END_OF_LINE))
    else
      var rest :- ParseString(s, p + 1);
      Success(([s[p]] + rest.0, rest.1))
  }

  /** `acc` put in front of a parse result. */
  function Prefixed(acc: string, r: Result<(string, nat)>): Result<(string, nat)> {
    if r.Success? then Success((acc + r.value.0, r.value.1)) else r
  }

  lemma {:induction false} PrefixedAppend(acc: string, c: char, r: Result<(string, nat)>)
    ensures Prefixed(acc, Prefixed([c], r)) == Prefixed(acc + [c], r)
    ensures Prefixed([], r) == r
  {
    if r.Success? {
      assert acc + ([c] + r.value.0) == (acc + [c]) + r.value.0;
      assert [] + r.value.0 == r.value.0;
    }
  }

  /** The quoted string starting at `p`: the text ends before the closing quote,
      a raw line break ends the line, and only `\n`, `\t`, `\r`, `\"` and `\\`
      are escapes. */
  lemma {:induction false} ParseStringCases(s: string, p: nat)
    requires p <= |s|
    ensures p == |s| ==> ParseString(s, p) == Failure(ParsingError(STRING_ERROR))
    ensures p < |s| && s[p] == '"' ==> ParseString(s, p) == Success(([], p + 1))
    ensures p < |s| && (s[p] == '\n' || s[p] == '\r') ==> ParseString(s, p) == Failure(ParsingError(END_OF_LINE))
    ensures p + 1 == |s| && s[p] == '\\' ==> ParseString(s, p) == Failure(ParsingError(STRING_ERROR))
    ensures p + 1 < |s| && s[p] == '\\' && s[p + 1] !in "ntr\"\\" ==>
      ParseString(s, p) == Failure(ParsingError("Unrecognized escape sequence \\" + [s[p + 1]]))
    ensures p + 1 < |s| && s[p] == '\\' && s[p + 1] in "ntr\"\\" ==>
      ParseString(s, p) == Prefixed([Unescape(s[p + 1]).value], ParseString(s, p + 2))
  {
  }

  /** `ProcessString`: reads the string body after the opening quote character
      by character. */
  method ProcessString(s: string, p: nat) returns (r: Result<(string, nat)>)
    requires p <= |s|
    ensures r == ParseString(s, p)
  {
    var it := p;
    var acc: string := [];
    PrefixedAppend(acc, ' ', ParseString(s, p));
    while true
      invariant p <= it <= |s|
      invariant ParseString(s, p) == Prefixed(acc, ParseString(s, it))
      decreases |s| - it
    {
      if it == |s| {
        return Failure(ParsingError(STRING_ERROR));
      }
      var ch := s[it];
      if ch == '"' {
        assert ParseString(s, it) == Success(([], it + 1));
        assert acc + [] == acc;
        return Success((acc, it + 1));
      } else if ch == '\\' {
        it := it + 1;
        if it == |s| {
          return Failure(ParsingError(STRING_ERROR));
        }
        var escaped := Unescape(s[it]);
        if escaped.Failure? {
          return Failure(escaped.error);
        }
        assert ParseString(s, it - 1) == Prefixed([escaped.value], ParseString(s, it + 1));
        PrefixedAppend(acc, escaped.value, ParseString(s, it + 1));
        acc := acc + [escaped.value];
      } else if ch == '\n' || ch == '\r' {
        return Failure(ParsingError(END_OF_LINE));
      } else {
        assert ParseString(s, it) == Prefixed([ch], ParseString(s, it + 1));
        PrefixedAppend(acc, ch, ParseString(s, it + 1));
        acc := acc + [ch];
      }
      it := it + 1;
    }
  }

  /** How the printer writes one character of a string. */
  function EscapeChar(c: char): (r: string)
    ensures |r| >= 1
  {
    if c == '\\' || c == '"' || c == '\'' then ['\\', c]
    else if c == '\r' then "\\r"
    else if c == '\n' then "\\n"
    else [c]
  }

  /** The printed form of the characters of `value` from the `k`-th on. */
  function EscapeFrom(value: string, k: nat): string
    requires k <= |value|
    decreases |value| - k
  {
    if k == |value| then [] else EscapeChar(value[k]) + EscapeFrom(value, k + 1)
  }

  function Escape(value: string): string {
    EscapeFrom(value, 0)
  }

  /** The printed form of a string: quoted, with `\`, `"`, `'`, CR and LF escaped
      and every other character as it is. */
  function Quoted(value: string): string {
    "\"" + Escape(value) + "\""
  }

  /** `PrintValue(const string&)`: builds the printed form character by character. */
  method PrintString(value: string) returns (result: string)
    ensures result == Quoted(value)
  {
    result := "\"";
    for k := 0 to |value|
      invariant result + EscapeFrom(value, k) == "\"" + Escape(value)
    {
      assert (result + EscapeChar(value[k])) + EscapeFrom(value, k + 1) == result + EscapeFrom(value, k);
      result := result + EscapeChar(value[k]);
    }
    assert result + [] == result;
    result := result + "\"";
  }

  /** One printed character read back: the parser turns `EscapeChar(c)` into
      `c` and goes on after it. */
  lemma {:induction false} ParseEscapedChar(s: string, i: nat, c: char)
    requires c != '\''
    requires i + |EscapeChar(c)| < |s| && TextAt(s, i, EscapeChar(c))
    ensures ParseString(s, i) == Prefixed([c], ParseString(s, i + |EscapeChar(c)|))
  {
    var e := EscapeChar(c);
    assert s[i + 0] == e[0];
    if |e| == 2 {
      assert s[i + 1] == e[1];
    }
  }

  /** The characters of `x` from the `k`-th on, one at a time. */
  function Suffix(x: string, k: nat): (r: string)
    requires k <= |x|
    decreases |x| - k
  {
    if k == |x| then [] else [x[k]] + Suffix(x, k + 1)
  }

  lemma {:induction false} SuffixIsDrop(x: string, k: nat)
    requires k <= |x|
    ensures Suffix(x, k) == x[k..]
    decreases |x| - k
  {
    if k < |x| {
      SuffixIsDrop(x, k + 1);
      assert x[k..] == [x[k]] + x[k + 1..];
    }
  }

  /** Reading back the escaped form of the characters of `x` from the `k`-th
      on, followed by the closing quote, gives those characters exactly,
      provided `x` holds no `'`. */
  lemma {:induction false} ParseEscaped(s: string, i: nat, x: string, k: nat)
    requires '\'' !in x && k <= |x|
    requires TextAt(s, i, EscapeFrom(x, k) + "\"")
    ensures ParseString(s, i) == Success((Suffix(x, k), i + |EscapeFrom(x, k)| + 1))
    decreases |x| - k
  {
    if k == |x| {
      ParseEscapedEnd(s, i, x, k);
    } else {
      EscapedHead(s, i, x, k);
      ParseEscaped(s, i + |EscapeChar(x[k])|, x, k + 1);
      ParseEscapedStep(s, i, x, k);
    }
  }

  /** Past the last character, only the closing quote is left. */
  lemma {:induction false} ParseEscapedEnd(s: string, i: nat, x: string, k: nat)
    requires k == |x| && TextAt(s, i, EscapeFrom(x, k) + "\"")
    ensures ParseString(s, i) == Success((Suffix(x, k), i + |EscapeFrom(x, k)| + 1))
  {
    assert s[i + 0] == (EscapeFrom(x, k) + "\"")[0];
  }

  /** The `k`-th character read back in front of the rest. */
  lemma {:induction false} ParseEscapedStep(s: string, i: nat, x: string, k: nat)
    requires k < |x| && x[k] != '\''
    requires TextAt(s, i, EscapeChar(x[k])) && i + |EscapeChar(x[k])| < |s|
    requires |EscapeFrom(x, k)| == |EscapeChar(x[k])| + |EscapeFrom(x, k + 1)|
    requires ParseString(s, i + |EscapeChar(x[k])|) == Success((Suffix(x, k + 1), i + |EscapeFrom(x, k)| + 1))
    ensures ParseString(s, i) == Success((Suffix(x, k), i + |EscapeFrom(x, k)| + 1))
  {
    ParseEscapedChar(s, i, x[k]);
  }

  /** The escaped form of the characters from the `k`-th on starts with that of
      the `k`-th. */
  lemma {:induction false} EscapedHead(s: string, i: nat, x: string, k: nat)
    requires k < |x| && TextAt(s, i, EscapeFrom(x, k) + "\"")
    ensures TextAt(s, i, EscapeChar(x[k])) && i + |EscapeChar(x[k])| < |s|
    ensures TextAt(s, i + |EscapeChar(x[k])|, EscapeFrom(x, k + 1) + "\"")
    ensures |EscapeFrom(x, k)| == |EscapeChar(x[k])| + |EscapeFrom(x, k + 1)|
  {
    var e := EscapeChar(x[k]);
    var tail := EscapeFrom(x, k + 1);
    assert EscapeFrom(x, k) + "\"" == e + (tail + "\"");
    TextAtSplit(s, i, e, tail + "\"");
  }

  /** Printing a string and parsing it back gives the string, whenever it holds
      no `'`. */
  lemma {:induction false} StringRoundTrip(x: string)
    requires '\'' !in x
    ensures ParseString(Quoted(x), 1) == Success((x, |Quoted(x)|))
  {
    var q := Quoted(x);
    assert q == "\"" + (Escape(x) + "\"");
    TextAtEnd("\"", Escape(x) + "\"");
    ParseEscaped(q, 1, x, 0);
    SuffixIsDrop(x, 0);
    assert x[0..] == x;
  }

  /** A string occurs in any concatenation that ends with it. */
  lemma {:induction false} TextAtEnd(a: string, b: string)
    ensures TextAt(a + b, |a|, b)
  {
    forall k | 0 <= k < |b| ensures (a + b)[|a| + k] == b[k] {
    }
  }

  /** A `'` breaks the round trip: the printer writes it as `\'`, an escape the
      parser rejects. */
  lemma {:induction false} QuoteBreaksRoundTrip()
    ensures Quoted("'") == "\"\\'\""
    ensures ParseString(Quoted("'"), 1) == Failure(ParsingError("Unrecognized escape sequence \\'"))
  {
    assert EscapeFrom("'", 0) == "\\'" + EscapeFrom("'", 1);
  }

  // ---------------------------------------------------------------------------
  // Numbers

  function Pow10(k: nat): (r: nat)
    ensures r >= 1
  {
    if k == 0 then 1 else 10 * Pow10(k - 1)
  }

  /** `x` with its decimal point moved `k` places, to the left when `down`. */
  function Shift(x: real, k: nat, down: bool): real {
    if k == 0 then x
    else if down then Shift(x, k - 1, down) / 10.0
    else Shift(x, k - 1, down) * 10.0
  }

  /** Moving the decimal point is scaling by a power of ten. */
  lemma {:induction false} ShiftScales(x: real, k: nat)
    ensures Shift(x, k, false) == x * Pow10(k) as real
    ensures Shift(x, k, true) == x / Pow10(k) as real
  {
    if k > 0 {
      ShiftScales(x, k - 1);
      var p := Pow10(k - 1) as real;
      assert Pow10(k) as real == 10.0 * p;
      assert x * p * 10.0 == x * (10.0 * p);
      assert x / p / 10.0 == x / (10.0 * p);
    }
  }

  /** The position after the run of digits starting at `p`. */
  function DigitsEnd(s: string, p: nat): (q: nat)
    requires p <= |s|
    decreases |s| - p
    ensures p <= q <= |s| && (q < |s| ==> !IsDigit(s[q]))
  {
    if p < |s| && IsDigit(s[p]) then DigitsEnd(s, p + 1) else p
  }

  /** The value of the decimal digits of `s` from `a` up to `b`. */
  function ValueBetween(s: string, a: nat, b: nat): nat
    requires a <= b <= |s|
    decreases b - a
  {
    if a == b then 0
    else ValueBetween(s, a, b - 1) * 10 + (if IsDigit(s[b - 1]) then DigitValue(s[b - 1]) else 0)
  }

  /** `read_digits`: at least one digit, then every digit that follows; the
      position after the last one. */
  function ReadDigits(s: string, p: nat): (r: Result<nat>)
    requires p <= |s|
    ensures r.Failure? <==> p == |s| || !IsDigit(s[p])
    ensures r.Failure? ==> r.error == ParsingError(DIGIT_EXPECTED)
    ensures r.Success? ==> p < r.value <= |s|
    ensures r.Success? && r.value < |s| ==> !IsDigit(s[r.value])
  {
    if p < |s| && IsDigit(s[p]) then Success(DigitsEnd(s, p + 1)) else Failure(ParsingError(DIGIT_EXPECTED))
  }

  /** A number token as `ProcessNumber` classifies it: whether it has neither
      a fraction nor an exponent, the signed value of its integer part, and
      its exact decimal value. */
  datatype Numeral = Numeral(isInt: bool, whole: int, value: real)

  /** The integer part starting at `a`: a single `0`, or a run of digits. */
  function WholeEnd(s: string, a: nat): (r: Result<nat>)
    requires a <= |s|
    ensures r.Success? ==> a < r.value <= |s|
    ensures r.Failure? ==> r.error == ParsingError(DIGIT_EXPECTED)
  {
    if a < |s| && s[a] == '0' then Success(a + 1) else ReadDigits(s, a)
  }

  /** The end of the optional fraction starting at `b`: `.` and digits. */
  function FractionEnd(s: string, b: nat): (r: Result<nat>)
    requires b <= |s|
    ensures r.Success? ==> b <= r.value <= |s|
    ensures r.Success? && r.value > b ==> s[b] == '.' && b + 1 < r.value
    ensures r.Success? && r.value == b ==> b == |s| || s[b] != '.'
    ensures r.Failure? ==> r.error == ParsingError(DIGIT_EXPECTED)
  {
    if b < |s| && s[b] == '.' then ReadDigits(s, b + 1) else Success(b)
  }

  /** Where the exponent digits start, after `e` or `E` and an optional sign. */
  function ExponentDigits(s: string, c: nat): (d: nat)
    requires c < |s|
    ensures c < d <= |s|
  {
    if c + 1 < |s| && (s[c + 1] == '+' || s[c + 1] == '-') then c + 2 else c + 1
  }

  /** The end of the optional exponent starting at `c`. */
  function ExponentEnd(s: string, c: nat): (r: Result<nat>)
    requires c <= |s|
    ensures r.Success? ==> c <= r.value <= |s|
    ensures r.Success? && r.value > c ==> (s[c] == 'e' || s[c] == 'E') && ExponentDigits(s, c) < r.value
    ensures r.Success? && r.value == c ==> c == |s| || (s[c] != 'e' && s[c] != 'E')
    ensures r.Failure? ==> r.error == ParsingError(DIGIT_EXPECTED)
  {
    if c < |s| && (s[c] == 'e' || s[c] == 'E') then ReadDigits(s, ExponentDigits(s, c)) else Success(c)
  }

  /** The exact value of the integer digits from `a` to `b`, the fraction
      digits from `b + 1` to `c` and the exponent ending at `e`. */
  function Magnitude(s: string, a: nat, b: nat, c: nat, e: nat): real
    requires a <= b <= c <= e <= |s|
    requires c > b ==> b + 1 < c
    requires e > c ==> c < |s| && ExponentDigits(s, c) < e
  {
    var whole := ValueBetween(s, a, b) as real;
    var fraction := if c > b then Shift(ValueBetween(s, b + 1, c) as real, c - b - 1, true) else 0.0;
    if e == c then whole + fraction
    else Shift(whole + fraction, ValueBetween(s, ExponentDigits(s, c), e), s[c + 1] == '-')
  }

  /** The number token starting at `p` and the position after it: an optional
      `-`, then `0` or a run of digits, then optionally `.` and digits, then
      optionally `e` or `E`, an optional sign and digits. */
  function ScanNumber(s: string, p: nat): (r: Result<(Numeral, nat)>)
    requires p <= |s|
    ensures r.Success? ==> p < r.value.1 <= |s|
    ensures r.Failure? ==> r.error == ParsingError(DIGIT_EXPECTED)
  {
    var negative := p < |s| && s[p] == '-';
    var a := if negative then p + 1 else p;
    var b :- WholeEnd(s, a);
    var c :- FractionEnd(s, b);
    var e :- ExponentEnd(s, c);
    var whole: int := ValueBetween(s, a, b);
    var m := Magnitude(s, a, b, c, e);
    Success((Numeral(c == b && e == c, if negative then -whole else whole, if negative then -m else m), e))
  }

  /** `LoadNumber`: a token without fraction and exponent whose value fits in
      `int` (`std::stoi` succeeds) becomes an Int node; every other token a
      Double node. */
  function LoadNumber(s: string, p: nat): (r: Result<(Node, nat)>)
    requires p <= |s|
    ensures r.Success? ==> p < r.value.1 <= |s|
    ensures r.Success? ==> r.value.0.Int? || r.value.0.Double?
  {
    var t :- ScanNumber(s, p);
    if t.0.isInt && INT_MIN <= t.0.whole <= INT_MAX then Success((Int(t.0.whole), t.1))
    else Success((Double(t.0.value), t.1))
  }

  // ---------------------------------------------------------------------------
  // Documents

  /** `LoadNull`, after the `n`: the next three characters read (white space
      skipped) must be `ull`. */
  function LoadNull(s: string, p: nat): (r: Result<(Node, nat)>)
    requires p <= |s|
    ensures r.Success? ==> r.value.0 == Null && p < r.value.1 <= |s|
    ensures r.Failure? ==> r.error == ParsingError(WRONG_NULL)
  {
    match ReadChar(s, p)
    case None => Failure(ParsingError(WRONG_NULL))
    case Some(r1) =>
      match ReadChar(s, r1.1)
      case None => Failure(ParsingError(WRONG_NULL))
      case Some(r2) =>
        match ReadChar(s, r2.1)
        case None => Failure(ParsingError(WRONG_NULL))
        case Some(r3) =>
          if [r1.0, r2.0, r3.0] == "ull" then Success((Null, r3.1)) else Failure(ParsingError(WRONG_NULL))
  }

  /** `LoadBool`, after the `t` or `f`: three characters `rue` give true;
      otherwise a fourth one must complete `alse` for false. The letter that
      chose this branch is not compared with the rest. */
  function LoadBool(s: string, p: nat): (r: Result<(Node, nat)>)
    requires p <= |s|
    ensures r.Success? ==> r.value.0.Bool? && p < r.value.1 <= |s|
    ensures r.Failure? ==> r.error == ParsingError(WRONG_BOOL)
  {
    match ReadChar(s, p)
    case None => Failure(ParsingError(WRONG_BOOL))
    case Some(r1) =>
      match ReadChar(s, r1.1)
      case None => Failure(ParsingError(WRONG_BOOL))
      case Some(r2) =>
        match ReadChar(s, r2.1)
        case None => Failure(ParsingError(WRONG_BOOL))
        case Some(r3) =>
          if [r1.0, r2.0, r3.0] == "rue" then Success((Bool(true), r3.1))
          else
            match ReadChar(s, r3.1)
            case None => Failure(ParsingError(WRONG_BOOL))
            case Some(r4) =>
              if [r1.0, r2.0, r3.0, r4.0] == "alse" then Success((Bool(false), r4.1))
              else Failure(ParsingError(WRONG_BOOL))
  }

  /** The loop at the head of `LoadNode`: while the character read is a
      backslash, skip one raw character and read the next one. Input that ends
      inside the loop fails with "Not valid json". */
  function SkipEscapes(s: string, c: char, q: nat): (r: Result<(char, nat)>)
    requires q <= |s|
    decreases |s| - q
    ensures r.Success? ==> r.value.0 != '\\' && q <= r.value.1 <= |s|
    ensures r.Success? && r.value.1 > q ==> s[r.value.1 - 1] == r.value.0
    ensures c != '\\' ==> r == Success((c, q))
    ensures r.Failure? ==> r.error == ParsingError(NOT_VALID)
  {
    if c != '\\' then Success((c, q))
    else if q == |s| then Failure(ParsingError(NOT_VALID))
    else
      match ReadChar(s, q + 1)
      case None => Failure(ParsingError(NOT_VALID))
      case Some(next) => SkipEscapes(s, next.0, next.1)
  }

  /** The values `LoadNode` reads without recursion, chosen by their first
      character `c`, which ends before `q`. */
  function LoadScalar(s: string, c: char, q: nat): (r: Result<(Node, nat)>)
    requires 0 < q <= |s|
    ensures r.Success? ==> q - 1 < r.value.1 <= |s|
    ensures r.Success? ==> !r.value.0.Array? && !r.value.0.Dict?
  {
    if c == 'n' then LoadNull(s, q)
    else if c == '"' then
      var str :- ParseString(s, q);
      Success((Str(str.0), str.1))
    else if c == 't' || c == 'f' then LoadBool(s, q)
    else if IsDigit(c) || c == '-' then LoadNumber(s, q - 1)
    else Failure(ParsingError(NOT_VALID))
  }

  /** `LoadNode`: the value starting at the first character read from `p`, and
      the position after it. */
  function LoadNode(s: string, p: nat): (r: Result<(Node, nat)>)
    requires p <= |s|
    decreases |s| - p, 1
    ensures r.Success? ==> p < r.value.1 <= |s|
  {
    LoadValue(s, SkipSpaces(s, p))
  }

  function LoadValue(s: string, q: nat): (r: Result<(Node, nat)>)
    requires q <= |s|
    decreases |s| - q, 0
    ensures r.Success? ==> q < r.value.1 <= |s|
  {
    if q == |s| then Failure(ParsingError(NOT_VALID))
    else
      var read :- SkipEscapes(s, s[q], q + 1);
      if read.0 == '[' then LoadArray(s, read.1, [])
      else if read.0 == '{' then LoadDict(s, read.1, map[], None)
      else LoadScalar(s, read.0, read.1)
  }

  /** `LoadArray`, after the `[`, with the elements read so far: a `]` closes
      the array; a `,` is dropped and any other character is put back before
      the next element is read. */
  function LoadArray(s: string, p: nat, acc: seq<Node>): (r: Result<(Node, nat)>)
    requires p <= |s|
    decreases |s| - p, 2
    ensures r.Success? ==> p < r.value.1 <= |s| && s[r.value.1 - 1] == ']'
    ensures r.Success? ==> r.value.0.Array? && acc <= r.value.0.items
  {
    var q := SkipSpaces(s, p);
    if q == |s| then Failure(ParsingError(END_OF_ARRAY))
    else if s[q] == ']' then Success((Array(acc), q + 1))
    else
      var item :- LoadNode(s, if s[q] != ',' then q else q + 1);
      LoadArray(s, item.1, acc + [item.0])
  }

  /** Where a key starts when the entry's first character is at `q`: after
      it, or after the next character read when it is a `,`. */
  function KeyStart(s: string, q: nat): (k: nat)
    requires q < |s|
    ensures q < k <= |s|
  {
    if s[q] != ',' then q + 1
    else
      var r := SkipSpaces(s, q + 1);
      if r == |s| then |s| else r + 1
  }

  /** One dictionary entry whose first character is at `q`: that character
      (the opening quote; after a `,` one more character is read) is not
      checked, then come the key, one unchecked character (the colon) and the
      value. Returns the key, the colon character, the value and the position
      after it. When the colon cannot be read, the value read at the end of
      the input fails with "Not valid json". */
  function LoadEntry(s: string, q: nat): (r: Result<(string, char, Node, nat)>)
    requires q < |s|
    decreases |s| - q, 0
    ensures r.Success? ==> q < r.value.3 <= |s|
  {
    var key := ParseString(s, KeyStart(s, q));
    if key.Failure? then Failure(key.error)
    else
      var colon := SkipSpaces(s, key.value.1);
      if colon == |s| then Failure(ParsingError(NOT_VALID))
      else
        var value := LoadNode(s, colon + 1);
        if value.Failure? then Failure(value.error)
        else Success((key.value.0, s[colon], value.value.0, value.value.1))
  }

  /** `LoadDict`, after the `{`, with the entries read so far and the last
      character the loop read into `c` (None before the first one). A key
      already present keeps its first value. When the input runs out the
      dictionary is complete only if the last character read was `}`. */
  function LoadDict(s: string, p: nat, acc: map<string, Node>, last: Option<char>): (r: Result<(Node, nat)>)
    requires p <= |s|
    decreases |s| - p, 2
    ensures r.Success? ==> p <= r.value.1 <= |s| && r.value.0.Dict?
    ensures r.Success? ==> forall k :: k in acc ==> k in r.value.0.entries && r.value.0.entries[k] == acc[k]
  {
    var q := SkipSpaces(s, p);
    if q == |s| then
      if last == Some('}') then Success((Dict(acc), q)) else Failure(ParsingError(END_OF_ARRAY))
    else if s[q] == '}' then Success((Dict(acc), q + 1))
    else
      var entry :- LoadEntry(s, q);
      LoadDict(s, entry.3, if entry.0 in acc then acc else acc[entry.0 := entry.2], Some(entry.1))
  }

  /** `Load`: the document is the value read from the start of the text. */
  function Load(s: string): (r: Result<Node>)
  {
    var t := LoadNode(s, 0);
    if t.Failure? then Failure(t.error) else Success(t.value.0)
  }

  // ---------------------------------------------------------------------------
  // The backslash loop as written

  /** What the loop at the head of `LoadNode` works on: the stream position,
      the character last read into `c`, and whether a read has failed (a
      failed read leaves `c` as it was, and every later read fails too). */
  datatype EscapeLoopState = EscapeLoopState(pos: nat, c: char, failed: bool)

  /** One pass of the loop body as written: `input.get()` consumes one raw
      character, then `input >> c` reads the next one that is not white space. */
  function EscapeLoopStep(s: string, st: EscapeLoopState): (r: EscapeLoopState)
    requires st.pos <= |s|
    ensures r.pos <= |s|
    ensures st.failed ==> r == st
    ensures r.failed ==> r.c == st.c
  {
    if st.failed then st
    else if st.pos == |s| then st.(failed := true)
    else
      var q := SkipSpaces(s, st.pos + 1);
      if q == |s| then EscapeLoopState(q, st.c, true) else EscapeLoopState(q + 1, s[q], false)
  }

  /** The state after `n` more passes; the loop stops once `c` is not a
      backslash. */
  function EscapeLoop(s: string, st: EscapeLoopState, n: nat): (r: EscapeLoopState)
    requires st.pos <= |s|
    ensures r.pos <= |s|
    decreases n
  {
    if n == 0 || st.c != '\\' then st else EscapeLoop(s, EscapeLoopStep(s, st), n - 1)
  }

  lemma {:induction false} FailedLoopStaysPut(s: string, st: EscapeLoopState, n: nat)
    requires st.pos <= |s| && st.failed && st.c == '\\'
    ensures EscapeLoop(s, st, n) == st
  {
    if n > 0 {
      FailedLoopStaysPut(s, st, n - 1);
    }
  }

  /** The loop as written agrees with `SkipEscapes` where that succeeds, and
      never stops where `SkipEscapes` reports that the input ran out: after any
      number of passes `c` is still a backslash. */
  lemma {:induction false} EscapeLoopAsWritten(s: string, c: char, q: nat)
    requires q <= |s|
    ensures SkipEscapes(s, c, q).Success? ==>
      exists n: nat :: EscapeLoop(s, EscapeLoopState(q, c, false), n) ==
        EscapeLoopState(SkipEscapes(s, c, q).value.1, SkipEscapes(s, c, q).value.0, false)
    ensures SkipEscapes(s, c, q).Failure? ==>
      forall n: nat :: EscapeLoop(s, EscapeLoopState(q, c, false), n).c == '\\'
    decreases |s| - q
  {
    var st := EscapeLoopState(q, c, false);
    if c != '\\' {
      assert EscapeLoop(s, st, 0) == st;
    } else {
      var next := EscapeLoopStep(s, st);
      if next.failed {
        forall n: nat ensures EscapeLoop(s, st, n).c == '\\' {
          if n > 0 {
            FailedLoopStaysPut(s, next, n - 1);
          }
        }
      } else {
        EscapeLoopAsWritten(s, next.c, next.pos);
        if SkipEscapes(s, c, q).Success? {
          var m: nat :| EscapeLoop(s, next, m) ==
            EscapeLoopState(SkipEscapes(s, c, q).value.1, SkipEscapes(s, c, q).value.0, false);
          assert EscapeLoop(s, st, m + 1) == EscapeLoop(s, next, m);
        } else {
          forall n: nat ensures EscapeLoop(s, st, n).c == '\\' {
            if n > 0 {
              assert EscapeLoop(s, st, n) == EscapeLoop(s, next, n - 1);
            }
          }
        }
      }
    }
  }

  /** The input consisting of a lone backslash: the loop as written never
      stops, and `LoadNode` reports "Not valid json". */
  lemma {:induction false} LoneBackslash()
    ensures forall n: nat :: EscapeLoop("\\", EscapeLoopState(1, '\\', false), n).c == '\\'
    ensures LoadNode("\\", 0) == Failure(ParsingError(NOT_VALID))
  {
    EscapeLoopAsWritten("\\", '\\', 1);
    assert SkipSpaces("\\", 0) == 0;
  }

  // ---------------------------------------------------------------------------
  // Printing

  /** The parts separated by `", "`. */
  function Join(parts: seq<string>): (r: string)
    ensures parts == [] ==> r == ""
    ensures |parts| == 1 ==> r == parts[0]
  {
    if parts == [] then "" else parts[0] + JoinFrom(parts, 1)
  }

  /** `", "` in front of each part from the `k`-th on. */
  function JoinFrom(parts: seq<string>, k: nat): string
    requires k <= |parts|
    decreases |parts| - k
  {
    if k == |parts| then "" else ", " + parts[k] + JoinFrom(parts, k + 1)
  }

  /** A dictionary entry as printed: the key in quotes, not escaped. */
  function EntryText(key: string, value: string): string {
    "\"" + key + "\": " + value
  }

  /** A character a value may start with: not white space, not a backslash
      and not a separator. */
  predicate Opens(c: char) {
    !IsSpace(c) && c != '\\' && c != ',' && c != ']' && c != '}'
  }

  /** `PrintNode`: how a value is written. Arrays and dictionaries separate
      their elements with `", "`; dictionaries list their entries in key order.
      `number` is how the output stream writes a double. */
  function PrintNode(n: Node, number: real -> string): (r: string)
    ensures !n.Double? ==> |r| > 0 && Opens(r[0])
    decreases n, 2
  {
    match n
    case Null => "null"
    case Bool(b) => if b then "true" else "false"
    case Int(i) => IntToString(i)
    case Double(d) => number(d)
    case Str(v) => Quoted(v)
    case Array(items) => "[" + Join(ItemTexts(items, number)) + "]"
    case Dict(entries) => PrintDict(entries, number)
  }

  /** A dictionary: its entries in key order between braces. */
  function PrintDict(entries: map<string, Node>, number: real -> string): (r: string)
    ensures |r| > 0 && r[0] == '{'
    decreases Dict(entries), 1
  {
    var keys := SortSet(entries.Keys);
    assert forall i :: 0 <= i < |keys| ==> keys[i] in keys;
    "{" + Join(EntryTexts(entries, keys, number)) + "}"
  }

  /** The printed forms of the elements of an array. */
  function ItemTexts(items: seq<Node>, number: real -> string): (r: seq<string>)
    ensures |r| == |items| && forall k :: 0 <= k < |items| ==> r[k] == PrintNode(items[k], number)
    decreases items, 0
  {
    seq(|items|, k requires 0 <= k < |items| => PrintNode(items[k], number))
  }

  /** The printed forms of the entries of a dictionary, in the order of `keys`. */
  function EntryTexts(entries: map<string, Node>, keys: seq<string>, number: real -> string): (r: seq<string>)
    requires forall k :: 0 <= k < |keys| ==> keys[k] in entries
    ensures |r| == |keys|
    ensures forall k :: 0 <= k < |keys| ==> r[k] == EntryText(keys[k], PrintNode(entries[keys[k]], number))
    decreases Dict(entries), 0
  {
    seq(|keys|, k requires 0 <= k < |keys| => EntryText(keys[k], PrintNode(entries[keys[k]], number)))
  }

  // ---------------------------------------------------------------------------
  // Reading back what was printed

  /** `t` occurs in `s` at position `p`. */
  predicate TextAt(s: string, p: nat, t: string) {
    p + |t| <= |s| && forall k :: 0 <= k < |t| ==> s[p + k] == t[k]
  }

  lemma {:induction false} TextAtSplit(s: string, p: nat, a: string, b: string)
    ensures TextAt(s, p, a + b) <==> TextAt(s, p, a) && TextAt(s, p + |a|, b)
  {
    if TextAt(s, p, a) && TextAt(s, p + |a|, b) {
      forall k | 0 <= k < |a + b| ensures s[p + k] == (a + b)[k] {
        if k < |a| {
          assert s[p + k] == a[k];
        } else {
          assert s[p + |a| + (k - |a|)] == b[k - |a|];
        }
      }
      assert TextAt(s, p, a + b);
    }
    if TextAt(s, p, a + b) {
      forall k | 0 <= k < |a| ensures s[p + k] == a[k] {
        assert s[p + k] == (a + b)[k];
      }
      forall k | 0 <= k < |b| ensures s[p + |a| + k] == b[k] {
        assert s[p + (|a| + k)] == (a + b)[|a| + k];
      }
    }
  }

  /** What may follow a printed value inside a printed document. */
  predicate Follows(s: string, e: nat) {
    e == |s| || (e < |s| && (s[e] == ',' || s[e] == ']' || s[e] == '}'))
  }

  lemma {:induction false} SkipSpacesAt(s: string, p: nat)
    requires p < |s| && !IsSpace(s[p])
    ensures SkipSpaces(s, p) == p
  {
  }

  lemma {:induction false} SkipSpacesPast(s: string, p: nat)
    requires p < |s| && IsSpace(s[p])
    ensures SkipSpaces(s, p) == SkipSpaces(s, p + 1)
  {
  }

  lemma {:induction false} DigitsEndExact(s: string, q: nat, e: nat)
    requires q <= e <= |s| && (forall j :: q <= j < e ==> IsDigit(s[j])) && (e < |s| ==> !IsDigit(s[e]))
    ensures DigitsEnd(s, q) == e
    decreases e - q
  {
    if q < e {
      DigitsEndExact(s, q + 1, e);
    }
  }

  /** Decimal digits written at `p` end where they are followed by what may
      follow a value. */
  lemma {:induction false} DigitsEndText(s: string, p: nat, d: string)
    requires TextAt(s, p, d) && AllDigits(d) && Follows(s, p + |d|)
    ensures DigitsEnd(s, p) == p + |d|
  {
    forall j | p <= j < p + |d| ensures IsDigit(s[j]) {
      assert s[p + (j - p)] == d[j - p];
    }
    DigitsEndExact(s, p, p + |d|);
  }

  /** Decimal digits written at `p` have their own value. */
  lemma {:induction false} ValueBetweenText(s: string, p: nat, d: string)
    requires TextAt(s, p, d) && AllDigits(d)
    ensures ValueBetween(s, p, p + |d|) == DigitsValue(d)
    decreases |d|
  {
    if d != [] {
      var u := d[..|d| - 1];
      assert TextAt(s, p, u) && AllDigits(u) by {
        forall k | 0 <= k < |u| ensures s[p + k] == u[k] && IsDigit(u[k]) {
          assert u[k] == d[k];
        }
      }
      ValueBetweenText(s, p, u);
      assert s[p + (|d| - 1)] == d[|d| - 1];
    }
  }

  /** The printed digits of a natural number are one integer part. */
  lemma {:induction false} WholeEndPrinted(s: string, a: nat, n: nat)
    requires TextAt(s, a, NatToString(n)) && Follows(s, a + |NatToString(n)|)
    ensures WholeEnd(s, a) == Success(a + |NatToString(n)|)
    ensures ValueBetween(s, a, a + |NatToString(n)|) == n
  {
    var d := NatToString(n);
    assert s[a + 0] == d[0];
    if d[0] != '0' {
      DigitsEndText(s, a + 1, d[1..]) by {
        forall k | 0 <= k < |d[1..]| ensures s[a + 1 + k] == d[1..][k] && IsDigit(d[1..][k]) {
          assert s[a + (k + 1)] == d[k + 1];
        }
      }
    }
    ValueBetweenText(s, a, d);
    NatToStringValue(n);
  }

  /** The printed digits of an `int` are scanned as one token without fraction
      or exponent, whose integer part is that `int`. */
  lemma {:induction false} ScanPrintedInt(s: string, p: nat, e: nat, i: int)
    requires TextAt(s, p, IntToString(i)) && e == p + |IntToString(i)| && Follows(s, e)
    ensures ScanNumber(s, p) == Success((Numeral(true, i, i as real), e))
  {
    var n: nat := if i < 0 then -i else i;
    var d := NatToString(n);
    var a: nat := if i < 0 then p + 1 else p;
    if i < 0 {
      TextAtSplit(s, p, "-", d);
      assert s[p + 0] == "-"[0];
    } else {
      assert s[p + 0] == d[0];
    }
    WholeEndPrinted(s, a, n);
    assert FractionEnd(s, e) == Success(e);
    assert ExponentEnd(s, e) == Success(e);
    ScanWhole(s, p, a, e, i);
  }

  /** A token that is only an integer part, after an optional `-`, is scanned
      as that integer. */
  lemma {:induction false} ScanWhole(s: string, p: nat, a: nat, e: nat, i: int)
    requires i < 0 ==> p < |s| && s[p] == '-' && a == p + 1
    requires i >= 0 ==> a == p && p < |s| && s[p] != '-'
    requires a <= e <= |s| && WholeEnd(s, a) == Success(e) && ValueBetween(s, a, e) == (if i < 0 then -i else i)
    requires FractionEnd(s, e) == Success(e) && ExponentEnd(s, e) == Success(e)
    ensures ScanNumber(s, p) == Success((Numeral(true, i, i as real), e))
  {
  }

  /** The printed digits of an `int`, ending before `e` and followed by what may
      follow a value, are read back as that Int node. */
  lemma {:induction false} LoadPrintedInt(s: string, p: nat, e: nat, i: Int32)
    requires TextAt(s, p, IntToString(i)) && e == p + |IntToString(i)| && Follows(s, e)
    ensures LoadNumber(s, p) == Success((Int(i), e))
  {
    ScanPrintedInt(s, p, e, i);
  }

  /** A dictionary key the printer writes so that the parser reads it back:
      keys are printed without escaping. */
  predicate PlainKey(key: string) {
    forall k :: 0 <= k < |key| ==> key[k] != '"' && key[k] != '\\' && key[k] != '\n' && key[k] != '\r'
  }

  /** The values whose printed form the parser reads back: no doubles (how the
      stream writes a double is not part of this model), no string with a `'`
      and no dictionary key that would need escaping. */
  predicate Printable(n: Node) {
    match n
    case Null => true
    case Bool(_) => true
    case Int(_) => true
    case Double(_) => false
    case Str(v) => '\'' !in v
    case Array(items) => forall k :: 0 <= k < |items| ==> Printable(items[k])
    case Dict(entries) => forall key :: key in entries ==> PlainKey(key) && Printable(entries[key])
  }


  /** `LoadNode` at a character that opens a value. */
  lemma {:induction false} LoadNodeAt(s: string, p: nat)
    requires p < |s| && !IsSpace(s[p]) && s[p] != '\\'
    ensures LoadNode(s, p) == LoadValue(s, p)
    ensures LoadNode(s, p) ==
      if s[p] == '[' then LoadArray(s, p + 1, [])
      else if s[p] == '{' then LoadDict(s, p + 1, map[], None)
      else LoadScalar(s, s[p], p + 1)
  {
    SkipSpacesAt(s, p);
  }

  /** White space before a value is skipped. */
  lemma {:induction false} LoadNodeSpace(s: string, p: nat)
    requires p < |s| && IsSpace(s[p])
    ensures LoadNode(s, p) == LoadNode(s, p + 1)
  {
    SkipSpacesPast(s, p);
  }

  /** The characters of a plain key, then a quote, read as that key. */
  lemma {:induction false} ParseRaw(s: string, i: nat, key: string, k: nat)
    requires PlainKey(key) && k <= |key| && TextAt(s, i, key)
    requires i + |key| < |s| && s[i + |key|] == '"'
    ensures ParseString(s, i + k) == Success((Suffix(key, k), i + |key| + 1))
    decreases |key| - k
  {
    if k < |key| {
      assert s[i + k] == key[k];
      ParseRaw(s, i, key, k + 1);
    }
  }

  lemma {:induction false} ReadCharAt(s: string, q: nat)
    requires q < |s| && !IsSpace(s[q])
    ensures ReadChar(s, q) == Some((s[q], q + 1))
  {
    SkipSpacesAt(s, q);
  }

  /** Three characters written at `q` are read back by three `>>`. */
  lemma {:induction false} ReadThree(s: string, q: nat, w: string)
    requires |w| == 3 && TextAt(s, q, w) && !IsSpace(w[0]) && !IsSpace(w[1]) && !IsSpace(w[2])
    ensures ReadChar(s, q) == Some((w[0], q + 1))
    ensures ReadChar(s, q + 1) == Some((w[1], q + 2))
    ensures ReadChar(s, q + 2) == Some((w[2], q + 3))
  {
    assert s[q + 0] == w[0] && s[q + 1] == w[1] && s[q + 2] == w[2];
    ReadCharAt(s, q);
    ReadCharAt(s, q + 1);
    ReadCharAt(s, q + 2);
  }

  lemma {:induction false} LoadNullText(s: string, q: nat)
    requires TextAt(s, q, "ull")
    ensures LoadNull(s, q) == Success((Null, q + 3))
  {
    ReadThree(s, q, "ull");
  }

  lemma {:induction false} LoadTrueText(s: string, q: nat)
    requires TextAt(s, q, "rue")
    ensures LoadBool(s, q) == Success((Bool(true), q + 3))
  {
    ReadThree(s, q, "rue");
  }

  lemma {:induction false} LoadFalseText(s: string, q: nat)
    requires TextAt(s, q, "alse")
    ensures LoadBool(s, q) == Success((Bool(false), q + 4))
  {
    assert "alse" == "als" + "e";
    TextAtSplit(s, q, "als", "e");
    ReadThree(s, q, "als");
    assert s[q + 3 + 0] == "e"[0];
    ReadCharAt(s, q + 3);
    assert ['a', 'l', 's'] != "rue" && ['a', 'l', 's', 'e'] == "alse";
  }

  /** A word written at `p` that starts with the letter `c`. */
  lemma {:induction false} WordHead(s: string, p: nat, c: char, rest: string)
    requires TextAt(s, p, [c] + rest) && !IsSpace(c) && c != '\\' && c != '[' && c != '{'
    ensures LoadNode(s, p) == LoadScalar(s, c, p + 1) && TextAt(s, p + 1, rest)
  {
    TextAtSplit(s, p, [c], rest);
    assert s[p + 0] == [c][0];
    LoadNodeAt(s, p);
  }

  lemma {:induction false} LoadPrintedNull(s: string, p: nat, e: nat)
    requires TextAt(s, p, "null") && e == p + 4
    ensures LoadNode(s, p) == Success((Null, e))
  {
    assert "null" == ['n'] + "ull";
    WordHead(s, p, 'n', "ull");
    LoadNullText(s, p + 1);
  }

  lemma {:induction false} LoadPrintedTrue(s: string, p: nat, e: nat)
    requires TextAt(s, p, "true") && e == p + 4
    ensures LoadNode(s, p) == Success((Bool(true), e))
  {
    assert "true" == ['t'] + "rue";
    WordHead(s, p, 't', "rue");
    LoadTrueText(s, p + 1);
  }

  lemma {:induction false} LoadPrintedFalse(s: string, p: nat, e: nat)
    requires TextAt(s, p, "false") && e == p + 5
    ensures LoadNode(s, p) == Success((Bool(false), e))
  {
    assert "false" == ['f'] + "alse";
    WordHead(s, p, 'f', "alse");
    LoadFalseText(s, p + 1);
  }

  /** A quote opens a string. */
  lemma {:induction false} LoadNodeStr(s: string, p: nat, v: string, e: nat)
    requires p < |s| && s[p] == '"' && ParseString(s, p + 1) == Success((v, e))
    ensures LoadNode(s, p) == Success((Str(v), e))
  {
    LoadNodeAt(s, p);
  }

  lemma {:induction false} LoadPrintedStr(s: string, p: nat, e: nat, v: string)
    requires '\'' !in v && TextAt(s, p, Quoted(v)) && e == p + |Quoted(v)|
    ensures LoadNode(s, p) == Success((Str(v), e))
  {
    assert Quoted(v) == "\"" + (Escape(v) + "\"");
    TextAtSplit(s, p, "\"", Escape(v) + "\"");
    assert s[p + 0] == "\""[0];
    ParseEscaped(s, p + 1, v, 0);
    SuffixIsDrop(v, 0);
    assert v[0..] == v;
    LoadNodeStr(s, p, v, e);
  }

  /** A digit or a minus sign opens a number. */
  lemma {:induction false} LoadNodeNumber(s: string, p: nat, x: Node, e: nat)
    requires p < |s| && (IsDigit(s[p]) || s[p] == '-') && LoadNumber(s, p) == Success((x, e))
    ensures LoadNode(s, p) == Success((x, e))
  {
    LoadNodeAt(s, p);
    LoadScalarNumber(s, s[p], p + 1);
  }

  lemma {:induction false} LoadScalarNumber(s: string, c: char, q: nat)
    requires 0 < q <= |s| && (IsDigit(c) || c == '-')
    ensures LoadScalar(s, c, q) == LoadNumber(s, q - 1)
  {
  }

  lemma {:induction false} LoadPrintedNumber(s: string, p: nat, e: nat, i: Int32)
    requires TextAt(s, p, IntToString(i)) && e == p + |IntToString(i)| && Follows(s, e)
    ensures LoadNode(s, p) == Success((Int(i), e))
  {
    var v: int := i;
    var magnitude: nat := if v < 0 then -v else v;
    assert IsDigit(NatToString(magnitude)[0]);
    assert s[p] == IntToString(i)[0];
    LoadPrintedInt(s, p, e, i);
    LoadNodeNumber(s, p, Int(i), e);
  }

  lemma {:induction false} LoadArrayClose(s: string, p: nat, acc: seq<Node>)
    requires p < |s| && s[p] == ']'
    ensures LoadArray(s, p, acc) == Success((Array(acc), p + 1))
  {
    SkipSpacesAt(s, p);
  }

  /** One element of an array: a `,` before it is dropped, any other first
      character belongs to the element. */
  lemma {:induction false} LoadArrayItem(s: string, p: nat, acc: seq<Node>, start: nat, x: Node, m: nat)
    requires p < |s| && !IsSpace(s[p]) && s[p] != ']'
    requires start == if s[p] != ',' then p else p + 1
    requires LoadNode(s, start) == Success((x, m))
    ensures LoadArray(s, p, acc) == LoadArray(s, m, acc + [x])
  {
    SkipSpacesAt(s, p);
  }

  lemma {:induction false} LoadDictClose(s: string, p: nat, acc: map<string, Node>, last: Option<char>)
    requires p < |s| && s[p] == '}'
    ensures LoadDict(s, p, acc, last) == Success((Dict(acc), p + 1))
  {
    SkipSpacesAt(s, p);
  }

  /** One entry of a dictionary: the key read from `keyStart`, an unchecked
      character at `colon`, and the value after it. */
  lemma {:induction false} LoadDictEntry(s: string, p: nat, acc: map<string, Node>, last: Option<char>,
                      key: string, c: char, value: Node, m: nat, next: map<string, Node>)
    requires p < |s| && !IsSpace(s[p]) && s[p] != '}'
    requires LoadEntry(s, p) == Success((key, c, value, m))
    requires next == if key in acc then acc else acc[key := value]
    ensures LoadDict(s, p, acc, last) == LoadDict(s, m, next, Some(c))
  {
    SkipSpacesAt(s, p);
  }

  lemma {:induction false} ReadEntry(s: string, p: nat, key: string, colon: nat, value: Node, m: nat)
    requires p < |s|
    requires ParseString(s, KeyStart(s, p)) == Success((key, colon))
    requires colon < |s| && !IsSpace(s[colon])
    requires LoadNode(s, colon + 1) == Success((value, m))
    ensures LoadEntry(s, p) == Success((key, s[colon], value, m))
  {
    SkipSpacesAt(s, colon);
  }

  lemma {:induction false} TextAt3(s: string, p: nat, a: string, b: string, c: string)
    requires TextAt(s, p, a + b + c)
    ensures TextAt(s, p, a) && TextAt(s, p + |a|, b) && TextAt(s, p + |a| + |b|, c)
  {
    TextAtSplit(s, p, a + b, c);
    TextAtSplit(s, p, a, b);
  }

  /** `t` is written at `p`, ends before `e` and is followed by what may follow
      a value. */
  predicate PrintedAt(s: string, p: nat, e: nat, t: string) {
    TextAt(s, p, t) && e == p + |t| && Follows(s, e)
  }

  /** The separator `", "` is written at `q`. */
  predicate Comma(s: string, q: nat) {
    q + 1 < |s| && s[q] == ',' && s[q + 1] == ' '
  }

  /** The text of the elements from the `k`-th on, each after `", "`, then the
      closing bracket: either just the bracket, or `", "`, the `k`-th element
      and the text of the rest. */
  lemma {:induction false} RestText(s: string, q: nat, e: nat, parts: seq<string>, k: nat, close: char)
    requires k <= |parts| && (close == ']' || close == '}')
    requires PrintedAt(s, q, e, JoinFrom(parts, k) + [close])
    ensures k == |parts| ==> q < |s| && s[q] == close && e == q + 1
    ensures k < |parts| ==> Comma(s, q) && PrintedAt(s, q + 2, q + 2 + |parts[k]|, parts[k])
    ensures k < |parts| ==> PrintedAt(s, q + 2 + |parts[k]|, e, JoinFrom(parts, k + 1) + [close])
  {
    if k < |parts| {
      var rest := JoinFrom(parts, k + 1) + [close];
      assert JoinFrom(parts, k) + [close] == ", " + parts[k] + rest;
      TextAt3(s, q, ", ", parts[k], rest);
      var m := q + 2 + |parts[k]|;
      assert s[q + 0] == ", "[0] && s[q + 1] == ", "[1];
      assert s[m + 0] == rest[0];
    } else {
      assert s[q + 0] == (JoinFrom(parts, k) + [close])[0];
    }
  }

  /** The width of what separates the `k`-th element from the one before it:
      nothing before the first, `", "` before the others. */
  function Sep(k: nat): nat {
    if k == 0 then 0 else 2
  }

  /** The elements of a list from the `k`-th on, each but the first after
      `", "` and each printed where it may be read back, then `close` ending
      before `e`. */
  predicate ListAt(s: string, q: nat, e: nat, parts: seq<string>, k: nat, close: char)
    requires k <= |parts|
    decreases |parts| - k
  {
    if k == |parts| then q < |s| && s[q] == close && e == q + 1
    else
      (k > 0 ==> Comma(s, q)) && PrintedAt(s, q + Sep(k), q + Sep(k) + |parts[k]|, parts[k]) &&
      ListAt(s, q + Sep(k) + |parts[k]|, e, parts, k + 1, close)
  }

  lemma {:induction false} RestListAt(s: string, q: nat, e: nat, parts: seq<string>, k: nat, close: char)
    requires 0 < k <= |parts| && (close == ']' || close == '}')
    requires PrintedAt(s, q, e, JoinFrom(parts, k) + [close])
    ensures ListAt(s, q, e, parts, k, close)
    decreases |parts| - k
  {
    RestText(s, q, e, parts, k, close);
    if k < |parts| {
      RestListAt(s, q + 2 + |parts[k]|, e, parts, k + 1, close);
    }
  }

  /** The text of a bracketed list: the opening bracket, then the elements. */
  lemma {:induction false} ListText(s: string, p: nat, e: nat, parts: seq<string>, open: char, close: char)
    requires close == ']' || close == '}'
    requires PrintedAt(s, p, e, [open] + Join(parts) + [close])
    ensures p < |s| && s[p] == open && ListAt(s, p + 1, e, parts, 0, close)
  {
    if parts != [] {
      var rest := JoinFrom(parts, 1) + [close];
      assert [open] + Join(parts) + [close] == [open] + parts[0] + rest;
      TextAt3(s, p, [open], parts[0], rest);
      assert s[p + 1 + |parts[0]| + 0] == rest[0];
      RestListAt(s, p + 1 + |parts[0]|, e, parts, 1, close);
    } else {
      assert [open] + Join(parts) + [close] == [open, close];
      assert s[p + 1] == ([open] + Join(parts) + [close])[1];
    }
    assert s[p + 0] == ([open] + Join(parts) + [close])[0];
  }

  /** A printed value other than a double starts with a character that opens a
      value. */
  lemma {:induction false} OpensAt(s: string, q: nat, m: nat, n: Node, number: real -> string)
    requires !n.Double? && PrintedAt(s, q, m, PrintNode(n, number))
    ensures q < |s| && Opens(s[q])
  {
    assert s[q + 0] == PrintNode(n, number)[0];
  }

  /** The `k`-th element, after `", "` unless it is the first, then the rest of
      the array. */
  lemma {:induction false} LoadArrayStep(s: string, q: nat, items: seq<Node>, k: nat, m: nat, r: Result<(Node, nat)>)
    requires k < |items| && (k > 0 ==> Comma(s, q)) && (k == 0 ==> q < |s| && Opens(s[q]))
    requires LoadNode(s, q + Sep(k)) == Success((items[k], m))
    requires LoadArray(s, m, items[..k + 1]) == r
    ensures LoadArray(s, q, items[..k]) == r
  {
    assert items[..k] + [items[k]] == items[..k + 1];
    if k > 0 {
      LoadNodeSpace(s, q + 1);
      LoadArrayItem(s, q, items[..k], q + 1, items[k], m);
    } else {
      LoadArrayItem(s, q, items[..k], q, items[k], m);
    }
  }

  /** The elements of a printed array from the `k`-th on, then `]`, are read
      back after the first `k` elements. */
  lemma {:induction false} LoadPrintedItems(n: Node, number: real -> string, s: string, q: nat, e: nat, k: nat)
    requires n.Array? && Printable(n) && k <= |n.items|
    requires ListAt(s, q, e, ItemTexts(n.items, number), k, ']')
    ensures LoadArray(s, q, n.items[..k]) == Success((n, e))
    decreases n, |n.items| - k
  {
    var items := n.items;
    var parts := ItemTexts(items, number);
    if k == |items| {
      assert items[..k] == items;
      LoadArrayClose(s, q, items);
    } else {
      var m := q + Sep(k) + |parts[k]|;
      if k == 0 {
        OpensAt(s, q, m, items[k], number);
      }
      LoadPrinted(items[k], number, s, q + Sep(k), m);
      LoadPrintedItems(n, number, s, m, e, k + 1);
      LoadArrayStep(s, q, items, k, m, Success((n, e)));
    }
  }

  /** A printed array, followed by what may follow a value, is read back. */
  lemma {:induction false} LoadPrintedArray(n: Node, number: real -> string, s: string, p: nat, e: nat)
    requires n.Array? && Printable(n) && PrintedAt(s, p, e, PrintNode(n, number))
    ensures LoadNode(s, p) == Success((n, e))
    decreases n, |n.items| + 1
  {
    ListText(s, p, e, ItemTexts(n.items, number), '[', ']');
    LoadNodeAt(s, p);
    LoadPrintedItems(n, number, s, p + 1, e, 0);
    assert n.items[..0] == [];
  }

  /** `": "` is written at `c`. */
  predicate Colon(s: string, c: nat) {
    c + 1 < |s| && s[c] == ':' && s[c + 1] == ' '
  }

  /** The printed form of a dictionary entry at `a`: the key in quotes, `:`, a
      space and the value. */
  lemma {:induction false} EntryTextAt(s: string, a: nat, e: nat, key: string, value: string)
    requires PrintedAt(s, a, e, EntryText(key, value))
    ensures TextAt(s, a + 1, key) && a + 1 + |key| < |s| && s[a] == '"' && s[a + 1 + |key|] == '"'
    ensures Colon(s, a + 2 + |key|)
    ensures PrintedAt(s, a + 4 + |key|, e, value)
  {
    assert EntryText(key, value) == "\"" + key + ("\": " + value);
    TextAt3(s, a, "\"", key, "\": " + value);
    var c := a + 1 + |key|;
    TextAtSplit(s, c, "\": ", value);
    assert s[a + 0] == "\""[0];
    assert s[c + 0] == "\": "[0] && s[c + 1] == "\": "[1] && s[c + 2] == "\": "[2];
  }

  /** The key of a printed entry at `a` is read back up to its closing quote. */
  lemma {:induction false} EntryKeyRead(s: string, a: nat, e: nat, key: string, value: string)
    requires PlainKey(key) && PrintedAt(s, a, e, EntryText(key, value))
    ensures s[a] == '"' && ParseString(s, a + 1) == Success((key, a + 2 + |key|))
    ensures Colon(s, a + 2 + |key|) && PrintedAt(s, a + 4 + |key|, e, value)
  {
    EntryTextAt(s, a, e, key, value);
    ParseRaw(s, a + 1, key, 0);
    SuffixIsDrop(key, 0);
    assert key[0..] == key;
  }

  /** After `", "`, the key of the next entry starts past its opening quote. */
  lemma {:induction false} KeyStartComma(s: string, q: nat)
    requires Comma(s, q) && q + 2 < |s| && s[q + 2] == '"'
    ensures KeyStart(s, q) == q + 3
  {
    SkipSpacesPast(s, q + 1);
    SkipSpacesAt(s, q + 2);
  }

  /** `keys` lists every key of `entries` and nothing else. */
  predicate KeysOf(entries: map<string, Node>, keys: seq<string>) {
    (forall i :: 0 <= i < |keys| ==> keys[i] in entries) && (forall j :: j in entries ==> j in keys)
  }

  /** `acc` holds entries of `entries` only, with their values, and at least
      the first `k` keys. */
  predicate Agrees(acc: map<string, Node>, entries: map<string, Node>, keys: seq<string>, k: nat)
    requires k <= |keys|
  {
    (forall j :: j in acc ==> j in entries && acc[j] == entries[j]) &&
    (forall i :: 0 <= i < k ==> keys[i] in acc)
  }

  /** Adding the `k`-th entry the way `LoadDict` does keeps the agreement. */
  lemma {:induction false} AgreesNext(acc: map<string, Node>, entries: map<string, Node>, keys: seq<string>, k: nat)
    requires k < |keys| && keys[k] in entries && Agrees(acc, entries, keys, k)
    ensures var key := keys[k];
      Agrees(if key in acc then acc else acc[key := entries[key]], entries, keys, k + 1)
  {
  }

  /** Once every key of the dictionary is in, the entries read are the
      dictionary. */
  lemma {:induction false} AgreesAll(acc: map<string, Node>, entries: map<string, Node>, keys: seq<string>)
    requires KeysOf(entries, keys) && Agrees(acc, entries, keys, |keys|)
    ensures acc == entries
  {
    forall j | j in entries ensures j in acc {
      var i :| 0 <= i < |keys| && keys[i] == j;
    }
    assert acc.Keys == entries.Keys;
  }

  /** The `k`-th entry of a printed dictionary, after `", "` unless it is the
      first. */
  lemma {:induction false} LoadPrintedEntryAt(n: Node, number: real -> string, keys: seq<string>,
                                              s: string, q: nat, m: nat, k: nat)
    requires n.Dict? && Printable(n) && KeysOf(n.entries, keys) && k < |keys|
    requires (k > 0 ==> Comma(s, q)) && PrintedAt(s, q + Sep(k), m, EntryTexts(n.entries, keys, number)[k])
    ensures q < |s| && !IsSpace(s[q]) && s[q] != '}'
    ensures LoadEntry(s, q) == Success((keys[k], ':', n.entries[keys[k]], m))
    decreases n, 0
  {
    var key := keys[k];
    var v := n.entries[key];
    var a := q + Sep(k);
    var c := a + 2 + |key|;
    EntryValueAt(n, number, keys, s, a, m, k);
    LoadPrinted(v, number, s, c + 2, m);
    EntryLoads(s, q, k, a, c, m, key, v);
  }

  /** The `k`-th entry printed at `a`: its key is read back, then a colon,
      and its value is printed after them. */
  lemma EntryValueAt(n: Node, number: real -> string, keys: seq<string>, s: string, a: nat, m: nat, k: nat)
    requires n.Dict? && Printable(n) && KeysOf(n.entries, keys) && k < |keys|
    requires PrintedAt(s, a, m, EntryTexts(n.entries, keys, number)[k])
    ensures n.entries[keys[k]] < n && Printable(n.entries[keys[k]])
    ensures s[a] == '"' && ParseString(s, a + 1) == Success((keys[k], a + 2 + |keys[k]|))
    ensures Colon(s, a + 2 + |keys[k]|) && PrintedAt(s, a + 2 + |keys[k]| + 2, m, PrintNode(n.entries[keys[k]], number))
  {
    var key := keys[k];
    var text := PrintNode(n.entries[key], number);
    assert EntryTexts(n.entries, keys, number)[k] == EntryText(key, text);
    EntryKeyRead(s, a, m, key, text);
  }

  /** An entry whose quoted key starts at `a`, which is `q` or just past
      `", "` at `q`, and whose value is read back, is read back as an entry. */
  lemma {:induction false} EntryLoads(s: string, q: nat, k: nat, a: nat, c: nat, m: nat, key: string, v: Node)
    requires a == q + Sep(k) && (k > 0 ==> Comma(s, q))
    requires a < |s| && s[a] == '"' && ParseString(s, a + 1) == Success((key, c)) && Colon(s, c)
    requires LoadNode(s, c + 2) == Success((v, m))
    ensures q < |s| && !IsSpace(s[q]) && s[q] != '}'
    ensures LoadEntry(s, q) == Success((key, ':', v, m))
  {
    EntryStart(s, q, k, a, c);
    LoadNodeSpace(s, c + 1);
    ReadEntry(s, q, key, c, v, m);
  }

  /** Where the entry's key is read from, and the space after its colon. */
  lemma {:induction false} EntryStart(s: string, q: nat, k: nat, a: nat, c: nat)
    requires a == q + Sep(k) && (k > 0 ==> Comma(s, q))
    requires a < |s| && s[a] == '"' && Colon(s, c)
    ensures q < |s| && !IsSpace(s[q]) && s[q] != '}'
    ensures KeyStart(s, q) == a + 1
    ensures c + 1 < |s| && IsSpace(s[c + 1])
  {
    if k > 0 {
      KeyStartComma(s, q);
    }
  }

  /** The entries of a printed dictionary from the `k`-th on, then `}`, are
      read back after the first `k` entries. */
  lemma {:induction false} LoadPrintedEntries(n: Node, number: real -> string, keys: seq<string>,
                                              s: string, q: nat, e: nat, k: nat,
                                              acc: map<string, Node>, last: Option<char>)
    requires n.Dict? && Printable(n) && KeysOf(n.entries, keys) && k <= |keys|
    requires Agrees(acc, n.entries, keys, k) && last == if k == 0 then None else Some(':')
    requires ListAt(s, q, e, EntryTexts(n.entries, keys, number), k, '}')
    ensures LoadDict(s, q, acc, last) == Success((n, e))
    decreases n, 1, |keys| - k
  {
    if k == |keys| {
      AgreesAll(acc, n.entries, keys);
      LoadDictClose(s, q, acc, last);
    } else {
      var key := keys[k];
      var m := q + Sep(k) + |EntryTexts(n.entries, keys, number)[k]|;
      LoadPrintedEntryAt(n, number, keys, s, q, m, k);
      var next := if key in acc then acc else acc[key := n.entries[key]];
      AgreesNext(acc, n.entries, keys, k);
      LoadPrintedEntries(n, number, keys, s, m, e, k + 1, next, Some(':'));
      LoadDictEntry(s, q, acc, last, key, ':', n.entries[key], m, next);
    }
  }

  /** The printed form of a dictionary: its entries in key order between
      braces. */
  lemma {:induction false} DictText(n: Node, number: real -> string, s: string, p: nat, e: nat)
    requires n.Dict? && PrintedAt(s, p, e, PrintNode(n, number))
    ensures KeysOf(n.entries, SortSet(n.entries.Keys))
    ensures PrintedAt(s, p, e, "{" + Join(EntryTexts(n.entries, SortSet(n.entries.Keys), number)) + "}")
  {
    var keys := SortSet(n.entries.Keys);
    assert forall i :: 0 <= i < |keys| ==> keys[i] in keys;
    assert PrintNode(n, number) == PrintDict(n.entries, number);
  }

  /** A printed dictionary, followed by what may follow a value, is read back. */
  lemma {:induction false} LoadPrintedDict(n: Node, number: real -> string, s: string, p: nat, e: nat)
    requires n.Dict? && Printable(n) && PrintedAt(s, p, e, PrintNode(n, number))
    ensures LoadNode(s, p) == Success((n, e))
    decreases n, 2
  {
    DictText(n, number, s, p, e);
    var keys := SortSet(n.entries.Keys);
    ListText(s, p, e, EntryTexts(n.entries, keys, number), '{', '}');
    LoadNodeAt(s, p);
    LoadPrintedEntries(n, number, keys, s, p + 1, e, 0, map[], None);
  }

  /** Reading back a printed value: the value printed at `p`, followed by the
      end of the text or by `,`, `]` or `}`, is read back as the same value and
      the parser stops right after it. */
  lemma {:induction false} LoadPrinted(n: Node, number: real -> string, s: string, p: nat, e: nat)
    requires Printable(n) && PrintedAt(s, p, e, PrintNode(n, number))
    ensures LoadNode(s, p) == Success((n, e))
    decreases n
  {
    match n
    case Null => LoadPrintedNull(s, p, e);
    case Bool(b) =>
      if b {
        LoadPrintedTrue(s, p, e);
      } else {
        LoadPrintedFalse(s, p, e);
      }
    case Int(i) => LoadPrintedNumber(s, p, e, i);
    case Str(v) => LoadPrintedStr(s, p, e, v);
    case Array(_) => LoadPrintedArray(n, number, s, p, e);
    case Dict(_) => LoadPrintedDict(n, number, s, p, e);
  }

  /** Printing a document and loading the text back gives the document, for
      every value the printer writes in a form the parser reads. */
  lemma {:induction false} PrintThenLoad(n: Node, number: real -> string)
    requires Printable(n)
    ensures Load(PrintNode(n, number)) == Success(n)
  {
    var s := PrintNode(n, number);
    assert TextAt(s, 0, s) by {
      forall k | 0 <= k < |s| ensures s[0 + k] == s[k] {
      }
    }
    LoadPrinted(n, number, s, 0, |s|);
  }

  /** The value the printer as written actually writes for a node: the free
      `PrintValue` overloads have no `int` or `double` case, so a number is
      converted to `bool` and printed as `true` exactly when it is not zero.
      Elements of arrays and dictionaries go through the same overloads. */
  function NumbersAsBools(n: Node): (r: Node)
    ensures !r.Int? && !r.Double?
    ensures n.Int? ==> r == Bool(n.i != 0)
    ensures n.Double? ==> r == Bool(n.d != 0.0)
    ensures n.Array? ==> r.Array? && |r.items| == |n.items|
    ensures n.Dict? ==> r.Dict? && r.entries.Keys == n.entries.Keys
    ensures !n.Int? && !n.Double? && !n.Array? && !n.Dict? ==> r == n
    decreases n
  {
    match n
    case Int(i) => Bool(i != 0)
    case Double(d) => Bool(d != 0.0)
    case Array(items) => Array(seq(|items|, k requires 0 <= k < |items| => NumbersAsBools(items[k])))
    case Dict(entries) => Dict(map key | key in entries :: NumbersAsBools(entries[key]))
    case _ => n
  }

  /** `PrintNode` as written: every number in the document is printed as
      `true` or `false`. */
  function PrintNodeAsWritten(n: Node, number: real -> string): (r: string)
    ensures |r| > 0 && Opens(r[0])
    ensures n.Int? ==> r == (if n.i == 0 then "false" else "true")
  {
    PrintNode(NumbersAsBools(n), number)
  }

  /** Loading what the printer as written writes gives back the document with
      each number replaced by whether it is non-zero. */
  lemma {:induction false} PrintedAsWrittenLoads(n: Node, number: real -> string)
    requires Printable(NumbersAsBools(n))
    ensures Load(PrintNodeAsWritten(n, number)) == Success(NumbersAsBools(n))
  {
    PrintThenLoad(NumbersAsBools(n), number);
  }

  /** The round trip breaks as written: the integer 7 is read back as `true`
      and 0 as `false`, while the corrected printer gives back the integer. */
  lemma {:induction false} IntPrintsAsBool(number: real -> string)
    ensures Load(PrintNodeAsWritten(Int(7), number)) == Success(Bool(true))
    ensures Load(PrintNodeAsWritten(Int(0), number)) == Success(Bool(false))
    ensures Load(PrintNode(Int(7), number)) == Success(Int(7))
  {
    PrintedAsWrittenLoads(Int(7), number);
    PrintedAsWrittenLoads(Int(0), number);
    PrintThenLoad(Int(7), number);
  }
}
