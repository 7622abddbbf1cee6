/** Printing JSON so that it can stand inside markup, and reading it back with RFC 8259. Text is compact:
    there is no insignificant whitespace. */
module MarkupSafeJson {
  import opened Options

  /** Members keep their order; a number is its text. */
  datatype Json =
    | Null
    | Bool(b: bool)
    | Number(text: string)
    | String(s: string)
    | Array(elements: seq<Json>)
    | Object(members: seq<(string, Json)>)

  /******* Printing: json.dumps with ensure_ascii=False and compact separators *******/

  function HexDigit(n: nat): char
    requires n < 16
  {
    if n < 10 then '0' + n as char else 'a' + (n - 10) as char
  }

  function Quoted(c: char): string {
    if c == '\"' then "\\\""
    else if c == '\\' then "\\\\"
    else if c == '\n' then "\\n"
    else if c == '\r' then "\\r"
    else if c == '\t' then "\\t"
    else if c as int == 12 then "\\f"
    else if c as int == 8 then "\\b"
    else if c as int < 32 then "\\u00" + [HexDigit(c as int / 16), HexDigit(c as int % 16)]
    else [c]
  }

  function Body(s: string): string {
    if s == "" then "" else Quoted(s[0]) + Body(s[1..])
  }

  function PrintString(s: string): string {
    "\"" + Body(s) + "\""
  }

  function Print(v: Json): string
    decreases v, 1, 0
  {
    match v
    case Null => "null"
    case Bool(b) => if b then "true" else "false"
    case Number(text) => text
    case String(s) => PrintString(s)
    case Array(elements) => if elements == [] then "[]" else "[" + PrintElements(v, 0) + "]"
    case Object(members) => if members == [] then "{}" else "{" + PrintMembers(v, 0) + "}"
  }

  /** The elements from `i` on, with commas between them. */
  function PrintElements(v: Json, i: nat): string
    requires v.Array? && i < |v.elements|
    decreases v, 0, |v.elements| - i
  {
    Print(v.elements[i]) + if i + 1 < |v.elements| then "," + PrintElements(v, i + 1) else ""
  }

  function PrintMember(v: Json, i: nat): string
    requires v.Object? && i < |v.members|
    decreases v, 0, 0
  {
    PrintString(v.members[i].0) + ":" + Print(v.members[i].1)
  }

  function PrintMembers(v: Json, i: nat): string
    requires v.Object? && i < |v.members|
    decreases v, 0, |v.members| - i
  {
    PrintMember(v, i) + if i + 1 < |v.members| then "," + PrintMembers(v, i + 1) else ""
  }

  /******* Escaping markup characters *******/

  /** `str.replace` of one character. */
  function Replace(s: string, c: char, sub: string): string {
    if s == "" then "" else (if s[0] == c then sub else [s[0]]) + Replace(s[1..], c, sub)
  }

  /** The three replacements, in the order of `_plan_snapshot`. */
  function Escaped(s: string): string {
    Replace(Replace(Replace(s, '&', "\\u0026"), '<', "\\u003c"), '>', "\\u003e")
  }

  function SafeChar(c: char): string {
    if c == '&' then "\\u0026" else if c == '<' then "\\u003c" else if c == '>' then "\\u003e" else [c]
  }

  /** All three at once. */
  function Safe(s: string): string {
    if s == "" then "" else SafeChar(s[0]) + Safe(s[1..])
  }

  lemma Associative(a: string, b: string, c: string)
    ensures (a + b) + c == a + (b + c)
  {
  }

  lemma {:induction false} ReplaceAppend(a: string, b: string, c: char, sub: string)
    ensures Replace(a + b, c, sub) == Replace(a, c, sub) + Replace(b, c, sub)
  {
    if a == "" {
      assert a + b == b;
    } else {
      ReplaceAppend(a[1..], b, c, sub);
      assert (a + b)[1..] == a[1..] + b;
      Associative(if a[0] == c then sub else [a[0]], Replace(a[1..], c, sub), Replace(b, c, sub));
    }
  }

  lemma ReplaceOne(d: char, c: char, sub: string)
    ensures Replace([d], c, sub) == if d == c then sub else [d]
  {
    assert [d][1..] == "";
    assert Replace("", c, sub) == "";
  }

  lemma {:induction false} ReplaceAbsent(s: string, c: char, sub: string)
    requires c !in s
    ensures Replace(s, c, sub) == s
  {
    if s != "" {
      ReplaceAbsent(s[1..], c, sub);
    }
  }

  lemma SafeCons(c: char, s: string)
    ensures Safe([c] + s) == SafeChar(c) + Safe(s)
  {
    assert ([c] + s)[1..] == s;
  }

  lemma {:induction false} SafeAppend(a: string, b: string)
    ensures Safe(a + b) == Safe(a) + Safe(b)
  {
    if a == "" {
      assert a + b == b;
    } else {
      SafeAppend(a[1..], b);
      SafeCons(a[0], a[1..]);
      SafeCons(a[0], a[1..] + b);
      Associative([a[0]], a[1..], b);
      assert [a[0]] + a[1..] == a;
      Associative(SafeChar(a[0]), Safe(a[1..]), Safe(b));
    }
  }

  lemma EscapedChar(c: char)
    ensures Escaped([c]) == SafeChar(c)
  {
    ReplaceOne(c, '&', "\\u0026");
    if c == '&' {
      ReplaceAbsent("\\u0026", '<', "\\u003c");
      ReplaceAbsent("\\u0026", '>', "\\u003e");
    } else {
      ReplaceOne(c, '<', "\\u003c");
      if c == '<' {
        ReplaceAbsent("\\u003c", '>', "\\u003e");
      } else {
        ReplaceOne(c, '>', "\\u003e");
      }
    }
  }

  /** Replacing one after the other is replacing all at once: no replacement feeds the next. */
  lemma {:induction false} EscapedIsSafe(s: string)
    ensures Escaped(s) == Safe(s)
  {
    if s != "" {
      EscapedIsSafe(s[1..]);
      EscapedChar(s[0]);
      assert s == [s[0]] + s[1..];
      ReplaceAppend([s[0]], s[1..], '&', "\\u0026");
      var a, b := Replace([s[0]], '&', "\\u0026"), Replace(s[1..], '&', "\\u0026");
      ReplaceAppend(a, b, '<', "\\u003c");
      ReplaceAppend(Replace(a, '<', "\\u003c"), Replace(b, '<', "\\u003c"), '>', "\\u003e");
    }
  }

  /** The order of `_safe_json`. */
  lemma {:induction false} OrderIrrelevant(s: string)
    ensures Replace(Replace(Replace(s, '<', "\\u003c"), '>', "\\u003e"), '&', "\\u0026") == Escaped(s)
    decreases |s|
  {
    if s != "" {
      OrderIrrelevant(s[1..]);
      var c := s[0];
      assert s == [c] + s[1..];
      EscapedIsSafe(s);
      EscapedIsSafe(s[1..]);
      ReplaceAppend([c], s[1..], '<', "\\u003c");
      var a, b := Replace([c], '<', "\\u003c"), Replace(s[1..], '<', "\\u003c");
      ReplaceAppend(a, b, '>', "\\u003e");
      ReplaceAppend(Replace(a, '>', "\\u003e"), Replace(b, '>', "\\u003e"), '&', "\\u0026");
      OtherOrderChar(c);
    }
  }

  lemma OtherOrderChar(c: char)
    ensures Replace(Replace(Replace([c], '<', "\\u003c"), '>', "\\u003e"), '&', "\\u0026") == SafeChar(c)
  {
    ReplaceOne(c, '<', "\\u003c");
    if c == '<' {
      ReplaceAbsent("\\u003c", '>', "\\u003e");
      ReplaceAbsent("\\u003c", '&', "\\u0026");
    } else {
      ReplaceOne(c, '>', "\\u003e");
      if c == '>' {
        ReplaceAbsent("\\u003e", '&', "\\u0026");
      } else {
        ReplaceOne(c, '&', "\\u0026");
      }
    }
  }

  predicate MarkupFree(s: string) {
    '&' !in s && '<' !in s && '>' !in s
  }

  lemma {:induction false} EscapedIsMarkupFree(s: string)
    ensures MarkupFree(Escaped(s))
  {
    EscapedIsSafe(s);
    if s != "" {
      EscapedIsMarkupFree(s[1..]);
      EscapedIsSafe(s[1..]);
    }
  }

  /******* Parsing: RFC 8259 *******/

  datatype Parsed<T> = Fail | Ok(value: T, rest: string)

  function HexValue(c: char): Option<nat> {
    if '0' <= c <= '9' then Some(c as int - '0' as int)
    else if 'a' <= c <= 'f' then Some(c as int - 'a' as int + 10)
    else if 'A' <= c <= 'F' then Some(c as int - 'A' as int + 10)
    else None
  }

  /** Four hexadecimal digits. */
  function CodeUnit(t: string): (r: Option<nat>)
    ensures r.Some? ==> |t| >= 4 && r.value < 0x1_0000
  {
    if |t| < 4 then None
    else
      var a, b, c, d := HexValue(t[0]), HexValue(t[1]), HexValue(t[2]), HexValue(t[3]);
      if a.None? || b.None? || c.None? || d.None? then None
      else Some(((a.value * 16 + b.value) * 16 + c.value) * 16 + d.value)
  }

  /** What follows a backslash and a `u`: one code unit, or a surrogate pair. */
  function ParseCodePoint(t: string): (r: Parsed<char>)
    ensures r.Ok? ==> |r.rest| < |t|
  {
    var high := CodeUnit(t);
    if high.None? || 0xDC00 <= high.value < 0xE000 then Fail
    else if high.value < 0xD800 || 0xE000 <= high.value then Ok(high.value as char, t[4..])
    else if |t| < 6 || t[4] != '\\' || t[5] != 'u' then Fail
    else
      var low := CodeUnit(t[6..]);
      if low.None? || low.value < 0xDC00 || 0xE000 <= low.value then Fail
      else Ok((0x1_0000 + (high.value - 0xD800) * 0x400 + (low.value - 0xDC00)) as char, t[10..])
  }

  /** Section 7: one character of a string, escaped or not. */
  function ParseChar(t: string): (r: Parsed<char>)
    ensures r.Ok? ==> |r.rest| < |t|
  {
    if t == "" || t[0] == '\"' || t[0] as int < 32 then Fail
    else if t[0] != '\\' then Ok(t[0], t[1..])
    else if |t| < 2 then Fail
    else match t[1]
      case '\"' => Ok('\"', t[2..])
      case '\\' => Ok('\\', t[2..])
      case '/' => Ok('/', t[2..])
      case 'b' => Ok(8 as char, t[2..])
      case 'f' => Ok(12 as char, t[2..])
      case 'n' => Ok('\n', t[2..])
      case 'r' => Ok('\r', t[2..])
      case 't' => Ok('\t', t[2..])
      case 'u' => ParseCodePoint(t[2..])
      case _ => Fail
  }

  /** The rest of a string, up to its closing quote. */
  function ParseChars(t: string): (r: Parsed<string>)
    ensures r.Ok? ==> |r.rest| < |t|
    decreases |t|
  {
    if t != "" && t[0] == '\"' then Ok("", t[1..])
    else match ParseChar(t)
      case Fail => Fail
      case Ok(c, rest) =>
        match ParseChars(rest)
        case Fail => Fail
        case Ok(s, after) => Ok([c] + s, after)
  }

  function ParseString(t: string): (r: Parsed<string>)
    ensures r.Ok? ==> |r.rest| < |t|
  {
    if t != "" && t[0] == '\"' then ParseChars(t[1..]) else Fail
  }

  predicate Digit(c: char) {
    '0' <= c <= '9'
  }

  function Digits(t: string): (n: nat)
    ensures n <= |t| && forall i | 0 <= i < n :: Digit(t[i])
  {
    if t != "" && Digit(t[0]) then 1 + Digits(t[1..]) else 0
  }

  predicate Exponent(t: string) {
    t == "" ||
    ((t[0] == 'e' || t[0] == 'E') &&
     var u := if |t| > 1 && (t[1] == '+' || t[1] == '-') then t[2..] else t[1..];
     u != "" && Digits(u) == |u|)
  }

  predicate Fraction(t: string) {
    if t != "" && t[0] == '.' then
      var n := Digits(t[1..]);
      n >= 1 && Exponent(t[1 + n..])
    else Exponent(t)
  }

  /** Section 6. */
  predicate IsNumber(s: string) {
    var t := if s != "" && s[0] == '-' then s[1..] else s;
    var n := Digits(t);
    n >= 1 && (t[0] == '0' ==> n == 1) && Fraction(t[n..])
  }

  predicate NumberChar(c: char) {
    Digit(c) || c in {'+', '-', '.', 'e', 'E'}
  }

  function NumberRun(t: string): (n: nat)
    ensures n <= |t|
  {
    if t != "" && NumberChar(t[0]) then 1 + NumberRun(t[1..]) else 0
  }

  function ParseNumber(t: string): (r: Parsed<Json>)
    ensures r.Ok? ==> |r.rest| < |t|
  {
    var n := NumberRun(t);
    if n > 0 && IsNumber(t[..n]) then Ok(Number(t[..n]), t[n..]) else Fail
  }

  function ParseValue(t: string): (r: Parsed<Json>)
    ensures r.Ok? ==> |r.rest| < |t|
    decreases |t|, 1
  {
    if t == "" then Fail
    else if t[0] == '\"' then
      match ParseString(t) { case Fail => Fail case Ok(s, rest) => Ok(String(s), rest) }
    else if t[0] == '[' then
      if |t| > 1 && t[1] == ']' then Ok(Array([]), t[2..])
      else match ParseElements(t[1..]) { case Fail => Fail case Ok(es, rest) => Ok(Array(es), rest) }
    else if t[0] == '{' then
      if |t| > 1 && t[1] == '}' then Ok(Object([]), t[2..])
      else match ParseMembers(t[1..]) { case Fail => Fail case Ok(ms, rest) => Ok(Object(ms), rest) }
    else if t[0] == '-' || Digit(t[0]) then ParseNumber(t)
    else if "null" <= t then Ok(Null, t[4..])
    else if "true" <= t then Ok(Bool(true), t[4..])
    else if "false" <= t then Ok(Bool(false), t[5..])
    else Fail
  }

  function ParseElements(t: string): (r: Parsed<seq<Json>>)
    ensures r.Ok? ==> |r.rest| < |t|
    decreases |t|, 2
  {
    match ParseValue(t)
    case Fail => Fail
    case Ok(v, rest) =>
      if rest != "" && rest[0] == ']' then Ok([v], rest[1..])
      else if rest != "" && rest[0] == ',' then
        match ParseElements(rest[1..]) { case Fail => Fail case Ok(more, after) => Ok([v] + more, after) }
      else Fail
  }

  function ParseMembers(t: string): (r: Parsed<seq<(string, Json)>>)
    ensures r.Ok? ==> |r.rest| < |t|
    decreases |t|, 2
  {
    match ParseString(t)
    case Fail => Fail
    case Ok(name, colon) =>
      if colon == "" || colon[0] != ':' then Fail
      else match ParseValue(colon[1..])
        case Fail => Fail
        case Ok(v, rest) =>
          if rest != "" && rest[0] == '}' then Ok([(name, v)], rest[1..])
          else if rest != "" && rest[0] == ',' then
            match ParseMembers(rest[1..]) { case Fail => Fail case Ok(more, after) => Ok([(name, v)] + more, after) }
          else Fail
  }

  /** A whole text. */
  function Parse(t: string): Option<Json> {
    match ParseValue(t)
    case Fail => None
    case Ok(v, rest) => if rest == "" then Some(v) else None
  }

  /******* Reading back what was printed *******/

  lemma {:induction false} SafePlain(s: string)
    requires MarkupFree(s)
    ensures Safe(s) == s
  {
    if s != "" {
      SafePlain(s[1..]);
    }
  }

  lemma HexBack(n: nat)
    requires n < 16
    ensures HexValue(HexDigit(n)) == Some(n) && MarkupFree([HexDigit(n)])
  {
  }

  /** A control character without a short escape. */
  lemma ControlBack(c: char, rest: string)
    requires c as int < 32
    ensures ParseCodePoint("00" + [HexDigit(c as int / 16), HexDigit(c as int % 16)] + rest) == Ok(c, rest)
  {
    var t := "00" + [HexDigit(c as int / 16), HexDigit(c as int % 16)] + rest;
    HexBack(c as int / 16);
    HexBack(c as int % 16);
    assert t[0] == '0' && t[1] == '0' && t[2] == HexDigit(c as int / 16) && t[3] == HexDigit(c as int % 16);
    assert CodeUnit(t) == Some(c as int);
    assert t[4..] == rest;
  }

  lemma MarkupBack(c: char, rest: string)
    requires c == '&' || c == '<' || c == '>'
    ensures ParseChar(SafeChar(c) + rest) == Ok(c, rest)
  {
    var t := SafeChar(c) + rest;
    var u := t[2..];
    assert u[0] == '0' && u[1] == '0' && u[4..] == rest;
    assert CodeUnit(u) == Some(c as int);
    assert t[0] == '\\' && t[1] == 'u';
  }

  lemma QuotedBack(c: char, rest: string)
    ensures ParseChar(Quoted(c) + rest) == Ok(c, rest)
    ensures Quoted(c) != "" && Quoted(c)[0] != '\"'
  {
    var t := Quoted(c) + rest;
    if |Quoted(c)| == 1 {
      assert t[1..] == rest;
    } else if |Quoted(c)| == 2 {
      assert t[0] == '\\' && t[2..] == rest;
    } else {
      ControlBack(c, rest);
      assert t[0] == '\\' && t[1] == 'u';
      assert t[2..] == "00" + [HexDigit(c as int / 16), HexDigit(c as int % 16)] + rest;
    }
  }

  lemma QuotedPlain(c: char)
    requires MarkupFree([c])
    ensures MarkupFree(Quoted(c))
  {
    assert c in [c];
    if c as int < 32 {
      HexBack(c as int / 16);
      HexBack(c as int % 16);
      assert HexDigit(c as int / 16) in [HexDigit(c as int / 16)];
      assert HexDigit(c as int % 16) in [HexDigit(c as int % 16)];
    }
  }

  /** One character, quoted and then escaped, reads back as itself. */
  lemma CharBack(c: char, rest: string)
    ensures ParseChar(Safe(Quoted(c)) + rest) == Ok(c, rest)
    ensures Safe(Quoted(c)) != "" && Safe(Quoted(c))[0] != '\"'
  {
    if c == '&' || c == '<' || c == '>' {
      assert [c][1..] == "" && Safe("") == "";
      assert Safe(Quoted(c)) == SafeChar(c);
      MarkupBack(c, rest);
    } else {
      QuotedPlain(c);
      SafePlain(Quoted(c));
      QuotedBack(c, rest);
    }
  }

  lemma CharsStep(t: string, c: char, others: string, s: string, rest: string)
    requires t != "" && t[0] != '\"' && ParseChar(t) == Ok(c, others) && ParseChars(others) == Ok(s, rest)
    ensures ParseChars(t) == Ok([c] + s, rest)
  {
  }

  lemma {:induction false} CharsBack(s: string, rest: string)
    ensures ParseChars(Safe(Body(s)) + ("\"" + rest)) == Ok(s, rest)
  {
    if s == "" {
      assert Safe(Body(s)) + ("\"" + rest) == "\"" + rest;
      assert ("\"" + rest)[1..] == rest;
    } else {
      var first, others := Safe(Quoted(s[0])), Safe(Body(s[1..]));
      SafeAppend(Quoted(s[0]), Body(s[1..]));
      Associative(first, others, "\"" + rest);
      CharBack(s[0], others + ("\"" + rest));
      CharsBack(s[1..], rest);
      var t := first + (others + ("\"" + rest));
      assert t[0] == first[0];
      CharsStep(t, s[0], others + ("\"" + rest), s[1..], rest);
      assert [s[0]] + s[1..] == s;
    }
  }

  /** Escaping passes over a structural character. */
  lemma SafeAround(open: string, s: string, close: string)
    requires MarkupFree(open) && MarkupFree(close)
    ensures Safe(open + s + close) == open + Safe(s) + close
  {
    SafeAppend(open + s, close);
    SafeAppend(open, s);
    SafePlain(open);
    SafePlain(close);
  }

  lemma StringBack(s: string, rest: string)
    ensures ParseString(Safe(PrintString(s)) + rest) == Ok(s, rest)
    ensures Safe(PrintString(s)) != "" && Safe(PrintString(s))[0] == '\"'
  {
    SafeAround("\"", Body(s), "\"");
    CharsBack(s, rest);
    UnwrapQuotes(Safe(Body(s)), rest);
  }

  lemma UnwrapQuotes(body: string, rest: string)
    ensures var t := "\"" + body + "\"" + rest; t[0] == '\"' && t[1..] == body + ("\"" + rest)
  {
  }

  ghost predicate NumberText(s: string) {
    forall i | 0 <= i < |s| :: NumberChar(s[i])
  }

  lemma JoinedNumberText(s: string, k: nat)
    requires k <= |s| && (forall i | 0 <= i < k :: NumberChar(s[i])) && NumberText(s[k..])
    ensures NumberText(s)
  {
    forall i | k <= i < |s| ensures NumberChar(s[i]) {
      assert s[i] == s[k..][i - k];
    }
  }

  lemma DigitsNumberText(s: string)
    requires NumberText(s[Digits(s)..])
    ensures NumberText(s)
  {
    JoinedNumberText(s, Digits(s));
  }

  lemma ExponentChars(t: string)
    requires Exponent(t)
    ensures NumberText(t)
  {
    if t != "" {
      var k := if |t| > 1 && (t[1] == '+' || t[1] == '-') then 2 else 1;
      assert Digits(t[k..]) == |t[k..]|;
      JoinedNumberText(t, k);
    }
  }

  lemma DotChars(t: string, n: nat)
    requires n < |t| && t[0] == '.' && NumberText(t[1 + n..]) && forall i | 0 <= i < n :: Digit(t[1..][i])
    ensures NumberText(t)
  {
    forall i | 0 <= i < 1 + n ensures NumberChar(t[i]) {
      assert i > 0 ==> t[i] == t[1..][i - 1];
    }
    JoinedNumberText(t, 1 + n);
  }

  /** After the point come `n` digits, and an exponent. */
  lemma DecimalChars(t: string, n: nat)
    requires n < |t| && t[0] == '.' && Exponent(t[1 + n..]) && forall i | 0 <= i < n :: Digit(t[1..][i])
    ensures NumberText(t)
  {
    ExponentChars(t[1 + n..]);
    DotChars(t, n);
  }

  lemma FractionChars(t: string)
    requires Fraction(t)
    ensures NumberText(t)
  {
    if t != "" && t[0] == '.' {
      DecimalChars(t, Digits(t[1..]));
    } else {
      ExponentChars(t);
    }
  }

  lemma NumberChars(s: string)
    requires IsNumber(s)
    ensures s != "" && (s[0] == '-' || Digit(s[0])) && NumberText(s)
  {
    var t := if s != "" && s[0] == '-' then s[1..] else s;
    FractionChars(t[Digits(t)..]);
    DigitsNumberText(t);
    if t != s {
      JoinedNumberText(s, 1);
    }
  }

  ghost predicate Stops(rest: string) {
    rest == "" || !NumberChar(rest[0])
  }

  lemma {:induction false} RunIs(s: string, rest: string)
    requires NumberText(s) && Stops(rest)
    ensures NumberRun(s + rest) == |s|
  {
    if s == "" {
      assert s + rest == rest;
    } else {
      RunIs(s[1..], rest);
      assert (s + rest)[1..] == s[1..] + rest;
    }
  }

  lemma NumberPlain(s: string)
    requires IsNumber(s)
    ensures Safe(s) == s
  {
    NumberChars(s);
    SafePlain(s);
  }

  lemma NumberBack(s: string, rest: string)
    requires IsNumber(s) && Stops(rest)
    ensures ParseValue(s + rest) == Ok(Number(s), rest)
  {
    NumberChars(s);
    RunIs(s, rest);
    assert (s + rest)[..|s|] == s && (s + rest)[|s|..] == rest;
    assert (s + rest)[0] == s[0];
  }

  /** Numbers are numbers of section 6. */
  ghost predicate WellFormed(v: Json)
    decreases v
  {
    match v
    case Number(text) => IsNumber(text)
    case Array(elements) => forall i | 0 <= i < |elements| :: WellFormed(elements[i])
    case Object(members) => forall i | 0 <= i < |members| :: WellFormed(members[i].1)
    case _ => true
  }

  /** A printed value does not begin like the end of a list. */
  lemma Begins(v: Json)
    requires WellFormed(v)
    ensures var t := Safe(Print(v)); t != "" && t[0] != ']' && t[0] != '}' && t[0] != ','
  {
    match v
    case Null => SafePlain("null");
    case Bool(b) => SafePlain(if b then "true" else "false");
    case Number(text) =>
      NumberPlain(text);
      NumberChars(text);
    case String(s) => StringBack(s, "");
    case Array(elements) =>
      if elements == [] { SafePlain("[]"); } else { SafeAround("[", PrintElements(v, 0), "]"); }
    case Object(members) =>
      if members == [] { SafePlain("{}"); } else { SafeAround("{", PrintMembers(v, 0), "}"); }
  }

  lemma LiteralBack(v: Json, rest: string)
    requires v.Null? || v.Bool?
    ensures ParseValue(Safe(Print(v)) + rest) == Ok(v, rest)
  {
    var text := Print(v);
    SafePlain(text);
    var t := text + rest;
    assert text <= t && t[|text|..] == rest;
    if v.Null? {
      assert "null" <= t;
    } else if v.b {
      assert !("null" <= t) by { assert t[0] == 't'; }
    } else {
      assert !("null" <= t) && !("true" <= t) by { assert t[0] == 'f'; }
    }
  }

  lemma Regroup(a: string, sep: string, b: string, rest: string)
    requires |sep| == 1
    ensures (a + (sep + b)) + rest == a + (sep + (b + rest))
    ensures (sep + (b + rest))[1..] == b + rest
  {
  }

  lemma Separated(a: string, sep: string, b: string, rest: string)
    requires |sep| == 1 && MarkupFree(sep)
    ensures Safe(a + (sep + b)) + rest == Safe(a) + (sep + (Safe(b) + rest))
    ensures (sep + (Safe(b) + rest))[1..] == Safe(b) + rest
  {
    SafeAppend(a, sep + b);
    SafeAppend(sep, b);
    SafePlain(sep);
    Regroup(Safe(a), sep, Safe(b), rest);
  }

  lemma LastElementBack(v: Json, i: nat, rest: string)
    requires v.Array? && i + 1 == |v.elements|
    requires ParseValue(Safe(Print(v.elements[i])) + ("]" + rest)) == Ok(v.elements[i], "]" + rest)
    ensures ParseElements(Safe(PrintElements(v, i)) + ("]" + rest)) == Ok(v.elements[i..], rest)
  {
    assert PrintElements(v, i) == Print(v.elements[i]);
    assert ("]" + rest)[1..] == rest && v.elements[i..] == [v.elements[i]];
  }

  lemma NextElementBack(v: Json, i: nat, rest: string, more: string)
    requires v.Array? && i + 1 < |v.elements|
    requires more == Safe(PrintElements(v, i + 1)) + ("]" + rest)
    requires ParseValue(Safe(Print(v.elements[i])) + ("," + more)) == Ok(v.elements[i], "," + more)
    requires ParseElements(more) == Ok(v.elements[i + 1..], rest)
    ensures ParseElements(Safe(PrintElements(v, i)) + ("]" + rest)) == Ok(v.elements[i..], rest)
  {
    Separated(Print(v.elements[i]), ",", PrintElements(v, i + 1), "]" + rest);
    assert ("," + more)[1..] == more;
    assert [v.elements[i]] + v.elements[i + 1..] == v.elements[i..];
  }

  lemma {:induction false} ElementsBack(v: Json, i: nat, rest: string)
    requires WellFormed(v) && v.Array? && i < |v.elements|
    ensures ParseElements(Safe(PrintElements(v, i)) + ("]" + rest)) == Ok(v.elements[i..], rest)
    decreases v, 0, |v.elements| - i
  {
    if i + 1 < |v.elements| {
      var more := Safe(PrintElements(v, i + 1)) + ("]" + rest);
      ValueBack(v.elements[i], "," + more);
      ElementsBack(v, i + 1, rest);
      NextElementBack(v, i, rest, more);
    } else {
      ValueBack(v.elements[i], "]" + rest);
      LastElementBack(v, i, rest);
    }
  }

  /** The first member of a list, once its name and its value are read. */
  lemma MemberBack(v: Json, i: nat, rest: string)
    requires v.Object? && i < |v.members|
    requires ParseValue(Safe(Print(v.members[i].1)) + rest) == Ok(v.members[i].1, rest)
    ensures var t := Safe(PrintMember(v, i)) + rest;
      var colon := ":" + (Safe(Print(v.members[i].1)) + rest);
      ParseString(t) == Ok(v.members[i].0, colon) && ParseValue(colon[1..]) == Ok(v.members[i].1, rest)
  {
    var name, value := v.members[i].0, Print(v.members[i].1);
    Associative(PrintString(name), ":", value);
    Separated(PrintString(name), ":", value, rest);
    StringBack(name, ":" + (Safe(value) + rest));
  }

  lemma LastMember(t: string, name: string, colon: string, value: Json, rest: string)
    requires ParseString(t) == Ok(name, colon) && colon != "" && colon[0] == ':'
    requires ParseValue(colon[1..]) == Ok(value, "}" + rest)
    ensures ParseMembers(t) == Ok([(name, value)], rest)
  {
    assert ("}" + rest)[1..] == rest;
  }

  lemma NextMember(t: string, name: string, colon: string, value: Json, more: string, members: seq<(string, Json)>,
                   rest: string)
    requires ParseString(t) == Ok(name, colon) && colon != "" && colon[0] == ':'
    requires ParseValue(colon[1..]) == Ok(value, "," + more) && ParseMembers(more) == Ok(members, rest)
    ensures ParseMembers(t) == Ok([(name, value)] + members, rest)
  {
    assert ("," + more)[1..] == more;
  }

  lemma LastMemberBack(v: Json, i: nat, rest: string)
    requires v.Object? && i + 1 == |v.members|
    requires ParseValue(Safe(Print(v.members[i].1)) + ("}" + rest)) == Ok(v.members[i].1, "}" + rest)
    ensures ParseMembers(Safe(PrintMembers(v, i)) + ("}" + rest)) == Ok(v.members[i..], rest)
  {
    var name, value := v.members[i].0, v.members[i].1;
    MemberBack(v, i, "}" + rest);
    LastMember(Safe(PrintMember(v, i)) + ("}" + rest), name, ":" + (Safe(Print(value)) + ("}" + rest)), value, rest);
    LastText(v, i);
  }

  lemma NextText(v: Json, i: nat, rest: string)
    requires v.Object? && i + 1 < |v.members|
    ensures Safe(PrintMembers(v, i)) + ("}" + rest)
         == Safe(PrintMember(v, i)) + ("," + (Safe(PrintMembers(v, i + 1)) + ("}" + rest)))
  {
    Separated(PrintMember(v, i), ",", PrintMembers(v, i + 1), "}" + rest);
  }

  lemma FirstMember(v: Json, i: nat)
    requires v.Object? && i + 1 < |v.members|
    ensures [(v.members[i].0, v.members[i].1)] + v.members[i + 1..] == v.members[i..]
  {
  }

  lemma NextMemberBack(v: Json, i: nat, rest: string, more: string)
    requires v.Object? && i + 1 < |v.members|
    requires more == Safe(PrintMembers(v, i + 1)) + ("}" + rest)
    requires ParseValue(Safe(Print(v.members[i].1)) + ("," + more)) == Ok(v.members[i].1, "," + more)
    requires ParseMembers(more) == Ok(v.members[i + 1..], rest)
    ensures ParseMembers(Safe(PrintMembers(v, i)) + ("}" + rest)) == Ok(v.members[i..], rest)
  {
    var name, value := v.members[i].0, v.members[i].1;
    NextText(v, i, rest);
    MemberBack(v, i, "," + more);
    NextMember(Safe(PrintMember(v, i)) + ("," + more), name, ":" + (Safe(Print(value)) + ("," + more)), value, more,
               v.members[i + 1..], rest);
    FirstMember(v, i);
  }

  lemma {:induction false} MembersBack(v: Json, i: nat, rest: string)
    requires WellFormed(v) && v.Object? && i < |v.members|
    ensures ParseMembers(Safe(PrintMembers(v, i)) + ("}" + rest)) == Ok(v.members[i..], rest)
    decreases v, 0, |v.members| - i
  {
    if i + 1 < |v.members| {
      var more := Safe(PrintMembers(v, i + 1)) + ("}" + rest);
      ValueBack(v.members[i].1, "," + more);
      MembersBack(v, i + 1, rest);
      NextMemberBack(v, i, rest, more);
    } else {
      ValueBack(v.members[i].1, "}" + rest);
      LastMemberBack(v, i, rest);
    }
  }

  lemma LastText(v: Json, i: nat)
    requires v.Object? && i + 1 == |v.members|
    ensures PrintMembers(v, i) == PrintMember(v, i) && v.members[i..] == [v.members[i]]
    ensures v.members[i] == (v.members[i].0, v.members[i].1)
  {
  }

  lemma Bracketed(open: string, inner: string, close: string, rest: string)
    requires |open| == 1 && MarkupFree(open) && MarkupFree(close)
    ensures var t := Safe(open + inner + close) + rest; t[0] == open[0] && t[1..] == Safe(inner) + (close + rest)
  {
    SafeAround(open, inner, close);
    Unbracketed(open, Safe(inner), close, rest);
  }

  lemma Unbracketed(open: string, inner: string, close: string, rest: string)
    requires |open| == 1
    ensures var t := open + inner + close + rest; t[0] == open[0] && t[1..] == inner + (close + rest)
  {
  }

  lemma InBrackets(inner: string, rest: string)
    ensures var t := Safe("[" + inner + "]") + rest; t != "" && t[0] == '[' && t[1..] == Safe(inner) + ("]" + rest)
  {
    Bracketed("[", inner, "]", rest);
  }

  lemma InBraces(inner: string, rest: string)
    ensures var t := Safe("{" + inner + "}") + rest; t != "" && t[0] == '{' && t[1..] == Safe(inner) + ("}" + rest)
  {
    Bracketed("{", inner, "}", rest);
  }

  lemma OpensArray(t: string, body: string, elements: seq<Json>, rest: string)
    requires t != "" && t[0] == '[' && t[1..] == body && body != "" && body[0] != ']'
    requires ParseElements(body) == Ok(elements, rest)
    ensures ParseValue(t) == Ok(Array(elements), rest)
  {
    assert |t| > 1 && t[1] == body[0];
  }

  lemma OpensObject(t: string, body: string, members: seq<(string, Json)>, rest: string)
    requires t != "" && t[0] == '{' && t[1..] == body && body != "" && body[0] != '}'
    requires ParseMembers(body) == Ok(members, rest)
    ensures ParseValue(t) == Ok(Object(members), rest)
  {
    assert |t| > 1 && t[1] == body[0];
  }

  lemma ArrayOpens(inner: string, elements: seq<Json>, rest: string)
    requires var body := Safe(inner) + ("]" + rest);
      body != "" && body[0] != ']' && ParseElements(body) == Ok(elements, rest)
    ensures ParseValue(Safe("[" + inner + "]") + rest) == Ok(Array(elements), rest)
  {
    InBrackets(inner, rest);
    OpensArray(Safe("[" + inner + "]") + rest, Safe(inner) + ("]" + rest), elements, rest);
  }

  lemma ObjectOpens(inner: string, members: seq<(string, Json)>, rest: string)
    requires var body := Safe(inner) + ("}" + rest);
      body != "" && body[0] != '}' && ParseMembers(body) == Ok(members, rest)
    ensures ParseValue(Safe("{" + inner + "}") + rest) == Ok(Object(members), rest)
  {
    InBraces(inner, rest);
    OpensObject(Safe("{" + inner + "}") + rest, Safe(inner) + ("}" + rest), members, rest);
  }

  lemma {:induction false} ValueBack(v: Json, rest: string)
    requires WellFormed(v) && Stops(rest)
    ensures ParseValue(Safe(Print(v)) + rest) == Ok(v, rest)
    decreases v, 1, 0
  {
    match v
    case Null => LiteralBack(v, rest);
    case Bool(_) => LiteralBack(v, rest);
    case Number(text) =>
      NumberPlain(text);
      NumberBack(text, rest);
    case String(s) => StringBack(s, rest);
    case Array(elements) => ArrayBack(v, rest);
    case Object(members) => ObjectBack(v, rest);
  }

  lemma EmptyBack(rest: string)
    ensures ParseValue(Safe("[]") + rest) == Ok(Array([]), rest)
    ensures ParseValue(Safe("{}") + rest) == Ok(Object([]), rest)
  {
    SafePlain("[]");
    SafePlain("{}");
    assert ("[]" + rest)[2..] == rest && ("{}" + rest)[2..] == rest;
  }

  lemma {:induction false} ArrayBack(v: Json, rest: string)
    requires WellFormed(v) && v.Array?
    ensures ParseValue(Safe(Print(v)) + rest) == Ok(v, rest)
    decreases v, 0, |v.elements| + 1
  {
    if v.elements == [] {
      EmptyBack(rest);
    } else {
      ElementsBack(v, 0, rest);
      ElementsBegin(v, "]" + rest);
      ArrayOpens(PrintElements(v, 0), v.elements, rest);
    }
  }

  lemma ElementsBegin(v: Json, rest: string)
    requires WellFormed(v) && v.Array? && v.elements != []
    ensures var t := Safe(PrintElements(v, 0)) + rest; t != "" && t[0] != ']'
  {
    Begins(v.elements[0]);
    SafeAppend(Print(v.elements[0]), if 1 < |v.elements| then "," + PrintElements(v, 1) else "");
  }

  lemma {:induction false} ObjectBack(v: Json, rest: string)
    requires WellFormed(v) && v.Object?
    ensures ParseValue(Safe(Print(v)) + rest) == Ok(v, rest)
    decreases v, 0, |v.members| + 1
  {
    if v.members == [] {
      EmptyBack(rest);
    } else {
      MembersBack(v, 0, rest);
      MembersBegin(v, "}" + rest);
      ObjectOpens(PrintMembers(v, 0), v.members, rest);
    }
  }

  lemma MembersBegin(v: Json, rest: string)
    requires WellFormed(v) && v.Object? && v.members != []
    ensures var t := Safe(PrintMembers(v, 0)) + rest; t != "" && t[0] != '}'
  {
    StringBack(v.members[0].0, "");
    SafeAppend(PrintMember(v, 0), if 1 < |v.members| then "," + PrintMembers(v, 1) else "");
    SafeAppend(PrintString(v.members[0].0) + ":", Print(v.members[0].1));
    SafeAppend(PrintString(v.members[0].0), ":");
  }

  /** What is shown inside markup holds no markup character, and every reader of JSON gets the value back. */
  lemma EscapeRoundTrip(v: Json)
    requires WellFormed(v)
    ensures MarkupFree(Escaped(Print(v))) && Parse(Escaped(Print(v))) == Some(v)
  {
    EscapedIsSafe(Print(v));
    EscapedIsMarkupFree(Print(v));
    ValueBack(v, "");
    assert Safe(Print(v)) + "" == Safe(Print(v));
  }
}
