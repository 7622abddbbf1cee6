/** The text shown inside markup is a shortest one: no compact text without markup characters that reads back as the
    same value has fewer characters. */
module ShortestJson {
  import opened MarkupSafeJson
  import opened Options

  /** `rest` is what is left of `t` after at least `cost` characters. */
  ghost predicate Leaves(t: string, rest: string, cost: int) {
    |rest| + cost <= |t| && |rest| <= |t| && rest == t[|t| - |rest|..]
  }

  lemma LeavesFrom(t: string, mid: string, rest: string, first: int, further: int)
    requires Leaves(t, mid, first) && Leaves(mid, rest, further)
    ensures Leaves(t, rest, first + further)
  {
  }

  lemma StaysFree(t: string, rest: string, cost: int)
    requires MarkupFree(t) && Leaves(t, rest, cost)
    ensures MarkupFree(rest)
  {
  }

  /** How many characters one of a string takes in the text. */
  lemma CharLength(c: char)
    ensures |Safe(Quoted(c))| ==
      if c in {'\"', '\\', '\n', '\r', '\t', 8 as char, 12 as char} then 2
      else if c as int < 32 || c in {'&', '<', '>'} then 6
      else 1
  {
    if c in {'&', '<', '>'} {
      SafeCons(c, "");
      assert [c] + "" == [c];
    } else {
      QuotedPlain(c);
      SafePlain(Quoted(c));
    }
  }

  lemma CharShort(t: string, c: char, rest: string)
    requires MarkupFree(t) && ParseChar(t) == Ok(c, rest)
    ensures Leaves(t, rest, |Safe(Quoted(c))|)
  {
    CharLength(c);
    assert t[0] in t;
    if t[0] == '\\' && t[1] == 'u' {
      CodePointLong(t[2..], c, rest);
    }
  }

  lemma CodePointLong(t: string, c: char, rest: string)
    requires ParseCodePoint(t) == Ok(c, rest)
    ensures Leaves(t, rest, 4)
  {
  }

  lemma {:induction false} CharsShort(t: string, s: string, rest: string)
    requires MarkupFree(t) && ParseChars(t) == Ok(s, rest)
    ensures Leaves(t, rest, |Safe(Body(s))| + 1)
    decreases |t|
  {
    if t[0] != '\"' {
      var first := ParseChar(t);
      CharShort(t, s[0], first.rest);
      StaysFree(t, first.rest, 0);
      CharsShort(first.rest, s[1..], rest);
      SafeAppend(Quoted(s[0]), Body(s[1..]));
      LeavesFrom(t, first.rest, rest, |Safe(Quoted(s[0]))|, |Safe(Body(s[1..]))| + 1);
    }
  }

  lemma StringShort(t: string, s: string, rest: string)
    requires MarkupFree(t) && ParseString(t) == Ok(s, rest)
    ensures Leaves(t, rest, |Safe(PrintString(s))|)
  {
    StaysFree(t, t[1..], 1);
    CharsShort(t[1..], s, rest);
    SafeAround("\"", Body(s), "\"");
  }

  lemma NumberShort(t: string, v: Json, rest: string)
    requires MarkupFree(t) && ParseNumber(t) == Ok(v, rest)
    ensures v.Number? && Leaves(t, rest, |Safe(Print(v))|)
  {
    var n := NumberRun(t);
    assert MarkupFree(t[..n]);
    SafePlain(t[..n]);
  }

  lemma LiteralShort(t: string, v: Json, rest: string)
    requires MarkupFree(t) && ParseValue(t) == Ok(v, rest) && (v.Null? || v.Bool?)
    ensures Leaves(t, rest, |Safe(Print(v))|)
  {
    SafePlain(Print(v));
  }

  lemma SomeElements(t: string)
    ensures ParseElements(t).Ok? ==> t != "" && ParseElements(t).value != []
  {
  }

  lemma SomeMembers(t: string)
    ensures ParseMembers(t).Ok? ==> t != "" && ParseMembers(t).value != []
  {
  }

  /** What an array or an object starts with, and what follows. */
  lemma ArrayOpened(t: string, v: Json, rest: string)
    requires ParseValue(t) == Ok(v, rest) && v.Array?
    ensures |t| > 1 && t[0] == '['
    ensures if v.elements == [] then rest == t[2..] else ParseElements(t[1..]) == Ok(v.elements, rest)
  {
    Opens(t);
    if |t| == 1 || t[1] != ']' {
      SomeElements(t[1..]);
    }
  }

  lemma ObjectOpened(t: string, v: Json, rest: string)
    requires ParseValue(t) == Ok(v, rest) && v.Object?
    ensures |t| > 1 && t[0] == '{'
    ensures if v.members == [] then rest == t[2..] else ParseMembers(t[1..]) == Ok(v.members, rest)
  {
    Opens(t);
    if |t| == 1 || t[1] != '}' {
      SomeMembers(t[1..]);
    }
  }

  /** The first character tells the kind of a value. */
  lemma Opens(t: string)
    requires ParseValue(t).Ok?
    ensures var v := ParseValue(t).value;
      && (v.Array? <==> t[0] == '[') && (v.Object? <==> t[0] == '{') && (v.String? <==> t[0] == '\"')
      && (v.Number? <==> t[0] == '-' || Digit(t[0]))
  {
  }

  lemma {:induction false} ValueShort(t: string, v: Json, rest: string)
    requires MarkupFree(t) && ParseValue(t) == Ok(v, rest)
    ensures Leaves(t, rest, |Safe(Print(v))|)
    decreases |t|, 1
  {
    Opens(t);
    match v
    case String(s) => StringShort(t, s, rest);
    case Number(_) => NumberShort(t, v, rest);
    case Array(_) =>
      ArrayOpened(t, v, rest);
      ArrayShort(t, v, rest);
    case Object(_) =>
      ObjectOpened(t, v, rest);
      ObjectShort(t, v, rest);
    case _ => LiteralShort(t, v, rest);
  }

  lemma {:induction false} ArrayShort(t: string, v: Json, rest: string)
    requires MarkupFree(t) && v.Array? && |t| > 1 && t[0] == '['
    requires if v.elements == [] then rest == t[2..] else ParseElements(t[1..]) == Ok(v.elements, rest)
    ensures Leaves(t, rest, |Safe(Print(v))|)
    decreases |t|, 0
  {
    if v.elements == [] {
      SafePlain("[]");
    } else {
      StaysFree(t, t[1..], 1);
      ElementsShort(t[1..], v, 0, rest);
      LeavesFrom(t, t[1..], rest, 1, |Safe(PrintElements(v, 0))| + 1);
      SafeAround("[", PrintElements(v, 0), "]");
    }
  }

  lemma {:induction false} ObjectShort(t: string, v: Json, rest: string)
    requires MarkupFree(t) && v.Object? && |t| > 1 && t[0] == '{'
    requires if v.members == [] then rest == t[2..] else ParseMembers(t[1..]) == Ok(v.members, rest)
    ensures Leaves(t, rest, |Safe(Print(v))|)
    decreases |t|, 0
  {
    if v.members == [] {
      SafePlain("{}");
    } else {
      StaysFree(t, t[1..], 1);
      MembersShort(t[1..], v, 0, rest);
      LeavesFrom(t, t[1..], rest, 1, |Safe(PrintMembers(v, 0))| + 1);
      SafeAround("{", PrintMembers(v, 0), "}");
    }
  }

  lemma SeparatedLength(a: string, sep: string, b: string)
    requires |sep| == 1 && MarkupFree(sep)
    ensures |Safe(a + (sep + b))| == |Safe(a)| + 1 + |Safe(b)|
  {
    SafeAppend(a, sep + b);
    SafeAppend(sep, b);
    SafePlain(sep);
  }

  /** The length of a list from `i` on: one more character for the comma before the others. */
  lemma ElementsLength(v: Json, i: nat)
    requires v.Array? && i < |v.elements|
    ensures |Safe(PrintElements(v, i))| == |Safe(Print(v.elements[i]))| +
      if i + 1 < |v.elements| then 1 + |Safe(PrintElements(v, i + 1))| else 0
  {
    if i + 1 < |v.elements| {
      SeparatedLength(Print(v.elements[i]), ",", PrintElements(v, i + 1));
    } else {
      assert PrintElements(v, i) == Print(v.elements[i]);
    }
  }

  lemma MemberLength(v: Json, i: nat)
    requires v.Object? && i < |v.members|
    ensures |Safe(PrintMember(v, i))| == |Safe(PrintString(v.members[i].0))| + 1 + |Safe(Print(v.members[i].1))|
  {
    var name, value := PrintString(v.members[i].0), Print(v.members[i].1);
    assert PrintMember(v, i) == name + (":" + value);
    SeparatedLength(name, ":", value);
  }

  lemma MembersLength(v: Json, i: nat)
    requires v.Object? && i < |v.members|
    ensures |Safe(PrintMembers(v, i))| == |Safe(PrintMember(v, i))| +
      if i + 1 < |v.members| then 1 + |Safe(PrintMembers(v, i + 1))| else 0
  {
    if i + 1 < |v.members| {
      SeparatedLength(PrintMember(v, i), ",", PrintMembers(v, i + 1));
    } else {
      assert PrintMembers(v, i) == PrintMember(v, i);
    }
  }

  lemma Split<T>(list: seq<T>, i: nat, x: T, more: seq<T>)
    requires i < |list| && list[i..] == [x] + more
    ensures list[i] == x && list[i + 1..] == more && (more == [] <==> i + 1 == |list|)
  {
    assert list[i..][0] == x && list[i..][1..] == more;
  }

  lemma ElementsStep(t: string, v: Json, i: nat, rest: string)
    requires v.Array? && i < |v.elements| && ParseElements(t) == Ok(v.elements[i..], rest)
    ensures var value := ParseValue(t);
      && value.Ok? && value.value == v.elements[i] && value.rest != ""
      && if i + 1 == |v.elements| then rest == value.rest[1..]
         else ParseElements(value.rest[1..]) == Ok(v.elements[i + 1..], rest)
  {
    var value := ParseValue(t);
    var after := value.rest[1..];
    assert value.rest[0] == ']' ==> v.elements[i..] == [value.value] && rest == after;
    if value.rest[0] != ']' {
      assert v.elements[i..] == [value.value] + ParseElements(after).value;
    }
    Split(v.elements, i, value.value, if value.rest[0] == ']' then [] else ParseElements(after).value);
  }

  lemma MembersStep(t: string, v: Json, i: nat, rest: string)
    requires v.Object? && i < |v.members| && ParseMembers(t) == Ok(v.members[i..], rest)
    ensures ParseMembers(t).value[0] == v.members[i]
    ensures var value := ParseValue(ParseString(t).rest[1..]);
      && value.Ok? && value.rest != ""
      && if i + 1 == |v.members| then rest == value.rest[1..]
         else ParseMembers(value.rest[1..]) == Ok(v.members[i + 1..], rest)
  {
    var name := ParseString(t);
    var value := ParseValue(name.rest[1..]);
    var after := value.rest[1..];
    assert value.rest[0] == '}' ==> v.members[i..] == [(name.value, value.value)] && rest == after;
    if value.rest[0] != '}' {
      assert v.members[i..] == [(name.value, value.value)] + ParseMembers(after).value;
    }
    Split(v.members, i, (name.value, value.value), if value.rest[0] == '}' then [] else ParseMembers(after).value);
  }

  lemma {:induction false} ElementsShort(t: string, v: Json, i: nat, rest: string)
    requires MarkupFree(t) && v.Array? && i < |v.elements| && ParseElements(t) == Ok(v.elements[i..], rest)
    ensures Leaves(t, rest, |Safe(PrintElements(v, i))| + 1)
    decreases |t|, 2
  {
    var value := ParseValue(t);
    ElementsStep(t, v, i, rest);
    ValueShort(t, v.elements[i], value.rest);
    ElementsLength(v, i);
    var cost, after := |Safe(Print(v.elements[i]))|, value.rest[1..];
    LeavesFrom(t, value.rest, after, cost, 1);
    if i + 1 < |v.elements| {
      StaysFree(t, after, cost + 1);
      ElementsShort(after, v, i + 1, rest);
      LeavesFrom(t, after, rest, cost + 1, |Safe(PrintElements(v, i + 1))| + 1);
    }
  }

  lemma {:induction false} MemberShort(t: string, v: Json, i: nat)
    requires MarkupFree(t) && v.Object? && i < |v.members| && ParseMembers(t).Ok?
    requires ParseMembers(t).value[0] == v.members[i]
    ensures Leaves(t, ParseValue(ParseString(t).rest[1..]).rest, |Safe(PrintMember(v, i))|)
    decreases |t|, 2
  {
    var name := ParseString(t);
    var value := ParseValue(name.rest[1..]);
    StringShort(t, v.members[i].0, name.rest);
    StaysFree(t, name.rest[1..], 1);
    ValueShort(name.rest[1..], v.members[i].1, value.rest);
    var cost := |Safe(PrintString(v.members[i].0))|;
    LeavesFrom(t, name.rest, name.rest[1..], cost, 1);
    LeavesFrom(t, name.rest[1..], value.rest, cost + 1, |Safe(Print(v.members[i].1))|);
    MemberLength(v, i);
  }

  lemma {:induction false} MembersShort(t: string, v: Json, i: nat, rest: string)
    requires MarkupFree(t) && v.Object? && i < |v.members| && ParseMembers(t) == Ok(v.members[i..], rest)
    ensures Leaves(t, rest, |Safe(PrintMembers(v, i))| + 1)
    decreases |t|, 3
  {
    MembersStep(t, v, i, rest);
    MemberShort(t, v, i);
    MembersLength(v, i);
    var value := ParseValue(ParseString(t).rest[1..]);
    var cost, after := |Safe(PrintMember(v, i))|, value.rest[1..];
    LeavesFrom(t, value.rest, after, cost, 1);
    if i + 1 < |v.members| {
      StaysFree(t, after, cost + 1);
      MembersShort(after, v, i + 1, rest);
      LeavesFrom(t, after, rest, cost + 1, |Safe(PrintMembers(v, i + 1))| + 1);
    }
  }

  /** No compact text without markup characters that reads back as the value is shorter than the one that is shown. */
  lemma ShownIsShortest(v: Json, t: string)
    requires MarkupFree(t) && Parse(t) == Some(v)
    ensures |Escaped(Print(v))| <= |t|
  {
    EscapedIsSafe(Print(v));
    ValueShort(t, v, "");
  }
}
