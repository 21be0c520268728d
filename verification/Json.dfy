/** A reader for JSON texts as RFC 8259 defines them, and what it makes of a
    string printed between quotes without escaping. */
module Json {

  datatype Value =
    | Null
    | Bool(b: bool)
    | Number(text: string)
    | Str(s: string)
    | Array(items: seq<Value>)
    | Object(members: seq<Member>)

  datatype Member = Member(name: string, value: Value)

  /** What was read, and what is left; or a syntax error. */
  datatype Parse<+T> = Fail | Done(value: T, rest: string)

  // ---------------------------------------------------------------------
  // Section 2: white space and structural characters

  predicate IsSpace(c: char) {
    c == ' ' || c == '\t' || c == '\n' || c == '\r'
  }

  function SkipSpace(s: string): (r: string)
    ensures |r| <= |s|
  {
    if s != [] && IsSpace(s[0]) then SkipSpace(s[1..]) else s
  }

  predicate StartsWith(s: string, c: char) {
    s != [] && s[0] == c
  }

  // ---------------------------------------------------------------------
  // Section 7: strings

  /** The production `unescaped`. */
  predicate Unescaped(c: char) {
    c >= ' ' && c != '"' && c != '\\'
  }

  predicate AllUnescaped(s: string) {
    forall i :: 0 <= i < |s| ==> Unescaped(s[i])
  }

  function HexDigit(c: char): int {
    if '0' <= c <= '9' then c as int - '0' as int
    else if 'a' <= c <= 'f' then c as int - 'a' as int + 10
    else if 'A' <= c <= 'F' then c as int - 'A' as int + 10
    else -1
  }

  /** The code unit of \uXXXX at the front of s, or -1. */
  function CodeUnit(s: string): (u: int)
    ensures -1 <= u < 0x1_0000
    ensures u >= 0 ==> |s| >= 6 && s[0] == '\\' && s[1] == 'u'
                       && forall i :: 2 <= i < 6 ==> HexDigit(s[i]) >= 0
  {
    if |s| >= 6 && s[0] == '\\' && s[1] == 'u'
       && HexDigit(s[2]) >= 0 && HexDigit(s[3]) >= 0 && HexDigit(s[4]) >= 0 && HexDigit(s[5]) >= 0
    then HexDigit(s[2]) * 0x1000 + HexDigit(s[3]) * 0x100 + HexDigit(s[4]) * 0x10 + HexDigit(s[5])
    else -1
  }

  /** An escape sequence at the front of s: the character it stands for and its length. */
  datatype Escape = NoEscape | Escape(c: char, length: nat)

  const REPLACEMENT := '\U{FFFD}'

  function ReadEscape(s: string): (e: Escape)
    requires StartsWith(s, '\\')
    ensures e.Escape? ==> 2 <= e.length <= |s|
  {
    if |s| < 2 then NoEscape
    else if s[1] == '"' then Escape('"', 2)
    else if s[1] == '\\' then Escape('\\', 2)
    else if s[1] == '/' then Escape('/', 2)
    else if s[1] == 'b' then Escape('\U{0008}', 2)
    else if s[1] == 'f' then Escape('\U{000C}', 2)
    else if s[1] == 'n' then Escape('\n', 2)
    else if s[1] == 'r' then Escape('\r', 2)
    else if s[1] == 't' then Escape('\t', 2)
    else ReadUnicodeEscape(s)
  }

  /** Surrogate pairs stand for one character; an unpaired surrogate is replaced. */
  function ReadUnicodeEscape(s: string): (e: Escape)
    ensures e.Escape? ==> (e.length == 6 || e.length == 12) && CodeUnit(s) >= 0
                          && |s| >= e.length && (e.length == 12 ==> CodeUnit(s[6..]) >= 0)
  {
    var u := CodeUnit(s);
    if u < 0 then NoEscape
    else if u < 0xD800 || u >= 0xE000 then Escape(u as char, 6)
    else
      var v := CodeUnit(s[6..]);
      if u < 0xDC00 && 0xDC00 <= v < 0xE000
      then Escape((0x1_0000 + (u - 0xD800) * 0x400 + (v - 0xDC00)) as char, 12)
      else Escape(REPLACEMENT, 6)
  }

  /** The rest of a string literal after its opening quote. */
  function Literal(s: string): (p: Parse<string>)
    ensures p.Done? ==> |p.rest| < |s|
    decreases |s|
  {
    if s == [] then Fail
    else if s[0] == '"' then Done([], s[1..])
    else if s[0] == '\\' then
      var e := ReadEscape(s);
      if e.NoEscape? then Fail else Prepend(e.c, Literal(s[e.length..]))
    else if s[0] >= ' ' then Prepend(s[0], Literal(s[1..]))
    else Fail
  }

  function Prepend(c: char, p: Parse<string>): Parse<string> {
    match p
    case Fail => Fail
    case Done(s, rest) => Done([c] + s, rest)
  }

  // ---------------------------------------------------------------------
  // Section 6: numbers

  function DigitsLength(s: string): (n: nat)
    ensures n <= |s|
  {
    if s != [] && '0' <= s[0] <= '9' then 1 + DigitsLength(s[1..]) else 0
  }

  function FractionLength(s: string): (n: nat)
    ensures n <= |s|
  {
    if StartsWith(s, '.') && DigitsLength(s[1..]) > 0 then 1 + DigitsLength(s[1..]) else 0
  }

  function ExponentLength(s: string): (n: nat)
    ensures n <= |s|
  {
    if !(StartsWith(s, 'e') || StartsWith(s, 'E')) then 0 else
    var sign := if StartsWith(s[1..], '+') || StartsWith(s[1..], '-') then 1 else 0;
    var digits := DigitsLength(s[1 + sign..]);
    if digits == 0 then 0 else 1 + sign + digits
  }

  /** The length of a number at the front of s, or 0. */
  function NumberLength(s: string): (n: nat)
    ensures n <= |s|
  {
    var sign := if StartsWith(s, '-') then 1 else 0;
    var digits := if StartsWith(s[sign..], '0') then 1 else DigitsLength(s[sign..]);
    if digits == 0 then 0 else
    var n := sign + digits;
    var m := n + FractionLength(s[n..]);
    m + ExponentLength(s[m..])
  }

  // ---------------------------------------------------------------------
  // Sections 3 to 5: values, objects, arrays

  function Word(s: string, word: string, value: Value): Parse<Value> {
    if word <= s then Done(value, s[|word|..]) else Fail
  }

  function ParseValue(s: string): (p: Parse<Value>)
    ensures p.Done? ==> |p.rest| < |s|
    decreases |s|, 0
  {
    if s == [] then Fail
    else if s[0] == '"' then
      match Literal(s[1..])
      case Fail => Fail
      case Done(text, rest) => Done(Str(text), rest)
    else if s[0] == '{' then
      var t := SkipSpace(s[1..]);
      if StartsWith(t, '}') then Done(Object([]), t[1..]) else
      match ParseMembers(t)
      case Fail => Fail
      case Done(ms, rest) => Done(Object(ms), rest)
    else if s[0] == '[' then
      var t := SkipSpace(s[1..]);
      if StartsWith(t, ']') then Done(Array([]), t[1..]) else
      match ParseElements(t)
      case Fail => Fail
      case Done(vs, rest) => Done(Array(vs), rest)
    else if s[0] == 't' then Word(s, "true", Bool(true))
    else if s[0] == 'f' then Word(s, "false", Bool(false))
    else if s[0] == 'n' then Word(s, "null", Null)
    else
      var n := NumberLength(s);
      if n == 0 then Fail else Done(Number(s[..n]), s[n..])
  }

  /** One or more members, up to and including the closing brace. */
  function ParseMembers(s: string): (p: Parse<seq<Member>>)
    ensures p.Done? ==> |p.rest| < |s|
    decreases |s|, 1
  {
    if !StartsWith(s, '"') then Fail else
    match Literal(s[1..])
    case Fail => Fail
    case Done(name, r) =>
      var t := SkipSpace(r);
      if !StartsWith(t, ':') then Fail else
      var u := SkipSpace(t[1..]);
      match ParseValue(u)
      case Fail => Fail
      case Done(v, r2) => ParseMoreMembers(Member(name, v), r2)
  }

  /** What follows a member. */
  function ParseMoreMembers(first: Member, r: string): (p: Parse<seq<Member>>)
    ensures p.Done? ==> |p.rest| < |r|
    decreases |r|, 2
  {
    var t := SkipSpace(r);
    if StartsWith(t, '}') then Done([first], t[1..])
    else if StartsWith(t, ',') then
      match ParseMembers(SkipSpace(t[1..]))
      case Fail => Fail
      case Done(ms, rest) => Done([first] + ms, rest)
    else Fail
  }

  function ParseElements(s: string): (p: Parse<seq<Value>>)
    ensures p.Done? ==> |p.rest| < |s|
    decreases |s|, 1
  {
    match ParseValue(s)
    case Fail => Fail
    case Done(v, r) =>
      var t := SkipSpace(r);
      if StartsWith(t, ']') then Done([v], t[1..])
      else if StartsWith(t, ',') then
        match ParseElements(SkipSpace(t[1..]))
        case Fail => Fail
        case Done(vs, rest) => Done([v] + vs, rest)
      else Fail
  }

  /** A whole text. */
  function ParseText(s: string): Parse<Value> {
    match ParseValue(SkipSpace(s))
    case Fail => Fail
    case Done(v, rest) => if SkipSpace(rest) == [] then Done(v, []) else Fail
  }

  // ---------------------------------------------------------------------
  // Strings printed between quotes as they are

  /** An unescaped string reads back as itself, up to the quote after it. */
  lemma {:induction false} LiteralOfUnescaped(v: string, tail: string)
    requires AllUnescaped(v)
    ensures Literal(v + "\"" + tail) == Done(v, tail)
  {
    var s := v + "\"" + tail;
    if v == [] {
      assert s[0] == '"' && s[1..] == tail;
    } else {
      assert s[0] == v[0];
      assert s[1..] == v[1..] + "\"" + tail;
      LiteralOfUnescaped(v[1..], tail);
      assert [v[0]] + v[1..] == v;
    }
  }

  /** A literal decodes to fewer characters than it takes up, unless it has no escapes. */
  lemma {:induction false} LiteralShrinks(s: string)
    ensures var p := Literal(s);
      p.Done? ==>
        && |p.value| + 1 + |p.rest| <= |s|
        && (|p.value| + 1 + |p.rest| == |s| ==> AllUnescaped(p.value) && p.value <= s)
    decreases |s|
  {
    if s == [] || s[0] == '"' {
    } else if s[0] == '\\' {
      var e := ReadEscape(s);
      if e.Escape? { LiteralShrinks(s[e.length..]); }
    } else if Unescaped(s[0]) {
      LiteralShrinks(s[1..]);
    }
  }

  lemma {:induction false} LiteralNeedsQuote(s: string)
    ensures Literal(s).Done? ==> '"' in s
    decreases |s|
  {
    if s == [] || s[0] == '"' {
    } else if s[0] == '\\' {
      var e := ReadEscape(s);
      if e.Escape? { LiteralNeedsQuote(s[e.length..]); }
    } else if Unescaped(s[0]) {
      LiteralNeedsQuote(s[1..]);
    }
  }

  /** A literal that stops at the closing quote printed after v or before it, or
      runs on because v ends in a backslash. */
  predicate StopsOrRunsOn(v: string, tail: string, p: Parse<string>) {
    p.Done? ==>
      || |p.rest| >= |tail|
      || (v != [] && v[|v| - 1] == '\\'
          && Literal(tail).Done? && p.rest == Literal(tail).rest
          && |p.value| > |Literal(tail).value|
          && p.value[|p.value| - |Literal(tail).value|..] == Literal(tail).value)
  }

  /** The printed closing quote either ends the literal at the latest, or is
      swallowed by a backslash at the end of the string, and then the literal
      runs on into whatever was printed next. */
  lemma {:induction false} LiteralOfAnything(v: string, tail: string)
    ensures StopsOrRunsOn(v, tail, Literal(v + "\"" + tail))
    decreases |v|
  {
    var s := v + "\"" + tail;
    if v == [] {
      assert s[0] == '"' && s[1..] == tail;
    } else if v[0] == '\\' {
      assert s[0] == '\\';
      var e := ReadEscape(s);
      if e.Escape? {
        if |v| == 1 {
          assert s[1] == '"';
          assert s[2..] == tail;
        } else {
          EscapeInside(v, tail);
          assert s[e.length..] == v[e.length..] + "\"" + tail;
          LiteralOfAnything(v[e.length..], tail);
          RunOn(v, tail, e.length, e.c);
        }
      }
    } else if v[0] != '"' && Unescaped(v[0]) {
      assert s[0] == v[0];
      assert s[1..] == v[1..] + "\"" + tail;
      LiteralOfAnything(v[1..], tail);
      RunOn(v, tail, 1, v[0]);
    } else {
      assert s[0] == v[0];
    }
  }

  /** An escape that does not start at the last character of v ends inside v. */
  lemma EscapeInside(v: string, tail: string)
    requires |v| >= 2 && v[0] == '\\'
    ensures var e := ReadEscape(v + "\"" + tail);
            e.Escape? ==> e.length <= |v|
  {
    var s := v + "\"" + tail;
    assert s[|v|] == '"' && HexDigit('"') == -1;
    assert |v| < 6 ==> CodeUnit(s) == -1;
    assert 6 <= |v| < 12 ==> s[6..][|v| - 6] == '"' && CodeUnit(s[6..]) == -1;
  }

  lemma RunOn(v: string, tail: string, n: nat, c: char)
    requires 1 <= n <= |v|
    requires Literal(v + "\"" + tail) == Prepend(c, Literal(v[n..] + "\"" + tail))
    requires StopsOrRunsOn(v[n..], tail, Literal(v[n..] + "\"" + tail))
    ensures StopsOrRunsOn(v, tail, Literal(v + "\"" + tail))
  {
    var p, q := Literal(v + "\"" + tail), Literal(v[n..] + "\"" + tail);
    if p.Done? && |p.rest| < |tail| {
      assert v[n..][|v| - n - 1] == v[|v| - 1];
      var k := |Literal(tail).value|;
      assert p.value[|p.value| - k..] == q.value[|q.value| - k..];
    }
  }

  /** What may be printed after a string's closing quote: either no further
      quote, or something before the next one that is not a backslash. */
  predicate SafeTail(tail: string, gap: string) {
    '"' !in tail || (gap != [] && AllUnescaped(gap) && gap + "\"" <= tail)
  }

  /** A string printed as it is reads back as itself exactly when it has nothing
      that needs escaping. */
  lemma LiteralExact(v: string, tail: string, gap: string)
    requires SafeTail(tail, gap)
    ensures var p := Literal(v + "\"" + tail);
      && (p.Done? && p.value == v <==> AllUnescaped(v))
      && (AllUnescaped(v) ==> p == Done(v, tail))
  {
    var s := v + "\"" + tail;
    var p := Literal(s);
    if AllUnescaped(v) {
      LiteralOfUnescaped(v, tail);
    } else if p.Done? {
      LiteralShrinks(s);
      LiteralOfAnything(v, tail);
      if |p.rest| < |tail| {
        LiteralNeedsQuote(tail);
        var more := tail[|gap| + 1..];
        assert tail == gap + "\"" + more;
        LiteralOfUnescaped(gap, more);
        assert p.value[|p.value| - 1] == gap[|gap| - 1] by {
          assert p.value[|p.value| - |gap|..] == gap;
        }
      }
    }
  }
}
