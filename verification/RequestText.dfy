/** The request texts the chatbot and translate modules print: JSON by hand, the
    message and the language put between quotes as they are. */
module RequestText {
  import opened Basics
  import opened CText
  import opened Json

  function ChatbotPost(text: string, language: string): string {
    "{\"queryInput\":" + "{\"text\":" + "{\"text\":\"" + text + "\", \"languageCode\":\"" + language + "\"}}}"
  }

  function TranslatePost(text: string, target: string): string {
    "{\"q\":\"" + text + "\", \"target\":\"" + target + "\"}"
  }

  /** The texts as they go out, whatever message and language are. */
  lemma PostsAre(text: string, language: string)
    ensures ChatbotPost(text, language) ==
      "{\"queryInput\":{\"text\":{\"text\":\"" + text + "\", \"languageCode\":\"" + language + "\"}}}"
    ensures TranslatePost(text, language) == "{\"q\":\"" + text + "\", \"target\":\"" + language + "\"}"
  {
    assert "{\"queryInput\":" + "{\"text\":" + "{\"text\":\"" == "{\"queryInput\":{\"text\":{\"text\":\"";
  }

  // ---------------------------------------------------------------------
  // The same texts by structure

  /** A name with its colon, without the opening quote. */
  function Named(name: string, rest: string): string {
    name + "\"" + (":" + rest)
  }

  function Nested(name: string, inner: string): string {
    "{\"" + Named(name, inner)
  }

  /** Two string members, up to the opening quote of the second string. */
  function PairTail(name2: string, v2: string, rest: string): string {
    ", \"" + Named(name2, "\"" + v2 + "\"" + ("}" + rest))
  }

  function Pair(name1: string, v1: string, name2: string, v2: string, rest: string): string {
    "{\"" + Named(name1, "\"" + v1 + "\"" + PairTail(name2, v2, rest))
  }

  lemma Regrouped(a: string, b: string, c: string, t: string, d: string, l: string, e: string)
    ensures a + b + c + t + d + l + e == a + (b + (c + t + d + l + e))
  {
  }

  lemma NestedQueryInput(inner: string)
    ensures Nested("queryInput", inner) == "{\"queryInput\":" + inner
  {
    assert "{\"" + ("queryInput" + "\"") + ":" == "{\"queryInput\":";
  }

  lemma NestedText(inner: string)
    ensures Nested("text", inner) == "{\"text\":" + inner
  {
    assert "{\"" + ("text" + "\"") + ":" == "{\"text\":";
  }

  lemma PairOfText(text: string, language: string)
    ensures Pair("text", text, "languageCode", language, "}}")
         == "{\"text\":\"" + text + "\", \"languageCode\":\"" + language + "\"}}}"
  {
    var tail := PairTail("languageCode", language, "}}");
    assert "\"" + tail == "\", \"languageCode\":\"" + language + "\"}}}";
    assert Pair("text", text, "languageCode", language, "}}") == "{\"text\":\"" + (text + ("\"" + tail));
  }

  lemma ChatbotPostIsNested(text: string, language: string)
    ensures ChatbotPost(text, language)
         == Nested("queryInput", Nested("text", Pair("text", text, "languageCode", language, "}}")))
  {
    var pair := Pair("text", text, "languageCode", language, "}}");
    Regrouped("{\"queryInput\":", "{\"text\":", "{\"text\":\"", text, "\", \"languageCode\":\"", language, "\"}}}");
    PairOfText(text, language);
    NestedText(pair);
    NestedQueryInput(Nested("text", pair));
  }

  lemma TranslatePostIsPair(text: string, target: string)
    ensures TranslatePost(text, target) == Pair("q", text, "target", target, "")
  {
    assert PairTail("target", target, "") == "\", \"target\":\""[1..] + target + "\"}";
    assert "{\"" + Named("q", "\"") == "{\"q\":\"";
  }

  // ---------------------------------------------------------------------
  // Reading them

  /** Reading one member whose name needs no escaping. */
  lemma MembersOf(name: string, rest: string)
    requires AllUnescaped(name) && rest != [] && !IsSpace(rest[0])
    ensures ParseMembers("\"" + Named(name, rest)) ==
      match ParseValue(rest)
      case Fail => Fail
      case Done(v, r) => ParseMoreMembers(Member(name, v), r)
  {
    var s := "\"" + Named(name, rest);
    assert s[1..] == name + "\"" + (":" + rest);
    LiteralOfUnescaped(name, ":" + rest);
    assert (":" + rest)[1..] == rest;
  }

  lemma ObjectOf(name: string, rest: string)
    requires AllUnescaped(name) && rest != [] && !IsSpace(rest[0])
    ensures ParseValue("{\"" + Named(name, rest)) ==
      match ParseValue(rest)
      case Fail => Fail
      case Done(v, r) =>
        match ParseMoreMembers(Member(name, v), r)
        case Fail => Fail
        case Done(ms, r') => Done(Object(ms), r')
  {
    var s := "{\"" + Named(name, rest);
    assert s[0] == '{' && s[1..] == "\"" + Named(name, rest);
    assert (s[1..])[0] == '"';
    MembersOf(name, rest);
  }

  lemma {:induction false} FirstStays(first: Member, r: string)
    ensures var p := ParseMoreMembers(first, r); p.Done? ==> p.value != [] && p.value[0] == first
  {
  }

  function PairValue(name1: string, v1: string, name2: string, v2: string): Value {
    Object([Member(name1, Str(v1)), Member(name2, Str(v2))])
  }

  lemma StringOf(v: string, tail: string)
    ensures ParseValue("\"" + v + "\"" + tail) ==
      match Literal(v + "\"" + tail)
      case Fail => Fail
      case Done(text, r) => Done(Str(text), r)
  {
    assert ("\"" + v + "\"" + tail)[1..] == v + "\"" + tail;
  }

  /** Reading on after a member, at ", " and another member. */
  lemma MoreOf(first: Member, name: string, rest: string)
    requires AllUnescaped(name) && rest != [] && !IsSpace(rest[0])
    ensures ParseMoreMembers(first, ", \"" + Named(name, rest)) ==
      match ParseValue(rest)
      case Fail => Fail
      case Done(v, r) =>
        match ParseMoreMembers(Member(name, v), r)
        case Fail => Fail
        case Done(ms, r') => Done([first] + ms, r')
  {
    var t := ", \"" + Named(name, rest);
    var member := "\"" + Named(name, rest);
    assert t[0] == ',' && t[1..][0] == ' ' && t[1..][1..] == member;
    assert SkipSpace(t[1..]) == SkipSpace(member) == member;
    MembersOf(name, rest);
  }

  lemma BraceOf(first: Member, rest: string)
    ensures ParseMoreMembers(first, "}" + rest) == Done([first], rest)
  {
    var t := "}" + rest;
    assert t[0] == '}' && t[1..] == rest;
  }

  /** Reading on after a member, at ", " and a member with a string value. */
  lemma MoreStringOf(first: Member, name: string, v: string, tail: string)
    requires AllUnescaped(name)
    ensures ParseMoreMembers(first, ", \"" + Named(name, "\"" + v + "\"" + tail)) ==
      match Literal(v + "\"" + tail)
      case Fail => Fail
      case Done(text, r) =>
        match ParseMoreMembers(Member(name, Str(text)), r)
        case Fail => Fail
        case Done(ms, r') => Done([first] + ms, r')
  {
    MoreOf(first, name, "\"" + v + "\"" + tail);
    StringOf(v, tail);
  }

  /** The second member: what is left of the text has no quote to run on to. */
  lemma SecondExact(first: Member, name: string, v: string, rest: string)
    requires AllUnescaped(name) && '"' !in rest
    ensures var p := ParseMoreMembers(first, PairTail(name, v, rest));
      && (p.Done? && p.value == [first, Member(name, Str(v))] <==> AllUnescaped(v))
      && (AllUnescaped(v) ==> p.rest == rest)
  {
    var tail := "}" + rest;
    MoreStringOf(first, name, v, tail);
    LiteralExact(v, tail, "");
    var l := Literal(v + "\"" + tail);
    if AllUnescaped(v) {
      BraceOf(Member(name, Str(v)), rest);
    } else if l.Done? {
      var second := Member(name, Str(l.value));
      FirstStays(second, l.rest);
      var q := ParseMoreMembers(second, l.rest);
      if q.Done? { assert ([first] + q.value)[1] == second; }
    }
  }

  /** An object of two strings printed as they are is read as those two strings
      exactly when neither has anything that needs escaping. */
  lemma PairExact(name1: string, v1: string, name2: string, v2: string, rest: string)
    requires AllUnescaped(name1) && AllUnescaped(name2) && '"' !in rest
    ensures var p := ParseValue(Pair(name1, v1, name2, v2, rest));
      && (p.Done? && p.value == PairValue(name1, v1, name2, v2) <==> AllUnescaped(v1) && AllUnescaped(v2))
      && (AllUnescaped(v1) && AllUnescaped(v2) ==> p.rest == rest)
  {
    var tail := PairTail(name2, v2, rest);
    ObjectOf(name1, "\"" + v1 + "\"" + tail);
    StringOf(v1, tail);
    assert ", " + "\"" <= tail;
    LiteralExact(v1, tail, ", ");
    var l := Literal(v1 + "\"" + tail);
    if AllUnescaped(v1) {
      SecondExact(Member(name1, Str(v1)), name2, v2, rest);
    } else if l.Done? {
      FirstStays(Member(name1, Str(l.value)), l.rest);
    }
  }

  lemma NestedExact(name: string, inner: string, x: Value)
    requires AllUnescaped(name) && inner != [] && !IsSpace(inner[0])
    ensures var p, q := ParseValue(Nested(name, inner)), ParseValue(inner);
      && (p.Done? && p.value == Object([Member(name, x)]) ==> q.Done? && q.value == x)
      && (q.Done? && StartsWith(q.rest, '}') ==> p == Done(Object([Member(name, q.value)]), q.rest[1..]))
  {
    ObjectOf(name, inner);
    var q := ParseValue(inner);
    if q.Done? { FirstStays(Member(name, q.value), q.rest); }
  }

  /** The document the chatbot module means to send. */
  function ChatbotDocument(text: string, language: string): Value {
    Object([Member("queryInput", Object([Member("text", PairValue("text", text, "languageCode", language))]))])
  }

  /** The chatbot's printed request is JSON that reads back as its message and
      language exactly when both consist of characters that need no escaping. */
  lemma ChatbotPostReadsBack(text: string, language: string)
    ensures ParseText(ChatbotPost(text, language)) == Done(ChatbotDocument(text, language), [])
        <==> AllUnescaped(text) && AllUnescaped(language)
  {
    ChatbotPostIsNested(text, language);
    var pair := Pair("text", text, "languageCode", language, "}}");
    var x := PairValue("text", text, "languageCode", language);
    PairExact("text", text, "languageCode", language, "}}");
    NestedExact("text", pair, x);
    var y := Object([Member("text", x)]);
    NestedExact("queryInput", Nested("text", pair), y);
  }

  /** Likewise for the translate module. */
  lemma TranslatePostReadsBack(text: string, target: string)
    ensures ParseText(TranslatePost(text, target)) == Done(PairValue("q", text, "target", target), [])
        <==> AllUnescaped(text) && AllUnescaped(target)
  {
    TranslatePostIsPair(text, target);
    PairExact("q", text, "target", target, "");
  }
}
