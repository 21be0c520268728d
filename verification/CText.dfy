/** C strings as sequences of characters. */
module CText {
  import opened Basics

  /** What strndup copies: at most `len` characters, and
      no further than the first NUL. */
  function Cut(message: string, len: nat): (s: string)
    ensures NUL_CHAR !in s && |s| <= len
    ensures s <= message
    ensures |s| < len && |s| < |message| ==> message[|s|] == NUL_CHAR
  {
    if message == [] || len == 0 || message[0] == NUL_CHAR then []
    else [message[0]] + Cut(message[1..], len - 1)
  }

  /** What "%.*s" prints when its precision is a length cast to int: a negative
      precision is no limit at all. */
  function Printed(message: string, len: nat): string {
    var precision := ToInt32(len);
    if precision < 0 then Cut(message, |message|) else Cut(message, precision)
  }

  /** The cast, exactly: what counts is the length modulo 2^32.  Below 2^31 it
      cuts there; from there on everything up to the terminator is printed. */
  lemma PrintedIsCut(message: string, len: nat)
    ensures Printed(message, len) ==
      Cut(message, if len % TWO32 < TWO31 then len % TWO32 else |message|)
    ensures IsInt32(len) ==> Printed(message, len) == Cut(message, len)
  {
    ToInt32OfNat(len);
  }

  /** toupper in the C locale. */
  function UpperChar(c: char): char {
    if IsLower(c) then c - 'a' + 'A' else c
  }

  lemma UpperCharIs(c: char)
    ensures UpperChar(c) as int == if 'a' <= c <= 'z' then c as int - 32 else c as int
  {
  }

  function Upper(s: string): (u: string)
    ensures |u| == |s|
    ensures forall i :: 0 <= i < |s| ==> u[i] == UpperChar(s[i])
  {
    seq(|s|, i requires 0 <= i < |s| => UpperChar(s[i]))
  }

  /** strstr: `needle` is a contiguous part of `text`. */
  predicate Occurs(text: string, needle: string) {
    exists i :: 0 <= i <= |text| - |needle| && OccursAt(text, needle, i)
  }

  predicate OccursAt(text: string, needle: string, i: nat)
    requires i <= |text| - |needle|
  {
    text[i..i + |needle|] == needle
  }

  predicate IsLower(c: char) {
    'a' <= c <= 'z'
  }

  /** Equal, or the two cases of one letter. */
  predicate SameLetter(a: char, b: char) {
    || a == b
    || ('a' <= a <= 'z' && a as int == b as int + 32)
    || ('a' <= b <= 'z' && b as int == a as int + 32)
  }

  /** Contiguous occurrence, letters compared without regard to case. */
  predicate OccursIgnoringCase(text: string, word: string) {
    exists i :: 0 <= i <= |text| - |word| && MatchesAt(text, word, i)
  }

  predicate MatchesAt(text: string, word: string, i: nat)
    requires i <= |text| - |word|
  {
    forall j :: 0 <= j < |word| ==> SameLetter(text[i + j], word[j])
  }

  lemma SameUpper(a: char, b: char)
    ensures UpperChar(a) == UpperChar(b) <==> SameLetter(a, b)
  {
  }

  lemma MatchesUpper(text: string, word: string, i: nat)
    requires i <= |text| - |word|
    ensures OccursAt(Upper(text), Upper(word), i) <==> MatchesAt(text, word, i)
  {
    var t, w := Upper(text), Upper(word);
    forall j | 0 <= j < |word|
      ensures t[i..i + |w|][j] == w[j] <==> SameLetter(text[i + j], word[j])
    {
      SameUpper(text[i + j], word[j]);
    }
    if t[i..i + |w|] != w {
      assert exists j :: 0 <= j < |w| && t[i..i + |w|][j] != w[j];
    }
  }

  /** Upper-casing both sides turns one notion into the other. */
  lemma UpperOccurs(text: string, word: string)
    ensures Occurs(Upper(text), Upper(word)) <==> OccursIgnoringCase(text, word)
  {
    if Occurs(Upper(text), Upper(word)) {
      var i :| 0 <= i <= |text| - |word| && OccursAt(Upper(text), Upper(word), i);
      MatchesUpper(text, word, i);
    }
    if OccursIgnoringCase(text, word) {
      var i :| 0 <= i <= |text| - |word| && MatchesAt(text, word, i);
      MatchesUpper(text, word, i);
    }
  }

  /** From `from` on, the buffer holds a string terminated at `end`. */
  predicate Terminated(buf: array<char>, from: nat, end: nat)
    reads buf
  {
    && from <= end < buf.Length && buf[end] == NUL_CHAR
    && forall i :: from <= i < end ==> buf[i] != NUL_CHAR
  }

  /** mesibo_strupr: upper-cases a terminated string in place. */
  method StrUpr(s: array<char>, ghost end: nat)
    requires Terminated(s, 0, end)
    modifies s
    ensures s[..end] == Upper(old(s[..end])) && s[end..] == old(s[end..])
  {
    var tmp := 0;
    while s[tmp] != NUL_CHAR
      invariant 0 <= tmp <= end
      invariant forall i :: 0 <= i < tmp ==> s[i] == UpperChar(old(s[i]))
      invariant forall i :: tmp <= i < s.Length ==> s[i] == old(s[i])
      decreases end - tmp
    {
      s[tmp] := UpperChar(s[tmp]);
      tmp := tmp + 1;
    }
  }

  /** A terminated copy, as strdup and strndup make one. */
  method Duplicate(s: string) returns (copy: array<char>)
    ensures fresh(copy) && copy.Length == |s| + 1
    ensures copy[..|s|] == s && copy[|s|] == NUL_CHAR
    ensures NUL_CHAR !in s ==> Terminated(copy, 0, |s|)
  {
    copy := new char[|s| + 1](i requires 0 <= i => if i < |s| then s[i] else NUL_CHAR);
    assert forall i :: 0 <= i < |s| ==> copy[i] == s[i] && s[i] in s;
  }
}
