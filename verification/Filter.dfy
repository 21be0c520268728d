/** The profanity filter: the configured list is counted and cut into words in
    place, and a message is dropped when an upper-cased word occurs in it. */
module Filter {
  import opened Basics
  import opened CText

  predicate IsDelimiter(c: char) {
    c == ',' || c == ' '
  }

  // ---------------------------------------------------------------------
  // Counting

  /** How many commas the counting loop sees before the terminator, or nothing
      if it runs past it.  Both its pointer and its counter advance on a comma,
      so the character after a comma is never looked at. */
  datatype Scan = Overrun | Stops(commas: nat)

  function ScanCommas(s: string): Scan {
    if s == [] then Stops(0)
    else if s[0] != ',' then ScanCommas(s[1..])
    else if |s| == 1 then Overrun
    else match ScanCommas(s[2..])
      case Overrun => Overrun
      case Stops(n) => Stops(n + 1)
  }

  function TrailingCommas(s: string): nat {
    if s == [] || s[|s| - 1] != ',' then 0 else 1 + TrailingCommas(s[..|s| - 1])
  }

  lemma {:induction false} TrailingAfterDrop(s: string, k: nat)
    requires k <= |s|
    ensures TrailingCommas(s[k..]) == if TrailingCommas(s) <= |s| - k then TrailingCommas(s) else |s| - k
    ensures TrailingCommas(s) <= |s|
    ensures k > 0 && s[k - 1] != ',' ==> TrailingCommas(s) <= |s| - k
  {
    if s != [] {
      if k < |s| {
        TrailingAfterDrop(s[..|s| - 1], k);
        assert s[k..][..|s| - k - 1] == s[..|s| - 1][k..];
      } else {
        TrailingAfterDrop(s[..|s| - 1], |s| - 1);
      }
    }
  }

  /** The counting loop stays inside the string exactly when the string ends in
      an even number of commas. */
  lemma {:induction false} ScanStopsExactly(s: string)
    ensures ScanCommas(s) == Overrun <==> TrailingCommas(s) % 2 == 1
  {
    if s != [] {
      if s[0] != ',' {
        TrailingAfterDrop(s, 1);
        ScanStopsExactly(s[1..]);
      } else if |s| == 1 {
        assert s[..0] == [];
      } else {
        TrailingAfterDrop(s, 2);
        TrailingAfterDrop(s, 1);
        if TrailingCommas(s) > |s| - 2 {
          if TrailingCommas(s) == |s| - 1 {
            TrailingAll(s);
          }
        }
        ScanStopsExactly(s[2..]);
      }
    }
  }

  /** A string that is all commas but perhaps its first is all commas if that one is. */
  lemma {:induction false} TrailingAll(s: string)
    requires s != [] && s[0] == ','
    ensures TrailingCommas(s) != |s| - 1
  {
    if |s| > 1 { TrailingAll(s[..|s| - 1]); }
  }

  function Commas(s: string): nat {
    if s == [] then 0 else Commas(s[1..]) + if s[0] == ',' then 1 else 0
  }

  predicate AdjacentCommas(s: string) {
    exists i :: 0 <= i < |s| - 1 && s[i] == s[i + 1] == ','
  }

  lemma AdjacentLater(s: string)
    requires s != []
    ensures AdjacentCommas(s) <==> (|s| > 1 && s[0] == s[1] == ',') || AdjacentCommas(s[1..])
  {
    if AdjacentCommas(s) {
      var i :| 0 <= i < |s| - 1 && s[i] == s[i + 1] == ',';
      if i > 0 { assert s[1..][i - 1] == s[1..][i - 1 + 1] == ','; }
    }
    if AdjacentCommas(s[1..]) {
      var i :| 0 <= i < |s[1..]| - 1 && s[1..][i] == s[1..][i + 1] == ',';
      assert s[i + 1] == s[i + 1 + 1] == ',';
    }
  }

  /** What the comment on get_count_words promises, the number of commas plus one,
      exactly when no two commas stand side by side; never more. */
  lemma {:induction false} CountIsCommas(s: string)
    requires ScanCommas(s).Stops?
    ensures ScanCommas(s).commas <= Commas(s)
    ensures ScanCommas(s).commas == Commas(s) <==> !AdjacentCommas(s)
  {
    if s != [] {
      AdjacentLater(s);
      if s[0] != ',' {
        CountIsCommas(s[1..]);
      } else {
        assert s[1..][1..] == s[2..];
        AdjacentLater(s[1..]);
        CountIsCommas(s[2..]);
      }
    }
  }

  /** get_count_words, on a buffer holding a terminated string. */
  method GetCountWords(buf: array<char>, ghost end: nat) returns (count: int)
    requires Terminated(buf, 0, end)
    requires ScanCommas(buf[..end]).Stops?
    ensures count == ScanCommas(buf[..end]).commas + 1
  {
    var i, s := 0, 0;
    while buf[s + i] != NUL_CHAR
      invariant 0 <= i && 0 <= s && s + i <= end
      invariant ScanCommas(buf[s + i..end]).Stops?
      invariant i + ScanCommas(buf[s + i..end]).commas == ScanCommas(buf[..end]).commas
      decreases end - s - i
    {
      ghost var rest := buf[s + i..end];
      assert s + i < end;
      assert rest[0] == buf[s + i];
      assert rest[1..] == buf[s + i + 1..end];
      if ',' == buf[s + i] {
        assert rest[2..] == buf[s + i + 2..end];
        i := i + 1;
      }
      s := s + 1;
    }
    return i + 1;
  }

  // ---------------------------------------------------------------------
  // Tokens

  function SkipDelimiters(s: string): (rest: string)
    ensures |rest| <= |s|
    ensures rest != [] ==> !IsDelimiter(rest[0])
  {
    if s == [] || !IsDelimiter(s[0]) then s else SkipDelimiters(s[1..])
  }

  /** The length of the delimiter-free run at the front. */
  function RunLength(s: string): (n: nat)
    ensures n <= |s|
    ensures forall i :: 0 <= i < n ==> !IsDelimiter(s[i])
    ensures n < |s| ==> IsDelimiter(s[n])
  {
    if s == [] || IsDelimiter(s[0]) then 0 else 1 + RunLength(s[1..])
  }

  /** The maximal delimiter-free runs, in order. */
  function Tokens(s: string): seq<string>
    decreases |s|
  {
    var t := SkipDelimiters(s);
    if t == [] then [] else [t[..RunLength(t)]] + Tokens(t[RunLength(t)..])
  }

  /** strtok's first loop, past leading delimiters. */
  method FindStart(buf: array<char>, from: nat, ghost end: nat) returns (start: nat)
    requires Terminated(buf, from, end)
    ensures from <= start <= end
    ensures buf[start..end] == SkipDelimiters(buf[from..end])
  {
    start := from;
    while buf[start] != NUL_CHAR && IsDelimiter(buf[start])
      invariant from <= start <= end
      invariant SkipDelimiters(buf[from..end]) == SkipDelimiters(buf[start..end])
      decreases end - start
    {
      assert buf[start..end][0] == buf[start] && buf[start..end][1..] == buf[start + 1..end];
      start := start + 1;
    }
    if start < end { assert buf[from..end][start - from] == buf[start] == buf[start..end][0]; }
  }

  /** strtok's second loop, to the end of the run. */
  method FindEnd(buf: array<char>, start: nat, ghost end: nat) returns (stop: nat)
    requires Terminated(buf, start, end)
    ensures stop == start + RunLength(buf[start..end]) && stop <= end
  {
    stop := start;
    while buf[stop] != NUL_CHAR && !IsDelimiter(buf[stop])
      invariant start <= stop <= end
      invariant RunLength(buf[start..end]) == stop - start + RunLength(buf[stop..end])
      decreases end - stop
    {
      assert buf[stop..end][0] == buf[stop] && buf[stop..end][1..] == buf[stop + 1..end];
      stop := stop + 1;
    }
    if stop < end { assert buf[start..end][stop - start] == buf[stop] == buf[stop..end][0]; }
  }

  /** strtok's last part: the run at `start` is the token, and the delimiter that
      ends it is overwritten. */
  method TakeRun(buf: array<char>, start: nat, ghost end: nat) returns (token: string, next: nat)
    requires Terminated(buf, start, end)
    modifies buf
    ensures start <= next && Terminated(buf, next, end)
    ensures var t := old(buf[start..end]);
            var n := RunLength(t);
            token == t[..n] && buf[next..end] == if n < |t| then t[n + 1..] else []
    ensures NUL_CHAR !in token
  {
    var stop := FindEnd(buf, start, end);
    token := buf[start..stop];
    ghost var t := buf[start..end];
    assert token == t[..stop - start];
    if buf[stop] != NUL_CHAR {
      assert t[stop - start + 1..] == buf[stop + 1..end];
      buf[stop] := NUL_CHAR;
      next := stop + 1;
    } else {
      next := stop;
    }
  }

  /** strtok: returns the next run and overwrites the delimiter that ends it.
      `end` is where the original string is terminated. */
  method StrTok(buf: array<char>, from: nat, ghost end: nat) returns (token: string, next: nat)
    requires Terminated(buf, from, end)
    modifies buf
    ensures from <= next <= end && Terminated(buf, next, end)
    ensures Tokens(old(buf[from..end])) == if token == [] then [] else [token] + Tokens(buf[next..end])
    ensures NUL_CHAR !in token
  {
    ghost var s := buf[from..end];
    var start := FindStart(buf, from, end);
    ghost var t := buf[start..end];
    if buf[start] == NUL_CHAR {
      return [], start;
    }
    token, next := TakeRun(buf, start, end);
    NextRun(s, t, RunLength(t), token, buf[next..end]);
  }

  /** One step of the tokenizer: a run, and what follows the delimiter after it. */
  lemma NextRun(s: string, t: string, n: nat, token: string, rest: string)
    requires t == SkipDelimiters(s) && t != [] && n == RunLength(t)
    requires token == t[..n] && rest == if n < |t| then t[n + 1..] else []
    ensures token != [] && Tokens(s) == [token] + Tokens(rest)
  {
    if n < |t| {
      TokensSkip(t[n..]);
      assert t[n..][1..] == rest;
    }
  }

  lemma TokensSkip(s: string)
    requires s != [] && IsDelimiter(s[0])
    ensures Tokens(s) == Tokens(s[1..])
  {
  }

  // ---------------------------------------------------------------------
  // Configuration

  function UpperAll(words: seq<string>): (u: seq<string>)
    ensures |u| == |words|
    ensures forall i :: 0 <= i < |words| ==> u[i] == Upper(words[i])
  {
    seq(|words|, i requires 0 <= i < |words| => Upper(words[i]))
  }

  /** Where the loop stands: `token` is the next of `tokens` to store, and `rest`
      holds the others; or there are none left. */
  ghost predicate Pending(tokens: seq<string>, i: nat, token: string, rest: string) {
    i <= |tokens| && tokens[i..] == if token == [] then [] else [token] + Tokens(rest)
  }

  lemma PendingToken(tokens: seq<string>, i: nat, token: string, rest: string)
    requires Pending(tokens, i, token, rest) && token != []
    ensures i < |tokens| && tokens[i] == token && tokens[i + 1..] == Tokens(rest)
  {
    assert tokens[i] == tokens[i..][0];
    assert tokens[i + 1..] == tokens[i..][1..];
  }

  /** The strtok loop of get_config_filter: stores an upper-cased copy of every
      run, one slot each. */
  method CutWords(bw: array<char>, ghost end: nat, words: array<string>, ghost tokens: seq<string>)
    requires Terminated(bw, 0, end)
    requires tokens == Tokens(bw[..end]) && words.Length == |tokens|
    modifies bw, words
    ensures forall j :: 0 <= j < |tokens| ==> words[j] == Upper(tokens[j])
  {
    var i := 0;
    var token, next: nat := FirstToken(bw, end, tokens);
    while token != []
      invariant next <= end && 0 <= i <= |tokens|
      invariant Terminated(bw, next, end) && NUL_CHAR !in token
      invariant Pending(tokens, i, token, bw[next..end])
      invariant forall j :: 0 <= j < i ==> words[j] == Upper(tokens[j])
      decreases |tokens| - i
    {
      PendingToken(tokens, i, token, bw[next..end]);
      words[i] := UpperCopy(token);
      token, next := NextToken(bw, next, end, tokens, i + 1);
      i := i + 1;
    }
  }

  /** strtok(bw, ...) */
  method FirstToken(bw: array<char>, ghost end: nat, ghost tokens: seq<string>)
    returns (token: string, next: nat)
    requires Terminated(bw, 0, end)
    requires tokens == Tokens(bw[..end])
    modifies bw
    ensures next <= end && Terminated(bw, next, end) && NUL_CHAR !in token
    ensures Pending(tokens, 0, token, bw[next..end])
  {
    assert bw[0..end] == bw[..end] && tokens[0..] == tokens;
    token, next := NextToken(bw, 0, end, tokens, 0);
  }

  /** strtok(NULL, ...) */
  method NextToken(bw: array<char>, from: nat, ghost end: nat, ghost tokens: seq<string>, ghost i: nat)
    returns (token: string, next: nat)
    requires Terminated(bw, from, end)
    requires i <= |tokens| && tokens[i..] == Tokens(bw[from..end])
    modifies bw
    ensures next <= end && Terminated(bw, next, end) && NUL_CHAR !in token
    ensures Pending(tokens, i, token, bw[next..end])
  {
    token, next := StrTok(bw, from, end);
  }

  /** mesibo_strupr(strdup(token)) */
  method UpperCopy(token: string) returns (u: string)
    requires NUL_CHAR !in token
    ensures u == Upper(token)
  {
    var copy := Duplicate(token);
    StrUpr(copy, |token|);
    u := copy[..|token|];
  }

  class FilterConfig {
    var count: int
    var blockedWords: array<string>

    /** get_config_filter.  The word array has one slot per word counted, so the
        count must match what strtok will find. */
    constructor (bw: array<char>, ghost end: nat)
      requires Terminated(bw, 0, end)
      requires ScanCommas(bw[..end]).Stops?
      requires ScanCommas(bw[..end]).commas + 1 == |Tokens(bw[..end])|
      modifies bw
      ensures count == blockedWords.Length
      ensures fresh(blockedWords)
      ensures blockedWords[..] == UpperAll(Tokens(old(bw[..end])))
    {
      ghost var tokens := Tokens(bw[..end]);
      var counted := GetCountWords(bw, end);
      var words := new string[counted];
      CutWords(bw, end, words, tokens);
      assert words[..] == UpperAll(tokens);
      count := counted;
      blockedWords := words;
    }
  }

  /** filter_on_message */
  method OnMessage(fc: FilterConfig, message: string, len: nat) returns (rv: int)
    requires len <= |message| || NUL_CHAR in message
    requires fc.count == fc.blockedWords.Length
    ensures rv == MESIBO_RESULT_CONSUMED || rv == MESIBO_RESULT_PASS
    ensures rv == MESIBO_RESULT_CONSUMED <==>
      exists w :: w in fc.blockedWords[..] && Occurs(Upper(Cut(message, len)), w)
  {
    var text := Cut(message, len);
    var inMessage := Duplicate(text);
    StrUpr(inMessage, |text|);
    var i := 0;
    while i < fc.count
      invariant 0 <= i <= fc.count
      invariant inMessage[..|text|] == Upper(text)
      invariant forall j :: 0 <= j < i ==> !Occurs(Upper(text), fc.blockedWords[j])
    {
      if Occurs(inMessage[..|text|], fc.blockedWords[i]) {
        assert fc.blockedWords[i] in fc.blockedWords[..];
        return MESIBO_RESULT_CONSUMED;
      }
      i := i + 1;
    }
    return MESIBO_RESULT_PASS;
  }

  // ---------------------------------------------------------------------
  // Well-formed lists

  /** One element of a list: a word with spaces around it. */
  datatype Item = Item(before: nat, word: string, after: nat)

  predicate IsWord(w: string) {
    w != [] && forall c :: c in w ==> c != ',' && c != ' ' && c != NUL_CHAR
  }

  function Spaces(n: nat): (s: string)
    ensures |s| == n && forall i :: 0 <= i < n ==> s[i] == ' '
  {
    seq(n, _ => ' ')
  }

  /** Words separated by one comma each, with optional spaces around every word. */
  function Render(items: seq<Item>): string {
    if items == [] then []
    else RenderItem(items[0]) + (if |items| == 1 then [] else [','] + Render(items[1..]))
  }

  function RenderItem(item: Item): string {
    Spaces(item.before) + item.word + Spaces(item.after)
  }

  predicate WellFormed(items: seq<Item>) {
    items != [] && forall i :: 0 <= i < |items| ==> IsWord(items[i].word)
  }

  function Words(items: seq<Item>): (ws: seq<string>)
    ensures |ws| == |items| && forall i :: 0 <= i < |items| ==> ws[i] == items[i].word
  {
    seq(|items|, i requires 0 <= i < |items| => items[i].word)
  }

  lemma {:induction false} ScanWithoutCommas(s: string, rest: string)
    requires ',' !in s
    ensures ScanCommas(s + rest) == ScanCommas(rest)
  {
    if s == [] {
      assert s + rest == rest;
    } else {
      assert (s + rest)[1..] == s[1..] + rest;
      assert (s + rest)[0] == s[0];
      ScanWithoutCommas(s[1..], rest);
    }
  }

  lemma ItemHasNoComma(item: Item)
    requires IsWord(item.word)
    ensures ',' !in RenderItem(item) && RenderItem(item) != []
  {
    forall i | 0 <= i < |RenderItem(item)|
      ensures RenderItem(item)[i] != ','
    {
      if item.before <= i < item.before + |item.word| {
        assert RenderItem(item)[i] == item.word[i - item.before];
        assert item.word[i - item.before] in item.word;
      }
    }
  }

  lemma {:induction false} ScanOfList(items: seq<Item>)
    requires WellFormed(items)
    ensures ScanCommas(Render(items)) == Stops(|items| - 1)
    ensures Render(items) != []
  {
    var first := RenderItem(items[0]);
    ItemHasNoComma(items[0]);
    if |items| == 1 {
      assert Render(items) == first + [];
      ScanWithoutCommas(first, []);
    } else {
      // The character skipped after the comma belongs to the next element,
      // which has no comma.
      var rest := Render(items[1..]);
      ScanOfList(items[1..]);
      ScanWithoutCommas(first, [','] + rest);
      assert ([','] + rest)[2..] == rest[1..];
      RestStartsClean(items[1..]);
    }
  }

  lemma RestStartsClean(items: seq<Item>)
    requires WellFormed(items)
    ensures Render(items) != [] && Render(items)[0] != ','
  {
    ItemHasNoComma(items[0]);
    assert Render(items)[0] == RenderItem(items[0])[0];
  }

  lemma {:induction false} TokensAfterSpaces(n: nat, s: string)
    ensures SkipDelimiters(Spaces(n) + s) == SkipDelimiters(s)
    ensures Tokens(Spaces(n) + s) == Tokens(s)
  {
    if n == 0 {
      assert Spaces(0) + s == s;
    } else {
      assert (Spaces(n) + s)[0] == ' ' && (Spaces(n) + s)[1..] == Spaces(n - 1) + s;
      TokensAfterSpaces(n - 1, s);
    }
  }

  lemma {:induction false} RunOfWord(w: string, rest: string)
    requires forall c :: c in w ==> !IsDelimiter(c)
    requires rest != [] ==> IsDelimiter(rest[0])
    ensures RunLength(w + rest) == |w|
  {
    if w == [] {
      assert w + rest == rest;
    } else {
      assert (w + rest)[1..] == w[1..] + rest;
      assert (w + rest)[0] == w[0];
      RunOfWord(w[1..], rest);
    }
  }

  lemma TokensOfWord(w: string, rest: string)
    requires IsWord(w)
    requires rest != [] ==> IsDelimiter(rest[0])
    ensures Tokens(w + rest) == [w] + Tokens(rest)
  {
    assert (w + rest)[0] == w[0] && w[0] in w;
    RunOfWord(w, rest);
    assert (w + rest)[..|w|] == w && (w + rest)[|w|..] == rest;
  }

  lemma TokensOfItem(item: Item, tail: string)
    requires IsWord(item.word) && (tail != [] ==> IsDelimiter(tail[0]))
    ensures Tokens(RenderItem(item) + tail) == [item.word] + Tokens(tail)
  {
    var rest := Spaces(item.after) + tail;
    assert RenderItem(item) + tail == Spaces(item.before) + (item.word + rest);
    TokensAfterSpaces(item.before, item.word + rest);
    TokensOfWord(item.word, rest);
    TokensAfterSpaces(item.after, tail);
  }

  /** Cutting a rendered list gives back its words. */
  lemma {:induction false} TokensOfList(items: seq<Item>)
    requires WellFormed(items)
    ensures Tokens(Render(items)) == Words(items)
  {
    var tail := if |items| == 1 then [] else [','] + Render(items[1..]);
    TokensOfItem(items[0], tail);
    if |items| > 1 {
      TokensOfList(items[1..]);
      TokensSkip(tail);
      assert tail[1..] == Render(items[1..]);
      assert Words(items) == [items[0].word] + Words(items[1..]);
    } else {
      assert Words(items) == [items[0].word];
    }
  }

  lemma {:induction false} ListHasNoNul(items: seq<Item>)
    requires WellFormed(items)
    ensures NUL_CHAR !in Render(items)
  {
    forall i | 0 <= i < |RenderItem(items[0])|
      ensures RenderItem(items[0])[i] != NUL_CHAR
    {
      var item := items[0];
      if item.before <= i < item.before + |item.word| {
        assert RenderItem(item)[i] == item.word[i - item.before];
        assert item.word[i - item.before] in item.word;
      }
    }
    if |items| > 1 { ListHasNoNul(items[1..]); }
  }

  /** On a well-formed list the counting loop stops at the terminator, and its
      count is the number of words strtok finds, which are the words listed. */
  lemma CountMatchesTokens(items: seq<Item>)
    requires WellFormed(items)
    ensures Tokens(Render(items)) == Words(items)
    ensures ScanCommas(Render(items)) == Stops(|Tokens(Render(items))| - 1)
    ensures NUL_CHAR !in Render(items)
  {
    TokensOfList(items);
    ScanOfList(items);
    ListHasNoNul(items);
  }

  /** The module from its configuration line to its decision: a message is
      dropped exactly when some word of the list occurs in it, ignoring case. */
  method Decide(bw: array<char>, ghost items: seq<Item>, message: string, len: nat) returns (rv: int)
    requires WellFormed(items)
    requires bw.Length == |Render(items)| + 1
    requires bw[..|Render(items)|] == Render(items) && bw[|Render(items)|] == NUL_CHAR
    requires len <= |message| || NUL_CHAR in message
    modifies bw
    ensures rv == MESIBO_RESULT_CONSUMED || rv == MESIBO_RESULT_PASS
    ensures rv == MESIBO_RESULT_CONSUMED <==>
      exists i :: 0 <= i < |items| && OccursIgnoringCase(Cut(message, len), items[i].word)
  {
    CountMatchesTokens(items);
    var fc := new FilterConfig(bw, |Render(items)|);
    rv := OnMessage(fc, message, len);
    DecisionMeans(fc.blockedWords[..], items, Cut(message, len));
  }

  lemma DecisionMeans(blocked: seq<string>, items: seq<Item>, text: string)
    requires blocked == UpperAll(Words(items))
    ensures (exists w :: w in blocked && Occurs(Upper(text), w))
        <==> (exists i :: 0 <= i < |items| && OccursIgnoringCase(text, items[i].word))
  {
    forall i | 0 <= i < |items|
      ensures Occurs(Upper(text), blocked[i]) <==> OccursIgnoringCase(text, items[i].word)
    {
      UpperOccurs(text, items[i].word);
    }
    if exists w :: w in blocked && Occurs(Upper(text), w) {
      var w :| w in blocked && Occurs(Upper(text), w);
      var i :| 0 <= i < |blocked| && blocked[i] == w;
      assert OccursIgnoringCase(text, items[i].word);
    }
  }
}
