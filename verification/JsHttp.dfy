/** HTTP responses on their way to JavaScript: the V8 module accumulates a body
    like the others, and at close passes the buffer on as a C string. */
module JsHttp {
  import opened Basics
  import opened Http

  const HTTP_RESPONSE_TYPE_LEN := 1024

  /** The persistent handles a request keeps. */
  datatype JsRefs = JsRefs(httpObject: Option<nat>, callback: Option<nat>)

  /** The properties set on the JavaScript object before its callback runs. */
  datatype Delivery = Delivery(response: Option<seq<Byte>>, responseType: Option<seq<Byte>>, status: nat)

  /** What a request has received: the status, the buffer of the response type
      as it is, and the body. */
  datatype Received = Received(status: int, typeBuffer: seq<Byte>, body: seq<Byte>)

  datatype Call =
    | Data(chunk: Chunk)
    | Status(status: int, responseType: Option<seq<Byte>>)

  /** memcpy to the front. */
  function Overlay(buffer: seq<Byte>, t: seq<Byte>): seq<Byte> {
    if |t| <= |buffer| then t + buffer[|t|..] else t
  }

  /** A status without a response type is refused and not stored. */
  function Called(r: Received, c: Call): Received {
    match c
    case Data(chunk) => r.(body := Accept(r.body, chunk))
    case Status(status, None) => r
    case Status(status, Some(t)) => r.(status := status, typeBuffer := Overlay(r.typeBuffer, t))
  }

  /** What is delivered at close.  In the context the four bytes of datalen come
      right after the buffer, so that is where a reader of the string goes on. */
  function Delivered(refs: JsRefs, r: Received, result: int): seq<Delivery>
    requires |r.body| <= HTTP_BUFFER_LEN
  {
    if result == MESIBO_RESULT_FAIL || refs.httpObject.None? || refs.callback.None? then []
    else [Delivery(CString(Padded(r.body) + IntBytes(|r.body|)), CString(r.typeBuffer), r.status % TWO32)]
  }

  /** The bytes of a non-negative int, lowest first. */
  function IntBytes(n: nat): seq<Byte> {
    [n % 0x100, n / 0x100 % 0x100, n / 0x1_0000 % 0x100, n / 0x100_0000 % 0x100]
  }

  /** One request of the V8 module. */
  class JsRequest {
    const context: HttpContext<JsRefs>
    const responseType: array<Byte>
    var live: bool
    var delivered: seq<Delivery>

    ghost predicate Valid()
      reads this, context, context.buffer
    {
      && responseType.Length == HTTP_RESPONSE_TYPE_LEN && responseType != context.buffer
      && (live ==> context.Valid())
    }

    ghost function Value(): Received
      requires Valid() && live
      reads this, context, context.buffer, responseType
    {
      Received(context.status, responseType[..], context.Body())
    }

    constructor (refs: JsRefs)
      ensures Valid() && live && delivered == []
      ensures fresh(context) && fresh(context.buffer) && fresh(responseType)
      ensures context.data == refs && Value() == UNCALLED
    {
      context := new HttpContext(refs);
      responseType := new Byte[HTTP_RESPONSE_TYPE_LEN](_ => NUL);
      live := true;
      delivered := [];
      new;
      assert responseType[..] == UNCALLED.typeBuffer;
    }

    /** js_mesibo_http_ondata */
    method OnData(chunk: Chunk) returns (rv: int)
      requires Valid() && live
      modifies this`live, context`datalen, context.buffer
      ensures Valid() && live == (chunk.progress >= 0)
      ensures live ==> Value() == Called(old(Value()), Data(chunk))
      ensures rv == if chunk.progress < 0 then MESIBO_RESULT_FAIL
                    else AcceptResult(old(context.Body()), chunk)
    {
      if chunk.progress < 0 {
        live := false;
        return MESIBO_RESULT_FAIL;
      }
      rv := context.Receive(chunk);
    }

    /** js_mesibo_http_onstatus; the type must fit its buffer, which is not checked. */
    method OnStatus(status: int, newType: Option<seq<Byte>>) returns (rv: int)
      requires Valid() && live
      requires newType.Some? ==> |newType.value| <= HTTP_RESPONSE_TYPE_LEN
      modifies context`status, responseType
      ensures Valid() && Value() == Called(old(Value()), Status(status, newType))
      ensures rv == if newType.None? then MESIBO_RESULT_FAIL else MESIBO_RESULT_OK
    {
      if newType.None? { return MESIBO_RESULT_FAIL; }
      context.OnStatus(status);
      var t := newType.value;
      forall i | 0 <= i < |t| {
        responseType[i] := t[i];
      }
      assert responseType[..] == Overlay(old(responseType[..]), t);
      return MESIBO_RESULT_OK;
    }

    /** js_mesibo_http_onclose; the JavaScript callback itself is not modelled. */
    method OnClose(result: int)
      requires Valid() && live
      modifies this
      ensures Valid() && live == (result == MESIBO_RESULT_FAIL)
      ensures delivered == old(delivered) + Delivered(context.data, old(Value()), result)
    {
      if result == MESIBO_RESULT_FAIL { return; }
      if context.data.httpObject.None? {
        live := false;
        return;
      }
      if context.data.callback.None? {
        live := false;
        return;
      }
      assert context.buffer[..] == Padded(context.Body());
      var response := CString(context.buffer[..] + IntBytes(context.datalen));
      delivered := delivered + [Delivery(response, CString(responseType[..]), context.status % TWO32)];
      live := false;
    }
  }

  function Zeroes(n: nat): (s: seq<Byte>)
    ensures |s| == n && forall i :: 0 <= i < n ==> s[i] == NUL
  {
    seq(n, _ => NUL)
  }

  /** calloc */
  const UNCALLED := Received(0, Zeroes(HTTP_RESPONSE_TYPE_LEN), [])

  /** The whole buffer behind a body. */
  function Padded(body: seq<Byte>): seq<Byte>
    requires |body| <= HTTP_BUFFER_LEN
  {
    body + Zeroes(HTTP_BUFFER_LEN - |body|)
  }

  lemma {:induction false} FirstNul(body: seq<Byte>) returns (n: nat)
    ensures n <= |body| && NUL !in body[..n]
    ensures n < |body| ==> body[n] == NUL
    ensures n == |body| <==> NUL !in body
  {
    if body == [] { return 0; }
    n := FirstNul(body[..|body| - 1]);
    if n == |body| - 1 {
      assert body[..n] == body[..|body| - 1];
      if body[n] != NUL {
        n := n + 1;
        assert body[..n] == body[..n - 1] + [body[n - 1]];
      }
    } else {
      assert body[..n] == body[..|body| - 1][..n];
    }
  }

  /** The buffer alone as a C string: a body that fills it without a NUL byte is
      read past its end. */
  lemma PaddedAsCString(body: seq<Byte>)
    requires |body| <= HTTP_BUFFER_LEN
    ensures var r := CString(Padded(body));
      && (r == Some(body) <==> |body| < HTTP_BUFFER_LEN && NUL !in body)
      && (r.None? <==> |body| == HTTP_BUFFER_LEN && NUL !in body)
      && (r.Some? ==> r.value <= body)
  {
    var buffer := Padded(body);
    var n := FirstNul(body);
    if n < HTTP_BUFFER_LEN {
      assert buffer[..n] == body[..n];
      assert buffer[n] == NUL;
      CStringStopsAt(buffer, n);
    } else {
      assert buffer == body;
      NoNulNoString(body);
    }
  }

  lemma {:induction false} NoNulNoString(buffer: seq<Byte>)
    requires NUL !in buffer
    ensures CString(buffer) == None
  {
    if buffer != [] {
      assert forall i :: 0 <= i < |buffer| - 1 ==> buffer[1..][i] == buffer[i + 1];
      NoNulNoString(buffer[1..]);
    }
  }

  /** JavaScript gets the body up to its first NUL byte, and all of it if it has
      none: where it fills the buffer, the first byte of datalen ends the string. */
  lemma ContextAsCString(body: seq<Byte>)
    requires |body| <= HTTP_BUFFER_LEN
    ensures var r := CString(Padded(body) + IntBytes(|body|));
      && r.Some? && r.value <= body && NUL !in r.value
      && (|r.value| < |body| ==> body[|r.value|] == NUL)
      && (r.value == body <==> NUL !in body)
  {
    var memory := Padded(body) + IntBytes(|body|);
    var n := FirstNul(body);
    assert memory[..n] == body[..n];
    assert memory[n] == NUL;
    CStringStopsAt(memory, n);
  }

  // ---------------------------------------------------------------------
  // A request from its start to its close

  /** No error reported, and a response type that is a string shorter than its buffer. */
  predicate Proper(c: Call) {
    match c
    case Data(chunk) => chunk.progress >= 0
    case Status(_, None) => true
    case Status(_, Some(t)) => |t| < HTTP_RESPONSE_TYPE_LEN && NUL !in t
  }

  function AfterCalls(calls: seq<Call>): Received {
    if calls == [] then UNCALLED else Called(AfterCalls(calls[..|calls| - 1]), calls[|calls| - 1])
  }

  function Chunks(calls: seq<Call>): seq<Chunk> {
    if calls == [] then [] else
    var earlier, c := Chunks(calls[..|calls| - 1]), calls[|calls| - 1];
    if c.Data? then earlier + [c.chunk] else earlier
  }

  /** The response types stored, and the statuses stored with them. */
  function Types(calls: seq<Call>): seq<seq<Byte>> {
    if calls == [] then [] else
    var earlier, c := Types(calls[..|calls| - 1]), calls[|calls| - 1];
    if c.Status? && c.responseType.Some? then earlier + [c.responseType.value] else earlier
  }

  function LastStatus(calls: seq<Call>): int {
    if calls == [] then 0 else
    var c := calls[|calls| - 1];
    if c.Status? && c.responseType.Some? then c.status else LastStatus(calls[..|calls| - 1])
  }

  /** The text left in the type buffer: the last type, and after it what a longer
      one before it had there. */
  function TypeText(types: seq<seq<Byte>>): seq<Byte> {
    if types == [] then [] else
    var before, t := TypeText(types[..|types| - 1]), types[|types| - 1];
    if |before| <= |t| then t else t + before[|t|..]
  }

  predicate ShortTypes(types: seq<seq<Byte>>) {
    forall i :: 0 <= i < |types| ==> |types[i]| < HTTP_RESPONSE_TYPE_LEN && NUL !in types[i]
  }

  lemma {:induction false} TypeTextFits(types: seq<seq<Byte>>)
    requires ShortTypes(types)
    ensures |TypeText(types)| < HTTP_RESPONSE_TYPE_LEN && NUL !in TypeText(types)
    ensures forall i :: 0 <= i < |types| ==> |types[i]| <= |TypeText(types)|
    ensures types == [] || exists i :: 0 <= i < |types| && |TypeText(types)| == |types[i]|
  {
    if types != [] {
      TypeTextFits(types[..|types| - 1]);
    }
  }

  /** JavaScript sees the last response type exactly when none before it was longer. */
  lemma TypeTextIsLast(types: seq<seq<Byte>>)
    requires types != [] && ShortTypes(types)
    ensures var last := types[|types| - 1];
      TypeText(types) == last <==> forall i :: 0 <= i < |types| ==> |types[i]| <= |last|
  {
    TypeTextFits(types);
    TypeTextFits(types[..|types| - 1]);
  }

  /** A buffer that holds a text and then only zeroes. */
  function TypeBuffer(text: seq<Byte>): seq<Byte>
    requires |text| < HTTP_RESPONSE_TYPE_LEN
  {
    text + Zeroes(HTTP_RESPONSE_TYPE_LEN - |text|)
  }

  lemma OverlaidText(text: seq<Byte>, t: seq<Byte>)
    requires |text| < HTTP_RESPONSE_TYPE_LEN && |t| < HTTP_RESPONSE_TYPE_LEN
    ensures |Overlay(text, t)| < HTTP_RESPONSE_TYPE_LEN
    ensures Overlay(TypeBuffer(text), t) == TypeBuffer(Overlay(text, t))
  {
  }

  lemma TypeAsCString(text: seq<Byte>)
    requires |text| < HTTP_RESPONSE_TYPE_LEN && NUL !in text
    ensures CString(TypeBuffer(text)) == Some(text)
  {
    var buffer := TypeBuffer(text);
    assert buffer[..|text|] == text && buffer[|text|] == NUL;
    CStringStopsAt(buffer, |text|);
  }

  lemma {:induction false} AfterCallsIs(calls: seq<Call>)
    requires forall i :: 0 <= i < |calls| ==> Proper(calls[i])
    ensures var r := AfterCalls(calls);
      && ShortTypes(Types(calls)) && |TypeText(Types(calls))| < HTTP_RESPONSE_TYPE_LEN
      && r.status == LastStatus(calls)
      && r.body == Accumulate(Chunks(calls))
      && r.typeBuffer == TypeBuffer(TypeText(Types(calls)))
  {
    if calls != [] {
      var before, c := calls[..|calls| - 1], calls[|calls| - 1];
      AfterCallsIs(before);
      assert Proper(c);
      if c.Data? {
        assert Chunks(calls)[..|Chunks(calls)| - 1] == Chunks(before);
      } else if c.responseType.Some? {
        var t := c.responseType.value;
        assert Types(calls) == Types(before) + [t];
        assert Types(calls)[..|Types(calls)| - 1] == Types(before);
        OverlaidText(TypeText(Types(before)), t);
      }
    }
  }

  /** A request that is called back any number of times and then closed delivers
      once, if it closes without failure and both handles are there: the last
      status stored, the text left by the response types, and the body up to its
      first NUL byte, whole exactly when the body has none. */
  lemma RequestDelivers(refs: JsRefs, calls: seq<Call>, result: int)
    requires forall i :: 0 <= i < |calls| ==> Proper(calls[i])
    ensures var body, r := Flatten(Taken(Chunks(calls))), AfterCalls(calls);
      && |r.body| <= HTTP_BUFFER_LEN
      && var ds := Delivered(refs, r, result);
         if result == MESIBO_RESULT_FAIL || refs.httpObject.None? || refs.callback.None? then ds == []
         else
           && |ds| == 1
           && ds[0].status == LastStatus(calls) % TWO32
           && ds[0].responseType == Some(TypeText(Types(calls)))
           && ds[0].response.Some? && ds[0].response.value <= body
           && (ds[0].response == Some(body) <==> 0 !in body)
  {
    AfterCallsIs(calls);
    AccumulateConcatenates(Chunks(calls));
    ContextAsCString(Flatten(Taken(Chunks(calls))));
    TypeTextFits(Types(calls));
    TypeAsCString(TypeText(Types(calls)));
  }
}
