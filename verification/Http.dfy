/** The HTTP context that the chatbot, translate and V8 modules each declare, and
    the body accumulation they share line by line. */
module Http {
  import opened Basics

  const HTTP_BUFFER_LEN := 64 * 1024

  datatype HttpState = Requesting | ReqBody | RespHeader | RespBody | Done

  /** One call of on_data: a null buffer is None. */
  datatype Chunk = Chunk(state: HttpState, progress: int, data: Option<seq<Byte>>)

  /** Whether a call carries body bytes at all. */
  predicate Carries(c: Chunk) {
    c.state == RespBody && c.data.Some? && |c.data.value| != 0
  }

  predicate Fits(body: seq<Byte>, c: Chunk) {
    Carries(c) ==> |body| + |c.data.value| <= HTTP_BUFFER_LEN
  }

  /** The body after a call that does not report an error. */
  function Accept(body: seq<Byte>, c: Chunk): seq<Byte> {
    if Carries(c) && Fits(body, c) then body + c.data.value else body
  }

  /** What on_data returns for such a call. */
  function AcceptResult(body: seq<Byte>, c: Chunk): int {
    if Fits(body, c) then MESIBO_RESULT_OK else MESIBO_RESULT_FAIL
  }

  /** on_data, exactly: bytes of the response body are appended if they fit 64 KiB
      together with what is there, and refused if they do not; any other call
      succeeds and changes nothing. */
  lemma AcceptExactly(body: seq<Byte>, c: Chunk)
    ensures c.state == RespBody && c.data.Some? && c.data.value != [] ==>
      var fits := |body| + |c.data.value| <= 0x1_0000;
      && Accept(body, c) == (if fits then body + c.data.value else body)
      && AcceptResult(body, c) == (if fits then 0 else -1)
    ensures c.state != RespBody || c.data.None? || c.data.value == [] ==>
      Accept(body, c) == body && AcceptResult(body, c) == 0
  {
  }

  /** A context; `data` is what differs between the modules. */
  class HttpContext<T> {
    const data: T
    var status: int
    const buffer: array<Byte>
    var datalen: int

    ghost predicate Valid()
      reads this, buffer
    {
      && buffer.Length == HTTP_BUFFER_LEN
      && 0 <= datalen <= HTTP_BUFFER_LEN
      && forall i :: datalen <= i < buffer.Length ==> buffer[i] == NUL
    }

    ghost function Body(): seq<Byte>
      requires Valid()
      reads this, buffer
    {
      buffer[..datalen]
    }

    /** calloc */
    constructor (data: T)
      ensures Valid() && fresh(buffer)
      ensures this.data == data && status == 0 && Body() == []
    {
      this.data := data;
      status := 0;
      buffer := new Byte[HTTP_BUFFER_LEN](_ => NUL);
      datalen := 0;
    }

    /** on_data after its test for progress < 0. */
    method Receive(c: Chunk) returns (rv: int)
      requires Valid()
      modifies this`datalen, buffer
      ensures Valid()
      ensures Body() == Accept(old(Body()), c)
      ensures rv == AcceptResult(old(Body()), c)
    {
      if c.state != RespBody {
        return MESIBO_RESULT_OK;
      }
      if c.data.Some? && |c.data.value| != 0 {
        var size := |c.data.value|;
        if HTTP_BUFFER_LEN < datalen + size {
          return MESIBO_RESULT_FAIL;
        }
        forall i | 0 <= i < size {
          buffer[datalen + i] := c.data.value[i];
        }
        datalen := datalen + size;
        assert Body() == old(Body()) + c.data.value;
      }
      return MESIBO_RESULT_OK;
    }

    /** on_status; the response type is left out. */
    method OnStatus(status: int)
      requires Valid()
      modifies this`status
      ensures Valid() && this.status == status && Body() == old(Body())
    {
      this.status := status;
    }
  }

  // ---------------------------------------------------------------------
  // Accumulation over a whole response

  function Accumulate(cs: seq<Chunk>): seq<Byte> {
    if cs == [] then [] else Accept(Accumulate(cs[..|cs| - 1]), cs[|cs| - 1])
  }

  function Flatten(parts: seq<seq<Byte>>): seq<Byte> {
    if parts == [] then [] else Flatten(parts[..|parts| - 1]) + parts[|parts| - 1]
  }

  function Total(parts: seq<seq<Byte>>): nat {
    if parts == [] then 0 else Total(parts[..|parts| - 1]) + |parts[|parts| - 1]|
  }

  /** The chunks that are taken, chosen without looking at any buffer: bytes of
      the response body are, when the lengths taken so far leave room for them. */
  function Taken(cs: seq<Chunk>): seq<seq<Byte>> {
    if cs == [] then [] else
    var earlier, c := Taken(cs[..|cs| - 1]), cs[|cs| - 1];
    if c.state == RespBody && c.data.Some? && c.data.value != [] && Total(earlier) + |c.data.value| <= 0x1_0000
    then earlier + [c.data.value] else earlier
  }

  lemma {:induction false} FlattenLength(parts: seq<seq<Byte>>)
    ensures |Flatten(parts)| == Total(parts)
  {
    if parts != [] { FlattenLength(parts[..|parts| - 1]); }
  }

  /** Over any sequence of calls the body is the concatenation of the chunks
      taken, and it never outgrows the buffer. */
  lemma {:induction false} AccumulateConcatenates(cs: seq<Chunk>)
    ensures Accumulate(cs) == Flatten(Taken(cs))
    ensures |Accumulate(cs)| <= 0x1_0000
  {
    if cs != [] {
      AccumulateConcatenates(cs[..|cs| - 1]);
      FlattenLength(Taken(cs[..|cs| - 1]));
      var earlier := Taken(cs[..|cs| - 1]);
      if Taken(cs) != earlier {
        assert Taken(cs)[..|Taken(cs)| - 1] == earlier;
      }
    }
  }

  // ---------------------------------------------------------------------
  // The body as a C string

  /** What a reader of a NUL-terminated string gets from a buffer, or nothing if
      it would have to read on past the end. */
  function CString(buffer: seq<Byte>): Option<seq<Byte>> {
    if buffer == [] then None
    else if buffer[0] == NUL then Some([])
    else match CString(buffer[1..])
      case None => None
      case Some(s) => Some([buffer[0]] + s)
  }

  lemma {:induction false} CStringStopsAt(buffer: seq<Byte>, n: nat)
    requires n < |buffer| && buffer[n] == NUL && NUL !in buffer[..n]
    ensures CString(buffer) == Some(buffer[..n])
  {
    if n > 0 {
      assert buffer[0] == buffer[..n][0];
      forall i | 0 <= i < n - 1
        ensures buffer[1..][i] != NUL
      {
        assert buffer[1..][i] == buffer[..n][i + 1];
      }
      CStringStopsAt(buffer[1..], n - 1);
      assert [buffer[0]] + buffer[1..][..n - 1] == buffer[..n];
    }
  }

  lemma {:induction false} CStringHasNoNul(buffer: seq<Byte>)
    ensures var r := CString(buffer);
            r.Some? ==> NUL !in r.value && |r.value| < |buffer|
  {
    if buffer != [] { CStringHasNoNul(buffer[1..]); }
  }
}
