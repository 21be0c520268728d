/** The chatbot and translate modules as they run: contexts on the heap, one
    request object overwritten for every message, callbacks that get a pointer
    to a context.  Each callback is proved to be a step of RequestProtocol. */
module QueryModule {
  import opened Basics
  import opened CText
  import opened Http
  import opened RequestText
  import opened RequestProtocol

  /** The fields of mesibo_http_t that change from message to message. */
  class HttpRequest {
    var url: string
    var post: string

    constructor ()
      ensures url == "" && post == ""
    {
      url, post := "", "";
    }

    method Fill(url: string, post: string)
      modifies this
      ensures this.url == url && this.post == post
    {
      this.url := url;
      this.post := post;
    }
  }

  ghost function ValueOf(c: HttpContext<Query>): Context
    requires c.Valid()
    reads c, c.buffer
  {
    Context(c.data, c.status, c.Body())
  }

  /** A loaded module.  The two modules share their data and status callbacks;
      those that differ carry the module's name.  `contexts` are the allocations
      not yet freed, `calls` and `replies` what the host was handed. */
  class Instance {
    const service: Service
    const extract: Extractor
    const request: HttpRequest
    var contexts: map<Cid, HttpContext<Query>>
    var created: nat
    var calls: seq<Call>
    var replies: seq<Reply>
    var destroyedOnError: nat
    var destroyedAfterReply: nat
    var left: set<Cid>
    ghost var values: map<Cid, Context>
    ghost var repr: set<object>

    /** `values` holds what the contexts on the heap stand for. */
    ghost predicate Valid()
      reads this`contexts, this`values, this`repr, this`created, repr
    {
      && this !in repr && request !in repr
      && contexts.Keys == values.Keys
      && (forall c :: c in contexts ==>
            && c < created
            && contexts[c] in repr && contexts[c].buffer in repr && contexts[c].Valid()
            && values[c] == ValueOf(contexts[c]))
      && (forall c, d :: c in contexts && d in contexts && c != d ==>
            contexts[c] != contexts[d] && contexts[c].buffer != contexts[d].buffer)
    }

    /** The abstract state. */
    ghost function Value(): State
      reads this, request
    {
      State(values, created, Request(request.url, request.post), calls, replies,
            destroyedOnError, destroyedAfterReply, left, 0)
    }

    constructor (service: Service, extract: Extractor)
      ensures Valid() && fresh(request) && repr == {}
      ensures this.service == service && this.extract == extract && Value() == INITIAL
    {
      this.service := service;
      this.extract := extract;
      request := new HttpRequest();
      contexts := map[];
      created, destroyedOnError, destroyedAfterReply := 0, 0, 0;
      calls, replies, left := [], [], {};
      values := map[];
      repr := {};
    }

    /** mesibo_util_http, which copies the request before it returns. */
    method StartRequest(cid: Cid)
      modifies this`calls
      ensures calls == old(calls) + [Call(Request(request.url, request.post), cid)]
    {
      calls := calls + [Call(Request(request.url, request.post), cid)];
    }

    method DestroyContext(cid: Cid)
      requires Valid()
      modifies this`contexts, this`values
      ensures Valid() && values == old(values) - {cid}
    {
      contexts := contexts - {cid};
      values := values - {cid};
    }

    method CreateContext(q: Query) returns (cid: Cid)
      requires Valid()
      modifies this`contexts, this`created, this`values, this`repr
      ensures cid == old(created) && created == old(created) + 1
      ensures Valid() && fresh(repr - old(repr))
      ensures values == old(values)[cid := Context(q, 0, [])]
    {
      var context := new HttpContext(q);
      cid := created;
      assert context.buffer[..0] == [];
      contexts := contexts[cid := context];
      values := values[cid := Context(q, 0, [])];
      repr := repr + {context, context.buffer};
      created := created + 1;
    }

    method ProcessMessage(p: Params, url: string, post: string)
      requires Valid()
      modifies this, request
      ensures Valid() && fresh(repr - old(repr))
      ensures Value() == Begin(old(Value()), Query(p, p.from, p.to, post), Request(url, post))
    {
      var cid := CreateContext(Query(p, p.from, p.to, post));
      request.Fill(url, post);
      StartRequest(cid);
    }

    /** chatbot_on_message and chatbot_process_message */
    method ChatbotOnMessage(p: Params, message: string, len: nat) returns (rv: int)
      requires Valid()
      requires service.Chatbot?
      modifies this, request
      ensures Valid() && fresh(repr - old(repr))
      ensures Value() == OnMessage(service, old(Value()), p, message, len)
      ensures rv == if p.to == service.address then MESIBO_RESULT_CONSUMED else MESIBO_RESULT_PASS
    {
      if p.to == service.address {
        var url := service.postUrl + "/" + Decimal(p.id) + ":detectIntent";
        var post := ChatbotPost(Printed(message, len), service.language);
        ProcessMessage(p, url, post);
        return MESIBO_RESULT_CONSUMED;
      }
      return MESIBO_RESULT_PASS;
    }

    /** translate_on_message and translate_process_message */
    method TranslateOnMessage(p: Params, message: string, len: nat) returns (rv: int)
      requires Valid()
      requires service.Translate?
      modifies this, request
      ensures Valid() && fresh(repr - old(repr))
      ensures Value() == OnMessage(service, old(Value()), p, message, len)
      ensures rv == MESIBO_RESULT_CONSUMED
    {
      var post := TranslatePost(Printed(message, len), service.target);
      ProcessMessage(p, service.endpoint, post);
      return MESIBO_RESULT_CONSUMED;
    }

    /** A request that failed on the way. */
    method Discard(cid: Cid)
      requires Valid()
      modifies this`contexts, this`values, this`destroyedOnError
      ensures Valid()
      ensures Value() == old(Value()).(
        contexts := old(values) - {cid}, destroyedOnError := old(destroyedOnError) + 1)
    {
      DestroyContext(cid);
      destroyedOnError := destroyedOnError + 1;
    }

    method ReceiveChunk(b: HttpContext<Query>, cid: Cid, chunk: Chunk) returns (rv: int)
      requires Valid() && cid in contexts && contexts[cid] == b
      modifies this`values, b`datalen, b.buffer
      ensures Valid()
      ensures var c := old(values)[cid];
              && values == old(values)[cid := c.(body := Accept(c.body, chunk))]
              && rv == AcceptResult(c.body, chunk)
    {
      rv := b.Receive(chunk);
      values := values[cid := ValueOf(b)];
    }

    /** The on_data callback of both modules. */
    method HandleData(b: HttpContext<Query>, cid: Cid, chunk: Chunk) returns (rv: int)
      requires Valid() && cid in contexts && contexts[cid] == b
      modifies this`contexts, this`values, this`destroyedOnError, b`datalen, b.buffer
      ensures Valid()
      ensures Value() == OnData(old(Value()), cid, chunk)
      ensures rv == if chunk.progress < 0 then MESIBO_RESULT_FAIL
                    else AcceptResult(old(b.Body()), chunk)
    {
      if chunk.progress < 0 {
        Discard(cid);
        return MESIBO_RESULT_FAIL;
      }
      rv := ReceiveChunk(b, cid, chunk);
    }

    /** The on_status callback of both modules. */
    method HandleStatus(b: HttpContext<Query>, cid: Cid, status: int) returns (rv: int)
      requires Valid() && cid in contexts && contexts[cid] == b
      modifies this`values, b`status
      ensures Valid()
      ensures Value() == OnStatus(old(Value()), cid, status)
      ensures rv == MESIBO_RESULT_OK
    {
      b.OnStatus(status);
      values := values[cid := ValueOf(b)];
      return MESIBO_RESULT_OK;
    }

    /** mesibo_message: the host copies parameters and text. */
    method SendMessage(cid: Cid, p: ReplyParams, text: string)
      modifies this`replies
      ensures replies == old(replies) + [Reply(cid, p, text)]
    {
      replies := replies + [Reply(cid, p, text)];
    }

    /** Replies and frees the context. */
    method Answer(cid: Cid, p: ReplyParams, text: string)
      requires Valid()
      modifies this`contexts, this`values, this`replies, this`destroyedAfterReply
      ensures Valid()
      ensures Value() == old(Value()).(
        replies := old(replies) + [Reply(cid, p, text)],
        contexts := old(values) - {cid},
        destroyedAfterReply := old(destroyedAfterReply) + 1)
    {
      SendMessage(cid, p, text);
      DestroyContext(cid);
      destroyedAfterReply := destroyedAfterReply + 1;
    }

    /** chatbot_http_on_close_callback */
    method ChatbotOnClose(b: HttpContext<Query>, cid: Cid, result: int, newId: nat)
      requires Valid() && cid in contexts && contexts[cid] == b
      requires service.Chatbot?
      modifies this`contexts, this`values, this`replies, this`left, this`destroyedAfterReply
      ensures Valid()
      ensures Value() == OnClose(service, extract, old(Value()), cid, result, newId)
    {
      assert values[cid] == ValueOf(b);
      var extracted := None;
      if result != MESIBO_RESULT_FAIL {
        extracted := extract(b.buffer[..b.datalen], service.responseField);
      }
      if extracted.None? {
        left := left + {cid};
      } else {
        var p := ReplyParams(newId, b.data.params.id, b.data.params.aid, b.data.to, b.data.from, 3600);
        Answer(cid, p, extracted.value);
      }
    }

    /** translate_http_on_close_callback; the extracted text must not be null,
        since its length is taken. */
    method TranslateOnClose(b: HttpContext<Query>, cid: Cid, result: int, newId: nat)
      requires Valid() && cid in contexts && contexts[cid] == b
      requires service.Translate?
      requires result != MESIBO_RESULT_FAIL ==> extract(b.Body(), "translatedText").Some?
      modifies this`contexts, this`values, this`replies, this`left, this`destroyedAfterReply
      ensures Valid()
      ensures Value() == OnClose(service, extract, old(Value()), cid, result, newId)
    {
      assert values[cid] == ValueOf(b);
      if result == MESIBO_RESULT_FAIL {
        left := left + {cid};
      } else {
        var p := ReplyParams(newId, b.data.params.id, b.data.params.aid, b.data.from, b.data.to, 3600);
        var extracted := extract(b.buffer[..b.datalen], "translatedText");
        Answer(cid, p, extracted.value);
      }
    }
  }
}
