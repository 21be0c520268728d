/** The request protocol of the chatbot and translate modules, as a step system:
    a message is consumed, a context allocated and a request started; then the
    host calls back, for any number of requests in any order.

    The steps are total.  A callback on a context that is not live is counted in
    `faults`, and so is sending a null text, so that safety is a theorem about
    hosts that keep their side of the contract. */
module RequestProtocol {
  import opened Basics
  import opened CText
  import opened Http
  import opened Json
  import opened RequestText

  type Cid = nat

  datatype Params = Params(
    aid: nat, id: nat, refid: nat, groupid: nat, flags: nat, kind: nat, expiry: nat,
    from: string, to: string)

  datatype Service =
    | Chatbot(address: string, postUrl: string, language: string, responseField: string)
    | Translate(endpoint: string, target: string)

  /** What a context keeps of its message. */
  datatype Query = Query(params: Params, from: string, to: string, postData: string)

  datatype Context = Context(query: Query, status: int, body: seq<Byte>)

  /** The fields of mesibo_http_t that are overwritten for each message. */
  datatype Request = Request(url: string, post: string)

  /** What the host was asked to do; it copies the request before returning. */
  datatype Call = Call(request: Request, cid: Cid)

  datatype ReplyParams = ReplyParams(id: nat, refid: nat, aid: nat, from: string, to: string, expiry: nat)

  /** A message sent; `cid` names the context it was sent for. */
  datatype Reply = Reply(cid: Cid, params: ReplyParams, text: string)

  datatype State = State(
    contexts: map<Cid, Context>,
    created: nat,
    request: Request,
    calls: seq<Call>,
    replies: seq<Reply>,
    destroyedOnError: nat,
    destroyedAfterReply: nat,
    left: set<Cid>,
    faults: nat)

  const INITIAL := State(map[], 0, Request("", ""), [], [], 0, 0, {}, 0)

  datatype Event =
    | Message(params: Params, message: string, len: nat)
    | Data(cid: Cid, chunk: Chunk)
    | Status(cid: Cid, status: int)
    | Close(cid: Cid, result: int, newId: nat)   // newId is what rand() returns

  /** mesibo_util_json_extract, part of the host. */
  type Extractor = (seq<Byte>, string) -> Option<string>

  predicate Accepts(service: Service, p: Params) {
    match service
    case Chatbot(address, _, _, _) => p.to == address
    case Translate(_, _) => true
  }

  function PostData(service: Service, message: string, len: nat): string {
    match service
    case Chatbot(_, _, language, _) => ChatbotPost(Printed(message, len), language)
    case Translate(_, target) => TranslatePost(Printed(message, len), target)
  }

  function RequestFor(service: Service, p: Params, message: string, len: nat): Request {
    match service
    case Chatbot(_, postUrl, _, _) =>
      Request(postUrl + "/" + Decimal(p.id) + ":detectIntent", PostData(service, message, len))
    case Translate(endpoint, _) => Request(endpoint, PostData(service, message, len))
  }

  function Field(service: Service): string {
    match service
    case Chatbot(_, _, _, responseField) => responseField
    case Translate(_, _) => "translatedText"
  }

  function ReplyTo(service: Service, q: Query, newId: nat): ReplyParams {
    match service
    case Chatbot(_, _, _, _) => ReplyParams(newId, q.params.id, q.params.aid, q.to, q.from, 3600)
    case Translate(_, _) => ReplyParams(newId, q.params.id, q.params.aid, q.from, q.to, 3600)
  }

  function Fault(s: State): State {
    s.(faults := s.faults + 1)
  }

  function QueryOf(service: Service, p: Params, message: string, len: nat): Query {
    Query(p, p.from, p.to, PostData(service, message, len))
  }

  function OnMessage(service: Service, s: State, p: Params, message: string, len: nat): State {
    if !Accepts(service, p) then s
    else Begin(s, QueryOf(service, p, message, len), RequestFor(service, p, message, len))
  }

  /** A new context, the shared request overwritten, and the host called. */
  function Begin(s: State, q: Query, request: Request): State {
    s.(contexts := s.contexts[s.created := Context(q, 0, [])],
       created := s.created + 1,
       request := request,
       calls := s.calls + [Call(request, s.created)])
  }

  function OnData(s: State, cid: Cid, chunk: Chunk): State {
    if cid !in s.contexts then Fault(s)
    else if chunk.progress < 0 then
      s.(contexts := s.contexts - {cid}, destroyedOnError := s.destroyedOnError + 1)
    else
      var c := s.contexts[cid];
      s.(contexts := s.contexts[cid := c.(body := Accept(c.body, chunk))])
  }

  function OnStatus(s: State, cid: Cid, status: int): State {
    if cid !in s.contexts then Fault(s)
    else s.(contexts := s.contexts[cid := s.contexts[cid].(status := status)])
  }

  function OnClose(service: Service, extract: Extractor, s: State, cid: Cid, result: int, newId: nat): State {
    if cid !in s.contexts then Fault(s)
    else if result == MESIBO_RESULT_FAIL then s.(left := s.left + {cid})
    else
      var c := s.contexts[cid];
      match extract(c.body, Field(service))
      case None =>
        if service.Chatbot? then s.(left := s.left + {cid}) else Fault(s)
      case Some(text) =>
        s.(replies := s.replies + [Reply(cid, ReplyTo(service, c.query, newId), text)],
           contexts := s.contexts - {cid},
           destroyedAfterReply := s.destroyedAfterReply + 1)
  }

  function Step(service: Service, extract: Extractor, s: State, e: Event): State {
    match e
    case Message(p, message, len) => OnMessage(service, s, p, message, len)
    case Data(cid, chunk) => OnData(s, cid, chunk)
    case Status(cid, status) => OnStatus(s, cid, status)
    case Close(cid, result, newId) => OnClose(service, extract, s, cid, result, newId)
  }

  function Run(service: Service, extract: Extractor, es: seq<Event>): State {
    if es == [] then INITIAL
    else Step(service, extract, Run(service, extract, es[..|es| - 1]), es[|es| - 1])
  }

  // ---------------------------------------------------------------------
  // The trace alone: what one query is about, without any module state

  /** The consumed messages, in order: for the chatbot those to its address, for
      translate all; the n-th one gets context n. */
  function Consumed(service: Service, es: seq<Event>): seq<Event> {
    if es == [] then [] else
    var earlier, e := Consumed(service, es[..|es| - 1]), es[|es| - 1];
    if e.Message? && (service.Translate? || e.params.to == service.address) then earlier + [e] else earlier
  }

  /** The on_data calls made for one context, in order. */
  function ChunksFor(es: seq<Event>, cid: Cid): seq<Chunk> {
    if es == [] then [] else
    var earlier, e := ChunksFor(es[..|es| - 1], cid), es[|es| - 1];
    if e.Data? && e.cid == cid then earlier + [e.chunk] else earlier
  }

  /** The last status reported for one context, or zero. */
  function StatusFor(es: seq<Event>, cid: Cid): int {
    if es == [] then 0 else
    var e := es[|es| - 1];
    if e.Status? && e.cid == cid then e.status else StatusFor(es[..|es| - 1], cid)
  }

  /** How the host ended one context, if it did. */
  datatype Ending = Open | Errored | Closed(result: int, newId: nat)

  function EndingFor(es: seq<Event>, cid: Cid): Ending {
    if es == [] then Open else
    var e := es[|es| - 1];
    if e.Data? && e.cid == cid && e.chunk.progress < 0 then Errored
    else if e.Close? && e.cid == cid then Closed(e.result, e.newId)
    else EndingFor(es[..|es| - 1], cid)
  }

  /** The host's side of the contract: callbacks only for contexts it was given,
      and none after it closed one or reported an error on it. */
  predicate HostKeeps(service: Service, es: seq<Event>) {
    es == [] ||
    var before, e := es[..|es| - 1], es[|es| - 1];
    && HostKeeps(service, before)
    && (e.Message? || (e.cid < |Consumed(service, before)| && EndingFor(before, e.cid) == Open))
  }

  /** What the reply for a query must be, read off the trace. */
  function ExpectedText(service: Service, extract: Extractor, es: seq<Event>, cid: Cid): Option<string> {
    extract(Accumulate(ChunksFor(es, cid)),
            if service.Chatbot? then service.responseField else "translatedText")
  }

  /** Whether a query is to be answered: closed without failure, field found. */
  predicate Answered(service: Service, extract: Extractor, es: seq<Event>, cid: Cid) {
    var ending := EndingFor(es, cid);
    && ending.Closed? && ending.result != -1
    && ExpectedText(service, extract, es, cid).Some?
  }

  // ---------------------------------------------------------------------
  // The module state agrees with the trace

  ghost predicate Replied(s: State, cid: Cid) {
    exists i :: 0 <= i < |s.replies| && s.replies[i].cid == cid
  }

  /** What the state holds for one context. */
  ghost predicate Tracked(service: Service, extract: Extractor, es: seq<Event>, s: State, cid: Cid) {
    var consumed := Consumed(service, es);
    if cid >= |consumed| then
      && cid !in s.contexts && cid !in s.left && !Replied(s, cid)
      && EndingFor(es, cid) == Open && ChunksFor(es, cid) == [] && StatusFor(es, cid) == 0
    else match EndingFor(es, cid)
      case Open =>
        && cid in s.contexts && cid !in s.left && !Replied(s, cid)
        && Reflects(service, es, s.contexts[cid], consumed[cid], cid)
      case Errored => cid !in s.contexts && cid !in s.left && !Replied(s, cid)
      case Closed(_, _) =>
        if Answered(service, extract, es, cid)
        then cid !in s.contexts && cid !in s.left && Replied(s, cid)
        else
          && cid in s.contexts && cid in s.left && !Replied(s, cid)
          && Reflects(service, es, s.contexts[cid], consumed[cid], cid)
  }

  /** What a context holds, read off the trace. */
  predicate Reflects(service: Service, es: seq<Event>, c: Context, e: Event, cid: Cid) {
    && c.query == QueryIn(service, e)
    && c.status == StatusFor(es, cid)
    && c.body == Accumulate(ChunksFor(es, cid))
  }

  function QueryIn(service: Service, e: Event): Query {
    if e.Message? then Query(e.params, e.params.from, e.params.to, PostData(service, e.message, e.len))
    else Query(Params(0, 0, 0, 0, 0, 0, 0, "", ""), "", "", "")
  }

  /** What one reply says, read off the trace. */
  ghost predicate RightReply(service: Service, extract: Extractor, es: seq<Event>, r: Reply) {
    var consumed := Consumed(service, es);
    && r.cid < |consumed|
    && Answered(service, extract, es, r.cid)
    && r.params == ReplyTo(service, QueryIn(service, consumed[r.cid]), EndingFor(es, r.cid).newId)
    && Some(r.text) == ExpectedText(service, extract, es, r.cid)
  }

  /** The translate module passes on whatever extraction yields, so it relies on
      the field being there in every response closed without failure. */
  ghost predicate ExtractionServes(service: Service, extract: Extractor, es: seq<Event>) {
    service.Translate? ==> forall cid: Cid ::
      EndingFor(es, cid).Closed? && EndingFor(es, cid).result != MESIBO_RESULT_FAIL ==>
        ExpectedText(service, extract, es, cid).Some?
  }

  ghost predicate Agrees(service: Service, extract: Extractor, es: seq<Event>, s: State) {
    && s.faults == 0
    && s.created == |Consumed(service, es)|
    && (forall cid :: Tracked(service, extract, es, s, cid))
    && (forall i :: 0 <= i < |s.replies| ==> RightReply(service, extract, es, s.replies[i]))
    && (forall i, j :: 0 <= i < j < |s.replies| ==> s.replies[i].cid != s.replies[j].cid)
  }

  /** A step that is not about `cid` leaves everything about it alone. */
  lemma OtherUnaffected(service: Service, extract: Extractor, before: seq<Event>, e: Event, cid: Cid)
    requires e.Message? || e.cid != cid
    ensures var es := before + [e];
            && EndingFor(es, cid) == EndingFor(before, cid)
            && ChunksFor(es, cid) == ChunksFor(before, cid)
            && StatusFor(es, cid) == StatusFor(before, cid)
            && Answered(service, extract, es, cid) == Answered(service, extract, before, cid)
            && ExpectedText(service, extract, es, cid) == ExpectedText(service, extract, before, cid)
  {
    var es := before + [e];
    assert es[..|es| - 1] == before;
  }

  lemma ConsumedGrows(service: Service, before: seq<Event>, e: Event)
    ensures var c, c' := Consumed(service, before), Consumed(service, before + [e]);
            c' == if e.Message? && Accepts(service, e.params) then c + [e] else c
  {
    var es := before + [e];
    assert es[..|es| - 1] == before;
  }

  lemma MessageAgrees(service: Service, extract: Extractor, before: seq<Event>, e: Event, s: State)
    requires e.Message? && Agrees(service, extract, before, s)
    ensures Agrees(service, extract, before + [e], Step(service, extract, s, e))
  {
    var s' := Step(service, extract, s, e);
    ConsumedGrows(service, before, e);
    forall cid
      ensures Tracked(service, extract, before + [e], s', cid)
    {
      assert Tracked(service, extract, before, s, cid);
      MessageTracked(service, extract, before, e, s, s', cid);
    }
    forall i | 0 <= i < |s'.replies|
      ensures RightReply(service, extract, before + [e], s'.replies[i])
    {
      assert RightReply(service, extract, before, s.replies[i]);
      OtherUnaffected(service, extract, before, e, s.replies[i].cid);
    }
  }

  /** A context there was before stays as it is. */
  lemma OldContextTracked(service: Service, extract: Extractor, before: seq<Event>, e: Event,
                          s: State, s': State, cid: Cid)
    requires e.Message? && Tracked(service, extract, before, s, cid) && cid < |Consumed(service, before)|
    requires cid in s'.contexts <==> cid in s.contexts
    requires cid in s.contexts ==> s'.contexts[cid] == s.contexts[cid]
    requires s'.left == s.left && s'.replies == s.replies
    ensures Tracked(service, extract, before + [e], s', cid)
  {
    ConsumedGrows(service, before, e);
    OtherUnaffected(service, extract, before, e, cid);
    assert Replied(s', cid) <==> Replied(s, cid);
  }

  lemma NewContextTracked(service: Service, extract: Extractor, before: seq<Event>, e: Event,
                          s: State, s': State, cid: Cid)
    requires e.Message? && Accepts(service, e.params)
    requires Tracked(service, extract, before, s, cid) && cid == |Consumed(service, before)|
    requires cid in s'.contexts && s'.contexts[cid] == Context(QueryIn(service, e), 0, [])
    requires s'.left == s.left && s'.replies == s.replies
    ensures Tracked(service, extract, before + [e], s', cid)
  {
    ConsumedGrows(service, before, e);
    OtherUnaffected(service, extract, before, e, cid);
    assert Replied(s', cid) <==> Replied(s, cid);
  }

  lemma NoContextTracked(service: Service, extract: Extractor, before: seq<Event>, e: Event,
                         s: State, s': State, cid: Cid)
    requires e.Message? && Tracked(service, extract, before, s, cid)
    requires cid >= |Consumed(service, before + [e])| >= |Consumed(service, before)|
    requires cid !in s'.contexts
    requires s'.left == s.left && s'.replies == s.replies
    ensures Tracked(service, extract, before + [e], s', cid)
  {
    OtherUnaffected(service, extract, before, e, cid);
    assert Replied(s', cid) <==> Replied(s, cid);
  }

  lemma MessageTracked(service: Service, extract: Extractor, before: seq<Event>, e: Event,
                       s: State, s': State, cid: Cid)
    requires e.Message? && Tracked(service, extract, before, s, cid)
    requires s.created == |Consumed(service, before)|
    requires s'.left == s.left && s'.replies == s.replies
    requires s'.contexts == if !Accepts(service, e.params) then s.contexts
                            else s.contexts[s.created := Context(QueryIn(service, e), 0, [])]
    ensures Tracked(service, extract, before + [e], s', cid)
  {
    ConsumedGrows(service, before, e);
    if cid < s.created {
      OldContextTracked(service, extract, before, e, s, s', cid);
    } else if cid == s.created && Accepts(service, e.params) {
      NewContextTracked(service, extract, before, e, s, s', cid);
    } else {
      NoContextTracked(service, extract, before, e, s, s', cid);
    }
  }

  /** A data or status callback on an open context. */
  lemma ProgressAgrees(service: Service, extract: Extractor, before: seq<Event>, e: Event, s: State)
    requires e.Data? || e.Status?
    requires Agrees(service, extract, before, s)
    requires e.cid < |Consumed(service, before)| && EndingFor(before, e.cid) == Open
    ensures Agrees(service, extract, before + [e], Step(service, extract, s, e))
  {
    var es, s' := before + [e], Step(service, extract, s, e);
    assert es[..|es| - 1] == before;
    ConsumedGrows(service, before, e);
    assert Tracked(service, extract, before, s, e.cid);
    forall cid
      ensures Tracked(service, extract, es, s', cid)
    {
      assert Tracked(service, extract, before, s, cid);
      assert Replied(s', cid) <==> Replied(s, cid);
      if cid != e.cid {
        OtherUnaffected(service, extract, before, e, cid);
      } else if e.Data? {
        assert ChunksFor(es, cid)[..|ChunksFor(es, cid)| - 1] == ChunksFor(before, cid);
      }
    }
    forall i | 0 <= i < |s'.replies|
      ensures RightReply(service, extract, es, s'.replies[i])
    {
      assert RightReply(service, extract, before, s.replies[i]);
      assert Tracked(service, extract, before, s, s.replies[i].cid);
      assert s.replies[i].cid != e.cid;
      OtherUnaffected(service, extract, before, e, s.replies[i].cid);
    }
  }

  lemma CloseTracked(service: Service, extract: Extractor, before: seq<Event>, e: Event, s: State, cid: Cid)
    requires e.Close? && Tracked(service, extract, before, s, e.cid) && Tracked(service, extract, before, s, cid)
    requires service.Translate? && e.result != MESIBO_RESULT_FAIL ==>
      ExpectedText(service, extract, before, e.cid).Some?
    requires e.cid < |Consumed(service, before)| && EndingFor(before, e.cid) == Open
    ensures Tracked(service, extract, before + [e], Step(service, extract, s, e), cid)
  {
    var es, s' := before + [e], Step(service, extract, s, e);
    assert es[..|es| - 1] == before;
    ConsumedGrows(service, before, e);
    if cid != e.cid {
      OtherUnaffected(service, extract, before, e, cid);
      CloseReplied(s, s', e.cid, cid);
    } else {
      assert ExpectedText(service, extract, es, cid) == extract(s.contexts[cid].body, Field(service));
      assert s'.replies == s.replies || s'.replies[|s.replies|].cid == cid;
    }
  }

  lemma CloseAgrees(service: Service, extract: Extractor, before: seq<Event>, e: Event, s: State)
    requires e.Close? && Agrees(service, extract, before, s)
    requires service.Translate? && e.result != MESIBO_RESULT_FAIL ==>
      ExpectedText(service, extract, before, e.cid).Some?
    requires e.cid < |Consumed(service, before)| && EndingFor(before, e.cid) == Open
    ensures Agrees(service, extract, before + [e], Step(service, extract, s, e))
  {
    var es, s' := before + [e], Step(service, extract, s, e);
    assert es[..|es| - 1] == before;
    ConsumedGrows(service, before, e);
    assert Tracked(service, extract, before, s, e.cid);
    assert ExpectedText(service, extract, es, e.cid) == extract(s.contexts[e.cid].body, Field(service));
    forall cid
      ensures Tracked(service, extract, es, s', cid)
    {
      CloseTracked(service, extract, before, e, s, cid);
    }
    forall i | 0 <= i < |s.replies|
      ensures RightReply(service, extract, es, s'.replies[i]) && s'.replies[i].cid != e.cid
    {
      assert RightReply(service, extract, before, s.replies[i]);
      assert Tracked(service, extract, before, s, s.replies[i].cid);
      assert Replied(s, s.replies[i].cid);
      OtherUnaffected(service, extract, before, e, s.replies[i].cid);
    }
  }

  lemma CloseReplied(s: State, s': State, closed: Cid, cid: Cid)
    requires cid != closed
    requires s'.replies == s.replies || (|s'.replies| == |s.replies| + 1
      && s'.replies[..|s.replies|] == s.replies && s'.replies[|s.replies|].cid == closed)
    ensures Replied(s', cid) <==> Replied(s, cid)
  {
    if Replied(s, cid) {
      var i :| 0 <= i < |s.replies| && s.replies[i].cid == cid;
      assert s'.replies[i] == s'.replies[..|s.replies|][i] || s'.replies == s.replies;
      assert s'.replies[i].cid == cid;
    }
    if Replied(s', cid) {
      var i :| 0 <= i < |s'.replies| && s'.replies[i].cid == cid;
      assert i < |s.replies|;
      assert s'.replies[i] == s'.replies[..|s.replies|][i] || s'.replies == s.replies;
      assert s.replies[i].cid == cid;
    }
  }

  /** Under the host's contract, what serves a run served every earlier stage of it. */
  lemma ServesBefore(service: Service, extract: Extractor, before: seq<Event>, e: Event)
    requires HostKeeps(service, before + [e]) && ExtractionServes(service, extract, before + [e])
    ensures ExtractionServes(service, extract, before)
    ensures service.Translate? && e.Close? && e.result != MESIBO_RESULT_FAIL ==>
      ExpectedText(service, extract, before, e.cid).Some?
  {
    var es := before + [e];
    assert es[..|es| - 1] == before;
    if service.Translate? {
      forall cid: Cid | EndingFor(before, cid).Closed? && EndingFor(before, cid).result != MESIBO_RESULT_FAIL
        ensures ExpectedText(service, extract, before, cid).Some?
      {
        OtherUnaffected(service, extract, before, e, cid);
      }
      if e.Close? && e.result != MESIBO_RESULT_FAIL {
        assert EndingFor(es, e.cid).Closed?;
        assert ChunksFor(es, e.cid) == ChunksFor(before, e.cid);
      }
    }
  }

  lemma {:induction false} RunAgrees(service: Service, extract: Extractor, es: seq<Event>)
    requires HostKeeps(service, es) && ExtractionServes(service, extract, es)
    ensures Agrees(service, extract, es, Run(service, extract, es))
  {
    if es != [] {
      var before, e := es[..|es| - 1], es[|es| - 1];
      assert es == before + [e];
      ServesBefore(service, extract, before, e);
      RunAgrees(service, extract, before);
      StepAgrees(service, extract, before, e, Run(service, extract, before));
    }
  }

  lemma StepAgrees(service: Service, extract: Extractor, before: seq<Event>, e: Event, s: State)
    requires Agrees(service, extract, before, s)
    requires e.Message? || (e.cid < |Consumed(service, before)| && EndingFor(before, e.cid) == Open)
    requires service.Translate? && e.Close? && e.result != MESIBO_RESULT_FAIL ==>
      ExpectedText(service, extract, before, e.cid).Some?
    ensures Agrees(service, extract, before + [e], Step(service, extract, s, e))
  {
    if e.Message? {
      MessageAgrees(service, extract, before, e, s);
    } else if e.Close? {
      CloseAgrees(service, extract, before, e, s);
    } else {
      ProgressAgrees(service, extract, before, e, s);
    }
  }

  lemma ServesAfter(service: Service, extract: Extractor, before: seq<Event>, e: Event)
    requires HostKeeps(service, before + [e]) && ExtractionServes(service, extract, before)
    requires service.Translate? && e.Close? && e.result != MESIBO_RESULT_FAIL ==>
      ExpectedText(service, extract, before, e.cid).Some?
    ensures ExtractionServes(service, extract, before + [e])
  {
    var es := before + [e];
    assert es[..|es| - 1] == before;
    if service.Translate? {
      forall cid: Cid | EndingFor(es, cid).Closed? && EndingFor(es, cid).result != MESIBO_RESULT_FAIL
        ensures ExpectedText(service, extract, es, cid).Some?
      {
        if !e.Message? && e.cid == cid {
          assert ChunksFor(es, cid) == ChunksFor(before, cid);
        } else {
          OtherUnaffected(service, extract, before, e, cid);
        }
      }
    }
  }

  /** Under the host's contract nothing ever goes wrong, exactly when extraction
      serves; the chatbot module, which checks for a missing field, needs nothing. */
  lemma {:induction false} FaultFreeExactly(service: Service, extract: Extractor, es: seq<Event>)
    requires HostKeeps(service, es)
    ensures Run(service, extract, es).faults == 0 <==> ExtractionServes(service, extract, es)
  {
    if ExtractionServes(service, extract, es) {
      RunAgrees(service, extract, es);
    } else {
      var before, e := es[..|es| - 1], es[|es| - 1];
      assert es == before + [e];
      FaultFreeExactly(service, extract, before);
      if ExtractionServes(service, extract, before) {
        RunAgrees(service, extract, before);
        if !(service.Translate? && e.Close? && e.result != MESIBO_RESULT_FAIL
             && ExpectedText(service, extract, before, e.cid).None?) {
          ServesAfter(service, extract, before, e);
          assert false;
        }
        assert Tracked(service, extract, before, Run(service, extract, before), e.cid);
      }
    }
  }

  // ---------------------------------------------------------------------
  // Main results

  /** A reply to its own query: ids, addresses and text are those of the one
      message its context was made for and of the chunks taken for that context. */
  ghost predicate Routed(service: Service, extract: Extractor, es: seq<Event>, r: Reply) {
    var consumed := Consumed(service, es);
    var field := if service.Chatbot? then service.responseField else "translatedText";
    && r.cid < |consumed| && consumed[r.cid].Message?
    && var p, ending := consumed[r.cid].params, EndingFor(es, r.cid);
    && ending.Closed? && r.params.id == ending.newId
    && r.params.refid == p.id && r.params.aid == p.aid && r.params.expiry == 3600
    && (service.Chatbot? ==> r.params.from == p.to == service.address && r.params.to == p.from)
    && (service.Translate? ==> r.params.from == p.from && r.params.to == p.to)
    && extract(Flatten(Taken(ChunksFor(es, r.cid))), field) == Some(r.text)
  }

  /** Each reply answers its own query, whatever was in flight beside it; and a
      query is answered once if the host closed it without failure and the field
      was found, else never. */
  lemma RepliesAreRouted(service: Service, extract: Extractor, es: seq<Event>)
    requires HostKeeps(service, es) && ExtractionServes(service, extract, es)
    ensures var replies, consumed := Run(service, extract, es).replies, Consumed(service, es);
      var field := if service.Chatbot? then service.responseField else "translatedText";
      && (forall i :: 0 <= i < |replies| ==> Routed(service, extract, es, replies[i]))
      && (forall i, j :: 0 <= i < j < |replies| ==> replies[i].cid != replies[j].cid)
      && (forall cid: Cid :: cid < |consumed| ==>
            ((exists i :: 0 <= i < |replies| && replies[i].cid == cid) <==>
              var ending := EndingFor(es, cid);
              && ending.Closed? && ending.result != -1
              && extract(Flatten(Taken(ChunksFor(es, cid))), field).Some?))
  {
    RunAgrees(service, extract, es);
    var s := Run(service, extract, es);
    forall i | 0 <= i < |s.replies|
      ensures Routed(service, extract, es, s.replies[i])
    {
      assert RightReply(service, extract, es, s.replies[i]);
      ReplyIsRouted(service, extract, es, s.replies[i]);
    }
    forall cid: Cid | cid < |Consumed(service, es)|
      ensures Answered(service, extract, es, cid) <==> Replied(s, cid)
      ensures Accumulate(ChunksFor(es, cid)) == Flatten(Taken(ChunksFor(es, cid)))
    {
      assert Tracked(service, extract, es, s, cid);
      AccumulateConcatenates(ChunksFor(es, cid));
    }
  }

  lemma ReplyIsRouted(service: Service, extract: Extractor, es: seq<Event>, r: Reply)
    requires RightReply(service, extract, es, r)
    ensures Routed(service, extract, es, r)
  {
    ConsumedAreMessages(service, es);
    assert ConsumedMessage(service, Consumed(service, es)[r.cid]);
    AccumulateConcatenates(ChunksFor(es, r.cid));
  }

  /** Every context not yet destroyed holds the parameters of its own message, the
      body of its own request, the last status reported for it and the chunks
      taken for it. */
  lemma ContextsHoldTheirOwn(service: Service, extract: Extractor, es: seq<Event>, cid: Cid)
    requires HostKeeps(service, es) && ExtractionServes(service, extract, es)
    requires cid in Run(service, extract, es).contexts
    ensures var s, consumed := Run(service, extract, es), Consumed(service, es);
      && cid < |consumed| && consumed[cid].Message? && cid < |s.calls|
      && var c, p := s.contexts[cid], consumed[cid].params;
      && c.query == Query(p, p.from, p.to, s.calls[cid].request.post)
      && c.status == StatusFor(es, cid)
      && c.body == Flatten(Taken(ChunksFor(es, cid)))
  {
    RunAgrees(service, extract, es);
    CallsCarryTheirOwnRequest(service, extract, es);
    var s, consumed := Run(service, extract, es), Consumed(service, es);
    assert Tracked(service, extract, es, s, cid);
    assert CallMatches(service, s.calls[cid], consumed[cid], cid);
    AccumulateConcatenates(ChunksFor(es, cid));
  }

  lemma {:induction false} ConsumedAreMessages(service: Service, es: seq<Event>)
    ensures forall i :: 0 <= i < |Consumed(service, es)| ==> ConsumedMessage(service, Consumed(service, es)[i])
  {
    if es != [] {
      var before, e := es[..|es| - 1], es[|es| - 1];
      assert es == before + [e];
      ConsumedAreMessages(service, before);
      ConsumedGrows(service, before, e);
    }
  }

  predicate ConsumedMessage(service: Service, e: Event) {
    e.Message? && Accepts(service, e.params)
  }

  /** The n-th call: the query's own url, its own message in the body, context n. */
  predicate CallMatches(service: Service, call: Call, e: Event, n: nat) {
    && e.Message? && call.cid == n
    && match service
       case Chatbot(_, postUrl, language, _) =>
         && call.request.url == postUrl + "/" + Decimal(e.params.id) + ":detectIntent"
         && call.request.post == ChatbotPost(Printed(e.message, e.len), language)
       case Translate(endpoint, target) =>
         && call.request.url == endpoint
         && call.request.post == TranslatePost(Printed(e.message, e.len), target)
  }

  ghost predicate CallsMatch(service: Service, s: State, consumed: seq<Event>) {
    && s.created == |consumed| == |s.calls|
    && (forall i :: 0 <= i < |consumed| ==> CallMatches(service, s.calls[i], consumed[i], i))
    && (consumed != [] ==> s.request == s.calls[|consumed| - 1].request)
  }

  /** The n-th request the host received is the one for the n-th consumed
      message, although every message overwrites the same request object. */
  lemma {:induction false} CallsCarryTheirOwnRequest(service: Service, extract: Extractor, es: seq<Event>)
    ensures CallsMatch(service, Run(service, extract, es), Consumed(service, es))
  {
    if es != [] {
      var before, e := es[..|es| - 1], es[|es| - 1];
      CallsCarryTheirOwnRequest(service, extract, before);
      CallsStep(service, extract, Run(service, extract, before), Consumed(service, before), e);
    }
  }

  lemma CallsUnchanged(service: Service, extract: Extractor, s: State, e: Event)
    requires !ConsumedMessage(service, e)
    ensures var s' := Step(service, extract, s, e);
            s'.calls == s.calls && s'.request == s.request && s'.created == s.created
  {
  }

  lemma CallsStep(service: Service, extract: Extractor, s: State, consumed: seq<Event>, e: Event)
    requires CallsMatch(service, s, consumed)
    ensures CallsMatch(service, Step(service, extract, s, e),
                       if ConsumedMessage(service, e) then consumed + [e] else consumed)
  {
    if ConsumedMessage(service, e) {
      var request := RequestFor(service, e.params, e.message, e.len);
      var q := QueryOf(service, e.params, e.message, e.len);
      assert Step(service, extract, s, e) == Begin(s, q, request);
      CallsAppend(service, s, consumed, e, q, request);
    } else {
      CallsUnchanged(service, extract, s, e);
    }
  }

  lemma CallsAppend(service: Service, s: State, consumed: seq<Event>, e: Event, q: Query, request: Request)
    requires CallsMatch(service, s, consumed)
    requires CallMatches(service, Call(request, s.created), e, s.created)
    ensures CallsMatch(service, Begin(s, q, request), consumed + [e])
  {
  }

  /** The document a request body is meant to be. */
  function Document(service: Service, text: string): Value {
    match service
    case Chatbot(_, _, language, _) => ChatbotDocument(text, language)
    case Translate(_, target) => PairValue("q", text, "target", target)
  }

  function Language(service: Service): string {
    if service.Chatbot? then service.language else service.target
  }

  /** Each body sent is JSON for its own message, cut at the first NUL or at its
      length as an int, exactly when message and language need no escaping. */
  lemma BodiesReadBack(service: Service, extract: Extractor, es: seq<Event>, i: nat)
    requires i < |Consumed(service, es)|
    ensures var s, e := Run(service, extract, es), Consumed(service, es)[i];
      && i < |s.calls| && e.Message?
      && var text := Printed(e.message, e.len);
         (ParseText(s.calls[i].request.post) == Parse.Done(Document(service, text), []) <==>
          AllUnescaped(text) && AllUnescaped(Language(service)))
  {
    CallsCarryTheirOwnRequest(service, extract, es);
    assert CallMatches(service, Run(service, extract, es).calls[i], Consumed(service, es)[i], i);
    var text := Printed(Consumed(service, es)[i].message, Consumed(service, es)[i].len);
    if service.Chatbot? {
      ChatbotPostReadsBack(text, service.language);
    } else {
      TranslatePostReadsBack(text, service.target);
    }
  }

  /** Two runs in which one query each had the same message, chunks and ending. */
  ghost predicate TreatedAlike(service: Service, es: seq<Event>, cid: Cid, es': seq<Event>, cid': Cid) {
    var consumed, consumed' := Consumed(service, es), Consumed(service, es');
    && cid < |consumed| && cid' < |consumed'|
    && consumed[cid] == consumed'[cid']
    && ChunksFor(es, cid) == ChunksFor(es', cid')
    && EndingFor(es, cid) == EndingFor(es', cid')
  }

  /** Two runs, possibly with quite different traffic around it, that treat one
      query alike give it the same answer, or none in either. */
  lemma InterleavingIsIrrelevant(service: Service, extract: Extractor,
                                 es: seq<Event>, r: Reply, es': seq<Event>, cid: Cid)
    requires HostKeeps(service, es) && ExtractionServes(service, extract, es)
    requires HostKeeps(service, es') && ExtractionServes(service, extract, es')
    requires r in Run(service, extract, es).replies && TreatedAlike(service, es, r.cid, es', cid)
    ensures Reply(cid, r.params, r.text) in Run(service, extract, es').replies
  {
    RunAgrees(service, extract, es);
    RunAgrees(service, extract, es');
    assert RightReply(service, extract, es, r);
    ReplyExists(service, extract, es', Run(service, extract, es'), cid, r.params, r.text);
  }

  /** The reply the trace calls for is there. */
  lemma ReplyExists(service: Service, extract: Extractor, es: seq<Event>, s: State,
                    cid: Cid, params: ReplyParams, text: string)
    requires Agrees(service, extract, es, s) && RightReply(service, extract, es, Reply(cid, params, text))
    ensures Reply(cid, params, text) in s.replies
  {
    assert Tracked(service, extract, es, s, cid);
    var i :| 0 <= i < |s.replies| && s.replies[i].cid == cid;
    assert RightReply(service, extract, es, s.replies[i]);
    assert s.replies[i] == Reply(cid, params, text);
  }

  ghost predicate Counted(s: State) {
    && (forall cid :: cid in s.contexts ==> cid < s.created)
    && s.created == |s.contexts| + s.destroyedOnError + s.destroyedAfterReply
    && s.destroyedAfterReply == |s.replies|
  }

  lemma BeginCounted(s: State, q: Query, request: Request)
    requires Counted(s)
    ensures Counted(Begin(s, q, request))
  {
    assert s.contexts[s.created := Context(q, 0, [])].Keys == s.contexts.Keys + {s.created};
  }

  lemma CallbackCounted(service: Service, extract: Extractor, s: State, e: Event)
    requires Counted(s) && !e.Message?
    ensures Counted(Step(service, extract, s, e))
  {
    if e.cid in s.contexts {
      assert (s.contexts - {e.cid}).Keys == s.contexts.Keys - {e.cid};
    }
  }

  lemma {:induction false} ContextsCounted(service: Service, extract: Extractor, es: seq<Event>)
    ensures Counted(Run(service, extract, es))
  {
    if es != [] {
      ContextsCounted(service, extract, es[..|es| - 1]);
      var s, e := Run(service, extract, es[..|es| - 1]), es[|es| - 1];
      if e.Message? {
        BeginCounted(s, QueryOf(service, e.params, e.message, e.len),
                     RequestFor(service, e.params, e.message, e.len));
      } else {
        CallbackCounted(service, extract, s, e);
      }
    }
  }

  /** Context lifetime: no callback ever meets a destroyed context, and every
      context allocated is in flight, destroyed on error, destroyed after its
      one reply, or left by a failed close or a missing field. */
  lemma ContextLifetime(service: Service, extract: Extractor, es: seq<Event>)
    requires HostKeeps(service, es) && ExtractionServes(service, extract, es)
    ensures var s := Run(service, extract, es);
            var inFlight := s.contexts.Keys - s.left;
      && s.faults == 0
      && s.created == |Consumed(service, es)|
      && s.created == |inFlight| + s.destroyedOnError + |s.replies| + |s.left|
      && (forall cid: Cid :: cid in inFlight <==> cid < s.created && EndingFor(es, cid) == Open)
      && (forall cid: Cid ::
            cid in s.left <==>
            (cid < s.created && EndingFor(es, cid).Closed? && !Answered(service, extract, es, cid)))
  {
    RunAgrees(service, extract, es);
    ContextsCounted(service, extract, es);
    var s := Run(service, extract, es);
    forall cid: Cid
      ensures cid in s.contexts && cid !in s.left <==> cid < s.created && EndingFor(es, cid) == Open
      ensures cid in s.left <==>
              (cid < s.created && EndingFor(es, cid).Closed? && !Answered(service, extract, es, cid))
      ensures cid in s.left ==> cid in s.contexts
    {
      assert Tracked(service, extract, es, s, cid);
    }
    var inFlight := s.contexts.Keys - s.left;
    assert s.contexts.Keys == inFlight + s.left;
    assert |s.contexts.Keys| == |inFlight| + |s.left|;
  }
}
