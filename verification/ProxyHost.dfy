/**
 One Proxy-Wasm instance serving requests in turn: the table of contexts, the numbering of contexts and callouts, and
 the queue of callouts whose results the guest has still to be told. The guest is arbitrary: in every callback it may
 make any host calls, also while the results of earlier callouts are being delivered. Header and body contents are left
 out.
 */
module ProxyHost {
  import opened Words

  /** Callbacks a guest may export. */
  datatype Export =
    | VmStart | Configure | Tick | ContextCreate | RequestHeaders | RequestBody | RequestTrailers
    | ResponseHeaders | ResponseBody | ResponseTrailers | Log | Done | Delete
    | HttpCallResponse | GrpcInitialMetadata | GrpcReceive | GrpcClose

  datatype HostCall =
    | HttpCall(ok: bool, trailers: bool)  // whether the dispatcher answers, and with trailers
    | GrpcCall(ok: bool, trailers: bool)
    | SetEffectiveContext(id: uint32)
    | SendLocalResponse(status: int)

  /** What the guest does in one callback: its host calls, then a trap or a result (zero means false or continue). */
  datatype Callback = Callback(calls: seq<HostCall>, traps: bool, result: nat)

  datatype Context = Context(parent: uint32, localResponse: Option<int>)
  datatype Callout = Callout(grpc: bool, token: uint32, context: uint32, ok: bool, trailers: bool)

  /** The facts about a request that choose its path. */
  datatype Request = Request(tickDue: bool, hasBody: bool, hasTrailers: bool, hasResponseBody: bool)

  datatype Phase = Local(status: int) | Failed | Proceed(stream: uint32)

  /** The k-th token handed out, counting from 0. */
  function TokenAt(k: nat): uint32 {
    if k == 0 then 1 else Succ32(TokenAt(k - 1))
  }

  lemma {:induction false} TokenIsIndex(k: nat)
    ensures TokenAt(k) == (1 + k) % TWO32
  {
    if k > 0 { TokenIsIndex(k - 1); }
  }

  /** Tokens repeat exactly when the 32-bit counter has come full circle. */
  lemma {:induction false} TokensRepeatIff(i: nat, j: nat)
    ensures TokenAt(i) == TokenAt(j) <==> (i - j) % TWO32 == 0
  {
    TokenIsIndex(i);
    TokenIsIndex(j);
    CongruentIff(1 + i, 1 + j, TWO32);
    assert (1 + i) - (1 + j) == i - j;
  }

  lemma Extend<T>(s: seq<T>, more: seq<T>, i: nat)
    requires i < |more|
    ensures s + more[..i] + [more[i]] == s + more[..i + 1]
  {
  }

  /** What is newly issued is at the end of the queue. */
  lemma QueueGrows(done: seq<Callout>, queue: seq<Callout>, issued: seq<Callout>, queue': seq<Callout>,
                   issued': seq<Callout>)
    requires done + [] + queue == issued && done + [] + queue' == issued' && issued <= issued'
    ensures queue' == queue + issued'[|issued|..]
  {
    assert done + [] == done;
    assert queue' == issued'[|done|..] && queue == issued[|done|..];
  }

  /** Numbered in issue order. */
  ghost predicate Numbered(issued: seq<Callout>) {
    forall k :: 0 <= k < |issued| ==> NumberedAt(issued, k)
  }

  predicate NumberedAt(issued: seq<Callout>, k: nat)
    requires k < |issued|
  {
    issued[k].token == TokenAt(k)
  }

  lemma NumberedSnoc(issued: seq<Callout>, c: Callout)
    requires Numbered(issued) && c.token == TokenAt(|issued|)
    ensures Numbered(issued + [c])
  {
    forall k | 0 <= k < |issued| + 1 ensures NumberedAt(issued + [c], k) {
      if k < |issued| { assert NumberedAt(issued, k); }
    }
  }

  // ---------- What the guest was told ----------

  /** Callbacks that deliver the result of a callout. */
  predicate Delivers(e: Export) {
    e == HttpCallResponse || e == GrpcInitialMetadata || e == GrpcReceive || e == GrpcClose
  }

  /** A callback that was made, or not: about which context, in which effective context, and how it ended. */
  datatype Ask = NotAsked | Asked(about: uint32, active: uint32, traps: bool, result: nat)

  /** Callbacks made, the latest last. */
  datatype History = Nothing | Then(before: History, export_: Export, ask: Ask)

  /** The log of callbacks after one more, if it was made. */
  function Note(log: History, e: Export, a: Ask): History {
    if a.NotAsked? then log else Then(log, e, a)
  }

  predicate Trapped(a: Ask) {
    a.Asked? && a.traps
  }

  /** The answer to a callback; a guest that is not asked lets things go on. */
  function Answer(a: Ask): nat {
    if a.Asked? then a.result else 0
  }

  predicate About(a: Ask, id: uint32) {
    a.Asked? ==> a.about == id && a.active == id
  }

  /** The callbacks of a request phase, of a response phase, and at the end of a stream. */
  datatype RequestAsks = RequestAsks(create: Ask, headers: Ask, body: Ask, trailers: Ask, delete: Ask)
  datatype ResponseAsks = ResponseAsks(headers: Ask, body: Ask, trailers: Ask)
  datatype FinishAsks = FinishAsks(log: Ask, done: Ask, delete: Ask)

  const NO_RESPONSE: ResponseAsks := ResponseAsks(NotAsked, NotAsked, NotAsked)
  const NO_FINISH: FinishAsks := FinishAsks(NotAsked, NotAsked, NotAsked)

  function NoteRequest(log: History, q: RequestAsks): History {
    Note(Note(Note(Note(Note(log, ContextCreate, q.create), RequestHeaders, q.headers), RequestBody, q.body),
              RequestTrailers, q.trailers), Delete, q.delete)
  }

  function NoteResponse(log: History, q: ResponseAsks): History {
    Note(Note(Note(log, ResponseHeaders, q.headers), ResponseBody, q.body), ResponseTrailers, q.trailers)
  }

  function NoteFinish(log: History, q: FinishAsks): History {
    Note(Note(Note(log, Log, q.log), Done, q.done), Delete, q.delete)
  }

  /**
   What is asked in a request phase: creation and headers always, body and trailers only if there are any and the guest
   let things go on; nothing after a trap, which is what fails the phase; all of it before the phase proceeds; and the
   deletion exactly when it does not.
   */
  ghost predicate AsksRequest(exported: set<Export>, r: Request, id: uint32, p: Phase, q: RequestAsks) {
    && About(q.create, id) && About(q.headers, id) && About(q.body, id) && About(q.trailers, id) && About(q.delete, id)
    && (q.create.Asked? <==> ContextCreate in exported)
    && (q.headers.Asked? <==> RequestHeaders in exported && !Trapped(q.create))
    && (q.body.Asked? ==>
          RequestBody in exported && r.hasBody && Answer(q.headers) == 0 && !Trapped(q.create) && !Trapped(q.headers))
    && (q.trailers.Asked? ==>
          RequestTrailers in exported && r.hasTrailers && Answer(q.headers) == 0 && Answer(q.body) == 0 &&
          !Trapped(q.create) && !Trapped(q.headers) && !Trapped(q.body) &&
          (r.hasBody && RequestBody in exported ==> q.body.Asked?))
    && (p.Failed? <==> Trapped(q.create) || Trapped(q.headers) || Trapped(q.body) || Trapped(q.trailers))
    && (p.Proceed? ==>
          && p.stream == id
          && (RequestBody in exported && r.hasBody && Answer(q.headers) == 0 ==> q.body.Asked?)
          && (RequestTrailers in exported && r.hasTrailers && Answer(q.headers) == 0 && Answer(q.body) == 0 ==>
              q.trailers.Asked?))
    && (q.delete.Asked? <==> Delete in exported && !p.Proceed?)
  }

  /** What is asked in a response phase, in the same way; it deletes nothing. */
  ghost predicate AsksResponse(exported: set<Export>, r: Request, id: uint32, trailers: bool, p: Phase,
                               q: ResponseAsks)
  {
    && About(q.headers, id) && About(q.body, id) && About(q.trailers, id)
    && (q.headers.Asked? <==> ResponseHeaders in exported)
    && (q.body.Asked? ==> ResponseBody in exported && r.hasResponseBody && !Trapped(q.headers))
    && (q.trailers.Asked? ==> ResponseTrailers in exported && trailers && !Trapped(q.headers) && !Trapped(q.body))
    && (p.Failed? <==> Trapped(q.headers) || Trapped(q.body) || Trapped(q.trailers))
    && (p.Proceed? ==>
          && p.stream == id
          && (ResponseBody in exported && r.hasResponseBody ==> q.body.Asked?)
          && (ResponseTrailers in exported && trailers ==> q.trailers.Asked?))
  }

  /** What is asked when a stream is closed: log, done and delete, about that stream. */
  ghost predicate AsksFinish(exported: set<Export>, id: uint32, q: FinishAsks) {
    && (q.log.Asked? <==> Log in exported) && About(q.log, id)
    && (q.done.Asked? <==> Done in exported) && (q.done.Asked? ==> q.done.about == id)
    && (q.delete.Asked? <==> Delete in exported) && About(q.delete, id)
  }

  /**
   What a plugin is asked at its start: its creation and, unless that trapped, its configuration, which may say no.
   */
  ghost predicate AsksPlugin(exported: set<Export>, id: uint32, ok: bool, create: Ask, configure: Ask) {
    && (create.Asked? <==> ContextCreate in exported) && About(create, id)
    && (configure.Asked? <==> Configure in exported && !Trapped(create)) && (configure.Asked? ==> configure.about == id)
    && (ok <==> !Trapped(create) && (configure.Asked? ==> !configure.traps && configure.result != 0))
  }

  /** The callbacks of one request that are not about callouts, and how its two phases ended. */
  datatype Transcript = Transcript(
    phase: Phase, answer: Phase, tick: Ask, request: RequestAsks, response: ResponseAsks, finish: FinishAsks)

  function NoteAll(log: History, t: Transcript): History {
    NoteFinish(NoteResponse(NoteRequest(Note(log, Tick, t.tick), t.request), t.response), t.finish)
  }

  /**
   One request, path by path: after a tick if one is due, the request phase; on its failure nothing more; on a local
   response the closing of stream 0; else the response phase and the closing of the stream. The instance is closed if
   and only if a request or response callback trapped.
   */
  ghost predicate AsksAll(exported: set<Export>, r: Request, id: uint32, t: Transcript, closed: bool, shortCut: bool) {
    && (t.tick.Asked? <==> r.tickDue && Tick in exported)
    && AsksRequest(exported, r, id, t.phase, t.request)
    && (shortCut <==> t.phase.Local?)
    && (closed <==> t.phase.Failed? || (t.phase.Proceed? && t.answer.Failed?))
    && (!t.phase.Proceed? ==> t.response == NO_RESPONSE)
    && (t.phase.Failed? ==> t.finish == NO_FINISH)
    && (t.phase.Local? ==> AsksFinish(exported, 0, t.finish))
    && (t.phase.Proceed? ==>
          && AsksFinish(exported, id, t.finish)
          && (AsksResponse(exported, r, id, true, t.answer, t.response) ||
              AsksResponse(exported, r, id, false, t.answer, t.response)))
  }

  /** One callback that delivers the result of a callout: which, and the token that it is told. */
  datatype Telling = Telling(export_: Export, token: uint32)

  function Tell(exported: set<Export>, e: Export, token: uint32): seq<Telling> {
    if e in exported then [Telling(e, token)] else []
  }

  /** What delivering a callout's result comes to. */
  function Due(exported: set<Export>, c: Callout): seq<Telling> {
    if !c.grpc then Tell(exported, HttpCallResponse, c.token)
    else if !c.ok then Tell(exported, GrpcClose, c.token)
    else
      Tell(exported, GrpcInitialMetadata, c.token) + Tell(exported, GrpcReceive, c.token) +
      Tell(exported, GrpcClose, c.token)
  }

  /** The same for the first k callouts, one after the other. */
  function DueUpTo(exported: set<Export>, cs: seq<Callout>, k: nat): seq<Telling>
    requires k <= |cs|
  {
    if k == 0 then [] else DueUpTo(exported, cs, k - 1) + Due(exported, cs[k - 1])
  }

  lemma {:induction false} DueNext(before: seq<Telling>, exported: set<Export>, cs: seq<Callout>, k: nat)
    requires k < |cs|
    ensures before + DueUpTo(exported, cs, k) + Due(exported, cs[k]) == before + DueUpTo(exported, cs, k + 1)
  {
  }

  function DueAll(exported: set<Export>, cs: seq<Callout>): seq<Telling> {
    DueUpTo(exported, cs, |cs|)
  }

  lemma {:induction false} DuePrefix(exported: set<Export>, cs: seq<Callout>, c: Callout, k: nat)
    requires k <= |cs|
    ensures DueUpTo(exported, cs + [c], k) == DueUpTo(exported, cs, k)
  {
    if k > 0 { DuePrefix(exported, cs, c, k - 1); }
  }

  lemma DueSnoc(exported: set<Export>, cs: seq<Callout>, c: Callout)
    ensures DueAll(exported, cs + [c]) == DueAll(exported, cs) + Due(exported, c)
  {
    DuePrefix(exported, cs, c, |cs|);
  }

  class Host {
    const exported: set<Export>
    const guest: nat -> Callback
    const dispatches: bool

    var nextContextID: uint32
    var rootContextID: uint32
    var pluginContextID: uint32
    var activeContextID: uint32
    var contexts: map<uint32, Context>
    var trailing: set<uint32>            // contexts in which a callout left response trailers
    var pendingCallouts: seq<Callout>
    var nextCalloutID: uint32
    var callbacks: nat

    ghost var issued: seq<Callout>       // every callout the guest made
    ghost var dispatched: seq<Callout>   // every callout whose result was handed to the guest
    ghost var streams: seq<uint32>       // every stream context allocated
    ghost var deletes: seq<uint32>       // every context deletion
    ghost var told: seq<Telling>         // every callback made about a callout
    ghost var asked: History             // every other callback made

    /**
     Nothing issued is lost, repeated or reordered: it has been dispatched, or waits in `rest` and then in the queue.
     */
    ghost predicate Conserves(rest: seq<Callout>)
      reads this
    {
      && dispatched + rest + pendingCallouts == issued
      && Numbered(issued) && nextCalloutID == TokenAt(|issued|)
    }

    /** And what is called dispatched is what the guest was told, callback by callback. */
    ghost predicate Valid()
      reads this
    {
      Conserves([]) && told == DueAll(exported, dispatched)
    }

    /** All that a guest can do to the host's books: append callouts. The contexts it touches stay in place. */
    twostate predicate OnlyGuestActed()
      reads this
    {
      && contexts.Keys == old(contexts.Keys)
      && nextContextID == old(nextContextID)
      && rootContextID == old(rootContextID) && pluginContextID == old(pluginContextID)
      && dispatched == old(dispatched) && streams == old(streams) && deletes == old(deletes)
      && old(issued) <= issued
      && pendingCallouts == old(pendingCallouts) + issued[|old(issued)|..]
    }

    constructor (exported: set<Export>, guest: nat -> Callback, dispatches: bool)
      ensures Valid() && contexts == map[] && nextContextID == 1 && streams == [] && deletes == [] && issued == [] &&
              told == [] && asked == Nothing
    {
      this.exported, this.guest, this.dispatches := exported, guest, dispatches;
      nextContextID, rootContextID, pluginContextID, activeContextID := 1, 0, 0, 0;
      contexts, trailing, pendingCallouts, nextCalloutID, callbacks := map[], {}, [], 1, 0;
      issued, dispatched, streams, deletes, told, asked := [], [], [], [], [], Nothing;
    }

    method AllocContextID() returns (id: uint32)
      modifies this`nextContextID
      ensures id == old(nextContextID) && nextContextID == Succ32(id)
    {
      id := nextContextID;
      nextContextID := Succ32(nextContextID);
    }

    method IssueCallout(grpc: bool, ok: bool, trailers: bool, ghost rest: seq<Callout>)
      requires Conserves(rest)
      modifies this`nextCalloutID, this`pendingCallouts, this`issued
      ensures Conserves(rest) && OnlyGuestActed()
      ensures issued == old(issued) +
              if dispatches then [Callout(grpc, old(nextCalloutID), activeContextID, ok, trailers)] else []
    {
      if !dispatches {
        return;
      }
      var token := nextCalloutID;
      nextCalloutID := Succ32(nextCalloutID);
      var c := Callout(grpc, token, activeContextID, ok, trailers);
      pendingCallouts := pendingCallouts + [c];
      NumberedSnoc(issued, c);
      assert dispatched + rest + (pendingCallouts) == issued + [c];
      issued := issued + [c];
    }

    /** One host call of the guest. Unknown contexts are refused. */
    method Act(call: HostCall, ghost rest: seq<Callout>)
      requires Conserves(rest)
      modifies this`nextCalloutID, this`pendingCallouts, this`issued, this`contexts, this`activeContextID
      ensures Conserves(rest) && OnlyGuestActed()
      ensures activeContextID ==
              if call.SetEffectiveContext? && call.id in old(contexts) then call.id else old(activeContextID)
      ensures contexts ==
              if call.SendLocalResponse? && old(activeContextID) in old(contexts)
              then var id := old(activeContextID);
                   old(contexts)[id := old(contexts)[id].(localResponse := Some(call.status))]
              else old(contexts)
    {
      match call {
        case HttpCall(ok, trailers) => IssueCallout(false, ok, trailers, rest);
        case GrpcCall(ok, trailers) => IssueCallout(true, ok, trailers, rest);
        case SetEffectiveContext(id) =>
          if id in contexts {
            activeContextID := id;
          }
        case SendLocalResponse(status) =>
          if activeContextID in contexts {
            contexts := contexts[activeContextID := contexts[activeContextID].(localResponse := Some(status))];
          }
      }
    }

    /** One call into the guest, if it exports the callback. `about` is the context or callout that it is told. */
    method CallGuest(export_: Export, about: uint32, ghost rest: seq<Callout>)
      returns (called: bool, cb: Callback, ghost ask: Ask)
      requires Conserves(rest)
      modifies this`nextCalloutID, this`pendingCallouts, this`issued, this`contexts, this`activeContextID,
               this`callbacks, this`told, this`asked
      ensures Conserves(rest) && OnlyGuestActed()
      ensures called == (export_ in exported)
      ensures !called ==> issued == old(issued) && activeContextID == old(activeContextID)
      ensures called ==> cb == guest(old(callbacks)) && callbacks == old(callbacks) + 1
      ensures ask == if called then Asked(about, old(activeContextID), cb.traps, cb.result) else NotAsked
      ensures told == if Delivers(export_) then old(told) + Tell(exported, export_, about) else old(told)
      ensures asked == if Delivers(export_) then old(asked) else Note(old(asked), export_, ask)
    {
      called, cb, ask := false, Callback([], false, 0), NotAsked;
      if export_ !in exported {
        return;
      }
      called, cb := true, guest(callbacks);
      callbacks := callbacks + 1;
      ask := Asked(about, activeContextID, cb.traps, cb.result);
      if Delivers(export_) {
        told := told + [Telling(export_, about)];
      } else {
        asked := Note(asked, export_, ask);
      }
      ActAll(cb.calls, rest);
    }

    /** The host calls of one callback. */
    method ActAll(calls: seq<HostCall>, ghost rest: seq<Callout>)
      requires Conserves(rest)
      modifies this`nextCalloutID, this`pendingCallouts, this`issued, this`contexts, this`activeContextID
      ensures Conserves(rest) && OnlyGuestActed()
    {
      for i := 0 to |calls|
        invariant Conserves(rest) && OnlyGuestActed()
      {
        Act(calls[i], rest);
      }
    }

    /** A callback that is not about a callout. */
    method Notify(export_: Export, about: uint32) returns (called: bool, cb: Callback, ghost ask: Ask)
      requires Valid() && !Delivers(export_)
      modifies this`nextCalloutID, this`pendingCallouts, this`issued, this`contexts, this`activeContextID,
               this`callbacks, this`told, this`asked
      ensures Valid() && contexts.Keys == old(contexts.Keys) && old(issued) <= issued
      ensures called == (export_ in exported) && (!called ==> issued == old(issued))
      ensures ask == if called then Asked(about, old(activeContextID), cb.traps, cb.result) else NotAsked
      ensures asked == Note(old(asked), export_, ask)
    {
      called, cb, ask := CallGuest(export_, about, []);
    }

    /** Deletes a context, present or not, after telling the guest. */
    method DeleteContext(id: uint32) returns (ghost ask: Ask)
      requires Valid()
      modifies this`nextCalloutID, this`pendingCallouts, this`issued, this`contexts, this`activeContextID,
               this`callbacks, this`told, this`asked, this`trailing, this`deletes
      ensures Valid()
      ensures contexts.Keys == old(contexts.Keys) - {id} && deletes == old(deletes) + [id]
      ensures old(issued) <= issued
      ensures (ask.Asked? <==> Delete in exported) && About(ask, id) && asked == Note(old(asked), Delete, ask)
    {
      ask := NotAsked;
      if Delete in exported {
        activeContextID := id;
        var _, _, made := Notify(Delete, id);
        ask := made;
      }
      contexts, trailing := contexts - {id}, trailing - {id};
      deletes := deletes + [id];
    }

    /**
     Delivers the results of every callout issued before the call, in issue order, by exactly the callbacks due for
     them; callouts issued meanwhile are left queued.
     */
    method DispatchPendingCallouts(stream: uint32)
      requires Valid()
      modifies this`nextCalloutID, this`pendingCallouts, this`issued, this`contexts, this`activeContextID,
               this`callbacks, this`told, this`asked, this`trailing,
               this`dispatched
      ensures Valid() && contexts.Keys == old(contexts.Keys) && old(issued) <= issued
      ensures dispatched == old(dispatched) + old(pendingCallouts) == old(issued)
      ensures activeContextID == if old(pendingCallouts) == [] then old(activeContextID) else stream
      ensures told == old(told) + DueAll(exported, old(pendingCallouts)) && asked == old(asked)
    {
      assert dispatched + [] + pendingCallouts == dispatched + pendingCallouts;
      if |pendingCallouts| == 0 {
        assert dispatched + pendingCallouts == dispatched;
        return;
      }
      var callouts := pendingCallouts;
      pendingCallouts := [];
      assert dispatched + callouts + [] == dispatched + [] + callouts;
      DeliverAll(callouts);
      activeContextID := stream;
    }

    method DeliverAll(callouts: seq<Callout>)
      requires Conserves(callouts) && told == DueAll(exported, dispatched)
      modifies this`nextCalloutID, this`pendingCallouts, this`issued, this`contexts, this`activeContextID,
               this`callbacks, this`told, this`asked, this`trailing,
               this`dispatched
      ensures Valid() && contexts.Keys == old(contexts.Keys) && old(issued) <= issued
      ensures dispatched == old(dispatched) + callouts
      ensures told == old(told) + DueAll(exported, callouts) && asked == old(asked)
    {
      ghost var toldBefore, dispatchedBefore := told, dispatched;
      assert callouts[0..] == callouts;
      for i := 0 to |callouts|
        invariant Conserves(callouts[i..]) && told == DueAll(exported, dispatched)
        invariant contexts.Keys == old(contexts.Keys) && old(issued) <= issued && asked == old(asked)
        invariant dispatched == dispatchedBefore + callouts[..i]
        invariant told == toldBefore + DueUpTo(exported, callouts, i)
      {
        DispatchOne(callouts, i);
        Extend(dispatchedBefore, callouts, i);
        DueNext(toldBefore, exported, callouts, i);
      }
      assert callouts[..|callouts|] == callouts;
    }

    /** Delivers one result, in the context of its callout. */
    method DispatchOne(callouts: seq<Callout>, i: nat)
      requires i < |callouts| && Conserves(callouts[i..]) && told == DueAll(exported, dispatched)
      modifies this`nextCalloutID, this`pendingCallouts, this`issued, this`contexts, this`activeContextID,
               this`callbacks, this`told, this`asked, this`trailing,
               this`dispatched
      ensures Conserves(callouts[i + 1..]) && told == DueAll(exported, dispatched)
      ensures contexts.Keys == old(contexts.Keys) && old(issued) <= issued
      ensures dispatched == old(dispatched) + [callouts[i]]
      ensures told == old(told) + Due(exported, callouts[i]) && asked == old(asked)
    {
      var c := callouts[i];
      activeContextID := c.context;
      DueSnoc(exported, dispatched, c);
      assert dispatched + callouts[i..] == dispatched + [c] + callouts[i + 1..];
      dispatched := dispatched + [c];
      Deliver(c, callouts[i + 1..]);
    }

    /** The callbacks for one result: one for HTTP; three for gRPC, or just the close when the call failed. */
    method Deliver(c: Callout, ghost rest: seq<Callout>)
      requires Conserves(rest) && activeContextID == c.context
      modifies this`nextCalloutID, this`pendingCallouts, this`issued, this`contexts, this`activeContextID,
               this`callbacks, this`told, this`asked, this`trailing
      ensures Conserves(rest) && OnlyGuestActed()
      ensures told == old(told) + Due(exported, c) && asked == old(asked)
      ensures trailing ==
              if c.ok && c.context in old(contexts)
              then (if c.trailers then old(trailing) + {c.context} else old(trailing) - {c.context})
              else old(trailing)
    {
      if c.ok && c.context in contexts {
        trailing := if c.trailers then trailing + {c.context} else trailing - {c.context};
      }
      if !c.grpc {
        var _, _, _ := CallGuest(HttpCallResponse, c.token, rest);
      } else {
        DeliverGrpc(c, rest);
      }
    }

    method DeliverGrpc(c: Callout, ghost rest: seq<Callout>)
      requires Conserves(rest) && c.grpc
      modifies this`nextCalloutID, this`pendingCallouts, this`issued, this`contexts, this`activeContextID,
               this`callbacks, this`told, this`asked
      ensures Conserves(rest) && OnlyGuestActed()
      ensures told == old(told) + Due(exported, c) && asked == old(asked)
    {
      if c.ok {
        DeliverGrpcData(c.token, rest);
      }
      var _, _, _ := CallGuest(GrpcClose, c.token, rest);
    }

    method DeliverGrpcData(token: uint32, ghost rest: seq<Callout>)
      requires Conserves(rest)
      modifies this`nextCalloutID, this`pendingCallouts, this`issued, this`contexts, this`activeContextID,
               this`callbacks, this`told, this`asked
      ensures Conserves(rest) && OnlyGuestActed()
      ensures told == old(told) + (Tell(exported, GrpcInitialMetadata, token) + Tell(exported, GrpcReceive, token))
      ensures asked == old(asked)
    {
      var _, _, _ := CallGuest(GrpcInitialMetadata, token, rest);
      var _, _, _ := CallGuest(GrpcReceive, token, rest);
    }

    /** The root context and the start of the VM. */
    method StartVM() returns (ok: bool, ghost start: Ask)
      requires Valid() && contexts == map[] && nextContextID == 1
      modifies this
      ensures Valid() && streams == old(streams) && deletes == old(deletes)
      ensures rootContextID == 1 && nextContextID == 2 && contexts.Keys == {1}
      ensures (start.Asked? <==> VmStart in exported) && About(start, 1) && asked == Note(old(asked), VmStart, start)
      ensures ok <==> start.Asked? ==> !start.traps && start.result != 0
    {
      rootContextID := AllocContextID();
      activeContextID := rootContextID;
      contexts := contexts[rootContextID := Context(0, None)];
      var called, cb;
      called, cb, start := Notify(VmStart, rootContextID);
      ok := !(called && (cb.traps || cb.result == 0));
    }

    /** The plugin context and its configuration. */
    method StartPlugin() returns (ok: bool, ghost create: Ask, ghost configure: Ask)
      requires Valid() && contexts.Keys == {1} && rootContextID == 1 && nextContextID == 2
      modifies this
      ensures Valid() && streams == old(streams) && deletes == old(deletes)
      ensures rootContextID == 1 && pluginContextID == 2 && nextContextID == 3 && contexts.Keys == {1, 2}
      ensures asked == Note(Note(old(asked), ContextCreate, create), Configure, configure)
      ensures AsksPlugin(exported, 2, ok, create, configure)
    {
      pluginContextID := AllocContextID();
      contexts := contexts[pluginContextID := Context(rootContextID, None)];
      activeContextID := pluginContextID;
      ok, create, configure := ConfigurePlugin();
    }

    method ConfigurePlugin() returns (ok: bool, ghost create: Ask, ghost configure: Ask)
      requires Valid() && activeContextID == pluginContextID
      modifies this`nextCalloutID, this`pendingCallouts, this`issued, this`contexts, this`activeContextID,
               this`callbacks, this`told, this`asked
      ensures Valid() && contexts.Keys == old(contexts.Keys)
      ensures asked == Note(Note(old(asked), ContextCreate, create), Configure, configure)
      ensures AsksPlugin(exported, pluginContextID, ok, create, configure)
    {
      configure := NotAsked;
      var called, cb;
      called, cb, create := Notify(ContextCreate, pluginContextID);
      if called && cb.traps {
        return false, create, configure;
      }
      called, cb, configure := Notify(Configure, pluginContextID);
      ok := !(called && (cb.traps || cb.result == 0));
    }

    /** It succeeds exactly when no callback trapped and neither start nor configuration was answered with false. */
    method Init() returns (ok: bool, ghost start: Ask, ghost create: Ask, ghost configure: Ask)
      requires Valid() && contexts == map[] && nextContextID == 1
      modifies this
      ensures Valid() && streams == old(streams) && deletes == old(deletes)
      ensures ok ==> rootContextID == 1 && pluginContextID == 2 && nextContextID == 3 && contexts.Keys == {1, 2}
      ensures asked == Note(Note(Note(old(asked), VmStart, start), ContextCreate, create), Configure, configure)
      ensures ok ==> (start.Asked? <==> VmStart in exported) && (create.Asked? <==> ContextCreate in exported) &&
                     (configure.Asked? <==> Configure in exported)
      ensures ok <==> && !Trapped(start) && !Trapped(create) && !Trapped(configure)
                      && (start.Asked? ==> start.result != 0) && (configure.Asked? ==> configure.result != 0)
    {
      create, configure := NotAsked, NotAsked;
      ok, start := StartVM();
      if ok {
        ok, create, configure := StartPlugin();
      }
    }

    method LocalResponseOf(stream: uint32) returns (lr: Option<int>)
      ensures lr == if stream in contexts then contexts[stream].localResponse else None
    {
      lr := if stream in contexts then contexts[stream].localResponse else None;
    }

    method FirePendingTicks(due: bool) returns (ghost ask: Ask)
      requires Valid()
      modifies this`nextCalloutID, this`pendingCallouts, this`issued, this`contexts, this`activeContextID,
               this`callbacks, this`told, this`asked
      ensures Valid() && OnlyGuestActed() && activeContextID == old(activeContextID)
      ensures (ask.Asked? <==> due && Tick in exported) && About(ask, rootContextID) &&
              asked == Note(old(asked), Tick, ask)
    {
      ask := NotAsked;
      ghost var queue, before := pendingCallouts, issued;
      if !due {
        return;
      }
      var prev := activeContextID;
      activeContextID := rootContextID;
      var _, _, made := Notify(Tick, rootContextID);
      ask := made;
      activeContextID := prev;
      QueueGrows(dispatched, queue, before, pendingCallouts, issued);
    }

    /**
     One request-phase callback on the stream. A trap, or a local response where the phase looks for one, deletes the
     stream context and ends the phase.
     */
    method RequestCallback(export_: Export, stream: uint32, dispatch: bool, looksForLocal: bool)
      returns (ended: Option<Phase>, action: nat, ghost ask: Ask, ghost delete: Ask)
      requires Valid() && !Delivers(export_)
      modifies this`nextCalloutID, this`pendingCallouts, this`issued, this`contexts, this`activeContextID,
               this`callbacks, this`told, this`asked, this`trailing, this`deletes, this`dispatched
      ensures Valid() && old(issued) <= issued && old(dispatched) <= dispatched
      ensures ended.None? ==> contexts.Keys == old(contexts.Keys) && deletes == old(deletes)
      ensures ended.Some? ==> contexts.Keys == old(contexts.Keys) - {stream} && deletes == old(deletes) + [stream]
      ensures ended.Some? ==> !ended.value.Proceed?
      ensures (ask.Asked? <==> export_ in exported) && About(ask, stream) && action == Answer(ask)
      ensures (delete.Asked? <==> ended.Some? && Delete in exported) && About(delete, stream)
      ensures asked == Note(Note(old(asked), export_, ask), Delete, delete)
      ensures (ended.Some? && ended.value.Failed?) <==> Trapped(ask)
      ensures ended.Some? && ended.value.Local? ==> looksForLocal
      ensures dispatch && ended.None? ==> old(issued) <= dispatched
      ensures looksForLocal && ended.None? ==> NoLocal(stream)
    {
      delete := NotAsked;
      var called, cb;
      if export_ in exported {
        activeContextID := stream;
      }
      called, cb, ask := Notify(export_, stream);
      action := if called then cb.result else 0;
      ended := None;
      if called && cb.traps {
        delete := DeleteContext(stream);
        return Some(Failed), action, ask, delete;
      }
      if dispatch {
        DispatchPendingCallouts(stream);
      }
      if looksForLocal {
        ended, delete := TakeLocal(stream);
      }
    }

    /** The guest has sent no response of its own on this stream. */
    ghost predicate NoLocal(stream: uint32)
      reads this
    {
      stream in contexts ==> contexts[stream].localResponse.None?
    }

    /** Ends the request phase with the guest's own response, if it sent one. */
    method TakeLocal(stream: uint32) returns (ended: Option<Phase>, ghost delete: Ask)
      requires Valid()
      modifies this`nextCalloutID, this`pendingCallouts, this`issued, this`contexts, this`activeContextID,
               this`callbacks, this`told, this`asked, this`trailing, this`deletes
      ensures Valid() && old(issued) <= issued
      ensures ended == if stream in old(contexts) && old(contexts)[stream].localResponse.Some?
                       then Some(Local(old(contexts)[stream].localResponse.value)) else None
      ensures ended.None? ==> contexts == old(contexts) && deletes == old(deletes) && NoLocal(stream)
      ensures ended.Some? ==> contexts.Keys == old(contexts.Keys) - {stream} && deletes == old(deletes) + [stream]
      ensures (delete.Asked? <==> ended.Some? && Delete in exported) && About(delete, stream)
      ensures asked == Note(old(asked), Delete, delete)
    {
      ended, delete := None, NotAsked;
      var lr := LocalResponseOf(stream);
      if lr.Some? {
        delete := DeleteContext(stream);
        ended := Some(Local(lr.value));
      }
    }

    /** The request phase. Every path but the last deletes the stream context it created. */
    method HandleHTTP(r: Request) returns (p: Phase, ghost id: uint32, ghost tick: Ask, ghost q: RequestAsks)
      requires Valid()
      modifies this`nextCalloutID, this`pendingCallouts, this`issued, this`contexts, this`activeContextID,
               this`callbacks, this`told, this`asked, this`trailing, this`deletes, this`dispatched,
               this`nextContextID, this`streams
      ensures Valid() && id == old(nextContextID) && nextContextID == Succ32(id)
      ensures streams == old(streams) + [id]
      ensures p.Proceed? ==> contexts.Keys == old(contexts.Keys) + {id} && deletes == old(deletes)
      ensures !p.Proceed? ==> contexts.Keys == old(contexts.Keys) - {id} && deletes == old(deletes) + [id]
      ensures old(issued) <= issued && old(dispatched) <= dispatched
      ensures (tick.Asked? <==> r.tickDue && Tick in exported) && AsksRequest(exported, r, id, p, q)
      ensures asked == NoteRequest(Note(old(asked), Tick, tick), q)
      ensures p.Proceed? ==> old(issued) <= dispatched && NoLocal(id)
    {
      tick := FirePendingTicks(r.tickDue);
      var streamID := AllocContextID();
      id := streamID;
      streams := streams + [id];
      contexts, trailing := contexts[streamID := Context(pluginContextID, None)], trailing - {streamID};
      activeContextID := streamID;
      p, q := RequestCallbacks(streamID, r);
    }

    method RequestCallbacks(streamID: uint32, r: Request) returns (p: Phase, ghost q: RequestAsks)
      requires Valid()
      modifies this`nextCalloutID, this`pendingCallouts, this`issued, this`contexts, this`activeContextID,
               this`callbacks, this`told, this`asked, this`trailing, this`deletes, this`dispatched
      ensures Valid() && old(issued) <= issued && old(dispatched) <= dispatched
      ensures p.Proceed? ==> contexts.Keys == old(contexts.Keys) && deletes == old(deletes)
      ensures !p.Proceed? ==> contexts.Keys == old(contexts.Keys) - {streamID} && deletes == old(deletes) + [streamID]
      ensures AsksRequest(exported, r, streamID, p, q) && asked == NoteRequest(old(asked), q)
      ensures p.Proceed? ==> old(issued) <= dispatched && NoLocal(streamID)
    {
      q := RequestAsks(NotAsked, NotAsked, NotAsked, NotAsked, NotAsked);
      var ended, action;
      ghost var ask, delete;
      ended, action, ask, delete := RequestCallback(ContextCreate, streamID, false, false);
      q := q.(create := ask, delete := delete);
      if ended.Some? {
        return ended.value, q;
      }
      ended, action, ask, delete := RequestCallback(RequestHeaders, streamID, true, true);
      q := q.(headers := ask, delete := delete);
      if ended.Some? {
        return ended.value, q;
      }
      p, q := RequestPayload(streamID, r, action, q);
    }

    /** What a request phase has asked after its headers. */
    ghost predicate HeadersAsked(id: uint32, action: nat, q: RequestAsks)
      reads this
    {
      && q.body == q.trailers == q.delete == NotAsked
      && About(q.create, id) && (q.create.Asked? <==> ContextCreate in exported) && !Trapped(q.create)
      && About(q.headers, id) && (q.headers.Asked? <==> RequestHeaders in exported) && !Trapped(q.headers)
      && action == Answer(q.headers)
    }

    /** The rest of the request phase, after the headers were answered with `answer`. */
    method RequestPayload(streamID: uint32, r: Request, answer: nat, ghost before: RequestAsks)
      returns (p: Phase, ghost q: RequestAsks)
      requires Valid() && HeadersAsked(streamID, answer, before) && NoLocal(streamID)
      modifies this`nextCalloutID, this`pendingCallouts, this`issued, this`contexts, this`activeContextID,
               this`callbacks, this`told, this`asked, this`trailing, this`deletes, this`dispatched
      ensures Valid() && old(issued) <= issued && old(dispatched) <= dispatched
      ensures p.Proceed? ==> contexts.Keys == old(contexts.Keys) && deletes == old(deletes)
      ensures !p.Proceed? ==> contexts.Keys == old(contexts.Keys) - {streamID} && deletes == old(deletes) + [streamID]
      ensures q.create == before.create && q.headers == before.headers && AsksRequest(exported, r, streamID, p, q)
      ensures p.Proceed? ==> NoLocal(streamID) && (answer == 0 && r.hasBody ==> old(issued) <= dispatched)
      ensures asked == Note(Note(Note(old(asked), RequestBody, q.body), RequestTrailers, q.trailers), Delete, q.delete)
    {
      q := before;
      var ended: Option<Phase>, action := None, answer;
      ghost var ask, delete;
      if action == 0 && r.hasBody {
        ended, action, ask, delete := RequestCallback(RequestBody, streamID, true, true);
        q := q.(body := ask, delete := delete);
        if ended.Some? {
          return ended.value, q;
        }
      }
      if action == 0 && r.hasTrailers {
        ended, action, ask, delete := RequestCallback(RequestTrailers, streamID, false, true);
        q := q.(trailers := ask, delete := delete);
        if ended.Some? {
          return ended.value, q;
        }
      }
      p := Proceed(streamID);
    }

    /** One response-phase callback on the stream: a trap or a local response ends the phase. */
    method ResponseCallback(export_: Export, stream: uint32) returns (ended: Option<Phase>, ghost ask: Ask)
      requires Valid() && !Delivers(export_)
      modifies this`nextCalloutID, this`pendingCallouts, this`issued, this`contexts, this`activeContextID,
               this`callbacks, this`told, this`asked
      ensures Valid() && contexts.Keys == old(contexts.Keys) && old(issued) <= issued
      ensures (ask.Asked? <==> export_ in exported) && About(ask, stream)
      ensures asked == Note(old(asked), export_, ask)
      ensures Trapped(ask) ==> ended == Some(Failed)
      ensures !Trapped(ask) ==>
                ended == if stream in contexts && contexts[stream].localResponse.Some?
                         then Some(Local(contexts[stream].localResponse.value)) else None
    {
      if export_ in exported {
        activeContextID := stream;
      }
      var called, cb;
      called, cb, ask := Notify(export_, stream);
      if called && cb.traps {
        return Some(Failed), ask;
      }
      var lr := LocalResponseOf(stream);
      ended := if lr.Some? then Some(Local(lr.value)) else None;
    }

    /** The response phase. It leaves the stream context to the caller, whatever happens. */
    method HandleResponse(stream: uint32, r: Request) returns (p: Phase, ghost q: ResponseAsks)
      requires Valid()
      modifies this`nextCalloutID, this`pendingCallouts, this`issued, this`contexts, this`activeContextID,
               this`callbacks, this`told, this`asked
      ensures Valid() && contexts.Keys == old(contexts.Keys) && old(issued) <= issued
      ensures asked == NoteResponse(old(asked), q)
      ensures stream !in contexts ==> p == Proceed(stream) && q == NO_RESPONSE
      ensures stream in contexts ==> AsksResponse(exported, r, stream, stream in trailing, p, q)
      ensures p.Local? ==> stream in contexts && contexts[stream].localResponse == Some(p.status)
      ensures p.Proceed? ==> NoLocal(stream)
    {
      q := NO_RESPONSE;
      if stream !in contexts {
        return Proceed(stream), q;
      }
      activeContextID := stream;
      var ended;
      ghost var ask;
      ended, ask := ResponseCallback(ResponseHeaders, stream);
      q := q.(headers := ask);
      if ended.Some? {
        return ended.value, q;
      }
      p, q := ResponsePayload(stream, r, ask);
    }

    /** The rest of the response phase, after the headers. */
    method ResponsePayload(stream: uint32, r: Request, ghost headers: Ask) returns (p: Phase, ghost q: ResponseAsks)
      requires Valid() && stream in contexts && About(headers, stream) && NoLocal(stream)
      requires (headers.Asked? <==> ResponseHeaders in exported) && !Trapped(headers)
      modifies this`nextCalloutID, this`pendingCallouts, this`issued, this`contexts, this`activeContextID,
               this`callbacks, this`told, this`asked
      ensures Valid() && contexts.Keys == old(contexts.Keys) && old(issued) <= issued
      ensures asked == Note(Note(old(asked), ResponseBody, q.body), ResponseTrailers, q.trailers) &&
              q.headers == headers
      ensures AsksResponse(exported, r, stream, stream in trailing, p, q)
      ensures p.Local? ==> contexts[stream].localResponse == Some(p.status)
      ensures p.Proceed? ==> NoLocal(stream)
    {
      q := ResponseAsks(headers, NotAsked, NotAsked);
      var ended: Option<Phase> := None;
      ghost var ask;
      if r.hasResponseBody {
        ended, ask := ResponseCallback(ResponseBody, stream);
        q := q.(body := ask);
      }
      if ended.None? && stream in trailing {
        ended, ask := ResponseCallback(ResponseTrailers, stream);
        q := q.(trailers := ask);
      }
      p := if ended.Some? then ended.value else Proceed(stream);
    }

    method FinishStream(id: uint32) returns (ghost q: FinishAsks)
      requires Valid()
      modifies this`nextCalloutID, this`pendingCallouts, this`issued, this`contexts, this`activeContextID,
               this`callbacks, this`told, this`asked, this`trailing, this`deletes
      ensures Valid()
      ensures contexts.Keys == old(contexts.Keys) - {id} && deletes == old(deletes) + [id]
      ensures old(issued) <= issued
      ensures AsksFinish(exported, id, q) && asked == NoteFinish(old(asked), q)
    {
      activeContextID := id;
      var _, _, log := Notify(Log, id);
      var _, _, done := Notify(Done, id);
      var delete := DeleteContext(id);
      q := FinishAsks(log, done, delete);
    }

    /**
     One request through the filter. Whatever path it takes, exactly the stream's own context goes: the table afterwards
     is the table before without the stream ID, so it is unchanged if and only if that ID was free. The local-response
     path of the request phase finishes "stream 0" on top of the deletion already made. `t` is what the guest was asked.
     */
    method Serve(r: Request) returns (closed: bool, ghost id: uint32, ghost shortCut: bool, ghost t: Transcript)
      requires Valid() && 0 !in contexts
      modifies this`nextCalloutID, this`pendingCallouts, this`issued, this`contexts, this`activeContextID,
               this`callbacks, this`told, this`asked, this`trailing, this`deletes, this`dispatched,
               this`nextContextID, this`streams
      ensures Valid() && id == old(nextContextID) && nextContextID == Succ32(id)
      ensures contexts.Keys == old(contexts.Keys) - {id}
      ensures contexts.Keys == old(contexts.Keys) <==> id !in old(contexts.Keys)
      ensures streams == old(streams) + [id]
      ensures deletes == old(deletes) + [id] + if shortCut then [0] else []
      ensures old(issued) <= issued && old(dispatched) <= dispatched
      ensures AsksAll(exported, r, id, t, closed, shortCut) && asked == NoteAll(old(asked), t)
    {
      var p, fresh_, tick, request := HandleHTTP(r);
      id, shortCut := fresh_, p.Local?;
      t := Transcript(p, p, tick, request, NO_RESPONSE, NO_FINISH);
      if p.Failed? {
        return true, id, false, t;
      }
      if p.Local? {
        var finish := FinishStream(0);
        t := t.(finish := finish);
        return false, id, true, t;
      }
      var q, response := HandleResponse(p.stream, r);
      var finish := FinishStream(p.stream);
      t := t.(answer := q, response := response, finish := finish);
      closed := q.Failed?;
    }

    /**
     A whole life of the instance: requests in turn until one fails and closes it. While context IDs have not wrapped,
     the table is back to root and plugin after every request; stream IDs are fresh, and each is deleted exactly once.
     The callouts whose results the guest was told, by exactly the callbacks due and in order, followed by those still
     queued, are the callouts issued, in order.
     */
    method ServeAll(rs: seq<Request>) returns (served: nat)
      requires Valid() && rootContextID == 1 && pluginContextID == 2 && nextContextID == 3 && contexts.Keys == {1, 2}
      requires streams == [] && deletes == []
      requires 3 + |rs| <= TWO32
      modifies this
      ensures served <= |rs|
      ensures contexts.Keys == {rootContextID, pluginContextID} == {1, 2}
      ensures |streams| == served && forall k :: 0 <= k < served ==> streams[k] == 3 + k
      ensures NonZero(deletes) == streams
      ensures told == DueAll(exported, dispatched)
      ensures dispatched + pendingCallouts == issued && Numbered(issued)
    {
      served := 0;
      var closed := false;
      while served < |rs| && !closed
        invariant served <= |rs| && Valid()
        invariant rootContextID == 1 && pluginContextID == 2 && contexts.Keys == {1, 2}
        invariant served < |rs| ==> nextContextID == 3 + served
        invariant |streams| == served && forall k :: 0 <= k < served ==> streams[k] == 3 + k
        invariant NonZero(deletes) == streams
        decreases |rs| - served
      {
        ghost var before := deletes;
        ghost var id, shortCut, t;
        closed, id, shortCut, t := Serve(rs[served]);
        NonZeroSnoc(before, id);
        if shortCut { NonZeroSnoc(before + [id], 0); } else { assert before + [id] + [] == before + [id]; }
        served := served + 1;
      }
      assert dispatched + [] == dispatched;
    }
  }

  /** Deletions of contexts that can exist; ID 0 is never allocated before the counter wraps. */
  function NonZero(ids: seq<uint32>): seq<uint32> {
    if ids == [] then [] else
      NonZero(ids[..|ids| - 1]) + if ids[|ids| - 1] != 0 then [ids[|ids| - 1]] else []
  }

  lemma NonZeroSnoc(ids: seq<uint32>, id: uint32)
    ensures NonZero(ids + [id]) == NonZero(ids) + if id != 0 then [id] else []
  {
    assert (ids + [id])[..|ids|] == ids;
  }
}
