/**
 The blockstore that switches on the request context, the handler that puts a
 private store into that context, and what requests can learn of each other.
 */
module Blockstores {
  import opened Cids
  import opened Wrappers

  type Data = seq<bv8>

  datatype Block = Block(cid: Cid, data: Data)

  type Store = map<Cid, Data>

  // ----- What an operation on one store does -----

  datatype Op =
    | Put(block: Block)
    | PutMany(blocks: seq<Block>)
    | Get(cid: Cid)
    | Has(cid: Cid)
    | GetSize(cid: Cid)
    | DeleteBlock(cid: Cid)
    | AllKeys

  datatype Answer = Done | NotFound | Found(data: Data) | Present(has: bool) | Size(size: nat) | Keys(keys: set<Cid>)

  function Stored(s: Store, blocks: seq<Block>): Store {
    if |blocks| == 0 then s
    else var b := blocks[|blocks| - 1]; Stored(s, blocks[..|blocks| - 1])[b.cid := b.data]
  }

  function Effect(s: Store, op: Op): Store {
    match op
    case Put(b) => s[b.cid := b.data]
    case PutMany(bs) => Stored(s, bs)
    case DeleteBlock(c) => s - {c}
    case _ => s
  }

  function Reply(s: Store, op: Op): Answer {
    match op
    case Get(c) => if c in s then Found(s[c]) else NotFound
    case Has(c) => Present(c in s)
    case GetSize(c) => if c in s then Size(|s[c]|) else NotFound
    case AllKeys => Keys(s.Keys)
    case _ => Done
  }

  // ----- The stores -----

  class Blockstore {
    var contents: Store

    constructor ()
      ensures contents == map[]
    {
      contents := map[];
    }

    method Perform(op: Op) returns (a: Answer)
      modifies this
      ensures contents == Effect(old(contents), op) && a == Reply(old(contents), op)
    {
      a := Reply(contents, op);
      match op
      case Put(b) => contents := contents[b.cid := b.data];
      case PutMany(bs) =>
        for i := 0 to |bs|
          invariant contents == Stored(old(contents), bs[..i])
        {
          assert bs[..i + 1][..i] == bs[..i];
          contents := contents[bs[i].cid := bs[i].data];
        }
        assert bs[..|bs|] == bs;
      case DeleteBlock(c) => contents := contents - {c};
      case _ =>
    }
  }

  /** A request context: the value under the switching key, if it is a blockstore. */
  datatype Context = Context(alternative: Option<Blockstore>)

  class SwitchingBlockstore {
    const base: Blockstore

    constructor (base: Blockstore)
      ensures this.base == base
    {
      this.base := base;
    }

    function GetBlockstore(ctx: Context): Blockstore {
      match ctx.alternative
      case Some(store) => store
      case None => base
    }

    /** Each operation goes to the context's store, and touches no other. */
    method Perform(ctx: Context, op: Op) returns (a: Answer)
      modifies GetBlockstore(ctx)
      ensures ctx.alternative.Some? ==>
                var own := ctx.alternative.value;
                own.contents == Effect(old(own.contents), op) && a == Reply(old(own.contents), op)
      ensures ctx.alternative.None? ==>
                base.contents == Effect(old(base.contents), op) && a == Reply(old(base.contents), op)
    {
      var store := GetBlockstore(ctx);
      a := store.Perform(op);
    }
  }

  // ----- Admission -----

  /** The first value of each header, or "". */
  datatype Headers = Headers(authorization: string, traceparent: string, tracestate: string, noBlockcache: string)

  datatype Verdict = Unauthorized | InternalError | Served(ctx: Context)

  predicate Authorized(authToken: string, h: Headers) {
    authToken != "" && h.authorization == authToken
  }

  /** Runs before the gateway; `opens` tells whether a fresh datastore could be opened. */
  method WithTracingAndDebug(authToken: string, h: Headers, opens: bool) returns (v: Verdict)
    ensures v.Unauthorized? <==>
            && (authToken == "" || h.authorization != authToken)
            && (h.traceparent != "" || h.tracestate != "" || h.noBlockcache != "")
    ensures v.Served? && v.ctx.alternative.Some? <==>
            authToken != "" && h.authorization == authToken && h.noBlockcache == "true" && opens
    ensures v.Served? && v.ctx.alternative.Some? ==>
              fresh(v.ctx.alternative.value) && v.ctx.alternative.value.contents == map[]
    ensures v.InternalError? <==>
            authToken != "" && h.authorization == authToken && h.noBlockcache == "true" && !opens
  {
    if authToken == "" || h.authorization != authToken {
      if h.traceparent != "" || h.tracestate != "" || h.noBlockcache != "" {
        return Unauthorized;
      }
    }
    var ctx := Context(None);
    if h.noBlockcache == "true" {
      if !opens {
        return InternalError;
      }
      var store := new Blockstore();
      ctx := Context(Some(store));
    }
    return Served(ctx);
  }

  // ----- Runs of interleaved requests -----

  type RequestId = nat

  datatype Event = Event(request: RequestId, op: Op)

  /** The shared store and the private stores of the requests that skip it. */
  datatype World = World(shared: Store, private: map<RequestId, Store>)

  function StoreOf(w: World, q: RequestId): Store {
    if q in w.private then w.private[q] else w.shared
  }

  function Step(w: World, e: Event): World {
    var s := Effect(StoreOf(w, e.request), e.op);
    if e.request in w.private then w.(private := w.private[e.request := s]) else w.(shared := s)
  }

  function Final(w: World, events: seq<Event>): World {
    if |events| == 0 then w else Step(Final(w, events[..|events| - 1]), events[|events| - 1])
  }

  /** The answer to the last event. */
  function LastAnswer(w: World, events: seq<Event>): Answer
    requires |events| > 0
  {
    var e := events[|events| - 1];
    Reply(StoreOf(Final(w, events[..|events| - 1]), e.request), e.op)
  }

  function Answers(w: World, events: seq<Event>): (answers: seq<Answer>)
    ensures |answers| == |events|
  {
    if |events| == 0 then [] else Answers(w, events[..|events| - 1]) + [LastAnswer(w, events)]
  }

  /** The private stores of some contexts. */
  ghost function PrivateStores(contexts: map<RequestId, Context>): set<Blockstore> {
    set q | q in contexts && contexts[q].alternative.Some? :: contexts[q].alternative.value
  }

  /** No two requests have the same private store, and none has the shared one. */
  ghost predicate Separate(base: Blockstore, contexts: map<RequestId, Context>) {
    && base !in PrivateStores(contexts)
    && forall p, q :: p in contexts && q in contexts && p != q && contexts[p].alternative.Some? ==>
         contexts[p].alternative != contexts[q].alternative
  }

  /** The contents of the objects, as a world. */
  ghost function WorldOf(base: Blockstore, contexts: map<RequestId, Context>): World
    reads base, PrivateStores(contexts)
  {
    World(base.contents,
          map q | q in contexts && contexts[q].alternative.Some? :: contexts[q].alternative.value.contents)
  }

  /** One event of a request, on the objects. */
  method ServeOne(store: SwitchingBlockstore, contexts: map<RequestId, Context>, e: Event) returns (a: Answer)
    requires Separate(store.base, contexts) && e.request in contexts
    modifies store.base, PrivateStores(contexts)
    ensures WorldOf(store.base, contexts) == Step(old(WorldOf(store.base, contexts)), e)
    ensures a == Reply(StoreOf(old(WorldOf(store.base, contexts)), e.request), e.op)
  {
    ghost var w := WorldOf(store.base, contexts);
    var ctx := contexts[e.request];
    a := store.Perform(ctx, e.op);
    if ctx.alternative.Some? {
      assert store.base.contents == w.shared;
      assert WorldOf(store.base, contexts).private == w.private[e.request := Effect(w.private[e.request], e.op)];
    } else {
      assert WorldOf(store.base, contexts).private == w.private;
    }
  }

  /** Serves interleaved requests on the objects: request `q` uses context `contexts[q]`. */
  method Serve(store: SwitchingBlockstore, contexts: map<RequestId, Context>, events: seq<Event>)
      returns (answers: seq<Answer>)
    requires Separate(store.base, contexts)
    requires forall i :: 0 <= i < |events| ==> events[i].request in contexts
    modifies store.base, PrivateStores(contexts)
    ensures WorldOf(store.base, contexts) == Final(old(WorldOf(store.base, contexts)), events)
    ensures answers == Answers(old(WorldOf(store.base, contexts)), events)
  {
    answers := [];
    for i := 0 to |events|
      invariant WorldOf(store.base, contexts) == Final(old(WorldOf(store.base, contexts)), events[..i])
      invariant answers == Answers(old(WorldOf(store.base, contexts)), events[..i])
    {
      assert events[..i + 1][..i] == events[..i];
      var a := ServeOne(store, contexts, events[i]);
      answers := answers + [a];
    }
    assert events[..|events|] == events;
  }

  // ----- Non-interference -----

  /** A plain store running some operations. */
  function Alone(s: Store, ops: seq<Op>): Store {
    if |ops| == 0 then s else Effect(Alone(s, ops[..|ops| - 1]), ops[|ops| - 1])
  }

  function AnswersAlone(s: Store, ops: seq<Op>): seq<Answer> {
    if |ops| == 0 then []
    else AnswersAlone(s, ops[..|ops| - 1]) + [Reply(Alone(s, ops[..|ops| - 1]), ops[|ops| - 1])]
  }

  /** Who a store belongs to: all requests without a private store, or one request with one. */
  predicate Belongs(w: World, owner: Option<RequestId>, e: Event) {
    match owner
    case None => e.request !in w.private
    case Some(q) => e.request == q
  }

  function OpsOf(w: World, owner: Option<RequestId>, events: seq<Event>): seq<Op> {
    if |events| == 0 then []
    else
      var e := events[|events| - 1];
      OpsOf(w, owner, events[..|events| - 1]) + (if Belongs(w, owner, e) then [e.op] else [])
  }

  /** The answers among `Answers` that go to the owner. */
  function Seen(w: World, owner: Option<RequestId>, events: seq<Event>): seq<Answer> {
    if |events| == 0 then []
    else
      Seen(w, owner, events[..|events| - 1])
      + (if Belongs(w, owner, events[|events| - 1]) then [LastAnswer(w, events)] else [])
  }

  function StoreAt(w: World, owner: Option<RequestId>): Store
    requires owner.Some? ==> owner.value in w.private
  {
    if owner.Some? then w.private[owner.value] else w.shared
  }

  lemma {:induction false} OwnersAreFixed(w: World, events: seq<Event>)
    ensures Final(w, events).private.Keys == w.private.Keys
  {
    if |events| > 0 { OwnersAreFixed(w, events[..|events| - 1]); }
  }

  /**
   Isolation: whatever the interleaving, the shared store and what ordinary
   requests see of it are as if they had run alone, and so is each private
   store and what its request sees.
   */
  lemma {:induction false} Isolation(w: World, owner: Option<RequestId>, events: seq<Event>)
    requires owner.Some? ==> owner.value in w.private
    ensures Final(w, events).private.Keys == w.private.Keys
    ensures StoreAt(Final(w, events), owner) == Alone(StoreAt(w, owner), OpsOf(w, owner, events))
    ensures Seen(w, owner, events) == AnswersAlone(StoreAt(w, owner), OpsOf(w, owner, events))
  {
    OwnersAreFixed(w, events);
    if |events| > 0 {
      var init, e := events[..|events| - 1], events[|events| - 1];
      OwnersAreFixed(w, init);
      Isolation(w, owner, init);
      var ops := OpsOf(w, owner, init);
      if Belongs(w, owner, e) {
        assert (ops + [e.op])[..|ops|] == ops;
      } else {
        assert ops + [] == ops;
      }
    }
  }

  /** The events of requests without a private store. */
  function Ordinary(w: World, events: seq<Event>): seq<Event> {
    if |events| == 0 then []
    else
      var e := events[|events| - 1];
      Ordinary(w, events[..|events| - 1]) + (if e.request in w.private then [] else [e])
  }

  lemma {:induction false} OrdinaryOps(w: World, events: seq<Event>)
    ensures OpsOf(w, None, Ordinary(w, events)) == OpsOf(w, None, events)
  {
    if |events| > 0 {
      var init, e := events[..|events| - 1], events[|events| - 1];
      OrdinaryOps(w, init);
      if e.request in w.private {
        assert Ordinary(w, events) == Ordinary(w, init);
      } else {
        assert (Ordinary(w, init) + [e])[..|Ordinary(w, init)|] == Ordinary(w, init);
      }
    }
  }

  /** Non-interference: leaving out every cache-skipping request changes nothing for the rest. */
  lemma NonInterference(w: World, events: seq<Event>)
    ensures Final(w, events).shared == Final(w, Ordinary(w, events)).shared
    ensures Seen(w, None, events) == Seen(w, None, Ordinary(w, events))
  {
    Isolation(w, None, events);
    Isolation(w, None, Ordinary(w, events));
    OrdinaryOps(w, events);
  }

  /** A request whose store is fresh sees only what it put there itself. */
  lemma PrivateRequestsStartEmpty(w: World, q: RequestId, events: seq<Event>)
    requires q in w.private && w.private[q] == map[]
    ensures Seen(w, Some(q), events) == AnswersAlone(map[], OpsOf(w, Some(q), events))
  {
    Isolation(w, Some(q), events);
  }

  /** What a request puts into its private store it finds there again, and no ordinary request does. */
  lemma PrivatePutStaysPrivate(w: World, q: RequestId, p: RequestId, b: Block)
    requires q in w.private && p !in w.private
    ensures Answers(w, [Event(q, Put(b)), Event(q, Get(b.cid)), Event(p, Get(b.cid))])
            == [Done, Found(b.data), if b.cid in w.shared then Found(w.shared[b.cid]) else NotFound]
  {
    var put, own, other := Event(q, Put(b)), Event(q, Get(b.cid)), Event(p, Get(b.cid));
    var events := [put, own, other];
    assert events[..2] == [put, own] && [put, own][..1] == [put] && [put][..0] == [];
    assert Final(w, []) == w && Final(w, [put]) == Step(w, put);
    assert Final(w, [put, own]) == Step(Step(w, put), own);
    assert Answers(w, [put]) == Answers(w, []) + [Done] == [Done];
    assert Answers(w, [put, own]) == [Done] + [Found(b.data)];
    assert Answers(w, events) == Answers(w, [put, own]) + [LastAnswer(w, events)];
  }

  // ----- From headers to stores -----

  /** For which requests a fresh datastore can be opened. */
  type Opens = RequestId -> bool

  predicate Skips(authToken: string, h: Headers, opens: bool) {
    Authorized(authToken, h) && h.noBlockcache == "true" && opens
  }

  predicate Admitted(authToken: string, h: Headers, opens: bool) {
    || (Authorized(authToken, h) && (h.noBlockcache == "true" ==> opens))
    || (h.traceparent == "" && h.tracestate == "" && h.noBlockcache == "")
  }

  /** A fresh empty store for each request that skips the shared one. */
  function Arrivals(authToken: string, headers: seq<Headers>, opens: Opens, shared: Store): World {
    World(shared, map q: nat | q < |headers| && Skips(authToken, headers[q], opens(q)) :: map[])
  }

  /** Who gets a private store: requests that carry the configured, non-empty token and ask for it. */
  lemma PrivateStoresNeedToken(authToken: string, headers: seq<Headers>, opens: Opens, shared: Store, q: RequestId)
    ensures q in Arrivals(authToken, headers, opens, shared).private <==>
            && q < |headers| && authToken != "" && headers[q].authorization == authToken
            && headers[q].noBlockcache == "true" && opens(q)
    ensures q in Arrivals(authToken, headers, opens, shared).private ==>
            Arrivals(authToken, headers, opens, shared).private[q] == map[]
    ensures Arrivals(authToken, headers, opens, shared).shared == shared
  {
  }

  /** Who is refused: requests that set one of the three headers without that token, or for which opening fails. */
  lemma AdmittedIff(authToken: string, h: Headers, opens: bool)
    ensures Admitted(authToken, h, opens) <==>
            if authToken != "" && h.authorization == authToken then h.noBlockcache != "true" || opens
            else h.traceparent == "" && h.tracestate == "" && h.noBlockcache == ""
  {
  }

  lemma AddContext(contexts: map<RequestId, Context>, q: RequestId, ctx: Context)
    requires q !in contexts
    ensures PrivateStores(contexts[q := ctx])
            == PrivateStores(contexts) + (if ctx.alternative.Some? then {ctx.alternative.value} else {})
  {
    var more := contexts[q := ctx];
    forall p | p in contexts ensures p in more && more[p] == contexts[p] {}
    forall s | s in PrivateStores(contexts) ensures s in PrivateStores(more) {
      var p :| p in contexts && contexts[p].alternative.Some? && contexts[p].alternative.value == s;
      assert p in more && more[p].alternative.value == s;
    }
    assert ctx.alternative.Some? ==> more[q].alternative.value in PrivateStores(more);
  }

  /** Contexts for the requests that are let in. */
  method Admit(authToken: string, headers: seq<Headers>, opens: Opens, base: Blockstore)
      returns (contexts: map<RequestId, Context>)
    ensures forall q: nat :: q in contexts <==> q < |headers| && Admitted(authToken, headers[q], opens(q))
    ensures Separate(base, contexts) && fresh(PrivateStores(contexts))
    ensures WorldOf(base, contexts) == Arrivals(authToken, headers, opens, base.contents)
  {
    contexts := map[];
    for q := 0 to |headers|
      invariant forall p: nat :: p in contexts <==> p < q && Admitted(authToken, headers[p], opens(p))
      invariant Separate(base, contexts) && fresh(PrivateStores(contexts))
      invariant forall p: nat :: p in contexts ==>
                  && (contexts[p].alternative.Some? <==> Skips(authToken, headers[p], opens(p)))
                  && (contexts[p].alternative.Some? ==> contexts[p].alternative.value.contents == map[])
    {
      var v := WithTracingAndDebug(authToken, headers[q], opens(q));
      if v.Served? {
        AddContext(contexts, q, v.ctx);
        contexts := contexts[q := v.ctx];
      }
    }
  }

  /**
   The gateway over any interleaving of the admitted requests: the shared
   store ends, and the requests that do not skip it are answered, as if those
   had run alone; each of the others is answered as if alone on an empty store.
   */
  method HandleRequests(authToken: string, headers: seq<Headers>, opens: Opens, store: SwitchingBlockstore,
                        events: seq<Event>) returns (answers: seq<Answer>)
    requires forall i :: 0 <= i < |events| ==>
               && events[i].request < |headers|
               && Admitted(authToken, headers[events[i].request], opens(events[i].request))
    modifies store.base
    ensures var w := Arrivals(authToken, headers, opens, old(store.base.contents));
            && store.base.contents == Alone(old(store.base.contents), OpsOf(w, None, events))
            && answers == Answers(w, events)
            && Seen(w, None, events) == AnswersAlone(old(store.base.contents), OpsOf(w, None, events))
            && forall q :: q in w.private ==> Seen(w, Some(q), events) == AnswersAlone(map[], OpsOf(w, Some(q), events))
  {
    var contexts := Admit(authToken, headers, opens, store.base);
    ghost var w := Arrivals(authToken, headers, opens, store.base.contents);
    answers := Serve(store, contexts, events);
    Isolation(w, None, events);
    forall q | q in w.private { PrivateRequestsStartEmpty(w, q, events); }
  }
}
