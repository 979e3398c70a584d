/**
 The Redfish handler as a machine: one callback of the HTTP server in, one
 response and one new resource state out. Request bodies and response bodies
 accumulate in a per-resource block that the handler must give back.
 */
module Redfish {
  import opened Bytes

  datatype Option<T> = None | Some(value: T)

  datatype Method = Get | Patch | Post | OtherMethod

  datatype Status = More | Final | Complete | Aborted

  const HTTP_200_OK: int := 200
  const HTTP_204_NO_CONTENT: int := 204
  const HTTP_400_BAD_REQUEST: int := 400
  const HTTP_401_UNAUTHORIZED: int := 401
  const HTTP_405_METHOD_NOT_ALLOWED: int := 405
  const HTTP_500_INTERNAL_SERVER_ERROR: int := 500

  const USER_DATA_BUFFER_GET_SIZE: nat := 1024
  const USER_DATA_BUFFER_POST_SIZE: nat := 512

  /** What a resource supports: a GET, and functions applied to a PATCH or POST body. */
  datatype Handlers = Handlers(requireAuth: bool, get: bool,
                               patch: Option<seq<byte> -> int>, post: Option<seq<byte> -> int>)

  /** The resource's buffer: whether a block is held, its size, and the bytes in it. */
  datatype Resource = Resource(started: bool, size: nat, data: seq<byte>)

  const IDLE := Resource(false, 0, [])

  /**
   One call from the HTTP server. `pieces` are the strings a JSON encoder would
   append for a GET; `chunk` is this part of the request body, empty if none.
   */
  datatype Callback = Callback(verb: Method, status: Status, authorised: bool, webui: bool,
                               chunk: seq<byte>, pieces: seq<seq<byte>>)

  datatype Headers = NoHeaders | AllowGet | AllowPost | AllowGetPatch | Json | WwwAuthenticate

  datatype Response = Response(status: int, finalChunk: bool, headers: Headers, body: Option<seq<byte>>)

  const UNANSWERED := Response(0, false, NoHeaders, None)

  /** A PATCH or POST function being run on a request body. */
  datatype Invocation = Invocation(verb: Method, body: seq<byte>)

  datatype Outcome = Outcome(resource: Resource, response: Response, call: Option<Invocation>)

  predicate Supports(h: Handlers, m: Method) {
    match m
    case Get => h.get
    case Patch => h.patch.Some?
    case Post => h.post.Some?
    case OtherMethod => false
  }

  /** The status the PATCH or POST function returns for a body, 0 for success. */
  function RunFunction(h: Handlers, m: Method, body: seq<byte>): int
    requires (m.Patch? || m.Post?) && Supports(h, m)
  {
    if m.Patch? then h.patch.value(body) else h.post.value(body)
  }

  function AllowHeader(h: Handlers): Headers {
    match (h.get, h.patch.Some?, h.post.Some?)
    case (true, false, false) => AllowGet
    case (false, false, true) => AllowPost
    case (true, true, false) => AllowGetPatch
    case _ => NoHeaders
  }

  /** Appending stops at the first piece that does not fit. */
  function AppendAll(data: seq<byte>, size: nat, pieces: seq<seq<byte>>): (bool, seq<byte>)
    decreases pieces
  {
    if pieces == [] then (true, data)
    else if |data| + |pieces[0]| > size then (false, data)
    else AppendAll(data + pieces[0], size, pieces[1..])
  }

  function Accumulate(r: Resource, chunk: seq<byte>): Option<Resource> {
    var r1 := if r.started then r else Resource(true, USER_DATA_BUFFER_POST_SIZE, r.data);
    if |chunk| == 0 then Some(r1)
    else if |r1.data| + |chunk| > r1.size then None
    else Some(r1.(data := r1.data + chunk))
  }

  function Handle(r: Resource, h: Handlers, cb: Callback): Outcome {
    if Ends(cb) then
      Outcome(if r.started then IDLE else r, UNANSWERED, None)
    else if !Supports(h, cb.verb) then
      Outcome(r, Response(HTTP_405_METHOD_NOT_ALLOWED, true, AllowHeader(h), None), None)
    else
      var headers := if cb.verb.Get? then Json else NoHeaders;
      if h.requireAuth && !cb.authorised then
        Outcome(r, Response(HTTP_401_UNAUTHORIZED, true, if cb.webui then headers else WwwAuthenticate, None), None)
      else if cb.verb.Get? then
        if !cb.status.Final? then
          Outcome(if r.started then IDLE else r, Response(HTTP_400_BAD_REQUEST, true, headers, None), None)
        else
          var (fits, data) := AppendAll(if r.started then [] else r.data, USER_DATA_BUFFER_GET_SIZE, cb.pieces);
          Outcome(Resource(true, USER_DATA_BUFFER_GET_SIZE, data),
                  if fits then Response(HTTP_200_OK, true, headers, Some(data))
                  else Response(HTTP_500_INTERNAL_SERVER_ERROR, true, headers, None),
                  None)
      else
        match Accumulate(r, cb.chunk)
        case None => Outcome(IDLE, Response(HTTP_400_BAD_REQUEST, true, headers, None), None)
        case Some(r1) =>
          if !cb.status.Final? then Outcome(r1, UNANSWERED, None)
          else
            var ret := RunFunction(h, cb.verb, r1.data);
            Outcome(IDLE, Response(if ret != 0 then ret else HTTP_204_NO_CONTENT, true, headers, None),
                    Some(Invocation(cb.verb, r1.data)))
  }

  // ---------------------------------------------------------------------
  // Buffers
  // ---------------------------------------------------------------------

  /** A block is held exactly while data may be in it, and the data fits. */
  predicate ResourceInv(r: Resource) {
    |r.data| <= r.size && (!r.started ==> r == IDLE)
  }

  lemma {:induction false} AppendAllIff(data: seq<byte>, size: nat, pieces: seq<seq<byte>>)
    requires |data| <= size
    ensures AppendAll(data, size, pieces).0 <==> |data| + |Flatten(pieces)| <= size
    ensures AppendAll(data, size, pieces).0 ==> AppendAll(data, size, pieces).1 == data + Flatten(pieces)
    ensures |AppendAll(data, size, pieces).1| <= size
    decreases pieces
  {
    if pieces != [] && |data| + |pieces[0]| <= size {
      AppendAllIff(data + pieces[0], size, pieces[1..]);
      assert data + pieces[0] + Flatten(pieces[1..]) == data + Flatten(pieces);
    }
  }

  lemma HandleKeepsInv(r: Resource, h: Handlers, cb: Callback)
    requires ResourceInv(r)
    ensures ResourceInv(Handle(r, h, cb).resource)
  {
    AppendAllIff([], USER_DATA_BUFFER_GET_SIZE, cb.pieces);
  }

  ghost function AfterAll(r: Resource, h: Handlers, run: seq<Callback>): Resource
    decreases run
  {
    if run == [] then r else AfterAll(Handle(r, h, run[0]).resource, h, run[1..])
  }

  /** One more callback at the end of a run. */
  lemma {:induction false} AfterOneMore(r: Resource, h: Handlers, run: seq<Callback>, cb: Callback)
    ensures AfterAll(r, h, run + [cb]) == Handle(AfterAll(r, h, run), h, cb).resource
    decreases run
  {
    if run == [] {
      assert [] + [cb] == [cb];
      assert AfterAll(r, h, [cb]) == AfterAll(Handle(r, h, cb).resource, h, []);
    } else {
      assert (run + [cb])[1..] == run[1..] + [cb];
      AfterOneMore(Handle(r, h, run[0]).resource, h, run[1..], cb);
    }
  }

  predicate Ends(cb: Callback) {
    cb.status.Complete? || cb.status.Aborted?
  }

  /** However callbacks arrive, a transaction that completes or is aborted holds nothing. */
  lemma {:induction false} TransactionsEndIdle(r: Resource, h: Handlers, run: seq<Callback>)
    requires ResourceInv(r)
    ensures ResourceInv(AfterAll(r, h, run))
    ensures run != [] && Ends(run[|run| - 1]) ==> AfterAll(r, h, run) == IDLE
    decreases run
  {
    if run != [] {
      HandleKeepsInv(r, h, run[0]);
      TransactionsEndIdle(Handle(r, h, run[0]).resource, h, run[1..]);
    }
  }

  // ---------------------------------------------------------------------
  // Request bodies
  // ---------------------------------------------------------------------

  /** The resource supports the method and the client may use it. */
  predicate Admitted(h: Handlers, m: Method, authorised: bool) {
    Supports(h, m) && (h.requireAuth ==> authorised)
  }

  /** What a client sees of one PATCH or POST: the last response and the functions run. */
  datatype Transaction = Transaction(resource: Resource, response: Response, calls: seq<Invocation>)

  /**
   The server feeds the chunks in order, the last one as FINAL if the request
   was received whole, and feeds no more after a final response. Whether the
   client is authorised does not change on the way.
   */
  function Feed(r: Resource, h: Handlers, m: Method, authorised: bool, webui: bool,
                chunks: seq<seq<byte>>, whole: bool): Transaction
    decreases chunks
  {
    if chunks == [] then Transaction(r, UNANSWERED, [])
    else
      var status := if whole && |chunks| == 1 then Final else More;
      var o := Handle(r, h, Callback(m, status, authorised, webui, chunks[0], []));
      var now := if o.call.Some? then [o.call.value] else [];
      if o.response.finalChunk then Transaction(o.resource, o.response, now)
      else
        var rest := Feed(o.resource, h, m, authorised, webui, chunks[1..], whole);
        rest.(calls := now + rest.calls)
  }

  /** What one part of an admitted request body does. */
  lemma OnePart(r: Resource, h: Handlers, m: Method, authorised: bool, webui: bool, part: seq<byte>, last: bool)
    requires (m.Patch? || m.Post?) && Admitted(h, m, authorised)
    requires ResourceInv(r) && (r.started ==> r.size == USER_DATA_BUFFER_POST_SIZE)
    ensures var o, body := Handle(r, h, Callback(m, if last then Final else More, authorised, webui, part, [])), r.data + part;
      && (|body| > USER_DATA_BUFFER_POST_SIZE ==>
            o == Outcome(IDLE, Response(HTTP_400_BAD_REQUEST, true, NoHeaders, None), None))
      && (|body| <= USER_DATA_BUFFER_POST_SIZE && !last ==>
            o == Outcome(Resource(true, USER_DATA_BUFFER_POST_SIZE, body), UNANSWERED, None))
      && (|body| <= USER_DATA_BUFFER_POST_SIZE && last ==>
            && o.resource == IDLE && o.call == Some(Invocation(m, body))
            && o.response.finalChunk && o.response.body.None?
            && var ret := RunFunction(h, m, body);
               o.response.status == if ret != 0 then ret else HTTP_204_NO_CONTENT)
  {
    assert |part| == 0 ==> r.data + part == r.data;
  }

  lemma {:induction false} FeedOn(r: Resource, h: Handlers, m: Method, authorised: bool, webui: bool,
                                  chunks: seq<seq<byte>>, whole: bool)
    requires (m.Patch? || m.Post?) && Admitted(h, m, authorised)
    requires ResourceInv(r) && (r.started ==> r.size == USER_DATA_BUFFER_POST_SIZE)
    requires chunks != []
    ensures var t, body := Feed(r, h, m, authorised, webui, chunks, whole), r.data + Flatten(chunks);
      && (|body| > USER_DATA_BUFFER_POST_SIZE ==>
            t == Transaction(IDLE, Response(HTTP_400_BAD_REQUEST, true, NoHeaders, None), []))
      && (|body| <= USER_DATA_BUFFER_POST_SIZE && !whole ==>
            t == Transaction(Resource(true, USER_DATA_BUFFER_POST_SIZE, body), UNANSWERED, []))
      && (|body| <= USER_DATA_BUFFER_POST_SIZE && whole ==>
            && t.resource == IDLE && t.calls == [Invocation(m, body)]
            && t.response.finalChunk && t.response.body.None?
            && var ret := RunFunction(h, m, body);
               t.response.status == if ret != 0 then ret else HTTP_204_NO_CONTENT)
    decreases chunks
  {
    OnePart(r, h, m, authorised, webui, chunks[0], whole && |chunks| == 1);
    assert r.data + Flatten(chunks) == (r.data + chunks[0]) + Flatten(chunks[1..]);
    if |r.data| + |chunks[0]| <= USER_DATA_BUFFER_POST_SIZE {
      if |chunks| > 1 {
        FeedOn(Resource(true, USER_DATA_BUFFER_POST_SIZE, r.data + chunks[0]), h, m, authorised, webui, chunks[1..], whole);
      } else {
        assert r.data + Flatten(chunks) == r.data + chunks[0];
      }
    }
  }

  /**
   A PATCH or POST received whole runs the resource's function for it once, on
   exactly the bytes of the request, if and only if the resource has one, the
   client may use it and the bytes fit the buffer; the answer is then what the
   function returns, or 204. Otherwise nothing runs and the answer is 405, 401
   or 400. In every case nothing stays allocated.
   */
  lemma RequestRunsOnceIffFits(h: Handlers, m: Method, authorised: bool, webui: bool, chunks: seq<seq<byte>>)
    requires (m.Patch? || m.Post?) && chunks != []
    ensures var t, body := Feed(IDLE, h, m, authorised, webui, chunks, true), Flatten(chunks);
      var fn := if m.Patch? then h.patch else h.post;
      var allowed := h.requireAuth ==> authorised;
      && t.resource == IDLE && t.response.finalChunk && t.response.body.None?
      && (t.calls == [Invocation(m, body)] <==> fn.Some? && allowed && |body| <= 512)
      && (t.calls == [] <==> !(fn.Some? && allowed && |body| <= 512))
      && (fn.None? ==> t.response.status == 405)
      && (fn.Some? && !allowed ==> t.response.status == 401)
      && (fn.Some? && allowed && |body| > 512 ==> t.response.status == 400)
      && (fn.Some? && allowed && |body| <= 512 ==>
            t.response.status == if fn.value(body) != 0 then fn.value(body) else 204)
  {
    if Admitted(h, m, authorised) {
      FeedOn(IDLE, h, m, authorised, webui, chunks, true);
      assert [] + Flatten(chunks) == Flatten(chunks);
    }
  }

  /** A request cut short runs nothing. */
  lemma CutShortRunsNothing(h: Handlers, m: Method, authorised: bool, webui: bool, chunks: seq<seq<byte>>)
    requires m.Patch? || m.Post?
    ensures Feed(IDLE, h, m, authorised, webui, chunks, false).calls == []
  {
    if chunks != [] && Admitted(h, m, authorised) {
      FeedOn(IDLE, h, m, authorised, webui, chunks, false);
    }
  }

  // ---------------------------------------------------------------------
  // Response bodies, and requests that are turned away
  // ---------------------------------------------------------------------

  /** A GET answers with exactly the encoder's output if and only if it fits; the block stays until the end. */
  lemma GetAnswersIffFits(r: Resource, h: Handlers, cb: Callback)
    requires ResourceInv(r) && h.get && cb.verb.Get? && cb.status.Final?
    requires h.requireAuth ==> cb.authorised
    ensures var o, text := Handle(r, h, cb), Flatten(cb.pieces);
      && o.resource.started && o.resource.size == USER_DATA_BUFFER_GET_SIZE
      && o.response.finalChunk && o.call.None?
      && (|text| <= 1024 <==> o.response == Response(HTTP_200_OK, true, Json, Some(text)))
      && (|text| <= 1024 ==> o.resource.data == text)
      && (|text| > 1024 <==> o.response.status == HTTP_500_INTERNAL_SERVER_ERROR)
  {
    AppendAllIff([], USER_DATA_BUFFER_GET_SIZE, cb.pieces);
    assert [] + Flatten(cb.pieces) == Flatten(cb.pieces);
  }

  /** A GET in several parts is refused, and any block it held is given back. */
  lemma GetNeedsFinal(r: Resource, h: Handlers, cb: Callback)
    requires ResourceInv(r) && h.get && cb.verb.Get? && cb.status.More?
    requires h.requireAuth ==> cb.authorised
    ensures Handle(r, h, cb) == Outcome(IDLE, Response(400, true, Json, None), None)
  {
  }

  /** A function runs exactly at the last part of a request that is allowed, has one and fits. */
  lemma RunsExactlyWhen(r: Resource, h: Handlers, cb: Callback)
    requires ResourceInv(r)
    ensures var call := Handle(r, h, cb).call;
      && (call.Some? <==>
            && cb.status.Final?
            && ((cb.verb.Patch? && h.patch.Some?) || (cb.verb.Post? && h.post.Some?))
            && (h.requireAuth ==> cb.authorised)
            && |r.data| + |cb.chunk| <= if r.started then r.size else 512)
      && (call.Some? ==> call.value == Invocation(cb.verb, r.data + cb.chunk))
  {
    assert |cb.chunk| == 0 ==> r.data + cb.chunk == r.data;
  }

  /** The methods that an Allow header lists. */
  function Listed(headers: Headers): set<Method> {
    match headers
    case AllowGet => {Get}
    case AllowPost => {Post}
    case AllowGetPatch => {Get, Patch}
    case _ => {}
  }

  /**
   How a request is turned away: 405 without a function for its method, with an
   Allow header that lists exactly the methods there are, if they are GET, POST
   or GET and PATCH; else 401 without credentials, asking for them exactly when
   the request does not come from the web page.
   */
  lemma TurnedAwayHow(r: Resource, h: Handlers, cb: Callback)
    requires cb.status.More? || cb.status.Final?
    ensures var o := Handle(r, h, cb);
      var verbs := (if h.get then {Get} else {}) + (if h.patch.Some? then {Patch} else {})
                 + (if h.post.Some? then {Post} else {});
      && (cb.verb !in verbs ==>
            && o.resource == r && o.call.None? && o.response.body.None? && o.response.finalChunk
            && o.response.status == 405
            && Listed(o.response.headers) == (if verbs == {Get} || verbs == {Post} || verbs == {Get, Patch} then verbs else {})
            && (Listed(o.response.headers) == {} ==> o.response.headers == NoHeaders))
      && (cb.verb in verbs && h.requireAuth && !cb.authorised ==>
            && o.resource == r && o.call.None? && o.response.body.None? && o.response.finalChunk
            && o.response.status == 401
            && (o.response.headers == WwwAuthenticate <==> !cb.webui))
  {
    var verbs := (if h.get then {Get} else {}) + (if h.patch.Some? then {Patch} else {})
               + (if h.post.Some? then {Post} else {});
    assert Get in verbs <==> h.get;
    assert Patch in verbs <==> h.patch.Some?;
    assert Post in verbs <==> h.post.Some?;
    assert OtherMethod !in verbs;
    assert verbs == {Get} <==> h.get && h.patch.None? && h.post.None?;
    assert verbs == {Post} <==> !h.get && h.patch.None? && h.post.Some?;
    assert verbs == {Get, Patch} <==> h.get && h.patch.Some? && h.post.None?;
  }

  /**
   Requests for a method without handler or from a client without credentials,
   any number of them, leave a resource as they found it, run nothing and are
   answered 405 or 401.
   */
  lemma TurnedAwayChangesNothing(r: Resource, h: Handlers, run: seq<Callback>)
    requires forall k :: 0 <= k < |run| ==> !Ends(run[k]) && !Admitted(h, run[k].verb, run[k].authorised)
    ensures AfterAll(r, h, run) == r
    ensures forall k :: 0 <= k < |run| ==>
      var o := Handle(AfterAll(r, h, run[..k]), h, run[k]);
      && o.call.None? && o.response.finalChunk && o.response.body.None?
      && o.response.status == if Supports(h, run[k].verb) then HTTP_401_UNAUTHORIZED else HTTP_405_METHOD_NOT_ALLOWED
  {
    TurnedAwayPrefix(r, h, run);
    forall k | 0 <= k < |run| ensures AfterAll(r, h, run[..k]) == r {
      TurnedAwayPrefix(r, h, run[..k]);
    }
  }

  lemma {:induction false} TurnedAwayPrefix(r: Resource, h: Handlers, run: seq<Callback>)
    requires forall k :: 0 <= k < |run| ==> !Ends(run[k]) && !Admitted(h, run[k].verb, run[k].authorised)
    ensures AfterAll(r, h, run) == r
    decreases run
  {
    if run != [] {
      TurnedAwayPrefix(r, h, run[1..]);
    }
  }
}
