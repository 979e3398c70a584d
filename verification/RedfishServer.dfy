/**
 The Redfish handler as it runs: per-resource records whose blocks come from
 one shared heap. Each method refines the machine in module Redfish, and the
 heap is accounted for across all resources.
 */
module RedfishServers {
  import opened Bytes
  import opened Redfish

  /** The shared heap: its live blocks and how many bytes of it they take. */
  class KHeap {
    ghost var live: set<array<byte>>
    ghost var inUse: int

    constructor ()
      ensures live == {} && inUse == 0
    {
      live, inUse := {}, 0;
    }

    /** A new block with arbitrary contents. */
    method Alloc(size: nat) returns (b: array<byte>)
      modifies this
      ensures fresh(b) && b.Length == size
      ensures live == old(live) + {b} && inUse == old(inUse) + size
    {
      b := new byte[size];
      live, inUse := live + {b}, inUse + size;
    }

    /** Only a live block may be freed, so no caller frees one twice. */
    method Free(b: array<byte>)
      requires b in live
      modifies this
      ensures live == old(live) - {b} && inUse == old(inUse) - b.Length
    {
      live, inUse := live - {b}, inUse - b.Length;
    }
  }

  class UserData {
    var started: bool
    var size: nat
    var dataLen: nat
    var dataBuffer: array?<byte>

    ghost function Blocks(): set<array<byte>>
      reads this
    {
      if dataBuffer == null then {} else {dataBuffer}
    }

    /** A record that is not started holds nothing and has no length left over. */
    ghost predicate Valid(heap: KHeap)
      reads this, heap
    {
      && (started <==> dataBuffer != null)
      && (started ==> dataBuffer in heap.live && dataBuffer.Length == size && dataLen <= size)
      && (!started ==> size == 0 && dataLen == 0)
    }

    function View(): Resource
      requires dataBuffer != null ==> dataLen <= dataBuffer.Length
      reads this, dataBuffer
    {
      Resource(started, size, if dataBuffer == null then [] else dataBuffer[..dataLen])
    }

    constructor ()
      ensures !started && size == 0 && dataLen == 0 && dataBuffer == null
    {
      started, size, dataLen, dataBuffer := false, 0, 0, null;
    }

    /** alloc_user_data: does not reset dataLen. */
    method AllocUserData(heap: KHeap, n: nat)
      requires Valid(heap) && !started
      modifies this, heap
      ensures Valid(heap) && View() == Resource(true, n, [])
      ensures fresh(Blocks())
      ensures heap.live == old(heap.live) + Blocks() && heap.inUse == old(heap.inUse) + n
    {
      started := true;
      size := n;
      dataBuffer := heap.Alloc(n);
    }

    method FreeUserData(heap: KHeap)
      requires Valid(heap)
      modifies this, heap
      ensures Valid(heap) && View() == IDLE && Blocks() == {}
      ensures heap.live == old(heap.live) - old(Blocks())
      ensures heap.inUse == old(heap.inUse) - old(size)
    {
      if !started {
        return;
      }
      started := false;
      size := 0;
      dataLen := 0;
      heap.Free(dataBuffer);
      dataBuffer := null;
    }

    method AppendUserData(ghost heap: KHeap, src: seq<byte>) returns (ok: bool)
      requires Valid(heap) && started
      modifies this`dataLen, dataBuffer
      ensures Valid(heap)
      ensures ok <==> |old(View()).data| + |src| <= size
      ensures View() == if ok then old(View()).(data := old(View()).data + src) else old(View())
    {
      if dataLen + |src| > size {
        return false;
      }
      forall k | 0 <= k < |src| {
        dataBuffer[dataLen + k] := src[k];
      }
      dataLen := dataLen + |src|;
      ok := true;
    }

    /** A GET function: the encoder's appends, given up at the first that fails. */
    method RunGet(ghost heap: KHeap, pieces: seq<seq<byte>>) returns (ret: int)
      requires Valid(heap) && started
      modifies this`dataLen, dataBuffer
      ensures Valid(heap)
      ensures var (fits, data) := AppendAll(old(View()).data, size, pieces);
        View() == old(View()).(data := data) && ret == if fits then 0 else HTTP_500_INTERNAL_SERVER_ERROR
    {
      var k := 0;
      while k < |pieces|
        invariant 0 <= k <= |pieces| && Valid(heap)
        invariant View() == old(View()).(data := View().data)
        invariant AppendAll(old(View()).data, size, pieces) == AppendAll(View().data, size, pieces[k..])
      {
        var ok := AppendUserData(heap, pieces[k]);
        if !ok {
          return HTTP_500_INTERNAL_SERVER_ERROR;
        }
        assert pieces[k..][1..] == pieces[k + 1..];
        k := k + 1;
      }
      ret := 0;
    }
  }

  /** redfish_handler, refining Handle and accounting for the one block it may take or give back. */
  method RedfishHandler(heap: KHeap, ud: UserData, h: Handlers, cb: Callback)
    returns (response: Response, call: Option<Invocation>)
    requires ud.Valid(heap)
    modifies ud, heap, ud.Blocks()
    ensures ud.Valid(heap)
    ensures Outcome(ud.View(), response, call) == Handle(old(ud.View()), h, cb)
    ensures fresh(ud.Blocks() - old(ud.Blocks()))
    ensures heap.live == old(heap.live) - old(ud.Blocks()) + ud.Blocks()
    ensures heap.inUse == old(heap.inUse) - old(ud.size) + ud.size
  {
    response, call := UNANSWERED, None;
    if cb.status.Complete? {
      if cb.verb.Get? {
        ud.FreeUserData(heap);
      } else if ud.started {
        ud.FreeUserData(heap);
      }
      return;
    }
    if cb.status.Aborted? {
      ud.FreeUserData(heap);
      return;
    }
    if !Supports(h, cb.verb) {
      response := Response(HTTP_405_METHOD_NOT_ALLOWED, true, AllowHeader(h), None);
      return;
    }
    if cb.verb.Get? {
      response := response.(headers := Json);
    }
    if h.requireAuth && !cb.authorised {
      response := Response(HTTP_401_UNAUTHORIZED, true, if cb.webui then response.headers else WwwAuthenticate, None);
      return;
    }
    if cb.verb.Get? {
      response := HandleGet(heap, ud, cb);
    } else {
      response, call := HandleBody(heap, ud, h, cb);
    }
  }

  method HandleGet(heap: KHeap, ud: UserData, cb: Callback) returns (response: Response)
    requires ud.Valid(heap) && cb.verb.Get? && (cb.status.More? || cb.status.Final?)
    modifies ud, heap, ud.Blocks()
    ensures ud.Valid(heap)
    ensures forall h: Handlers :: h.get && (h.requireAuth ==> cb.authorised)
              ==> Outcome(ud.View(), response, None) == Handle(old(ud.View()), h, cb)
    ensures fresh(ud.Blocks() - old(ud.Blocks()))
    ensures heap.live == old(heap.live) - old(ud.Blocks()) + ud.Blocks()
    ensures heap.inUse == old(heap.inUse) - old(ud.size) + ud.size
  {
    ud.FreeUserData(heap);
    if !cb.status.Final? {
      return Response(HTTP_400_BAD_REQUEST, true, Json, None);
    }
    ud.AllocUserData(heap, USER_DATA_BUFFER_GET_SIZE);
    var ret := ud.RunGet(heap, cb.pieces);
    if ret != 0 {
      response := Response(ret, true, Json, None);
    } else {
      response := Response(HTTP_200_OK, true, Json, Some(ud.dataBuffer[..ud.dataLen]));
    }
  }

  method HandleBody(heap: KHeap, ud: UserData, h: Handlers, cb: Callback)
    returns (response: Response, call: Option<Invocation>)
    requires ud.Valid(heap) && (cb.verb.Patch? || cb.verb.Post?) && Supports(h, cb.verb)
    requires (cb.status.More? || cb.status.Final?) && (h.requireAuth ==> cb.authorised)
    modifies ud, heap, ud.Blocks()
    ensures ud.Valid(heap)
    ensures Outcome(ud.View(), response, call) == Handle(old(ud.View()), h, cb)
    ensures fresh(ud.Blocks() - old(ud.Blocks()))
    ensures heap.live == old(heap.live) - old(ud.Blocks()) + ud.Blocks()
    ensures heap.inUse == old(heap.inUse) - old(ud.size) + ud.size
  {
    response, call := UNANSWERED, None;
    var ok := AccumulateBody(heap, ud, cb.chunk);
    if !ok {
      ud.FreeUserData(heap);
      response := Response(HTTP_400_BAD_REQUEST, true, NoHeaders, None);
      return;
    }
    if !cb.status.Final? {
      return;
    }
    var body := ud.View().data;
    var ret := RunFunction(h, cb.verb, body);
    call := Some(Invocation(cb.verb, body));
    ud.FreeUserData(heap);
    response := Response(if ret != 0 then ret else HTTP_204_NO_CONTENT, true, NoHeaders, None);
  }

  method AccumulateBody(heap: KHeap, ud: UserData, chunk: seq<byte>) returns (ok: bool)
    requires ud.Valid(heap)
    modifies ud, heap, ud.Blocks()
    ensures ud.Valid(heap) && ud.started
    ensures Accumulate(old(ud.View()), chunk) == if ok then Some(ud.View()) else None
    ensures fresh(ud.Blocks() - old(ud.Blocks()))
    ensures heap.live == old(heap.live) - old(ud.Blocks()) + ud.Blocks()
    ensures heap.inUse == old(heap.inUse) - old(ud.size) + ud.size
  {
    if !ud.started {
      ud.AllocUserData(heap, USER_DATA_BUFFER_POST_SIZE);
    }
    ok := true;
    if |chunk| > 0 {
      ok := ud.AppendUserData(heap, chunk);
    }
  }

  function Total(sizes: seq<nat>): nat {
    if sizes == [] then 0 else sizes[0] + Total(sizes[1..])
  }

  lemma {:induction false} TotalUpdate(sizes: seq<nat>, i: nat, n: nat)
    requires i < |sizes|
    ensures Total(sizes[i := n]) == Total(sizes) - sizes[i] + n
  {
    if i > 0 {
      assert sizes[i := n][1..] == sizes[1..][i - 1 := n];
      TotalUpdate(sizes[1..], i - 1, n);
    } else {
      assert sizes[i := n][1..] == sizes[1..];
    }
  }

  lemma {:induction false} TotalZero(sizes: seq<nat>)
    requires forall i :: 0 <= i < |sizes| ==> sizes[i] == 0
    ensures Total(sizes) == 0
  {
    if sizes != [] {
      TotalZero(sizes[1..]);
    }
  }

  /** A callback for resource i. */
  datatype Event = Event(i: nat, cb: Callback)

  /** The callbacks of a run that are for resource j. */
  function AddressedTo(run: seq<Event>, j: nat): seq<Callback> {
    if run == [] then []
    else
      var e := run[|run| - 1];
      AddressedTo(run[..|run| - 1], j) + (if e.i == j then [e.cb] else [])
  }

  /** What all resources hold after a run, and the answers to its callbacks. */
  datatype Service = Service(views: seq<Resource>, answers: seq<Outcome>)

  function Serve(run: seq<Event>, views: seq<Resource>, handlers: seq<Handlers>): (s: Service)
    requires |handlers| == |views| && forall k :: 0 <= k < |run| ==> run[k].i < |views|
    ensures |s.views| == |views| && |s.answers| == |run|
  {
    if run == [] then Service(views, [])
    else
      var s, e := Serve(run[..|run| - 1], views, handlers), run[|run| - 1];
      var o := Handle(s.views[e.i], handlers[e.i], e.cb);
      Service(s.views[e.i := o.resource], s.answers + [o])
  }

  lemma ServeOneMore(run: seq<Event>, n: nat, views: seq<Resource>, handlers: seq<Handlers>)
    requires |handlers| == |views| && forall k :: 0 <= k < |run| ==> run[k].i < |views|
    requires n < |run|
    ensures var s, i := Serve(run[..n], views, handlers), run[n].i;
      var o := Handle(s.views[i], handlers[i], run[n].cb);
      Serve(run[..n + 1], views, handlers) == Service(s.views[i := o.resource], s.answers + [o])
  {
    assert run[..n + 1][..n] == run[..n];
  }

  lemma {:induction false} HoldsByItself(run: seq<Event>, views: seq<Resource>, handlers: seq<Handlers>, j: nat)
    requires |handlers| == |views| && forall k :: 0 <= k < |run| ==> run[k].i < |views|
    requires j < |views|
    ensures Serve(run, views, handlers).views[j] == AfterAll(views[j], handlers[j], AddressedTo(run, j))
    decreases |run|
  {
    if run != [] {
      var front, e := run[..|run| - 1], run[|run| - 1];
      HoldsByItself(front, views, handlers, j);
      if e.i == j {
        AfterOneMore(views[j], handlers[j], AddressedTo(front, j), e.cb);
      } else {
        assert AddressedTo(run, j) == AddressedTo(front, j);
      }
    }
  }

  lemma {:induction false} AnswersByItself(run: seq<Event>, views: seq<Resource>, handlers: seq<Handlers>, k: nat)
    requires |handlers| == |views| && forall n :: 0 <= n < |run| ==> run[n].i < |views|
    requires k < |run|
    ensures var i := run[k].i;
      Serve(run, views, handlers).answers[k]
        == Handle(AfterAll(views[i], handlers[i], AddressedTo(run[..k], i)), handlers[i], run[k].cb)
    decreases |run|
  {
    var front := run[..|run| - 1];
    if k < |front| {
      AnswersByItself(front, views, handlers, k);
      assert front[..k] == run[..k];
    } else {
      HoldsByItself(front, views, handlers, run[k].i);
    }
  }

  /**
   Resources do not influence each other: what each one holds, and each answer
   it gives, depends on the callbacks addressed to it alone.
   */
  lemma ResourcesAreIndependent(run: seq<Event>, views: seq<Resource>, handlers: seq<Handlers>)
    requires |handlers| == |views| && forall k :: 0 <= k < |run| ==> run[k].i < |views|
    ensures forall j :: 0 <= j < |views| ==>
      Serve(run, views, handlers).views[j] == AfterAll(views[j], handlers[j], AddressedTo(run, j))
    ensures forall k :: 0 <= k < |run| ==>
      var i := run[k].i;
      Serve(run, views, handlers).answers[k]
        == Handle(AfterAll(views[i], handlers[i], AddressedTo(run[..k], i)), handlers[i], run[k].cb)
  {
    forall j | 0 <= j < |views|
      ensures Serve(run, views, handlers).views[j] == AfterAll(views[j], handlers[j], AddressedTo(run, j))
    {
      HoldsByItself(run, views, handlers, j);
    }
    forall k | 0 <= k < |run|
      ensures var i := run[k].i;
        Serve(run, views, handlers).answers[k]
          == Handle(AfterAll(views[i], handlers[i], AddressedTo(run[..k], i)), handlers[i], run[k].cb)
    {
      AnswersByItself(run, views, handlers, k);
    }
  }

  /** All resources of the service and the heap they share. */
  class RedfishServer {
    const heap: KHeap
    const resources: seq<UserData>
    const handlers: seq<Handlers>

    ghost function Sizes(): seq<nat>
      reads resources
    {
      seq(|resources|, i requires 0 <= i < |resources| reads resources => resources[i].size)
    }

    /** The block belongs to some resource. */
    ghost predicate Owned(b: array<byte>)
      reads resources
    {
      exists i :: 0 <= i < |resources| && resources[i].dataBuffer == b
    }

    /** Two resources are different records and share no block. */
    ghost predicate Apart(i: nat, j: nat)
      requires i < |resources| && j < |resources|
      reads resources
    {
      && resources[i] != resources[j]
      && (resources[i].dataBuffer == null || resources[i].dataBuffer != resources[j].dataBuffer)
    }

    /**
     Heap conservation: the live blocks are exactly those of the started
     resources, no two resources share one, and their sizes add up.
     */
    ghost predicate Valid()
      reads heap, resources
    {
      && |handlers| == |resources|
      && (forall i, j :: 0 <= i < |resources| && 0 <= j < |resources| && i != j ==> Apart(i, j))
      && (forall i :: 0 <= i < |resources| ==> resources[i].Valid(heap))
      && (forall b :: b in heap.live ==> Owned(b))
      && heap.inUse == Total(Sizes())
    }

    constructor (resources: seq<UserData>, handlers: seq<Handlers>)
      requires |handlers| == |resources|
      requires forall i, j :: 0 <= i < j < |resources| ==> resources[i] != resources[j]
      requires forall i :: 0 <= i < |resources| ==>
        !resources[i].started && resources[i].size == 0 && resources[i].dataLen == 0 && resources[i].dataBuffer == null
      ensures Valid() && this.resources == resources && this.handlers == handlers
    {
      heap := new KHeap();
      this.resources, this.handlers := resources, handlers;
      new;
      TotalZero(Sizes());
    }

    /** What every resource holds. */
    ghost function Views(): (views: seq<Resource>)
      requires Valid()
      reads heap, resources, heap.live
      ensures |views| == |resources|
    {
      seq(|resources|, j requires 0 <= j < |resources| && resources[j].Valid(heap) reads heap, resources, heap.live =>
        resources[j].View())
    }

    /** One callback for resource i; no other resource's block changes. */
    method Dispatch(i: nat, cb: Callback) returns (answer: Outcome)
      requires Valid() && i < |resources|
      modifies heap, resources[i], resources[i].Blocks()
      ensures Valid() && fresh(heap.live - old(heap.live))
      ensures answer == Handle(old(Views())[i], handlers[i], cb)
      ensures Views() == old(Views())[i := answer.resource]
    {
      forall j | 0 <= j < |resources| && j != i ensures resources[j] != resources[i] {
        assert Apart(j, i);
      }
      label before:
      var response, call := RedfishHandler(heap, resources[i], handlers[i], cb);
      OthersUndisturbed@before(i);
      SizesAddUp@before(i);
      OthersKeepData@before(i);
      answer := Outcome(resources[i].View(), response, call);
    }

    /** The heap's account changes by what the size of resource i changes by. */
    twostate lemma SizesAddUp(i: nat)
      requires old(heap.inUse) == old(Total(Sizes())) && i < |resources|
      requires forall j :: 0 <= j < |resources| && j != i ==> resources[j].size == old(resources[j].size)
      requires heap.inUse == old(heap.inUse) - old(resources[i].size) + resources[i].size
      ensures heap.inUse == Total(Sizes())
    {
      TotalUpdate(old(Sizes()), i, resources[i].size);
      assert Sizes() == old(Sizes())[i := resources[i].size];
    }

    twostate lemma OthersKeepData(i: nat)
      requires old(Valid()) && Valid() && i < |resources|
      requires forall j :: 0 <= j < |resources| && j != i ==> unchanged(resources[j])
      requires forall b :: b in old(heap.live) && b != old(resources[i].dataBuffer) ==> unchanged(b)
      ensures Views() == old(Views())[i := Views()[i]]
    {
      forall j | 0 <= j < |resources| && j != i ensures resources[j].View() == old(resources[j].View()) {
        assert old(Apart(j, i)) && old(resources[j].Valid(heap));
      }
    }

    /** What the handler does to resource i leaves every other resource its own live block. */
    twostate lemma OthersUndisturbed(i: nat)
      requires old(Valid()) && i < |resources|
      requires resources[i].Valid(heap)
      requires forall j :: 0 <= j < |resources| && j != i ==> unchanged(resources[j])
      requires forall b :: b in resources[i].Blocks() ==> b == old(resources[i].dataBuffer) || !old(allocated(b))
      requires heap.live == old(heap.live) - old(resources[i].Blocks()) + resources[i].Blocks()
      ensures forall j :: 0 <= j < |resources| ==> resources[j].Valid(heap)
      ensures forall j, k :: 0 <= j < |resources| && 0 <= k < |resources| && j != k ==> Apart(j, k)
      ensures forall b :: b in heap.live ==> Owned(b)
    {
      forall j | 0 <= j < |resources| && j != i
        ensures Apart(i, j) && Apart(j, i) && resources[j].Valid(heap)
      {
        assert old(Apart(i, j)) && old(Apart(j, i)) && old(resources[j].Valid(heap));
      }
      forall j, k | 0 <= j < |resources| && 0 <= k < |resources| && j != k ensures Apart(j, k) {
        assert old(Apart(j, k));
      }
      forall b | b in heap.live ensures Owned(b) {
        if b in resources[i].Blocks() {
          assert resources[i].dataBuffer == b;
        } else {
          assert old(Owned(b));
          var j :| 0 <= j < |resources| && old(resources[j].dataBuffer) == b;
          assert resources[j].dataBuffer == b;
        }
      }
    }

    /** The n-th callback of a run. */
    method ServeNext(run: seq<Event>, n: nat, ghost views: seq<Resource>, ghost answers: seq<Outcome>)
      returns (answer: Outcome)
      requires Valid() && forall k :: 0 <= k < |run| ==> run[k].i < |resources|
      requires n < |run| && |views| == |handlers|
      requires Service(Views(), answers) == Serve(run[..n], views, handlers)
      modifies heap, resources, heap.live
      ensures Valid() && fresh(heap.live - old(heap.live))
      ensures Service(Views(), answers + [answer]) == Serve(run[..n + 1], views, handlers)
    {
      ServeOneMore(run, n, views, handlers);
      answer := Dispatch(run[n].i, run[n].cb);
    }

    /**
     Any sequence of callbacks for any resources, interleaved: the heap stays
     conserved, and what the resources hold and answer is what the machine says.
     In particular (ResourcesAreIndependent) a response body stays as it is
     until a callback for its own resource.
     */
    method Run(run: seq<Event>) returns (answers: seq<Outcome>)
      requires Valid() && forall k :: 0 <= k < |run| ==> run[k].i < |resources|
      modifies heap, resources, heap.live
      ensures Valid()
      ensures Service(Views(), answers) == Serve(run, old(Views()), handlers)
    {
      ghost var views := Views();
      answers := [];
      var n := 0;
      while n < |run|
        invariant n <= |run| && Valid() && fresh(heap.live - old(heap.live))
        invariant Service(Views(), answers) == Serve(run[..n], views, handlers)
      {
        var answer := ServeNext(run, n, views, answers);
        answers := answers + [answer];
        n := n + 1;
      }
      assert run[..n] == run;
    }

    /** When every resource is idle the whole heap is free. */
    lemma IdleMeansFree()
      requires Valid() && forall i :: 0 <= i < |resources| ==> !resources[i].started
      ensures heap.live == {} && heap.inUse == 0
    {
      TotalZero(Sizes());
    }
  }
}
