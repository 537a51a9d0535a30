/** The client's handlers as they update the fields of `client::impl`, proved against the steps
    of the protocol. */
module RpcClient {
  import opened Dispatcher
  import opened RpcProtocol

  predicate Responses(chunk: seq<Message>) {
    forall i :: 0 <= i < |chunk| ==> IsResponse(chunk[i])
  }

  function ReceiveMessage(c: ClientState, m: Message): ClientState
    requires IsResponse(m)
  {
    Receive(c, m[1].i, m[2], m[3])
  }

  /** The read handler's loop over the responses unpacked from one chunk. */
  function ReceiveAll(c: ClientState, chunk: seq<Message>): ClientState
    requires Responses(chunk)
    decreases |chunk|
  {
    if c.dead || |chunk| == 0 then c
    else ReceiveAll(ReceiveMessage(c, chunk[0]), chunk[1..])
  }

  class Client {
    var callIdx: int
    var ongoing: map<nat, Entry>
    var strand: multiset<Handler>
    var promises: map<PromiseId, Resolution>
    var dead: bool

    ghost function View(): ClientState
      reads this
    {
      ClientState(callIdx, ongoing, strand, promises, dead)
    }

    constructor ()
      ensures View() == InitialClient
    {
      callIdx, ongoing, strand, promises, dead := 0, map[], multiset{}, map[], false;
    }

    method GetNextCallIdx() returns (idx: int)
      modifies this`callIdx
      ensures callIdx == idx == ToInt32(old(callIdx) + 1)
    {
      callIdx := ToInt32(callIdx + 1);
      idx := callIdx;
    }

    /** Post a request; `p` is the promise made for it. */
    method AsyncCall(call: Call, k: nat)
      modifies this
      ensures View() == Issue(old(View()), call, k)
    {
      var idx := GetNextCallIdx();
      var buffer := RequestMessage(idx, call.name, call.args);
      promises := promises[OfCall(k) := Pending];
      strand := strand + multiset{InsertAndWrite(buffer, idx, call.name, OfCall(k))};
    }

    method Send(call: Call)
      modifies this
      ensures View() == Notify(old(View()), call)
    {
      strand := strand + multiset{WriteOnly(NotificationMessage(call.name, call.args))};
    }

    /** The strand runs one posted handler. */
    method Dispatch(h: Handler) returns (written: multiset<Message>)
      requires h in strand
      modifies this
      ensures View() == RunHandler(old(View()), h) && written == Written(h)
    {
      strand := strand - multiset{h};
      written := multiset{};
      match h
      case InsertAndWrite(buffer, idx, fname, p) =>
        if ToUint32(idx) in ongoing {
          promises := promises[p := Broken];
        } else {
          ongoing := ongoing[ToUint32(idx) := Entry(fname, p)];
        }
        written := multiset{buffer};
      case WriteOnly(buffer) =>
        written := multiset{buffer};
      case EraseCall(id) =>
        if id in ongoing && ongoing[id].promise in promises && promises[ongoing[id].promise] == Pending {
          promises := promises[ongoing[id].promise := Broken];
        }
        ongoing := ongoing - {id};
    }

    /** One turn of the read handler's loop. */
    method ReadOne(m: Message)
      requires IsResponse(m)
      modifies this
      ensures View() == ReceiveMessage(old(View()), m)
    {
      var id, error, result := m[1].i, m[2], m[3];
      if id !in ongoing {
        ongoing := ongoing[id := Entry("", Orphan(id))];
        promises := promises[Orphan(id) := Pending];
      }
      var current := ongoing[id];
      if current.promise in promises && promises[current.promise] != Pending {
        dead := true;
      } else {
        if error != Nil {
          promises := promises[current.promise := Failed(current.fname, error)];
        } else {
          promises := promises[current.promise := Fulfilled(result)];
        }
        strand := strand + multiset{EraseCall(id)};
      }
    }

    /** The read handler on the responses of one chunk. */
    method ReadHandler(chunk: seq<Message>)
      requires Responses(chunk)
      modifies this
      ensures View() == ReceiveAll(old(View()), chunk)
    {
      var i := 0;
      while i < |chunk| && !dead
        invariant 0 <= i <= |chunk|
        invariant ReceiveAll(View(), chunk[i..]) == ReceiveAll(old(View()), chunk)
      {
        assert chunk[i..][1..] == chunk[i + 1..];
        ReadOne(chunk[i]);
        i := i + 1;
      }
    }
  }

  /** The state after a chunk has been read. */
  function AfterChunk(s: State, chunk: seq<Message>): State
    requires Responses(chunk)
  {
    s.(client := ReceiveAll(s.client, chunk), toClient := s.toClient - multiset(chunk))
  }

  lemma {:induction false} AfterChunkStep(sv: Server, s: State, chunk: seq<Message>)
    requires Responses(chunk) && |chunk| > 0 && !s.client.dead && multiset(chunk) <= s.toClient
    ensures Enabled(s, ReceiveStep(chunk[0])) && Responses(chunk[1..])
    ensures var s1 := Next(sv, s, ReceiveStep(chunk[0]));
            multiset(chunk[1..]) <= s1.toClient && AfterChunk(s1, chunk[1..]) == AfterChunk(s, chunk)
  {
    var m, rest := chunk[0], chunk[1..];
    assert chunk == [m] + rest;
    assert multiset(chunk) == multiset{m} + multiset(rest);
    assert m in s.toClient;
    assert s.toClient - multiset{m} - multiset(rest) == s.toClient - multiset(chunk);
  }

  lemma {:induction false} ChunkRun(sv: Server, steps: seq<Step>, s: State, chunk: seq<Message>)
    returns (steps': seq<Step>)
    requires sv.Faithful() && CarefulRun(sv, steps, s)
    requires Responses(chunk) && multiset(chunk) <= s.toClient
    ensures CarefulRun(sv, steps', AfterChunk(s, chunk))
    decreases |chunk|
  {
    if |chunk| == 0 {
      steps' := steps;
      assert AfterChunk(s, chunk) == s;
    } else {
      RunInv(sv, steps, s);
      AfterChunkStep(sv, s, chunk);
      ExtendCareful(sv, steps, s, ReceiveStep(chunk[0]));
      steps' := ChunkRun(sv, steps + [ReceiveStep(chunk[0])], Next(sv, s, ReceiveStep(chunk[0])), chunk[1..]);
    }
  }

  /** Reading a whole chunk in one handler is a run of single receive steps, so everything proved
      of runs holds of it; in particular the handler does not die. */
  lemma {:induction false} ChunkIsRun(funcs: Registry, suppress: bool, steps: seq<Step>, s: State, chunk: seq<Message>)
    returns (steps': seq<Step>)
    requires CarefulLibraryRun(funcs, suppress, steps, s)
    requires Responses(chunk) && multiset(chunk) <= s.toClient
    ensures CarefulLibraryRun(funcs, suppress, steps', AfterChunk(s, chunk))
    ensures NoMisdelivery(funcs, suppress, AfterChunk(s, chunk))
  {
    steps' := ChunkRun(DispatcherServer(funcs, suppress), steps, s, chunk);
    CarefulRunDelivers(funcs, suppress, steps', AfterChunk(s, chunk));
  }
}
