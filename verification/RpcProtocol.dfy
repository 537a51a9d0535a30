/** The client side of a remote call, the transport and the server as one state machine.

    Every asio handler is one atomic step, because one thread runs the client's io service.
    Handlers posted to the strand may run in any order here, which allows every order asio
    allows.  The transport may reorder and lose messages but does not duplicate them. */
module RpcProtocol {
  import opened Widths
  import opened Dispatcher

  const HALF: int := 0x8000_0000

  /** Conversion to a signed, respectively unsigned, 32-bit integer. */
  function ToInt32(x: int): int { (x + HALF) % UINT32 - HALF }
  function ToUint32(x: int): nat { x % UINT32 }

  /** A server seen from the wire: how it dispatches a message, and the verdict it owes a call. */
  datatype Server = Server(dispatch: Message -> Dispatched, verdict: (string, seq<Obj>) -> Resolution) {
    /** A request is answered under its own id with the verdict, if its id is one and there is one. */
    ghost predicate Answers(id: int, name: string, args: seq<Obj>) {
      var d := dispatch(RequestMessage(id, name, args));
      var v := verdict(name, args);
      if 0 <= id < UINT32 && v != Pending then d.Respond? && d.id == id && Resolve(name, d.error, d.result) == v
      else !d.Respond?
    }

    ghost predicate Ignores(m: Message) {
      |m| != 4 ==> !dispatch(m).Respond?
    }

    ghost predicate Faithful() {
      && (forall id, name, args :: Answers(id, name, args))
      && (forall m :: Ignores(m))
    }
  }

  /** The server of this library is one. */
  ghost function DispatcherServer(funcs: Registry, suppress: bool): (sv: Server)
    ensures sv.Faithful()
  {
    var sv := Server(m => Dispatch(funcs, m, suppress), (name, args) => Verdict(funcs, name, args, suppress));
    assert sv.Faithful() by {
      forall id, name, args ensures sv.Answers(id, name, args) {
        DispatchAnswers(funcs, id, name, args, suppress);
      }
      forall m ensures sv.Ignores(m) {
        if |m| != 4 {
          NotificationsUnanswered(funcs, m, suppress);
        }
      }
    }
    sv
  }

  /** A promise is either the one made for the k-th call, or the one that `operator[]` makes when
      it meets an id it does not hold. */
  datatype PromiseId = OfCall(k: nat) | Orphan(id: nat)

  datatype Call = Call(name: string, args: seq<Obj>)

  /** The closures the client posts to its strand. */
  datatype Handler =
    | InsertAndWrite(buffer: Message, idx: int, fname: string, promise: PromiseId)
    | WriteOnly(buffer: Message)
    | EraseCall(id: nat)

  datatype Entry = Entry(fname: string, promise: PromiseId)

  /** The fields of `client::impl` that the call path uses, and the shared states of the promises. */
  datatype ClientState = ClientState(
    callIdx: int,
    ongoing: map<nat, Entry>,
    strand: multiset<Handler>,
    promises: map<PromiseId, Resolution>,
    dead: bool)  // an exception left a handler, which ends the io thread

  const InitialClient := ClientState(0, map[], multiset{}, map[], false)

  // ----- Client operations, on values -----

  /** `async_call`: take the next index, pack the request, make a promise, post the handler. */
  function Issue(c: ClientState, call: Call, k: nat): ClientState {
    var idx := ToInt32(c.callIdx + 1);
    var h := InsertAndWrite(RequestMessage(idx, call.name, call.args), idx, call.name, OfCall(k));
    c.(callIdx := idx, strand := c.strand + multiset{h}, promises := c.promises[OfCall(k) := Pending])
  }

  /** `send`: post a notification. */
  function Notify(c: ClientState, call: Call): ClientState {
    c.(strand := c.strand + multiset{WriteOnly(NotificationMessage(call.name, call.args))})
  }

  /** Run one posted handler.  `insert` leaves an existing entry alone, and the promise it was given
      dies with the argument; erasing an entry destroys its promise. */
  function RunHandler(c: ClientState, h: Handler): ClientState {
    var c := c.(strand := c.strand - multiset{h});
    match h
    case InsertAndWrite(_, idx, fname, p) =>
      if ToUint32(idx) in c.ongoing then c.(promises := c.promises[p := Broken])
      else c.(ongoing := c.ongoing[ToUint32(idx) := Entry(fname, p)])
    case WriteOnly(_) => c
    case EraseCall(id) => c.(ongoing := c.ongoing - {id}, promises := Destroyed(c, id))
  }

  /** The shared states once the entry of an id is destroyed: an unset promise is broken. */
  function Destroyed(c: ClientState, id: nat): map<PromiseId, Resolution> {
    if id in c.ongoing && c.ongoing[id].promise in c.promises && c.promises[c.ongoing[id].promise] == Pending
    then c.promises[c.ongoing[id].promise := Broken]
    else c.promises
  }

  /** What a handler writes to the socket. */
  function Written(h: Handler): multiset<Message> {
    match h
    case EraseCall(_) => multiset{}
    case _ => multiset{h.buffer}
  }

  /** One turn of the loop in the read handler: look the id up (making an entry if there is none),
      resolve its promise, post the erase.  Resolving twice throws out of the handler. */
  function Receive(c: ClientState, id: nat, error: Obj, result: Obj): ClientState {
    var c := if id in c.ongoing then c
             else c.(ongoing := c.ongoing[id := Entry("", Orphan(id))], promises := c.promises[Orphan(id) := Pending]);
    var e := c.ongoing[id];
    if e.promise in c.promises && c.promises[e.promise] != Pending then c.(dead := true)
    else c.(promises := c.promises[e.promise := Resolve(e.fname, error, result)],
            strand := c.strand + multiset{EraseCall(id)})
  }

  // ----- The whole system -----

  datatype State = State(
    client: ClientState,
    toServer: multiset<Message>,
    toClient: multiset<Message>,
    calls: seq<Call>,   // history: the k-th call issued
    lost: set<nat>,     // history: calls one of whose messages was lost
    notes: seq<Call>,   // history: the k-th notification sent
    served: multiset<Message>,     // history: notifications that reached the dispatcher
    lostNotes: multiset<Message>)  // history: notifications lost on the way

  const Initial := State(InitialClient, multiset{}, multiset{}, [], {}, [], multiset{}, multiset{})

  datatype Step =
    | IssueStep(call: Call)
    | NotifyStep(call: Call)
    | HandlerStep(h: Handler)
    | ServeStep(msg: Message)
    | ReceiveStep(msg: Message)
    | LoseStep(msg: Message)

  /** A message counted as a notification, if it is one. */
  function OfNote(m: Message): multiset<Message> { if |m| == 3 then multiset{m} else multiset{} }

  predicate IsResponse(m: Message) { |m| == 4 && m[0] == Int(1) && IsUint32(m[1]) }

  predicate Enabled(s: State, step: Step) {
    match step
    case IssueStep(_) => true
    case NotifyStep(_) => true
    case HandlerStep(h) => !s.client.dead && h in s.client.strand
    case ServeStep(m) => m in s.toServer
    case ReceiveStep(m) => !s.client.dead && m in s.toClient && IsResponse(m)
    case LoseStep(m) => m in s.toServer || m in s.toClient
  }

  function Next(sv: Server, s: State, step: Step): State
    requires Enabled(s, step)
  {
    match step
    case IssueStep(call) => s.(client := Issue(s.client, call, |s.calls|), calls := s.calls + [call])
    case NotifyStep(call) => s.(client := Notify(s.client, call), notes := s.notes + [call])
    case HandlerStep(h) => s.(client := RunHandler(s.client, h), toServer := s.toServer + Written(h))
    case ServeStep(m) =>
      var d := sv.dispatch(m);
      var s := s.(toServer := s.toServer - multiset{m}, served := s.served + OfNote(m));
      if d.Respond? then s.(toClient := s.toClient + multiset{ResponseMessage(d.id, d.error, d.result)}) else s
    case ReceiveStep(m) =>
      s.(client := Receive(s.client, m[1].i, m[2], m[3]), toClient := s.toClient - multiset{m})
    case LoseStep(m) => Lose(s, m)
  }

  /** One copy of a message is lost, on whichever side it is. */
  function Lose(s: State, m: Message): State {
    s.(toServer := if m in s.toServer then s.toServer - multiset{m} else s.toServer,
       toClient := if m in s.toServer then s.toClient else s.toClient - multiset{m},
       lostNotes := s.lostNotes + OfNote(m),
       lost := if |m| == 4 && m[1].Int? then s.lost + {Owner(|s.calls|, ToUint32(m[1].i))} else s.lost)
  }

  /** A run from the initial state; `None` is not needed because only enabled steps are taken. */
  ghost predicate Run(sv: Server, steps: seq<Step>, s: State) {
    if |steps| == 0 then s == Initial
    else
      var last := steps[|steps| - 1];
      exists s0 :: Run(sv, steps[..|steps| - 1], s0) && Enabled(s0, last) && Next(sv, s0, last) == s
  }

  // ----- Ids -----

  /** The key under which the k-th call is stored. */
  function Key(k: nat): nat { ToUint32(k + 1) }

  /** The first of the last 2^32 of n calls. */
  function Base(n: nat): nat { if n <= UINT32 then 0 else n - UINT32 }

  /** The call with key `id` among the last 2^32 of n calls, or the next one that will have it. */
  function Owner(n: nat, id: nat): (k: nat)
    ensures Base(n) <= k < Base(n) + UINT32
  {
    Base(n) + (id - 1 - Base(n)) % UINT32
  }

  /** The index packed into the k-th request. */
  function Idx(k: nat): int { ToInt32(k + 1) }

  lemma {:induction false} KeyInverse(k: nat)
    requires k < UINT32
    ensures Owner(k, Key(k)) == k && Key(k) < UINT32 && ToUint32(Idx(k)) == Key(k)
    ensures 0 <= Idx(k) <==> k + 1 < HALF || k + 1 == UINT32
  {
  }

  /** The packed index of any call converts to its key, and is its key unless it is negative. */
  lemma {:induction false} IdxIsKey(k: nat)
    ensures Key(k) < UINT32 && ToUint32(Idx(k)) == Key(k) && -HALF <= Idx(k) < HALF
    ensures 0 <= Idx(k) ==> Idx(k) == Key(k)
  {
  }

  /** Among the last 2^32 calls the key tells the call. */
  lemma {:induction false} OwnerOfKey(n: nat, k: nat)
    requires Base(n) <= k < Base(n) + UINT32
    ensures Owner(n, Key(k)) == k
  {
    var b := Base(n);
    assert Key(k) == (k + 1) % UINT32;
    assert (Key(k) - 1 - b) % UINT32 == (k - b) % UINT32;
  }

  /** One more call changes the owner of one key only. */
  lemma {:induction false} OwnerStable(n: nat, k: nat)
    requires Base(n + 1) <= k < n
    ensures Owner(n, Key(k)) == k && Owner(n + 1, Key(k)) == k && Key(k) != Key(n)
  {
    OwnerOfKey(n, k);
    OwnerOfKey(n + 1, k);
    OwnerOfKey(n + 1, n);
  }

  lemma {:induction false} IndexStep(n: nat)
    ensures ToInt32(ToInt32(n) + 1) == ToInt32(n + 1)
  {
  }

  // ----- The invariant -----

  /** Messages and handlers of the k-th call. */
  function Req(s: State, k: nat): Message
    requires k < |s.calls|
  {
    RequestMessage(Idx(k), s.calls[k].name, s.calls[k].args)
  }

  function HandlerOf(s: State, k: nat): Handler
    requires k < |s.calls|
  {
    InsertAndWrite(Req(s, k), Idx(k), s.calls[k].name, OfCall(k))
  }

  function EraseOf(k: nat): Handler { EraseCall(Key(k)) }

  function VerdictOf(sv: Server, s: State, k: nat): Resolution
    requires k < |s.calls|
  {
    sv.verdict(s.calls[k].name, s.calls[k].args)
  }

  /** The server will answer the k-th call. */
  predicate Answerable(sv: Server, s: State, k: nat)
    requires k < |s.calls|
  {
    0 <= Idx(k) && VerdictOf(sv, s, k) != Pending
  }

  /** The response to the k-th call. */
  function Resp(sv: Server, s: State, k: nat): Message
    requires k < |s.calls|
  {
    var d := sv.dispatch(Req(s, k));
    if d.Respond? then ResponseMessage(d.id, d.error, d.result) else []
  }

  /** The k-th call is among the last 2^32. */
  predicate Current(s: State, k: nat) { Base(|s.calls|) <= k < |s.calls| }

  /** The next id is not in use: no earlier call has it, or the last one that had it has been answered
      and erased. */
  ghost predicate Free(s: State) {
    |s.calls| < UINT32 || InStage(s, |s.calls| - UINT32, Erased)
  }

  datatype Stage = Queued | Ongoing | AwaitingErase | Erased

  ghost predicate InStage(s: State, k: nat, stage: Stage)
    requires k < |s.calls|
  {
    var c := s.client;
    && OfCall(k) in c.promises
    && (c.strand[HandlerOf(s, k)] == if stage.Queued? then 1 else 0)
    && (c.strand[EraseOf(k)] == if stage.AwaitingErase? then 1 else 0)
    && (Key(k) in c.ongoing <==> stage.Ongoing? || stage.AwaitingErase?)
    && (Key(k) in c.ongoing ==> c.ongoing[Key(k)] == Entry(s.calls[k].name, OfCall(k)))
    && (c.promises[OfCall(k)] == Pending <==> stage.Queued? || stage.Ongoing?)
  }

  /** What holds of the k-th call: it is in a stage; its promise holds the verdict once resolved;
      at most one of its messages is in flight, and only while it is ongoing; and unless a message
      was lost, an ongoing answerable call has one in flight. */
  ghost predicate CallInv(sv: Server, s: State, k: nat)
    requires k < |s.calls|
  {
    var r := Resp(sv, s, k);
    && (exists stage :: InStage(s, k, stage))
    && s.toServer[Req(s, k)] + s.toClient[r] <= 1
    && (s.toServer[Req(s, k)] + s.toClient[r] == 1 ==> InStage(s, k, Ongoing))
    && (s.client.promises[OfCall(k)] != Pending ==>
          s.client.promises[OfCall(k)] == VerdictOf(sv, s, k) && Answerable(sv, s, k))
    && (InStage(s, k, Ongoing) && Answerable(sv, s, k) && k !in s.lost ==>
          s.toServer[Req(s, k)] + s.toClient[r] == 1)
  }

  /** The current call a message belongs to. */
  function MsgOwner(s: State, m: Message): nat {
    if |m| == 4 && m[1].Int? then Owner(|s.calls|, ToUint32(m[1].i)) else 0
  }

  /** A call that is no longer among the last 2^32 has its verdict. */
  ghost predicate Retired(sv: Server, s: State, k: nat)
    requires k < |s.calls|
  {
    && OfCall(k) in s.client.promises && s.client.promises[OfCall(k)] == VerdictOf(sv, s, k)
    && Answerable(sv, s, k)
  }

  ghost predicate HandlerInv(s: State, h: Handler) {
    match h
    case InsertAndWrite(_, _, _, p) => p.OfCall? && Current(s, p.k) && h == HandlerOf(s, p.k)
    case WriteOnly(b) => |b| == 3
    case EraseCall(id) => Owner(|s.calls|, id) < |s.calls| && Key(Owner(|s.calls|, id)) == id
  }

  ghost predicate RequestInv(s: State, m: Message) {
    |m| == 3 || (MsgOwner(s, m) < |s.calls| && m == Req(s, MsgOwner(s, m)))
  }

  ghost predicate ResponseInv(sv: Server, s: State, m: Message) {
    && IsResponse(m) && MsgOwner(s, m) < |s.calls|
    && Answerable(sv, s, MsgOwner(s, m))
    && m == Resp(sv, s, MsgOwner(s, m))
  }

  ghost predicate Inv(sv: Server, s: State) {
    && StructInv(sv, s)
    && (forall k :: Base(|s.calls|) <= k < |s.calls| ==> CallInv(sv, s, k))
    && (forall k :: 0 <= k < Base(|s.calls|) ==> Retired(sv, s, k))
  }

  ghost predicate StructInv(sv: Server, s: State) {
    && !s.client.dead
    && s.client.callIdx == ToInt32(|s.calls|)
    && (forall h :: h in s.client.strand ==> HandlerInv(s, h))
    && (forall m :: m in s.toServer ==> RequestInv(s, m))
    && (forall m :: m in s.toClient ==> ResponseInv(sv, s, m))
    && (forall id :: id in s.client.ongoing ==> Owner(|s.calls|, id) < |s.calls| && Key(Owner(|s.calls|, id)) == id)
    && (forall p :: p in s.client.promises ==> p.OfCall? && p.k < |s.calls|)
  }

  /** Different calls have different keys, handlers and messages. */
  lemma {:induction false} Distinct(sv: Server, s: State, j: nat, k: nat)
    requires Current(s, j) && Current(s, k) && j != k && sv.Faithful()
    ensures Key(j) != Key(k) && EraseOf(j) != EraseOf(k)
    ensures HandlerOf(s, j) != HandlerOf(s, k)
    ensures Req(s, j) != Req(s, k)
    ensures Answerable(sv, s, k) ==> Resp(sv, s, j) != Resp(sv, s, k)
  {
    OwnerOfKey(|s.calls|, j);
    OwnerOfKey(|s.calls|, k);
    IdxIsKey(j);
    IdxIsKey(k);
    assert Req(s, j)[1] == Int(Idx(j)) && Req(s, k)[1] == Int(Idx(k));
    RespShape(sv, s, j);
    RespShape(sv, s, k);
  }

  /** The response to the k-th call carries its key and resolves it with the verdict. */
  lemma {:induction false} RespShape(sv: Server, s: State, k: nat)
    requires k < |s.calls| && sv.Faithful()
    ensures var r := Resp(sv, s, k);
            if Answerable(sv, s, k) then
              && IsResponse(r) && r[1] == Int(Key(k)) && (Current(s, k) ==> MsgOwner(s, r) == k)
              && Resolve(s.calls[k].name, r[2], r[3]) == VerdictOf(sv, s, k)
              && sv.dispatch(Req(s, k)).Respond?
            else r == [] && !sv.dispatch(Req(s, k)).Respond?
  {
    IdxIsKey(k);
    if Current(s, k) {
      OwnerOfKey(|s.calls|, k);
    }
    assert sv.Answers(Idx(k), s.calls[k].name, s.calls[k].args);
  }

  lemma {:induction false} CallInvOf(sv: Server, s: State, k: nat)
    requires Inv(sv, s) && Current(s, k)
    ensures CallInv(sv, s, k)
  {
    hide CallInv, StructInv, Retired;
  }

  lemma {:induction false} MessageInvOf(sv: Server, s: State, m: Message)
    requires Inv(sv, s)
    ensures m in s.toServer ==> RequestInv(s, m)
    ensures m in s.toClient ==> ResponseInv(sv, s, m)
    ensures !s.client.dead
  {
    hide CallInv, Retired, RequestInv, ResponseInv, HandlerInv;
  }

  lemma {:induction false} HandlerInvOf(sv: Server, s: State, h: Handler)
    requires Inv(sv, s)
    ensures h in s.client.strand ==> HandlerInv(s, h)
    ensures !s.client.dead
  {
    hide CallInv, Retired, RequestInv, ResponseInv, HandlerInv;
  }

  /** Nothing is left of the call that had the next id before. */
  lemma {:induction false} FreeKey(sv: Server, s: State)
    requires sv.Faithful() && Inv(sv, s) && Free(s)
    ensures Key(|s.calls|) !in s.client.ongoing && EraseOf(|s.calls|) !in s.client.strand
    ensures forall h :: h in s.client.strand && h.InsertAndWrite? ==>
              h.promise.OfCall? && h.promise.k >= Base(|s.calls| + 1)
    ensures forall m :: m in s.toServer && |m| != 3 ==> MsgOwner(s, m) >= Base(|s.calls| + 1)
    ensures forall m :: m in s.toClient ==> MsgOwner(s, m) >= Base(|s.calls| + 1)
  {
    hide CallInv, Retired, InStage, Owner, HandlerInv, RequestInv, ResponseInv;
    var n := |s.calls|;
    if n < UINT32 {
      OwnerOfKey(n, n);
      assert EraseOf(n) in s.client.strand ==> HandlerInv(s, EraseOf(n));
      NotOwned(s, n);
      forall h | h in s.client.strand && h.InsertAndWrite? ensures h.promise.OfCall? {
        HandlerHasCall(s, h);
      }
    } else {
      OldCallGone(sv, s, n - UINT32);
    }
  }

  lemma {:induction false} HandlerHasCall(s: State, h: Handler)
    requires HandlerInv(s, h) && h.InsertAndWrite?
    ensures h.promise.OfCall? && Current(s, h.promise.k) && h == HandlerOf(s, h.promise.k)
  {
  }

  lemma {:induction false} NotOwned(s: State, n: nat)
    requires Owner(n, Key(n)) == n == |s.calls|
    ensures !HandlerInv(s, EraseOf(n))
  {
  }

  lemma {:induction false} OldCallGone(sv: Server, s: State, j: nat)
    requires sv.Faithful() && Inv(sv, s) && j + UINT32 == |s.calls| && InStage(s, j, Erased)
    ensures Key(|s.calls|) !in s.client.ongoing && EraseOf(|s.calls|) !in s.client.strand
    ensures forall h :: h in s.client.strand && h.InsertAndWrite? ==> h.promise.OfCall? && h.promise.k > j
    ensures forall m :: m in s.toServer && |m| != 3 ==> MsgOwner(s, m) > j
    ensures forall m :: m in s.toClient ==> MsgOwner(s, m) > j
  {
    hide Inv, HandlerInv, RequestInv, ResponseInv, Owner, Req, Resp, Answerable;
    NoneInFlight(sv, s, j);
    assert Key(j) == Key(|s.calls|);
    forall h | h in s.client.strand && h.InsertAndWrite? ensures h.promise.OfCall? && h.promise.k > j {
      HandlerInvOf(sv, s, h);
      HandlerHasCall(s, h);
    }
    forall m | m in s.toServer && |m| != 3 ensures MsgOwner(s, m) > j {
      MessageInvOf(sv, s, m);
      OwnerOfRequest(s, m);
    }
    forall m | m in s.toClient ensures MsgOwner(s, m) > j {
      MessageInvOf(sv, s, m);
      OwnerOfResponse(sv, s, m);
    }
  }

  lemma {:induction false} NoneInFlight(sv: Server, s: State, j: nat)
    requires Inv(sv, s) && Current(s, j) && InStage(s, j, Erased)
    ensures Req(s, j) !in s.toServer && Resp(sv, s, j) !in s.toClient
  {
    hide StructInv, Retired;
    assert CallInv(sv, s, j) && !InStage(s, j, Ongoing);
  }

  lemma {:induction false} OwnerOfRequest(s: State, m: Message)
    requires RequestInv(s, m) && |m| != 3
    ensures Current(s, MsgOwner(s, m)) && m == Req(s, MsgOwner(s, m))
  {
    hide Owner;
  }

  lemma {:induction false} OwnerOfResponse(sv: Server, s: State, m: Message)
    requires ResponseInv(sv, s, m)
    ensures Current(s, MsgOwner(s, m)) && m == Resp(sv, s, MsgOwner(s, m)) && Answerable(sv, s, MsgOwner(s, m))
  {
    hide Owner;
  }

  // ----- Every step keeps the invariant -----

  /** Nothing about the k-th call differs between two states. */
  ghost predicate SameFor(sv: Server, s: State, s': State, k: nat)
    requires k < |s.calls|
  {
    && k < |s'.calls| && s'.calls[k] == s.calls[k]
    && s'.client.strand[HandlerOf(s, k)] == s.client.strand[HandlerOf(s, k)]
    && s'.client.strand[EraseOf(k)] == s.client.strand[EraseOf(k)]
    && (Key(k) in s'.client.ongoing <==> Key(k) in s.client.ongoing)
    && (Key(k) in s.client.ongoing ==> s'.client.ongoing[Key(k)] == s.client.ongoing[Key(k)])
    && (OfCall(k) in s.client.promises ==>
          OfCall(k) in s'.client.promises && s'.client.promises[OfCall(k)] == s.client.promises[OfCall(k)])
    && s'.toServer[Req(s, k)] == s.toServer[Req(s, k)]
    && s'.toClient[Resp(sv, s, k)] == s.toClient[Resp(sv, s, k)]
    && (k in s'.lost <==> k in s.lost)
  }

  lemma {:induction false} Frame(sv: Server, s: State, s': State, k: nat)
    requires k < |s.calls| && CallInv(sv, s, k)
    requires SameFor(sv, s, s', k)
    ensures CallInv(sv, s', k)
  {
    var stage :| InStage(s, k, stage);
    assert InStage(s', k, stage);
  }

  lemma {:induction false} IssueOwn(sv: Server, s: State, call: Call)
    requires sv.Faithful() && Inv(sv, s) && Free(s)
    ensures CallInv(sv, Next(sv, s, IssueStep(call)), |s.calls|)
  {
    var n := |s.calls|;
    var s' := Next(sv, s, IssueStep(call));
    IndexStep(n);
    IdxIsKey(n);
    FreeKey(sv, s);
    RespShape(sv, s', n);
    NewMessages(sv, s, s', n);
    assert HandlerOf(s', n) !in s.client.strand;
    assert InStage(s', n, Queued);
  }

  /** No message in flight looks like one of the new call. */
  lemma {:induction false} NewMessages(sv: Server, s: State, s': State, n: nat)
    requires sv.Faithful() && Inv(sv, s) && Free(s) && n == |s.calls| && |s'.calls| == n + 1 && s'.calls[..n] == s.calls
    ensures Req(s', n) !in s.toServer && Resp(sv, s', n) !in s.toClient
  {
    FreeKey(sv, s);
    var req, resp := Req(s', n), Resp(sv, s', n);
    RespShape(sv, s', n);
    if req in s.toServer {
      assert RequestInv(s, req) && |req| == 4;
      var k := MsgOwner(s, req);
      IdxIsKey(n);
      IdxIsKey(k);
      assert Req(s, k)[1] == Int(Idx(k)) && req[1] == Int(Idx(n));
      OwnerStable(n, k);
    }
    if resp in s.toClient {
      assert ResponseInv(sv, s, resp);
      var k := MsgOwner(s, resp);
      RespShape(sv, s, k);
      OwnerStable(n, k);
    }
  }

  lemma {:induction false} IssueStruct(sv: Server, s: State, call: Call)
    requires sv.Faithful() && Inv(sv, s) && Free(s)
    ensures StructInv(sv, Next(sv, s, IssueStep(call)))
  {
    hide CallInv, Retired, InStage, Owner, RequestInv, ResponseInv, Resp;
    var s' := Next(sv, s, IssueStep(call));
    IndexStep(|s.calls|);
    FreeKey(sv, s);
    forall m | m in s'.toServer ensures RequestInv(s', m) {
      MessageInvOf(sv, s, m);
      IssueRequest(s, s', m);
    }
    forall m | m in s'.toClient ensures ResponseInv(sv, s', m) {
      MessageInvOf(sv, s, m);
      IssueResponse(sv, s, s', m);
    }
    forall h | h in s'.client.strand ensures HandlerInv(s', h) {
      if h in s.client.strand {
        IssueHandler(sv, s, s', h);
      }
    }
    forall id | id in s'.client.ongoing
      ensures Owner(|s'.calls|, id) < |s'.calls| && Key(Owner(|s'.calls|, id)) == id
    {
      IssueKey(s, id);
    }
  }

  /** A key in use keeps its owner when a call is issued. */
  lemma {:induction false} IssueKey(s: State, id: nat)
    requires Owner(|s.calls|, id) < |s.calls| && Key(Owner(|s.calls|, id)) == id && id != Key(|s.calls|)
    ensures Owner(|s.calls| + 1, id) == Owner(|s.calls|, id) >= Base(|s.calls| + 1)
  {
    var n, k := |s.calls|, Owner(|s.calls|, id);
    if k < Base(n + 1) {
      assert false;
    }
    OwnerStable(n, k);
  }

  lemma {:induction false} IssueRequest(s: State, s': State, m: Message)
    requires RequestInv(s, m) && (|m| != 3 ==> MsgOwner(s, m) >= Base(|s.calls| + 1))
    requires |s'.calls| == |s.calls| + 1 && s'.calls[..|s.calls|] == s.calls
    ensures RequestInv(s', m)
  {
    hide Owner;
    if |m| != 3 {
      var k := MsgOwner(s, m);
      IdxIsKey(k);
      OwnerStable(|s.calls|, k);
      assert m[1] == Int(Idx(k)) && s'.calls[k] == s.calls[k];
    }
  }

  lemma {:induction false} IssueResponse(sv: Server, s: State, s': State, m: Message)
    requires sv.Faithful() && ResponseInv(sv, s, m) && MsgOwner(s, m) >= Base(|s.calls| + 1)
    requires |s'.calls| == |s.calls| + 1 && s'.calls[..|s.calls|] == s.calls
    ensures ResponseInv(sv, s', m)
  {
    hide Owner;
    var k := MsgOwner(s, m);
    RespShape(sv, s, k);
    OwnerStable(|s.calls|, k);
    OriginStays(sv, s, s', k);
    assert MsgOwner(s', m) == k;
  }

  lemma {:induction false} IssueHandler(sv: Server, s: State, s': State, h: Handler)
    requires sv.Faithful() && Inv(sv, s) && Free(s) && h in s.client.strand
    requires |s'.calls| == |s.calls| + 1 && s'.calls[..|s.calls|] == s.calls
    ensures HandlerInv(s', h)
  {
    FreeKey(sv, s);
    assert HandlerInv(s, h);
    match h
    case InsertAndWrite(_, _, _, p) => assert s'.calls[p.k] == s.calls[p.k];
    case WriteOnly(_) =>
    case EraseCall(id) => IssueKey(s, id);
  }

  lemma {:induction false} IssueOther(sv: Server, s: State, call: Call, k: nat)
    requires sv.Faithful() && Inv(sv, s) && Free(s) && Base(|s.calls| + 1) <= k < |s.calls|
    ensures CallInv(sv, Next(sv, s, IssueStep(call)), k)
  {
    hide Inv, InStage, Owner, Free;
    var s' := Next(sv, s, IssueStep(call));
    IndexStep(|s.calls|);
    Distinct(sv, s', k, |s.calls|);
    CallInvOf(sv, s, k);
    Frame(sv, s, s', k);
  }

  lemma {:induction false} IssueRetires(sv: Server, s: State, call: Call, k: nat)
    requires sv.Faithful() && Inv(sv, s) && Free(s) && k < Base(|s.calls| + 1)
    ensures Retired(sv, Next(sv, s, IssueStep(call)), k)
  {
    if k < Base(|s.calls|) {
      assert Retired(sv, s, k);
    } else {
      assert k == |s.calls| - UINT32 && CallInv(sv, s, k) && InStage(s, k, Erased);
    }
  }

  lemma {:induction false} KeepIssue(sv: Server, s: State, call: Call)
    requires sv.Faithful() && Inv(sv, s) && Free(s)
    ensures Inv(sv, Next(sv, s, IssueStep(call)))
  {
    hide CallInv, StructInv, Retired;
    var s' := Next(sv, s, IssueStep(call));
    IssueOwn(sv, s, call);
    IssueStruct(sv, s, call);
    forall k | Base(|s'.calls|) <= k < |s'.calls| ensures CallInv(sv, s', k) {
      if k < |s.calls| {
        IssueOther(sv, s, call, k);
      }
    }
    forall k | 0 <= k < Base(|s'.calls|) ensures Retired(sv, s', k) {
      IssueRetires(sv, s, call, k);
    }
  }

  /** Promises that were resolved stay as they are. */
  ghost predicate Kept(promises: map<PromiseId, Resolution>, promises': map<PromiseId, Resolution>) {
    forall p :: p in promises && promises[p] != Pending ==> p in promises' && promises'[p] == promises[p]
  }

  /** Steps that issue no call and keep resolved promises keep retired calls retired. */
  lemma {:induction false} RetiredStays(sv: Server, s: State, s': State)
    requires Inv(sv, s) && s'.calls == s.calls && Kept(s.client.promises, s'.client.promises)
    ensures forall k :: 0 <= k < Base(|s'.calls|) ==> Retired(sv, s', k)
  {
    hide CallInv, StructInv;
    forall k | 0 <= k < Base(|s'.calls|) ensures Retired(sv, s', k) {
      assert Retired(sv, s, k);
    }
  }

  lemma {:induction false} NotifyOther(sv: Server, s: State, call: Call, k: nat)
    requires Inv(sv, s) && Current(s, k)
    ensures CallInv(sv, Next(sv, s, NotifyStep(call)), k)
  {
    hide Inv, InStage;
    CallInvOf(sv, s, k);
    Frame(sv, s, Next(sv, s, NotifyStep(call)), k);
  }

  lemma {:induction false} KeepNotify(sv: Server, s: State, call: Call)
    requires sv.Faithful() && Inv(sv, s)
    ensures Inv(sv, Next(sv, s, NotifyStep(call)))
  {
    hide CallInv, StructInv, Retired;
    NotifyStruct(sv, s, call);
    RetiredStays(sv, s, Next(sv, s, NotifyStep(call)));
    forall k | Base(|s.calls|) <= k < |s.calls| ensures CallInv(sv, Next(sv, s, NotifyStep(call)), k) {
      NotifyOther(sv, s, call, k);
    }
  }

  lemma {:induction false} NotifyStruct(sv: Server, s: State, call: Call)
    requires Inv(sv, s)
    ensures StructInv(sv, Next(sv, s, NotifyStep(call)))
  {
    var s' := Next(sv, s, NotifyStep(call));
    StructFrame(sv, s, s');
    forall h | h in s'.client.strand ensures HandlerInv(s', h) {
      assert h in s.client.strand ==> HandlerInv(s, h);
    }
  }

  /** The parts of the structural invariant that only read the call history carry over. */
  lemma {:induction false} StructFrame(sv: Server, s: State, s': State)
    requires StructInv(sv, s) && s'.calls == s.calls
    ensures forall h :: h in s.client.strand ==> HandlerInv(s', h)
    ensures forall m :: m in s.toServer ==> RequestInv(s', m)
    ensures forall m :: m in s.toClient ==> ResponseInv(sv, s', m)
  {
    forall m | m in s.toClient ensures ResponseInv(sv, s', m) {
      assert ResponseInv(sv, s, m);
    }
    forall m | m in s.toServer ensures RequestInv(s', m) {
      assert RequestInv(s, m);
    }
    forall h | h in s.client.strand ensures HandlerInv(s', h) {
      assert HandlerInv(s, h);
    }
  }

  lemma {:induction false} InsertOwn(sv: Server, s: State, h: Handler)
    requires sv.Faithful() && Inv(sv, s) && h in s.client.strand && h.InsertAndWrite?
    ensures HandlerInv(s, h) && CallInv(sv, Next(sv, s, HandlerStep(h)), h.promise.k)
    ensures Key(h.promise.k) !in s.client.ongoing && ToUint32(h.idx) == Key(h.promise.k)
  {
    var s' := Next(sv, s, HandlerStep(h));
    var j := h.promise.k;
    assert HandlerInv(s, h) && CallInv(sv, s, j);
    IdxIsKey(j);
    assert InStage(s, j, Queued);
    assert InStage(s', j, Ongoing);
  }

  lemma {:induction false} InsertStruct(sv: Server, s: State, h: Handler)
    requires sv.Faithful() && Inv(sv, s) && h in s.client.strand && h.InsertAndWrite?
    ensures StructInv(sv, Next(sv, s, HandlerStep(h)))
  {
    InsertOwn(sv, s, h);
    IdxIsKey(h.promise.k);
    OwnerOfKey(|s.calls|, h.promise.k);
    assert MsgOwner(s, Req(s, h.promise.k)) == h.promise.k;
    StructFrame(sv, s, Next(sv, s, HandlerStep(h)));
  }

  lemma {:induction false} InsertOther(sv: Server, s: State, h: Handler, k: nat)
    requires sv.Faithful() && Inv(sv, s) && h in s.client.strand && h.InsertAndWrite?
    requires HandlerInv(s, h) && Current(s, k) && k != h.promise.k
    ensures CallInv(sv, Next(sv, s, HandlerStep(h)), k)
  {
    hide Inv, InStage, Owner;
    InsertOwn(sv, s, h);
    Distinct(sv, s, k, h.promise.k);
    CallInvOf(sv, s, k);
    HandlerInvOf(sv, s, h);
    Frame(sv, s, Next(sv, s, HandlerStep(h)), k);
  }

  lemma {:induction false} KeepInsert(sv: Server, s: State, h: Handler)
    requires sv.Faithful() && Inv(sv, s) && h in s.client.strand && h.InsertAndWrite?
    ensures Inv(sv, Next(sv, s, HandlerStep(h)))
  {
    hide CallInv, StructInv, Retired;
    InsertOwn(sv, s, h);
    InsertStruct(sv, s, h);
    RetiredStays(sv, s, Next(sv, s, HandlerStep(h)));
    forall k | Base(|s.calls|) <= k < |s.calls| && k != h.promise.k
      ensures CallInv(sv, Next(sv, s, HandlerStep(h)), k)
    {
      InsertOther(sv, s, h, k);
    }
  }

  lemma {:induction false} WriteOnlyOther(sv: Server, s: State, h: Handler, k: nat)
    requires sv.Faithful() && Inv(sv, s) && h in s.client.strand && h.WriteOnly? && Current(s, k)
    ensures CallInv(sv, Next(sv, s, HandlerStep(h)), k)
  {
    hide Inv, InStage;
    CallInvOf(sv, s, k);
    HandlerInvOf(sv, s, h);
    assert |Req(s, k)| == 4;
    Frame(sv, s, Next(sv, s, HandlerStep(h)), k);
  }

  lemma {:induction false} WriteOnlyStruct(sv: Server, s: State, h: Handler)
    requires Inv(sv, s) && h in s.client.strand && h.WriteOnly?
    ensures StructInv(sv, Next(sv, s, HandlerStep(h)))
  {
    hide CallInv, Retired, ResponseInv, Owner;
    StructFrame(sv, s, Next(sv, s, HandlerStep(h)));
    assert HandlerInv(s, h);
  }

  lemma {:induction false} KeepWriteOnly(sv: Server, s: State, h: Handler)
    requires sv.Faithful() && Inv(sv, s) && h in s.client.strand && h.WriteOnly?
    ensures Inv(sv, Next(sv, s, HandlerStep(h)))
  {
    WriteOnlyStruct(sv, s, h);
    hide CallInv, Retired, StructInv;
    RetiredStays(sv, s, Next(sv, s, HandlerStep(h)));
    forall k | Base(|s.calls|) <= k < |s.calls| ensures CallInv(sv, Next(sv, s, HandlerStep(h)), k) {
      WriteOnlyOther(sv, s, h, k);
    }
  }

  lemma {:induction false} EraseOwn(sv: Server, s: State, h: Handler)
    requires sv.Faithful() && Inv(sv, s) && h in s.client.strand && h.EraseCall?
    ensures HandlerInv(s, h) && CallInv(sv, Next(sv, s, HandlerStep(h)), Owner(|s.calls|, h.id))
    ensures Next(sv, s, HandlerStep(h)).client.promises == s.client.promises
  {
    var s' := Next(sv, s, HandlerStep(h));
    var j := Owner(|s.calls|, h.id);
    assert HandlerInv(s, h) && CallInv(sv, s, j);
    assert InStage(s, j, AwaitingErase);
    assert InStage(s', j, Erased);
  }

  lemma {:induction false} EraseOther(sv: Server, s: State, h: Handler, k: nat)
    requires sv.Faithful() && Inv(sv, s) && h in s.client.strand && h.EraseCall?
    requires HandlerInv(s, h) && Current(s, k) && k != Owner(|s.calls|, h.id)
    ensures CallInv(sv, Next(sv, s, HandlerStep(h)), k)
  {
    hide Inv, InStage, Owner;
    EraseOwn(sv, s, h);
    Distinct(sv, s, k, Owner(|s.calls|, h.id));
    CallInvOf(sv, s, k);
    HandlerInvOf(sv, s, h);
    Frame(sv, s, Next(sv, s, HandlerStep(h)), k);
  }

  lemma {:induction false} EraseStruct(sv: Server, s: State, h: Handler)
    requires sv.Faithful() && Inv(sv, s) && h in s.client.strand && h.EraseCall?
    ensures StructInv(sv, Next(sv, s, HandlerStep(h)))
  {
    hide CallInv, Retired, RequestInv, ResponseInv, Owner;
    EraseOwn(sv, s, h);
    StructFrame(sv, s, Next(sv, s, HandlerStep(h)));
  }

  lemma {:induction false} KeepErase(sv: Server, s: State, h: Handler)
    requires sv.Faithful() && Inv(sv, s) && h in s.client.strand && h.EraseCall?
    ensures Inv(sv, Next(sv, s, HandlerStep(h)))
  {
    EraseOwn(sv, s, h);
    EraseStruct(sv, s, h);
    hide CallInv, Retired, StructInv;
    RetiredStays(sv, s, Next(sv, s, HandlerStep(h)));
    forall k | Base(|s.calls|) <= k < |s.calls| && k != Owner(|s.calls|, h.id)
      ensures CallInv(sv, Next(sv, s, HandlerStep(h)), k)
    {
      EraseOther(sv, s, h, k);
    }
  }

  lemma {:induction false} ServeOwn(sv: Server, s: State, m: Message)
    requires sv.Faithful() && Inv(sv, s) && m in s.toServer && |m| != 3
    ensures RequestInv(s, m) && CallInv(sv, Next(sv, s, ServeStep(m)), MsgOwner(s, m))
  {
    hide Inv, Owner;
    var s' := Next(sv, s, ServeStep(m));
    var j := MsgOwner(s, m);
    MessageInvOf(sv, s, m);
    CallInvOf(sv, s, j);
    RespShape(sv, s, j);
    assert InStage(s, j, Ongoing);
    assert InStage(s', j, Ongoing);
  }

  /** What serving a message adds for the client is the response to its call. */
  lemma {:induction false} ServeResponds(sv: Server, s: State, m: Message, x: Message)
    requires sv.Faithful() && RequestInv(s, m) && m in s.toServer && x in Next(sv, s, ServeStep(m)).toClient
    requires x !in s.toClient
    ensures ResponseInv(sv, s, x)
  {
    assert sv.Ignores(m);
    RespShape(sv, s, MsgOwner(s, m));
  }

  lemma {:induction false} ServeStruct(sv: Server, s: State, m: Message)
    requires sv.Faithful() && Inv(sv, s) && m in s.toServer
    ensures StructInv(sv, Next(sv, s, ServeStep(m)))
  {
    hide CallInv, Retired, Owner, HandlerInv, RequestInv, ResponseInv;
    var s' := Next(sv, s, ServeStep(m));
    StructFrame(sv, s, s');
    forall x | x in s'.toClient ensures ResponseInv(sv, s', x) {
      if x !in s.toClient {
        ServeResponds(sv, s, m, x);
        ResponseFrame(sv, s, s', x);
      }
    }
  }

  lemma {:induction false} ResponseFrame(sv: Server, s: State, s': State, m: Message)
    requires ResponseInv(sv, s, m) && s'.calls == s.calls
    ensures ResponseInv(sv, s', m)
  {
  }

  lemma {:induction false} ServeOther(sv: Server, s: State, m: Message, k: nat)
    requires sv.Faithful() && Inv(sv, s) && m in s.toServer && Current(s, k) && (|m| == 3 || k != MsgOwner(s, m))
    ensures CallInv(sv, Next(sv, s, ServeStep(m)), k)
  {
    hide Inv, InStage, Owner;
    MessageInvOf(sv, s, m);
    CallInvOf(sv, s, k);
    assert sv.Ignores(m) && |Req(s, k)| == 4;
    if |m| != 3 {
      RespShape(sv, s, MsgOwner(s, m));
      Distinct(sv, s, k, MsgOwner(s, m));
    }
    Frame(sv, s, Next(sv, s, ServeStep(m)), k);
  }

  lemma {:induction false} KeepServe(sv: Server, s: State, m: Message)
    requires sv.Faithful() && Inv(sv, s) && m in s.toServer
    ensures Inv(sv, Next(sv, s, ServeStep(m)))
  {
    hide CallInv, StructInv, Retired;
    ServeStruct(sv, s, m);
    RetiredStays(sv, s, Next(sv, s, ServeStep(m)));
    forall k | Base(|s.calls|) <= k < |s.calls| ensures CallInv(sv, Next(sv, s, ServeStep(m)), k) {
      if |m| != 3 && k == MsgOwner(s, m) {
        ServeOwn(sv, s, m);
      } else {
        ServeOther(sv, s, m, k);
      }
    }
  }

  /** The read handler always finds the id: its call is ongoing and its promise unset. */
  lemma {:induction false} ReceiveFinds(sv: Server, s: State, m: Message)
    requires sv.Faithful() && Inv(sv, s) && m in s.toClient
    ensures ResponseInv(sv, s, m) && InStage(s, MsgOwner(s, m), Ongoing)
    ensures m[1].i == Key(MsgOwner(s, m)) && m[1].i in s.client.ongoing
    ensures s.toClient[m] == 1
    ensures Resolve(s.calls[MsgOwner(s, m)].name, m[2], m[3]) == VerdictOf(sv, s, MsgOwner(s, m))
  {
    var j := MsgOwner(s, m);
    assert ResponseInv(sv, s, m) && CallInv(sv, s, j);
    RespShape(sv, s, j);
  }

  lemma {:induction false} ReceiveOwn(sv: Server, s: State, m: Message)
    requires sv.Faithful() && Inv(sv, s) && m in s.toClient && IsResponse(m)
    ensures ResponseInv(sv, s, m) && CallInv(sv, Next(sv, s, ReceiveStep(m)), MsgOwner(s, m))
  {
    ReceiveFinds(sv, s, m);
    var s' := Next(sv, s, ReceiveStep(m));
    assert CallInv(sv, s, MsgOwner(s, m));
    assert InStage(s', MsgOwner(s, m), AwaitingErase);
  }

  /** What receiving a response amounts to in a reachable state. */
  lemma {:induction false} ReceiveEffect(sv: Server, s: State, m: Message)
    requires sv.Faithful() && Inv(sv, s) && m in s.toClient && IsResponse(m)
    ensures ResponseInv(sv, s, m)
    ensures var j := MsgOwner(s, m);
            Next(sv, s, ReceiveStep(m)) == s.(
              client := s.client.(promises := s.client.promises[OfCall(j) := VerdictOf(sv, s, j)],
                                  strand := s.client.strand + multiset{EraseOf(j)}),
              toClient := s.toClient - multiset{m})
  {
    ReceiveFinds(sv, s, m);
  }

  lemma {:induction false} ReceiveStruct(sv: Server, s: State, m: Message)
    requires sv.Faithful() && Inv(sv, s) && m in s.toClient && IsResponse(m)
    ensures StructInv(sv, Next(sv, s, ReceiveStep(m)))
  {
    ReceiveEffect(sv, s, m);
    OwnerOfKey(|s.calls|, MsgOwner(s, m));
    StructFrame(sv, s, Next(sv, s, ReceiveStep(m)));
    assert HandlerInv(s, EraseOf(MsgOwner(s, m)));
  }

  lemma {:induction false} ReceiveOther(sv: Server, s: State, m: Message, k: nat)
    requires sv.Faithful() && Inv(sv, s) && m in s.toClient && IsResponse(m)
    requires Current(s, k) && k != MsgOwner(s, m)
    ensures CallInv(sv, Next(sv, s, ReceiveStep(m)), k)
  {
    hide Inv, InStage, Owner, Receive;
    MessageInvOf(sv, s, m);
    ReceiveEffect(sv, s, m);
    Distinct(sv, s, k, MsgOwner(s, m));
    CallInvOf(sv, s, k);
    OwnerOfResponse(sv, s, m);
    Frame(sv, s, Next(sv, s, ReceiveStep(m)), k);
  }

  lemma {:induction false} KeepReceive(sv: Server, s: State, m: Message)
    requires sv.Faithful() && Inv(sv, s) && m in s.toClient && IsResponse(m)
    ensures Inv(sv, Next(sv, s, ReceiveStep(m)))
  {
    hide CallInv, StructInv, Retired;
    ReceiveOwn(sv, s, m);
    ReceiveStruct(sv, s, m);
    ReceiveEffect(sv, s, m);
    RetiredStays(sv, s, Next(sv, s, ReceiveStep(m)));
    forall k | Base(|s.calls|) <= k < |s.calls| && k != MsgOwner(s, m)
      ensures CallInv(sv, Next(sv, s, ReceiveStep(m)), k)
    {
      ReceiveOther(sv, s, m, k);
    }
  }

  lemma {:induction false} LoseOwn(sv: Server, s: State, m: Message)
    requires sv.Faithful() && Inv(sv, s) && (m in s.toServer || m in s.toClient) && |m| != 3
    ensures MsgOwner(s, m) < |s.calls| && CallInv(sv, Next(sv, s, LoseStep(m)), MsgOwner(s, m))
  {
    hide Inv, Owner;
    var s' := Next(sv, s, LoseStep(m));
    var j := MsgOwner(s, m);
    MessageInvOf(sv, s, m);
    CallInvOf(sv, s, j);
    assert InStage(s, j, Ongoing);
    assert InStage(s', j, Ongoing);
  }

  /** Losing a message of another call changes nothing for the k-th. */
  lemma {:induction false} LoseSame(sv: Server, s: State, m: Message, k: nat)
    requires Enabled(s, LoseStep(m)) && k < |s.calls|
    requires m in s.toServer ==> m != Req(s, k)
    requires m !in s.toServer ==> m != Resp(sv, s, k)
    requires |m| == 4 && m[1].Int? ==> k != Owner(|s.calls|, ToUint32(m[1].i))
    ensures SameFor(sv, s, Next(sv, s, LoseStep(m)), k)
  {
    hide Owner, ToUint32, Key, Answerable;
    var s' := Next(sv, s, LoseStep(m));
    assert Req(s', k) == Req(s, k) && HandlerOf(s', k) == HandlerOf(s, k);
  }

  lemma {:induction false} LoseOther(sv: Server, s: State, m: Message, k: nat)
    requires sv.Faithful() && Inv(sv, s) && (m in s.toServer || m in s.toClient)
    requires Current(s, k) && (|m| == 3 || k != MsgOwner(s, m))
    ensures CallInv(sv, Next(sv, s, LoseStep(m)), k)
  {
    hide Inv, InStage, Owner, SameFor, Lose, CallInv, Resp;
    CallInvOf(sv, s, k);
    MessageInvOf(sv, s, m);
    assert |Req(s, k)| == 4;
    if m !in s.toServer || |m| != 3 {
      Distinct(sv, s, k, MsgOwner(s, m));
    }
    LoseSame(sv, s, m, k);
    Frame(sv, s, Next(sv, s, LoseStep(m)), k);
  }

  lemma {:induction false} LoseKeeps(s: State, m: Message)
    requires m in s.toServer || m in s.toClient
    ensures Lose(s, m).client == s.client && Lose(s, m).calls == s.calls
    ensures Lose(s, m).toServer <= s.toServer && Lose(s, m).toClient <= s.toClient
  {
    hide Owner, ToUint32;
  }

  lemma {:induction false} LoseStruct(sv: Server, s: State, m: Message)
    requires sv.Faithful() && Inv(sv, s) && (m in s.toServer || m in s.toClient)
    ensures StructInv(sv, Next(sv, s, LoseStep(m)))
  {
    hide CallInv, Retired, HandlerInv, RequestInv, ResponseInv, Owner, Lose;
    LoseKeeps(s, m);
    StructFrame(sv, s, Next(sv, s, LoseStep(m)));
  }

  lemma {:induction false} KeepLose(sv: Server, s: State, m: Message)
    requires sv.Faithful() && Inv(sv, s) && (m in s.toServer || m in s.toClient)
    ensures Inv(sv, Next(sv, s, LoseStep(m)))
  {
    hide CallInv, StructInv, Retired;
    LoseStruct(sv, s, m);
    RetiredStays(sv, s, Next(sv, s, LoseStep(m)));
    forall k | Base(|s.calls|) <= k < |s.calls| ensures CallInv(sv, Next(sv, s, LoseStep(m)), k) {
      if |m| != 3 && k == MsgOwner(s, m) {
        LoseOwn(sv, s, m);
      } else {
        LoseOther(sv, s, m, k);
      }
    }
  }

  /** Every step keeps the invariant, as long as no id is issued that is still in use. */
  lemma {:induction false} KeepInv(sv: Server, s: State, step: Step)
    requires sv.Faithful() && Inv(sv, s) && Enabled(s, step)
    requires step.IssueStep? ==> Free(s)
    ensures Inv(sv, Next(sv, s, step))
  {
    match step
    case IssueStep(call) => KeepIssue(sv, s, call);
    case NotifyStep(call) => KeepNotify(sv, s, call);
    case HandlerStep(h) =>
      match h {
        case InsertAndWrite(_, _, _, _) => KeepInsert(sv, s, h);
        case WriteOnly(_) => KeepWriteOnly(sv, s, h);
        case EraseCall(_) => KeepErase(sv, s, h);
      }
    case ServeStep(m) => KeepServe(sv, s, m);
    case ReceiveStep(m) => KeepReceive(sv, s, m);
    case LoseStep(m) => KeepLose(sv, s, m);
  }

  /** A run in which no id is issued that is still in use. */
  ghost predicate CarefulRun(sv: Server, steps: seq<Step>, s: State) {
    if |steps| == 0 then s == Initial
    else
      var last := steps[|steps| - 1];
      exists s0 :: && CarefulRun(sv, steps[..|steps| - 1], s0) && Enabled(s0, last) && (last.IssueStep? ==> Free(s0))
                   && Next(sv, s0, last) == s
  }

  lemma {:induction false} RunInv(sv: Server, steps: seq<Step>, s: State)
    requires sv.Faithful() && CarefulRun(sv, steps, s)
    ensures Inv(sv, s)
  {
    if |steps| > 0 {
      var last := steps[|steps| - 1];
      var s0 :| && CarefulRun(sv, steps[..|steps| - 1], s0) && Enabled(s0, last) && (last.IssueStep? ==> Free(s0))
                && Next(sv, s0, last) == s;
      RunInv(sv, steps[..|steps| - 1], s0);
      KeepInv(sv, s0, last);
    }
  }

  lemma {:induction false} ExtendCareful(sv: Server, steps: seq<Step>, s: State, step: Step)
    requires CarefulRun(sv, steps, s) && Enabled(s, step) && (step.IssueStep? ==> Free(s))
    ensures CarefulRun(sv, steps + [step], Next(sv, s, step))
  {
    var longer := steps + [step];
    assert longer[..|longer| - 1] == steps && longer[|longer| - 1] == step;
  }

  /** Every run of at most 2^32 calls is careful. */
  lemma {:induction false} ShortRunIsCareful(sv: Server, steps: seq<Step>, s: State)
    requires Run(sv, steps, s) && |s.calls| <= UINT32
    ensures CarefulRun(sv, steps, s)
  {
    hide InStage;
    if |steps| > 0 {
      var last := steps[|steps| - 1];
      var s0 :| Run(sv, steps[..|steps| - 1], s0) && Enabled(s0, last) && Next(sv, s0, last) == s;
      ShortRunIsCareful(sv, steps[..|steps| - 1], s0);
    }
  }

  // ----- What holds in every run -----

  /** A run of the library's own client and dispatcher. */
  ghost predicate LibraryRun(funcs: Registry, suppress: bool, steps: seq<Step>, s: State) {
    Run(DispatcherServer(funcs, suppress), steps, s)
  }

  ghost predicate CarefulLibraryRun(funcs: Registry, suppress: bool, steps: seq<Step>, s: State) {
    CarefulRun(DispatcherServer(funcs, suppress), steps, s)
  }

  /** Every resolved future holds the outcome of exactly the function and arguments that were
      posted under its id, or an rpc_error naming that function. */
  ghost predicate NoMisdelivery(funcs: Registry, suppress: bool, s: State) {
    && !s.client.dead
    && forall k :: 0 <= k < |s.calls| ==>
         && OfCall(k) in s.client.promises
         && s.client.promises[OfCall(k)] in {Pending, Verdict(funcs, s.calls[k].name, s.calls[k].args, suppress)}
  }

  /** Safety of runs of any length in which no id is issued that is still in use. */
  lemma {:induction false} CarefulRunDelivers(funcs: Registry, suppress: bool, steps: seq<Step>, s: State)
    requires CarefulLibraryRun(funcs, suppress, steps, s)
    ensures NoMisdelivery(funcs, suppress, s)
    ensures forall k :: 0 <= k < |s.calls| && s.client.promises[OfCall(k)] != Pending ==> 0 <= Idx(k)
  {
    var sv := DispatcherServer(funcs, suppress);
    RunInv(sv, steps, s);
    forall k | 0 <= k < |s.calls|
      ensures OfCall(k) in s.client.promises
      ensures s.client.promises[OfCall(k)] in {Pending, Verdict(funcs, s.calls[k].name, s.calls[k].args, suppress)}
      ensures s.client.promises[OfCall(k)] != Pending ==> 0 <= Idx(k)
    {
      if Base(|s.calls|) <= k {
        assert CallInv(sv, s, k);
      } else {
        assert Retired(sv, s, k);
      }
    }
  }

  /** Safety of every run of at most 2^32 calls. */
  lemma {:induction false} RunDelivers(funcs: Registry, suppress: bool, steps: seq<Step>, s: State)
    requires LibraryRun(funcs, suppress, steps, s) && |s.calls| <= UINT32
    ensures NoMisdelivery(funcs, suppress, s)
    ensures forall k :: 0 <= k < |s.calls| && s.client.promises[OfCall(k)] != Pending ==> 0 <= Idx(k)
  {
    ShortRunIsCareful(DispatcherServer(funcs, suppress), steps, s);
    CarefulRunDelivers(funcs, suppress, steps, s);
  }

  /** Each of the last 2^32 calls is in exactly one stage. */
  lemma {:induction false} RunStages(funcs: Registry, suppress: bool, steps: seq<Step>, s: State, k: nat)
    requires CarefulLibraryRun(funcs, suppress, steps, s) && Current(s, k)
    ensures exists stage :: InStage(s, k, stage) && forall other :: InStage(s, k, other) ==> other == stage
  {
    var sv := DispatcherServer(funcs, suppress);
    RunInv(sv, steps, s);
    assert CallInv(sv, s, k);
    var stage :| InStage(s, k, stage);
    assert forall other :: InStage(s, k, other) ==> other == stage;
  }

  /** A response meets an ongoing entry with an unset promise: `operator[]` never makes one up. */
  lemma {:induction false} RunLookupsHit(funcs: Registry, suppress: bool, steps: seq<Step>, s: State, m: Message)
    requires CarefulLibraryRun(funcs, suppress, steps, s) && m in s.toClient
    ensures IsResponse(m) && m[1].i in s.client.ongoing
    ensures var e := s.client.ongoing[m[1].i];
            e.promise in s.client.promises && s.client.promises[e.promise] == Pending
  {
    var sv := DispatcherServer(funcs, suppress);
    RunInv(sv, steps, s);
    ReceiveFinds(sv, s, m);
  }

  /** A resolved promise never changes again. */
  lemma {:induction false} ResolvedStays(funcs: Registry, suppress: bool, steps: seq<Step>, s: State, step: Step,
                                         k: nat)
    requires CarefulLibraryRun(funcs, suppress, steps, s) && Enabled(s, step) && k < |s.calls|
    requires OfCall(k) in s.client.promises && s.client.promises[OfCall(k)] != Pending
    ensures var s' := Next(DispatcherServer(funcs, suppress), s, step);
            OfCall(k) in s'.client.promises && s'.client.promises[OfCall(k)] == s.client.promises[OfCall(k)]
  {
    var sv := DispatcherServer(funcs, suppress);
    RunInv(sv, steps, s);
    StepKeepsResolved(sv, s, step, k);
  }

  lemma {:induction false} StepKeepsResolved(sv: Server, s: State, step: Step, k: nat)
    requires sv.Faithful() && Inv(sv, s) && Enabled(s, step) && k < |s.calls|
    requires OfCall(k) in s.client.promises && s.client.promises[OfCall(k)] != Pending
    ensures var s' := Next(sv, s, step);
            OfCall(k) in s'.client.promises && s'.client.promises[OfCall(k)] == s.client.promises[OfCall(k)]
  {
    match step
    case ReceiveStep(m) =>
      ReceiveFinds(sv, s, m);
      ReceiveEffect(sv, s, m);
    case HandlerStep(h) =>
      if h.InsertAndWrite? {
        InsertOwn(sv, s, h);
      } else if h.EraseCall? {
        EraseOwn(sv, s, h);
      }
    case _ =>
  }

  /** When nothing is queued or in flight, every call that the server answers and whose messages
      were not lost has been resolved with its verdict, and its entry erased. */
  lemma {:induction false} QuietMeansAnswered(funcs: Registry, suppress: bool, steps: seq<Step>, s: State, k: nat)
    requires CarefulLibraryRun(funcs, suppress, steps, s) && k < |s.calls|
    requires s.client.strand == multiset{} && s.toServer == multiset{} && s.toClient == multiset{}
    requires k !in s.lost && 0 <= Idx(k) && Verdict(funcs, s.calls[k].name, s.calls[k].args, suppress) != Pending
    ensures Current(s, k) ==> InStage(s, k, Erased)
    ensures OfCall(k) in s.client.promises
    ensures s.client.promises[OfCall(k)] == Verdict(funcs, s.calls[k].name, s.calls[k].args, suppress)
  {
    var sv := DispatcherServer(funcs, suppress);
    RunInv(sv, steps, s);
    if Base(|s.calls|) <= k {
      assert CallInv(sv, s, k);
      var stage :| InStage(s, k, stage);
    } else {
      assert Retired(sv, s, k);
    }
  }

  // ----- No future waits for nothing -----

  ghost predicate HandlerHas(c: ClientState, h: Handler, p: PromiseId) {
    h in c.strand && h.InsertAndWrite? && h.promise == p
  }

  ghost predicate EntryHas(c: ClientState, id: nat, p: PromiseId) {
    id in c.ongoing && c.ongoing[id].promise == p
  }

  /** The promise is still in the hands of a handler or an entry. */
  ghost predicate Held(c: ClientState, p: PromiseId) {
    (exists h :: HandlerHas(c, h, p)) || (exists id: nat :: EntryHas(c, id, p))
  }

  ghost predicate PendingHeld(c: ClientState) {
    forall p :: p in c.promises && c.promises[p] == Pending ==> Held(c, p)
  }

  lemma {:induction false} IssueHolds(c: ClientState, call: Call, k: nat)
    requires PendingHeld(c)
    ensures PendingHeld(Issue(c, call, k))
  {
    hide ToInt32;
    var c' := Issue(c, call, k);
    var idx := ToInt32(c.callIdx + 1);
    var h := InsertAndWrite(RequestMessage(idx, call.name, call.args), idx, call.name, OfCall(k));
    assert HandlerHas(c', h, OfCall(k));
    forall p | p in c.promises && p != OfCall(k) && c.promises[p] == Pending ensures Held(c', p) {
      if h :| HandlerHas(c, h, p) {
        assert HandlerHas(c', h, p);
      } else {
        var id: nat :| EntryHas(c, id, p);
        assert EntryHas(c', id, p);
      }
    }
  }

  lemma {:induction false} NotifyHolds(c: ClientState, call: Call)
    requires PendingHeld(c)
    ensures PendingHeld(Notify(c, call))
  {
    var c' := Notify(c, call);
    forall p | p in c.promises && c.promises[p] == Pending ensures Held(c', p) {
      if h :| HandlerHas(c, h, p) {
        assert HandlerHas(c', h, p);
      } else {
        var id: nat :| EntryHas(c, id, p);
        assert EntryHas(c', id, p);
      }
    }
  }

  lemma {:induction false} HandlerHolds(c: ClientState, g: Handler)
    requires PendingHeld(c) && g in c.strand
    ensures PendingHeld(RunHandler(c, g))
  {
    hide ToUint32;
    var c' := RunHandler(c, g);
    forall p | p in c'.promises && c'.promises[p] == Pending ensures Held(c', p) {
      StaysHeld(c, g, p);
    }
  }

  /** What a handler lets go it has passed to an entry, or broken. */
  lemma {:induction false} StaysHeld(c: ClientState, g: Handler, p: PromiseId)
    requires PendingHeld(c) && g in c.strand && p in RunHandler(c, g).promises
    requires RunHandler(c, g).promises[p] == Pending
    ensures Held(RunHandler(c, g), p)
  {
    hide ToUint32;
    var c' := RunHandler(c, g);
    assert p in c.promises && c.promises[p] == Pending;
    if h :| HandlerHas(c, h, p) {
      if h == g {
        assert EntryHas(c', ToUint32(g.idx), p);
      } else {
        assert HandlerHas(c', h, p);
      }
    } else {
      var id: nat :| EntryHas(c, id, p);
      assert EntryHas(c', id, p);
    }
  }

  lemma {:induction false} ReceiveHolds(c: ClientState, id: nat, error: Obj, result: Obj)
    requires PendingHeld(c)
    ensures PendingHeld(Receive(c, id, error, result))
  {
    var c' := Receive(c, id, error, result);
    forall p | p in c'.promises && c'.promises[p] == Pending ensures Held(c', p) {
      if p in c.promises && c.promises[p] == Pending {
        if h :| HandlerHas(c, h, p) {
          assert HandlerHas(c', h, p);
        } else {
          var i: nat :| EntryHas(c, i, p);
          assert EntryHas(c', i, p);
        }
      }
    }
  }

  lemma {:induction false} StepHolds(sv: Server, s: State, step: Step)
    requires Enabled(s, step) && PendingHeld(s.client)
    ensures PendingHeld(Next(sv, s, step).client)
  {
    hide PendingHeld, Issue, Notify, RunHandler, Receive, Written, OfNote, Owner, ToUint32;
    match step
    case IssueStep(call) => IssueHolds(s.client, call, |s.calls|);
    case NotifyStep(call) => NotifyHolds(s.client, call);
    case HandlerStep(h) => HandlerHolds(s.client, h);
    case ReceiveStep(m) => ReceiveHolds(s.client, m[1].i, m[2], m[3]);
    case _ =>
  }

  lemma {:induction false} RunHolds(sv: Server, steps: seq<Step>, s: State)
    requires Run(sv, steps, s)
    ensures PendingHeld(s.client)
  {
    hide Enabled, Next, Held;
    if |steps| > 0 {
      var last := steps[|steps| - 1];
      var s0 :| Run(sv, steps[..|steps| - 1], s0) && Enabled(s0, last) && Next(sv, s0, last) == s;
      RunHolds(sv, steps[..|steps| - 1], s0);
      StepHolds(sv, s0, last);
    }
  }

  /** In every run, of any length, an unset future is still in the hands of a posted handler or of an entry:
      whatever is destroyed unset is broken, so nobody waits for a promise that no longer exists. */
  lemma {:induction false} PendingIsHeld(funcs: Registry, suppress: bool, steps: seq<Step>, s: State, k: nat)
    requires LibraryRun(funcs, suppress, steps, s)
    requires OfCall(k) in s.client.promises && s.client.promises[OfCall(k)] == Pending
    ensures || (exists h :: h in s.client.strand && h.InsertAndWrite? && h.promise == OfCall(k))
            || (exists id :: id in s.client.ongoing && s.client.ongoing[id].promise == OfCall(k))
  {
    hide Run;
    RunHolds(DispatcherServer(funcs, suppress), steps, s);
    assert Held(s.client, OfCall(k));
    if h :| HandlerHas(s.client, h, OfCall(k)) {
      assert h in s.client.strand && h.InsertAndWrite? && h.promise == OfCall(k);
    } else {
      var id: nat :| EntryHas(s.client, id, OfCall(k));
      assert id in s.client.ongoing && s.client.ongoing[id].promise == OfCall(k);
    }
  }

  // ----- Notifications -----

  /** Where handlers and messages come from, in runs of any length. */
  ghost predicate Origins(sv: Server, s: State) {
    && s.client.callIdx == ToInt32(|s.calls|)
    && (forall h :: h in s.client.strand && h.InsertAndWrite? ==> exists k :: IsHandlerOf(s, h, k))
    && (forall h :: h in s.client.strand && h.WriteOnly? ==> |h.buffer| == 3)
    && (forall m :: m in s.toServer && |m| != 3 ==> exists k :: IsRequestOf(s, m, k))
    && (forall m :: m in s.toClient ==> exists k :: IsResponseTo(sv, s, m, k))
  }

  ghost predicate IsHandlerOf(s: State, h: Handler, k: nat) {
    k < |s.calls| && h == HandlerOf(s, k)
  }

  ghost predicate IsRequestOf(s: State, m: Message, k: nat) {
    k < |s.calls| && m == Req(s, k)
  }

  /** The k-th call was issued, the server answers it, and this is its answer. */
  ghost predicate IsResponseTo(sv: Server, s: State, m: Message, k: nat) {
    k < |s.calls| && Answerable(sv, s, k) && m == Resp(sv, s, k)
  }

  /** More calls take no origin away. */
  lemma {:induction false} OriginStays(sv: Server, s: State, s': State, k: nat)
    requires |s.calls| <= |s'.calls| && s'.calls[..|s.calls|] == s.calls && k < |s.calls|
    ensures HandlerOf(s', k) == HandlerOf(s, k) && Req(s', k) == Req(s, k) && Resp(sv, s', k) == Resp(sv, s, k)
    ensures Answerable(sv, s', k) == Answerable(sv, s, k)
  {
    assert s'.calls[k] == s'.calls[..|s.calls|][k];
  }

  lemma {:induction false} ReceiveStrand(c: ClientState, id: nat, error: Obj, result: Obj, h: Handler)
    requires h in Receive(c, id, error, result).strand
    ensures h in c.strand || h.EraseCall?
  {
  }

  lemma {:induction false} RunStrand(c: ClientState, g: Handler, h: Handler)
    requires h in RunHandler(c, g).strand
    ensures h in c.strand
  {
  }

  lemma {:induction false} SameHandler(s: State, s': State, k: nat)
    requires s.calls == s'.calls && k < |s.calls|
    ensures HandlerOf(s, k) == HandlerOf(s', k)
  {
  }

  lemma {:induction false} IssueStrand(s: State, call: Call, h: Handler)
    requires s.client.callIdx == ToInt32(|s.calls|) && h in Issue(s.client, call, |s.calls|).strand
    ensures h in s.client.strand || h == HandlerOf(s.(calls := s.calls + [call]), |s.calls|)
  {
    IndexStep(|s.calls|);
  }

  /** A step takes handlers from the strand or adds one. */
  lemma {:induction false} StrandAfter(sv: Server, s: State, step: Step, h: Handler)
    requires Enabled(s, step) && s.client.callIdx == ToInt32(|s.calls|) && h in Next(sv, s, step).client.strand
    ensures var s' := Next(sv, s, step);
            || h in s.client.strand || h.EraseCall? || (h.WriteOnly? && |h.buffer| == 3)
            || (step.IssueStep? && h == HandlerOf(s', |s.calls|))
  {
    hide Owner, Receive, Issue, ToInt32, RunHandler, HandlerOf, Written;
    match step
    case IssueStep(call) =>
      IssueStrand(s, call, h);
      SameHandler(s.(calls := s.calls + [call]), Next(sv, s, step), |s.calls|);
    case ReceiveStep(m) => ReceiveStrand(s.client, m[1].i, m[2], m[3], h);
    case HandlerStep(g) => RunStrand(s.client, g, h);
    case _ =>
  }

  lemma {:induction false} CallsAfter(sv: Server, s: State, step: Step)
    requires Enabled(s, step) && s.client.callIdx == ToInt32(|s.calls|)
    ensures var s' := Next(sv, s, step);
            && |s.calls| <= |s'.calls| <= |s.calls| + 1 && s'.calls[..|s.calls|] == s.calls
            && s'.client.callIdx == ToInt32(|s'.calls|) && (step.IssueStep? ==> |s'.calls| == |s.calls| + 1)
  {
    hide Owner, Receive, RunHandler, Written, OfNote, ToInt32;
    IndexIssued(s, step);
    match step
    case ReceiveStep(m) => ReceiveKeepsIndex(s.client, m[1].i, m[2], m[3]);
    case HandlerStep(h) => HandlerKeepsIndex(s.client, h);
    case _ =>
  }

  lemma {:induction false} IndexIssued(s: State, step: Step)
    requires s.client.callIdx == ToInt32(|s.calls|)
    ensures ToInt32(s.client.callIdx + 1) == ToInt32(|s.calls| + 1)
  {
    IndexStep(|s.calls|);
  }

  lemma {:induction false} ReceiveKeepsIndex(c: ClientState, id: nat, error: Obj, result: Obj)
    ensures Receive(c, id, error, result).callIdx == c.callIdx
  {
  }

  lemma {:induction false} HandlerKeepsIndex(c: ClientState, h: Handler)
    ensures RunHandler(c, h).callIdx == c.callIdx
  {
  }

  lemma {:induction false} HandlerOrigin(sv: Server, s: State, step: Step, h: Handler)
    requires Origins(sv, s) && Enabled(s, step) && h in Next(sv, s, step).client.strand && h.InsertAndWrite?
    ensures exists k :: IsHandlerOf(Next(sv, s, step), h, k)
  {
    hide Next, Enabled, HandlerOf, Req, Resp;
    var s' := Next(sv, s, step);
    CallsAfter(sv, s, step);
    StrandAfter(sv, s, step, h);
    if h in s.client.strand {
      var k :| IsHandlerOf(s, h, k);
      OriginStays(sv, s, s', k);
      assert IsHandlerOf(s', h, k);
    } else {
      assert IsHandlerOf(s', h, |s.calls|);
    }
  }

  lemma {:induction false} HandlerBuffer(s: State, k: nat)
    requires k < |s.calls|
    ensures HandlerOf(s, k).InsertAndWrite? && HandlerOf(s, k).buffer == Req(s, k)
  {
  }

  lemma {:induction false} ServedOrigin(sv: Server, s: State, k: nat, m: Message)
    requires sv.Faithful() && k < |s.calls|
    requires var d := sv.dispatch(Req(s, k)); d.Respond? && m == ResponseMessage(d.id, d.error, d.result)
    ensures Answerable(sv, s, k) && m == Resp(sv, s, k)
  {
    RespShape(sv, s, k);
  }

  lemma {:induction false} RequestOrigin(sv: Server, s: State, step: Step, m: Message)
    requires Origins(sv, s) && Enabled(s, step) && m in Next(sv, s, step).toServer && |m| != 3
    ensures exists k :: IsRequestOf(Next(sv, s, step), m, k)
  {
    hide HandlerOf, Req, Resp, Receive, Issue, RunHandler, Owner;
    var s' := Next(sv, s, step);
    var k: nat;
    if m in s.toServer {
      k :| IsRequestOf(s, m, k);
    } else {
      assert m in Written(step.h);
      k :| IsHandlerOf(s, step.h, k);
      HandlerBuffer(s, k);
    }
    CallsAfter(sv, s, step);
    OriginStays(sv, s, s', k);
    assert IsRequestOf(s', m, k);
  }

  lemma {:induction false} ResponseOrigin(sv: Server, s: State, step: Step, m: Message)
    requires sv.Faithful() && Origins(sv, s) && Enabled(s, step) && m in Next(sv, s, step).toClient
    ensures exists k :: IsResponseTo(sv, Next(sv, s, step), m, k)
  {
    hide HandlerOf, Req, Resp, Receive, Issue, RunHandler, Owner, Answerable;
    var s' := Next(sv, s, step);
    var k: nat;
    if m in s.toClient {
      k :| IsResponseTo(sv, s, m, k);
    } else {
      assert sv.Ignores(step.msg);
      k :| IsRequestOf(s, step.msg, k);
      ServedOrigin(sv, s, k, m);
    }
    CallsAfter(sv, s, step);
    OriginStays(sv, s, s', k);
    assert IsResponseTo(sv, s', m, k);
  }

  lemma {:induction false} RunOrigins(sv: Server, steps: seq<Step>, s: State)
    requires sv.Faithful() && Run(sv, steps, s)
    ensures Origins(sv, s)
  {
    hide Origins;
    if |steps| == 0 {
      InitialOrigins(sv);
    } else {
      var last := steps[|steps| - 1];
      var s0 :| Run(sv, steps[..|steps| - 1], s0) && Enabled(s0, last) && Next(sv, s0, last) == s;
      RunOrigins(sv, steps[..|steps| - 1], s0);
      KeepOrigins(sv, s0, last);
    }
  }

  lemma {:induction false} InitialOrigins(sv: Server)
    ensures Origins(sv, Initial)
  {
  }

  lemma {:induction false} KeepOrigins(sv: Server, s: State, step: Step)
    requires sv.Faithful() && Origins(sv, s) && Enabled(s, step)
    ensures Origins(sv, Next(sv, s, step))
  {
    hide Next, Enabled, IsHandlerOf, IsRequestOf, IsResponseTo;
    var s' := Next(sv, s, step);
    CallsAfter(sv, s, step);
    forall h | h in s'.client.strand && h.InsertAndWrite? ensures exists k :: IsHandlerOf(s', h, k) {
      HandlerOrigin(sv, s, step, h);
    }
    forall h | h in s'.client.strand && h.WriteOnly? ensures |h.buffer| == 3 {
      StrandAfter(sv, s, step, h);
    }
    forall m | m in s'.toServer && |m| != 3 ensures exists k :: IsRequestOf(s', m, k) {
      RequestOrigin(sv, s, step, m);
    }
    forall m | m in s'.toClient ensures exists k :: IsResponseTo(sv, s', m, k) {
      ResponseOrigin(sv, s, step, m);
    }
  }

  /** The messages of the first k notifications. */
  ghost function Sent(notes: seq<Call>, k: nat): multiset<Message>
    requires k <= |notes|
  {
    if k == 0 then multiset{}
    else Sent(notes, k - 1) + multiset{NotificationMessage(notes[k - 1].name, notes[k - 1].args)}
  }

  lemma {:induction false} SentPrefix(notes: seq<Call>, call: Call, k: nat)
    requires k <= |notes|
    ensures Sent(notes + [call], k) == Sent(notes, k)
  {
    if k > 0 {
      SentPrefix(notes, call, k - 1);
    }
  }

  /** What was sent was sent as the message of some notification. */
  lemma {:induction false} SentIsNote(notes: seq<Call>, k: nat, m: Message) returns (i: nat)
    requires k <= |notes| && m in Sent(notes, k)
    ensures i < k && m == NotificationMessage(notes[i].name, notes[i].args)
  {
    i := k - 1;
    if m != NotificationMessage(notes[i].name, notes[i].args) {
      i := SentIsNote(notes, k - 1, m);
    }
  }

  /** Each notification sent is queued, in flight, served or lost, and only once. */
  ghost predicate Balanced(s: State, m: Message) {
    Sent(s.notes, |s.notes|)[m]
    == s.client.strand[WriteOnly(m)] + s.toServer[m] + s.served[m] + s.lostNotes[m]
  }

  ghost predicate Conserved(s: State) {
    forall m :: |m| == 3 ==> Balanced(s, m)
  }

  lemma {:induction false} NotifyBalances(sv: Server, s: State, call: Call, m: Message)
    requires Balanced(s, m)
    ensures Balanced(Next(sv, s, NotifyStep(call)), m)
  {
    var n := |s.notes|;
    SentPrefix(s.notes, call, n);
    assert Sent(s.notes + [call], n + 1)
        == Sent(s.notes, n) + multiset{NotificationMessage(call.name, call.args)};
  }

  lemma {:induction false} StrandLess(c: ClientState, h: Handler)
    ensures RunHandler(c, h).strand == c.strand - multiset{h}
  {
  }

  lemma {:induction false} WrittenNote(h: Handler, m: Message)
    requires |m| == 3 && (h.InsertAndWrite? ==> |h.buffer| == 4)
    ensures Written(h)[m] == if h == WriteOnly(m) then 1 else 0
  {
  }

  /** A posted handler moves a notification from the strand to the wire. */
  lemma {:induction false} HandlerBalances(sv: Server, s: State, h: Handler, m: Message)
    requires Balanced(s, m) && Enabled(s, HandlerStep(h)) && |m| == 3 && (h.InsertAndWrite? ==> |h.buffer| == 4)
    ensures Balanced(Next(sv, s, HandlerStep(h)), m)
  {
    hide Sent, RunHandler, Written;
    StrandLess(s.client, h);
    WrittenNote(h, m);
  }

  lemma {:induction false} ReceiveBalances(c: ClientState, id: nat, error: Obj, result: Obj, m: Message)
    ensures Receive(c, id, error, result).strand[WriteOnly(m)] == c.strand[WriteOnly(m)]
  {
  }

  lemma {:induction false} IssueBalances(sv: Server, s: State, call: Call, m: Message)
    requires Balanced(s, m)
    ensures Balanced(Next(sv, s, IssueStep(call)), m)
  {
    hide Sent, ToInt32;
  }

  lemma {:induction false} ServeBalances(sv: Server, s: State, x: Message, m: Message)
    requires Balanced(s, m) && x in s.toServer && |m| == 3
    ensures Balanced(Next(sv, s, ServeStep(x)), m)
  {
    hide Sent;
  }

  lemma {:induction false} LoseBalances(sv: Server, s: State, x: Message, m: Message)
    requires Balanced(s, m) && Enabled(s, LoseStep(x)) && |m| == 3 && (x !in s.toServer ==> |x| == 4)
    ensures Balanced(Next(sv, s, LoseStep(x)), m)
  {
    hide Sent, Owner;
  }

  lemma {:induction false} ReceiveStepBalances(sv: Server, s: State, x: Message, m: Message)
    requires Balanced(s, m) && Enabled(s, ReceiveStep(x))
    ensures Balanced(Next(sv, s, ReceiveStep(x)), m)
  {
    hide Sent, Receive;
    ReceiveBalances(s.client, x[1].i, x[2], x[3], m);
  }

  /** Messages of calls have four elements. */
  lemma {:induction false} CallMessages(sv: Server, s: State)
    requires sv.Faithful() && Origins(sv, s)
    ensures forall h :: h in s.client.strand && h.InsertAndWrite? ==> |h.buffer| == 4
    ensures forall x :: x in s.toClient ==> |x| == 4
  {
    hide Answerable, Resp;
    forall h | h in s.client.strand && h.InsertAndWrite? ensures |h.buffer| == 4 {
      var k :| IsHandlerOf(s, h, k);
      HandlerBuffer(s, k);
    }
    forall x | x in s.toClient ensures |x| == 4 {
      var k :| IsResponseTo(sv, s, x, k);
      RespShape(sv, s, k);
    }
  }

  lemma {:induction false} StepBalances(sv: Server, s: State, step: Step, m: Message)
    requires sv.Faithful() && Origins(sv, s) && Enabled(s, step) && Balanced(s, m) && |m| == 3
    ensures Balanced(Next(sv, s, step), m)
  {
    hide Origins, Balanced, Next;
    CallMessages(sv, s);
    match step
    case IssueStep(call) => IssueBalances(sv, s, call, m);
    case NotifyStep(call) => NotifyBalances(sv, s, call, m);
    case HandlerStep(h) => HandlerBalances(sv, s, h, m);
    case ServeStep(x) => ServeBalances(sv, s, x, m);
    case ReceiveStep(x) => ReceiveStepBalances(sv, s, x, m);
    case LoseStep(x) => LoseBalances(sv, s, x, m);
  }

  lemma {:induction false} RunConserves(sv: Server, steps: seq<Step>, s: State)
    requires sv.Faithful() && Run(sv, steps, s)
    ensures Conserved(s)
  {
    hide Origins, Balanced, Next, Enabled;
    if |steps| == 0 {
      NothingSent();
    } else {
      var last := steps[|steps| - 1];
      var s0 :| Run(sv, steps[..|steps| - 1], s0) && Enabled(s0, last) && Next(sv, s0, last) == s;
      RunConserves(sv, steps[..|steps| - 1], s0);
      RunOrigins(sv, steps[..|steps| - 1], s0);
      forall m | |m| == 3 ensures Balanced(s, m) {
        StepBalances(sv, s0, last, m);
      }
    }
  }

  lemma {:induction false} NothingSent()
    ensures Conserved(Initial)
  {
  }

  /** In every run each notification that was sent is queued, in flight, served or lost exactly once;
      and a notification on its way to the server, or served, carries the name and arguments of one that
      was sent. */
  lemma {:induction false} NotificationsArrive(funcs: Registry, suppress: bool, steps: seq<Step>, s: State, m: Message)
    requires LibraryRun(funcs, suppress, steps, s) && |m| == 3
    ensures Sent(s.notes, |s.notes|)[m]
            == s.client.strand[WriteOnly(m)] + s.toServer[m] + s.served[m] + s.lostNotes[m]
    ensures m in s.toServer || m in s.served ==>
              exists i :: 0 <= i < |s.notes| && m == NotificationMessage(s.notes[i].name, s.notes[i].args)
  {
    hide Run;
    RunConserves(DispatcherServer(funcs, suppress), steps, s);
    assert Balanced(s, m);
    if m in s.toServer || m in s.served {
      var i := SentIsNote(s.notes, |s.notes|, m);
    }
  }

  /** When nothing is queued or in flight and nothing was lost, exactly the notifications sent have been
      served, each as often as it was sent. */
  lemma {:induction false} QuietMeansServed(funcs: Registry, suppress: bool, steps: seq<Step>, s: State, m: Message)
    requires LibraryRun(funcs, suppress, steps, s) && |m| == 3
    requires s.client.strand == multiset{} && s.toServer == multiset{} && s.lostNotes == multiset{}
    ensures s.served[m] == Sent(s.notes, |s.notes|)[m]
  {
    NotificationsArrive(funcs, suppress, steps, s, m);
  }

  /** In every run, of any length and with any mix of calls and notifications, whatever is on its way
      to the client answers a call that was issued; serving a notification sends nothing. */
  lemma {:induction false} NotificationsAreSilent(funcs: Registry, suppress: bool, steps: seq<Step>, s: State,
                                                  m: Message)
    requires LibraryRun(funcs, suppress, steps, s)
    ensures m in s.toClient ==> exists k :: IsResponseTo(DispatcherServer(funcs, suppress), s, m, k)
    ensures m in s.toServer && |m| == 3 ==>
              Next(DispatcherServer(funcs, suppress), s, ServeStep(m))
              == s.(toServer := s.toServer - multiset{m}, served := s.served + multiset{m})
  {
    hide Run, IsResponseTo;
    var sv := DispatcherServer(funcs, suppress);
    RunOrigins(sv, steps, s);
    assert sv.Ignores(m);
  }

  // ----- An id in use is exactly what must not be issued -----

  /** Steps from one state to another, none of which issues a call. */
  ghost predicate Continues(sv: Server, s: State, more: seq<Step>, s': State) {
    if |more| == 0 then s' == s
    else
      var last := more[|more| - 1];
      exists s0 :: && Continues(sv, s, more[..|more| - 1], s0) && !last.IssueStep? && Enabled(s0, last)
                   && Next(sv, s0, last) == s'
  }

  lemma {:induction false} ContinueCareful(sv: Server, steps: seq<Step>, s: State, more: seq<Step>, s': State)
    requires CarefulRun(sv, steps, s) && Continues(sv, s, more, s')
    ensures CarefulRun(sv, steps + more, s')
    decreases |more|
  {
    hide Next, Enabled;
    if |more| == 0 {
      assert steps + more == steps;
    } else {
      var last, front := more[|more| - 1], more[..|more| - 1];
      var s0 :| Continues(sv, s, front, s0) && !last.IssueStep? && Enabled(s0, last) && Next(sv, s0, last) == s';
      ContinueCareful(sv, steps, s, front, s0);
      ExtendCareful(sv, steps + front, s0, last);
      assert steps + front + [last] == steps + more;
    }
  }

  /** The handler of a call whose key is taken breaks its promise. */
  lemma {:induction false} TakenKeyBreaks(sv: Server, s: State, k: nat)
    requires k < |s.calls| && !s.client.dead && HandlerOf(s, k) in s.client.strand && Key(k) in s.client.ongoing
    ensures var step := HandlerStep(HandlerOf(s, k));
            && Enabled(s, step) && Next(sv, s, step).calls == s.calls
            && OfCall(k) in Next(sv, s, step).client.promises && Next(sv, s, step).client.promises[OfCall(k)] == Broken
  {
    IdxIsKey(k);
  }

  lemma {:induction false} ContinueMore(sv: Server, s: State, more: seq<Step>, s0: State, step: Step)
    requires Continues(sv, s, more, s0) && Enabled(s0, step) && !step.IssueStep?
    ensures Continues(sv, s, more + [step], Next(sv, s0, step))
  {
    var longer := more + [step];
    assert longer[..|longer| - 1] == more && longer[|longer| - 1] == step;
  }

  /** Issuing an id that is in use can break a promise: there is a way to go on that does. */
  lemma {:induction false} UsedIdBreaks(sv: Server, s: State, call: Call) returns (more: seq<Step>, s': State)
    requires sv.Faithful() && Inv(sv, s) && !Free(s)
    ensures Continues(sv, Next(sv, s, IssueStep(call)), more, s')
    ensures |s'.calls| == |s.calls| + 1 && OfCall(|s.calls|) in s'.client.promises
    ensures s'.client.promises[OfCall(|s.calls|)] == Broken
  {
    var n, s1 := |s.calls|, Next(sv, s, IssueStep(call));
    var j := n - UINT32;
    IssuedQueued(sv, s, call);
    InUse(sv, s, j);
    if Key(j) in s.client.ongoing {
      TakenKeyBreaks(sv, s1, n);
      ContinueMore(sv, s1, [], s1, HandlerStep(HandlerOf(s1, n)));
      more, s' := [] + [HandlerStep(HandlerOf(s1, n))], Next(sv, s1, HandlerStep(HandlerOf(s1, n)));
    } else {
      var first := HandlerStep(HandlerOf(s, j));
      var s2 := Next(sv, s1, first);
      InsertsFirst(sv, s1, j, n);
      assert HandlerOf(s1, j) == HandlerOf(s, j) && HandlerOf(s2, n) == HandlerOf(s1, n);
      TakenKeyBreaks(sv, s2, n);
      ContinueMore(sv, s1, [], s1, first);
      ContinueMore(sv, s1, [] + [first], s2, HandlerStep(HandlerOf(s1, n)));
      more, s' := [] + [first] + [HandlerStep(HandlerOf(s1, n))], Next(sv, s2, HandlerStep(HandlerOf(s1, n)));
    }
  }

  lemma {:induction false} IssuedQueued(sv: Server, s: State, call: Call)
    requires StructInv(sv, s)
    ensures var s1 := Next(sv, s, IssueStep(call));
            && |s1.calls| == |s.calls| + 1 && s1.calls[..|s.calls|] == s.calls && !s1.client.dead
            && HandlerOf(s1, |s.calls|) in s1.client.strand && s1.client.ongoing == s.client.ongoing
            && forall h :: h in s.client.strand ==> h in s1.client.strand
  {
    IndexStep(|s.calls|);
  }

  /** A call that is neither erased nor entered is still queued. */
  lemma {:induction false} InUse(sv: Server, s: State, j: nat)
    requires Inv(sv, s) && j + UINT32 == |s.calls| && !InStage(s, j, Erased)
    ensures Key(j) == Key(|s.calls|)
    ensures Key(j) in s.client.ongoing || HandlerOf(s, j) in s.client.strand
  {
    hide StructInv, Retired;
    assert CallInv(sv, s, j);
    var stage :| InStage(s, j, stage);
  }

  lemma {:induction false} InsertsFirst(sv: Server, s: State, j: nat, n: nat)
    requires j < n < |s.calls| && Key(j) == Key(n) && !s.client.dead && Key(j) !in s.client.ongoing
    requires HandlerOf(s, j) in s.client.strand && HandlerOf(s, n) in s.client.strand
    ensures Enabled(s, HandlerStep(HandlerOf(s, j)))
    ensures var s2 := Next(sv, s, HandlerStep(HandlerOf(s, j)));
            s2.calls == s.calls && !s2.client.dead && Key(n) in s2.client.ongoing && HandlerOf(s, n) in s2.client.strand
  {
    IdxIsKey(j);
    assert HandlerOf(s, j).promise != HandlerOf(s, n).promise;
  }

  /** After a run that was careful so far, a call may be issued without risk exactly when the next id is
      not in use: then no continuation misdelivers, and otherwise some continuation does. */
  lemma {:induction false} FreeIsExact(funcs: Registry, suppress: bool, steps: seq<Step>, s: State, call: Call)
    requires CarefulLibraryRun(funcs, suppress, steps, s)
    ensures var sv := DispatcherServer(funcs, suppress);
            Free(s) <==>
            forall more, s' :: Continues(sv, Next(sv, s, IssueStep(call)), more, s') ==>
                                 NoMisdelivery(funcs, suppress, s')
  {
    hide Free, Inv, NoMisdelivery, CarefulRun, Continues, Next;
    var sv := DispatcherServer(funcs, suppress);
    var s1 := Next(sv, s, IssueStep(call));
    RunInv(sv, steps, s);
    if Free(s) {
      ExtendCareful(sv, steps, s, IssueStep(call));
      forall more, s' | Continues(sv, s1, more, s') ensures NoMisdelivery(funcs, suppress, s') {
        ContinueCareful(sv, steps + [IssueStep(call)], s1, more, s');
        CarefulRunDelivers(funcs, suppress, steps + [IssueStep(call)] + more, s');
      }
    } else {
      var more, s' := UsedIdBreaks(sv, s, call);
      BrokenMisdelivers(funcs, suppress, s', |s.calls|);
      assert Continues(sv, s1, more, s') && !NoMisdelivery(funcs, suppress, s');
    }
  }

  lemma {:induction false} BrokenMisdelivers(funcs: Registry, suppress: bool, s: State, k: nat)
    requires k < |s.calls| && OfCall(k) in s.client.promises && s.client.promises[OfCall(k)] == Broken
    ensures !NoMisdelivery(funcs, suppress, s)
  {
    assert Verdict(funcs, s.calls[k].name, s.calls[k].args, suppress) != Broken;
  }

  // ----- The bound of 2^32 calls is exact -----

  const CallA := Call("a", [])
  const CallB := Call("b", [])

  function TwoFunctions(): Registry {
    map["a" := _ => Returned(Int(1)), "b" := _ => Returned(Int(2))]
  }

  lemma {:induction false} Extend(sv: Server, steps: seq<Step>, s: State, step: Step)
    requires Run(sv, steps, s) && Enabled(s, step)
    ensures Run(sv, steps + [step], Next(sv, s, step))
  {
    var longer := steps + [step];
    assert longer[..|longer| - 1] == steps && longer[|longer| - 1] == step;
  }

  /** Calls are waiting, the first of them a call of "a", and nothing else has happened. */
  ghost predicate OnlyIssued(s: State) {
    && |s.calls| > 0 && s.calls[0] == CallA
    && s.client.callIdx == ToInt32(|s.calls|) && s.client.ongoing == map[] && !s.client.dead
    && s.toServer == multiset{} && s.toClient == multiset{}
    && HandlerOf(s, 0) in s.client.strand
    && OfCall(0) in s.client.promises && s.client.promises[OfCall(0)] == Pending
  }

  lemma {:induction false} IssueFirst(sv: Server)
    ensures OnlyIssued(Next(sv, Initial, IssueStep(CallA)))
  {
    IndexStep(0);
  }

  lemma {:induction false} IssueAgain(sv: Server, s: State, call: Call)
    requires OnlyIssued(s)
    ensures var s' := Next(sv, s, IssueStep(call));
            OnlyIssued(s') && |s'.calls| == |s.calls| + 1 && HandlerOf(s', |s.calls|) in s'.client.strand
            && s'.calls[|s.calls|] == call
  {
    IndexStep(|s.calls|);
    var s' := Next(sv, s, IssueStep(call));
    assert HandlerOf(s', 0) == HandlerOf(s, 0);
  }

  lemma {:induction false} IssueMany(sv: Server, n: nat) returns (steps: seq<Step>, s: State)
    requires n > 0
    ensures Run(sv, steps, s) && |s.calls| == n && OnlyIssued(s)
  {
    if n == 1 {
      IssueFirst(sv);
      Extend(sv, [], Initial, IssueStep(CallA));
      steps, s := [] + [IssueStep(CallA)], Next(sv, Initial, IssueStep(CallA));
    } else {
      var before;
      steps, before := IssueMany(sv, n - 1);
      IssueAgain(sv, before, CallA);
      Extend(sv, steps, before, IssueStep(CallA));
      steps, s := steps + [IssueStep(CallA)], Next(sv, before, IssueStep(CallA));
    }
  }

  /** The steps after the wrap: both handlers run, the second request is served and its response read. */
  function WrapSteps(): seq<Step> {
    [HandlerStep(InsertAndWrite(RequestMessage(1, "a", []), 1, "a", OfCall(0))),
     HandlerStep(InsertAndWrite(RequestMessage(1, "b", []), 1, "b", OfCall(UINT32))),
     ServeStep(RequestMessage(1, "b", [])),
     ReceiveStep(ResponseMessage(1, Nil, Int(2)))]
  }

  /** The entry of the first call is in place, and the second handler carries the same id. */
  ghost predicate FirstInserted(s: State) {
    && WrapSteps()[1].h in s.client.strand && s.toClient == multiset{}
    && s.client.ongoing == map[1 := Entry("a", OfCall(0))] && !s.client.dead
    && OfCall(0) in s.client.promises && s.client.promises[OfCall(0)] == Pending
  }

  lemma {:induction false} WrapInserts(sv: Server, s: State)
    requires OnlyIssued(s) && |s.calls| == UINT32 + 1 && s.calls[UINT32] == CallB
    requires HandlerOf(s, UINT32) in s.client.strand
    ensures Enabled(s, WrapSteps()[0])
    ensures var s' := Next(sv, s, WrapSteps()[0]); FirstInserted(s') && s'.calls == s.calls
  {
    var h0 := HandlerOf(s, 0);
    var h1 := HandlerOf(s, UINT32);
    assert h0 == WrapSteps()[0].h && h1 == WrapSteps()[1].h;
    assert h0.promise != h1.promise;
  }

  /** `insert` leaves the entry of the first call alone; the second request is written all the same. */
  lemma {:induction false} WrapWrites(sv: Server, s: State)
    requires FirstInserted(s)
    ensures Enabled(s, WrapSteps()[1])
    ensures var s' := Next(sv, s, WrapSteps()[1]);
            && RequestMessage(1, "b", []) in s'.toServer && s'.toClient == multiset{} && s'.calls == s.calls
            && s'.client.ongoing == map[1 := Entry("a", OfCall(0))] && !s'.client.dead
            && OfCall(0) in s'.client.promises && s'.client.promises[OfCall(0)] == Pending
  {
  }

  lemma {:induction false} WrapReads(sv: Server, s: State)
    requires RequestMessage(1, "b", []) in s.toServer && s.toClient == multiset{}
    requires s.client.ongoing == map[1 := Entry("a", OfCall(0))] && !s.client.dead
    requires OfCall(0) in s.client.promises && s.client.promises[OfCall(0)] == Pending
    requires sv.dispatch(RequestMessage(1, "b", [])) == Respond(1, Nil, Int(2))
    ensures Enabled(s, WrapSteps()[2]) && Enabled(Next(sv, s, WrapSteps()[2]), WrapSteps()[3])
    ensures var s' := Next(sv, Next(sv, s, WrapSteps()[2]), WrapSteps()[3]);
            s'.calls == s.calls && OfCall(0) in s'.client.promises && s'.client.promises[OfCall(0)] == Fulfilled(Int(2))
  {
    var m := ResponseMessage(1, Nil, Int(2));
    assert IsResponse(m) && m[1].i == 1 && m[2] == Nil && m[3] == Int(2);
  }

  lemma {:induction false} WrapRun(sv: Server) returns (steps: seq<Step>, s: State)
    requires sv.dispatch(RequestMessage(1, "b", [])) == Respond(1, Nil, Int(2))
    ensures Run(sv, steps, s) && |s.calls| == UINT32 + 1 && s.calls[0] == CallA
    ensures OfCall(0) in s.client.promises && s.client.promises[OfCall(0)] == Fulfilled(Int(2))
  {
    steps, s := IssueMany(sv, UINT32);
    IssueAgain(sv, s, CallB);
    Extend(sv, steps, s, IssueStep(CallB));
    steps, s := steps + [IssueStep(CallB)], Next(sv, s, IssueStep(CallB));
    WrapInserts(sv, s);
    WrapWrites(sv, Next(sv, s, WrapSteps()[0]));
    steps, s := Extend2(sv, steps, s, WrapSteps()[0], WrapSteps()[1]);
    WrapReads(sv, s);
    steps, s := Extend2(sv, steps, s, WrapSteps()[2], WrapSteps()[3]);
  }

  /** After 2^32 unanswered calls the next id repeats: the second call's answer resolves the first. */
  lemma {:induction false} WrapAroundMisdelivers() returns (steps: seq<Step>, s: State)
    ensures LibraryRun(TwoFunctions(), true, steps, s) && |s.calls| == UINT32 + 1
    ensures !NoMisdelivery(TwoFunctions(), true, s)
  {
    AnswerToB();
    steps, s := WrapRun(DispatcherServer(TwoFunctions(), true));
    assert Verdict(TwoFunctions(), s.calls[0].name, s.calls[0].args, true) == Fulfilled(Int(1));
  }

  lemma {:induction false} Extend2(sv: Server, steps: seq<Step>, s: State, one: Step,
                                   two: Step) returns (steps': seq<Step>, s': State)
    requires Run(sv, steps, s) && Enabled(s, one) && Enabled(Next(sv, s, one), two)
    ensures Run(sv, steps', s') && s' == Next(sv, Next(sv, s, one), two)
  {
    Extend(sv, steps, s, one);
    Extend(sv, steps + [one], Next(sv, s, one), two);
    steps', s' := steps + [one] + [two], Next(sv, Next(sv, s, one), two);
  }

  lemma {:induction false} AnswerToB()
    ensures DispatcherServer(TwoFunctions(), true).dispatch(RequestMessage(1, "b", [])) == Respond(1, Nil, Int(2))
    ensures Verdict(TwoFunctions(), "a", [], true) == Fulfilled(Int(1))
  {
    assert "a" != "b" && "b" in TwoFunctions() && "a" in TwoFunctions();
    DispatchAnswers(TwoFunctions(), 1, "b", [], true);
  }

  /** Runs of up to n calls never misdeliver, for every set of bound functions, exactly when n is
      at most 2^32. */
  lemma {:induction false} DeliveryBoundIsExact(n: nat)
    ensures (forall funcs, suppress, steps, s :: LibraryRun(funcs, suppress, steps, s) && |s.calls| <= n ==>
               NoMisdelivery(funcs, suppress, s))
            <==> n <= UINT32
  {
    if n <= UINT32 {
      forall funcs, suppress, steps, s | LibraryRun(funcs, suppress, steps, s) && |s.calls| <= n
        ensures NoMisdelivery(funcs, suppress, s)
      {
        RunDelivers(funcs, suppress, steps, s);
      }
    } else {
      var steps, s := WrapAroundMisdelivers();
    }
  }
}
