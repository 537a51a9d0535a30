/** MessagePack-RPC messages and the server's dispatcher. */
module Dispatcher {
  import opened Widths
  import Decimal

  /** A MessagePack object, as far as the protocol looks into it. */
  datatype Obj = Nil | Int(i: int) | Str(s: string) | Arr(elems: seq<Obj>)

  /** A message is an array of objects. */
  type Message = seq<Obj>

  // ----- Message shapes ("Request", "Notification" and "Response Message" of MessagePack-RPC) -----

  function RequestMessage(id: int, name: string, args: seq<Obj>): Message {
    [Int(0), Int(id), Str(name), Arr(args)]
  }

  function NotificationMessage(name: string, args: seq<Obj>): Message {
    [Int(2), Str(name), Arr(args)]
  }

  function ResponseMessage(id: nat, error: Obj, result: Obj): Message {
    [Int(1), Int(id), error, result]
  }

  /** What a message says to a peer that goes by the MessagePack-RPC specification. */
  datatype Packet =
    | Request(id: int, name: string, args: seq<Obj>)
    | Response(id: int, error: Obj, result: Obj)
    | Notification(name: string, args: seq<Obj>)
    | Garbled

  /** The first element tells the type: 0 for a request, 1 for a response, 2 for a notification. */
  function ReadPacket(m: Message): Packet {
    if |m| == 4 && m[0] == Int(0) && m[1].Int? && m[2].Str? && m[3].Arr? then Request(m[1].i, m[2].s, m[3].elems)
    else if |m| == 4 && m[0] == Int(1) && m[1].Int? then Response(m[1].i, m[2], m[3])
    else if |m| == 3 && m[0] == Int(2) && m[1].Str? && m[2].Arr? then Notification(m[1].s, m[2].elems)
    else Garbled
  }

  /** Messages say what they are made from. */
  lemma {:induction false} PacketsRoundTrip(id: int, rid: nat, name: string, args: seq<Obj>, error: Obj, result: Obj)
    ensures ReadPacket(RequestMessage(id, name, args)) == Request(id, name, args)
    ensures ReadPacket(NotificationMessage(name, args)) == Notification(name, args)
    ensures ReadPacket(ResponseMessage(rid, error, result)) == Response(rid, error, result)
  {
    var q, n, r := RequestMessage(id, name, args), NotificationMessage(name, args), ResponseMessage(rid, error, result);
    assert q[2] == Str(name) && n[1] == Str(name) && r[2] == error;
  }

  predicate IsInt8(o: Obj) { o.Int? && -128 <= o.i < 128 }

  predicate IsUint32(o: Obj) { o.Int? && 0 <= o.i < UINT32 }

  // ----- Bound functions -----

  /** How a bound function ends: by returning, or by one of the exceptions the dispatcher tells apart. */
  datatype Outcome =
    | Returned(value: Obj)
    | ClientError(what: string)
    | StdException(what: string)
    | HandlerError
    | HandlerSpecResponse
    | OtherException

  type Adaptor = Obj -> Outcome

  type Registry = map<string, Adaptor>

  /** Number of arguments in an argument object.  For a non-array the source reads an unset union
      member; the model says 0. */
  function ArgCount(args: Obj): nat {
    if args.Arr? then |args.elems| else 0
  }

  function EnforceArgCount(func: string, found: nat, expected: nat): (e: string)
    requires found != expected
  {
    "Function '" + func + "' was called with an invalid number of " + "arguments. Expected: "
    + Decimal.Text(expected) + ", got: " + Decimal.Text(found)
  }

  /** What `bind` stores: the arity check in front of the function itself. */
  function Adapt(name: string, arity: nat, body: seq<Obj> -> Outcome): Adaptor {
    (args: Obj) =>
      if arity != ArgCount(args) then ClientError(EnforceArgCount(name, arity, ArgCount(args)))
      else body(if args.Arr? then args.elems else [])
  }

  // ----- Dispatch -----

  datatype Exception = TypeError | Escaped(outcome: Outcome)

  datatype Dispatched = Respond(id: nat, error: Obj, result: Obj) | Empty | Throw(e: Exception)

  function Dispatch(funcs: Registry, msg: Message, suppress: bool): Dispatched {
    if |msg| == 3 then DispatchNotification(funcs, msg, suppress)
    else if |msg| == 4 then DispatchCall(funcs, msg, suppress)
    else Empty
  }

  function DispatchCall(funcs: Registry, msg: Message, suppress: bool): Dispatched
    requires |msg| == 4
  {
    if !(IsInt8(msg[0]) && IsUint32(msg[1]) && msg[2].Str?) then Throw(TypeError)
    else
      Answer(funcs, msg[1].i, msg[2].s, msg[3], suppress)
  }

  /** The body of `dispatch_call` once the message is unpacked. */
  function Answer(funcs: Registry, id: nat, name: string, args: Obj, suppress: bool): Dispatched {
    var notFound := Respond(id, Str(NotFoundText(name, ArgCount(args))), Nil);
    if name in funcs then
      match funcs[name](args)
      case Returned(v) => Respond(id, Nil, v)
      case ClientError(what) => Respond(id, Str("rpclib: " + what), Nil)
      case StdException(what) =>
        if !suppress then Throw(Escaped(StdException(what)))
        else Respond(id, Str(StdExceptionText(name, ArgCount(args), what)), Nil)
      case HandlerError => notFound  // falls out of the try block
      case HandlerSpecResponse => notFound
      case OtherException =>
        if !suppress then Throw(Escaped(OtherException))
        else Respond(id, Str(OtherExceptionText(name, ArgCount(args))), Nil)
    else notFound
  }

  function DispatchNotification(funcs: Registry, msg: Message, suppress: bool): Dispatched
    requires |msg| == 3
  {
    if !(IsInt8(msg[0]) && msg[1].Str?) then Throw(TypeError)
    else
      var name, args := msg[1].s, msg[2];
      if name in funcs then
        match funcs[name](args)
        case Returned(_) => Empty
        case HandlerError => Empty
        case HandlerSpecResponse => Empty
        case outcome => if !suppress then Throw(Escaped(outcome)) else Empty
      else Empty
  }

  function NotFoundText(name: string, n: nat): string {
    "rpclib: server could not find function '" + name + "' with argument count " + Decimal.Text(n) + "."
  }

  function StdExceptionText(name: string, n: nat, what: string): string {
    "rpclib: function '" + name + "' (called with " + Decimal.Text(n)
    + " arg(s)) threw an exception. The " + "exception contained this information: " + what + "."
  }

  function OtherExceptionText(name: string, n: nat): string {
    "rpclib: function '" + name + "' (called with " + Decimal.Text(n)
    + " arg(s)) threw an exception. The " + "exception is not derived from "
    + "std::exception. No further " + "information available."
  }

  // ----- What a caller may expect -----

  /** How a future ends. */
  datatype Resolution =
    | Pending
    | Fulfilled(value: Obj)
    | Failed(fname: string, error: Obj)  // an rpc_error naming the function
    | Broken                             // the promise was destroyed unset

  /** The one resolution a call may get, by the outcome of the function it names; `Pending` when
      the server never answers. */
  function Verdict(funcs: Registry, name: string, args: seq<Obj>, suppress: bool): Resolution {
    if name !in funcs then Failed(name, Str(NotFoundText(name, |args|)))
    else
      match funcs[name](Arr(args))
      case Returned(v) => Fulfilled(v)
      case ClientError(what) => Failed(name, Str("rpclib: " + what))
      case StdException(what) => if suppress then Failed(name, Str(StdExceptionText(name, |args|, what))) else Pending
      case OtherException => if suppress then Failed(name, Str(OtherExceptionText(name, |args|))) else Pending
      case _ => Failed(name, Str(NotFoundText(name, |args|)))
  }

  /** What the client makes of a response to a call of `fname`. */
  function Resolve(fname: string, error: Obj, result: Obj): Resolution {
    if error != Nil then Failed(fname, error) else Fulfilled(result)
  }

  lemma {:induction false} AnswerIsVerdict(funcs: Registry, id: nat, name: string, args: seq<Obj>, suppress: bool)
    ensures var d := Answer(funcs, id, name, Arr(args), suppress);
            var v := Verdict(funcs, name, args, suppress);
            if v != Pending then d.Respond? && d.id == id && Resolve(name, d.error, d.result) == v
            else !d.Respond?
  {
    if name in funcs {
      match funcs[name](Arr(args))
      case Returned(v) =>
      case ClientError(what) =>
      case StdException(what) =>
      case HandlerError =>
      case HandlerSpecResponse =>
      case OtherException =>
    }
  }

  /** A request is answered under its own id with the verdict on its function and arguments, and
      exactly when the id is an unsigned 32-bit number and there is a verdict. */
  lemma {:induction false} DispatchAnswers(funcs: Registry, id: int, name: string, args: seq<Obj>, suppress: bool)
    ensures var d := Dispatch(funcs, RequestMessage(id, name, args), suppress);
            var v := Verdict(funcs, name, args, suppress);
            if 0 <= id < UINT32 && v != Pending then
              d.Respond? && d.id == id && Resolve(name, d.error, d.result) == v
            else !d.Respond?
  {
    var m := RequestMessage(id, name, args);
    assert |m| == 4 && m[0] == Int(0) && m[1] == Int(id) && m[2] == Str(name) && m[3] == Arr(args);
    if 0 <= id < UINT32 {
      AnswerIsVerdict(funcs, id, name, args, suppress);
    }
  }

  /** No three-element message is ever answered. */
  lemma {:induction false} NotificationsUnanswered(funcs: Registry, msg: Message, suppress: bool)
    requires |msg| != 4
    ensures !Dispatch(funcs, msg, suppress).Respond?
  {
  }

  /** With exceptions suppressed, whatever a bound function throws stays in the dispatcher. */
  lemma {:induction false} SuppressedNeverEscapes(funcs: Registry, msg: Message)
    ensures var d := Dispatch(funcs, msg, true); d.Throw? ==> d.e == TypeError
  {
    if |msg| == 4 && IsInt8(msg[0]) && IsUint32(msg[1]) && msg[2].Str? && msg[2].s in funcs {
      match funcs[msg[2].s](msg[3])
      case _ =>
    }
  }

  /** An exception that leaves the dispatcher is the outcome of the bound function that the message
      names, on the arguments the message carries, and only when exceptions are not suppressed. */
  lemma {:induction false} EscapedIsOutcome(funcs: Registry, msg: Message, suppress: bool)
    ensures var d := Dispatch(funcs, msg, suppress);
            d.Throw? && d.e.Escaped? ==>
              && !suppress && (|msg| == 3 || |msg| == 4) && msg[|msg| - 2].Str? && msg[|msg| - 2].s in funcs
              && d.e.outcome == funcs[msg[|msg| - 2].s](msg[|msg| - 1])
  {
  }

  /** A call lets an exception escape exactly when the bound function ends in one that is no client error
      and exceptions are not suppressed. */
  lemma {:induction false} CallEscapes(funcs: Registry, id: int, name: string, args: seq<Obj>, suppress: bool)
    requires 0 <= id < UINT32
    ensures var d := Dispatch(funcs, RequestMessage(id, name, args), suppress);
            && (d.Throw? <==> && !suppress && name in funcs
                              && (funcs[name](Arr(args)).StdException? || funcs[name](Arr(args)).OtherException?))
            && (d.Throw? ==> d.e == Escaped(funcs[name](Arr(args))))
  {
    var m := RequestMessage(id, name, args);
    assert |m| == 4 && m[0] == Int(0) && m[1] == Int(id) && m[2] == Str(name) && m[3] == Arr(args);
  }

  /** A message is refused for its types exactly when its type number is no 8-bit number, its id no unsigned
      32-bit number, or its name no text; nothing else is looked at. */
  lemma {:induction false} MalformedRefused(funcs: Registry, msg: Message, suppress: bool)
    ensures Dispatch(funcs, msg, suppress) == Throw(TypeError) <==>
              || (|msg| == 4 && !(&& msg[0].Int? && -128 <= msg[0].i <= 127
                                  && msg[1].Int? && 0 <= msg[1].i <= 4294967295 && msg[2].Str?))
              || (|msg| == 3 && !(msg[0].Int? && -128 <= msg[0].i <= 127 && msg[1].Str?))
  {
  }

  /** A handler that stops with an error or a response of its own is reported as an unknown function is. */
  lemma {:induction false} StoppedLooksUnknown(funcs: Registry, id: int, name: string, args: seq<Obj>, suppress: bool)
    requires 0 <= id < UINT32
    requires name in funcs ==> funcs[name](Arr(args)).HandlerError? || funcs[name](Arr(args)).HandlerSpecResponse?
    ensures Dispatch(funcs, RequestMessage(id, name, args), suppress)
            == Respond(id, Str(NotFoundText(name, |args|)), Nil)
  {
    var m := RequestMessage(id, name, args);
    assert |m| == 4 && m[0] == Int(0) && m[1] == Int(id) && m[2] == Str(name) && m[3] == Arr(args);
  }

  /** A call is answered with the value its function returns, or with an error text that tells what a client
      error said. */
  lemma {:induction false} ValueAnswered(funcs: Registry, id: int, name: string, args: seq<Obj>, suppress: bool)
    requires 0 <= id < UINT32 && name in funcs
    ensures var d, o := Dispatch(funcs, RequestMessage(id, name, args), suppress), funcs[name](Arr(args));
            && (o.Returned? ==> d == Respond(id, Nil, o.value))
            && (o.ClientError? ==> d == Respond(id, Str("rpclib: " + o.what), Nil))
  {
    var m := RequestMessage(id, name, args);
    assert |m| == 4 && m[0] == Int(0) && m[1] == Int(id) && m[2] == Str(name) && m[3] == Arr(args);
  }

  /** A notification runs the function bound to its name on its arguments: whatever function is bound,
      what it ends in is what escapes, unless it returns, is stopped by its handler or is suppressed. */
  lemma {:induction false} NotificationRuns(funcs: Registry, name: string, args: seq<Obj>, suppress: bool)
    ensures var d := Dispatch(funcs, NotificationMessage(name, args), suppress);
            if && !suppress && name in funcs
               && (var o := funcs[name](Arr(args)); !o.Returned? && !o.HandlerError? && !o.HandlerSpecResponse?)
            then d == Throw(Escaped(funcs[name](Arr(args))))
            else d == Empty
  {
    var m := NotificationMessage(name, args);
    assert |m| == 3 && m[0] == Int(2) && m[1] == Str(name) && m[2] == Arr(args);
  }

  /** A function bound with `arity` parameters is run only on that many arguments; any other count is
      reported to the caller as an error naming the function, with the two counts exchanged. */
  lemma {:induction false} ArityMismatchReported(funcs: Registry, name: string, arity: nat, body: seq<Obj> -> Outcome,
                                                 args: seq<Obj>, suppress: bool)
    requires name in funcs && funcs[name] == Adapt(name, arity, body)
    ensures |args| == arity ==> funcs[name](Arr(args)) == body(args)
    ensures |args| != arity ==>
              Verdict(funcs, name, args, suppress)
              == Failed(name, Str("rpclib: " + ("Function '" + name
                              + "' was called with an invalid number of " + "arguments. Expected: "
                              + Decimal.Text(|args|) + ", got: " + Decimal.Text(arity))))
  {
  }
}
