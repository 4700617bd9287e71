/** The keep-alive HTTP client: requests wait in one queue, are moved to a second one when the
    connection is free, and are sent one at a time; a broken connection is replaced and the
    request in front is sent again. */
module KeepAliveClient {

  /** `callback` names the caller's callback. */
  datatype Request = Request(callback: nat, message: string)

  /** An asynchronous operation that was started and has not completed. Stream numbers grow
      with every replacement. */
  datatype Op =
    | Resolve
    | Connect(stream: nat)
    | Handshake(stream: nat)
    | Read(stream: nat)
    | Timer

  /** `submitted`, `fired` and `written` are history: all requests in order, each callback call
      with the response it got, and every message put on a stream. `errors` counts failed
      reads; `gone` says that connection setup failed and the client was removed. */
  datatype State = State(
    secure: bool,
    stream: nat,
    requests: seq<Request>,
    processing: seq<Request>,
    ops: multiset<Op>,
    gone: bool,
    submitted: seq<Request>,
    fired: seq<(Request, string)>,
    written: seq<(nat, Request)>,
    errors: nat)

  datatype Event =
    | Submit(req: Request)
    | Resolved(ok: bool)
    | Connected(ok: bool)
    | HandshakeDone(ok: bool)
    | ReadDone(ok: bool, response: string)
    | TimerFired

  function Initial(secure: bool, first: Request): State {
    State(secure, 0, [first], [], multiset{Resolve}, false, [first], [], [], 0)
  }

  /** The completion that an event consumes. */
  function Completes(s: State, e: Event): Op {
    match e
    case Submit(_) => Timer
    case Resolved(_) => Resolve
    case Connected(_) => Connect(s.stream)
    case HandshakeDone(_) => Handshake(s.stream)
    case ReadDone(_, _) => Read(s.stream)
    case TimerFired => Timer
  }

  /** A handler runs when its operation completes; requests may be added at any time. */
  predicate Legal(s: State, e: Event) {
    e.Submit? || Completes(s, e) in s.ops
  }

  function MoveAll(s: State): State {
    s.(processing := s.processing + s.requests, requests := [])
  }

  /** Writes the request in front and starts reading its response. */
  function SendFront(s: State): State
    requires s.processing != []
  {
    s.(written := s.written + [(s.stream, s.processing[0])], ops := s.ops + multiset{Read(s.stream)})
  }

  function Removed(s: State): State {
    s.(gone := true)
  }

  /** Once connected: send if there is something to send, and do nothing otherwise. */
  function Ready(s: State): State {
    var t := MoveAll(s);
    if t.processing != [] then SendFront(t) else t
  }

  function Step(s: State, e: Event): State {
    match e
    case Submit(req) => s.(requests := s.requests + [req], submitted := s.submitted + [req])
    case Resolved(ok) =>
      var t := s.(ops := s.ops - multiset{Resolve});
      if ok then t.(ops := t.ops + multiset{Connect(t.stream)}) else Removed(t)
    case Connected(ok) =>
      var t := s.(ops := s.ops - multiset{Connect(s.stream)});
      if !ok then Removed(t)
      else if t.secure then t.(ops := t.ops + multiset{Handshake(t.stream)})
      else Ready(t)
    case HandshakeDone(ok) =>
      var t := s.(ops := s.ops - multiset{Handshake(s.stream)});
      if ok then Ready(t) else Removed(t)
    case ReadDone(ok, response) =>
      var t := s.(ops := s.ops - multiset{Read(s.stream)});
      if !ok then t.(stream := t.stream + 1, errors := t.errors + 1, ops := t.ops + multiset{Resolve})
      else
        var u := if t.processing == [] then t
                 else t.(fired := t.fired + [(t.processing[0], response)], processing := t.processing[1..]);
        u.(ops := u.ops + multiset{Timer})
    case TimerFired =>
      var t := MoveAll(s.(ops := s.ops - multiset{Timer}));
      if t.processing != [] then SendFront(t) else t.(ops := t.ops + multiset{Timer})
  }

  // ---------------------------------------------------------------- invariant

  function Answered(fired: seq<(Request, string)>): (rs: seq<Request>)
    ensures |rs| == |fired|
  {
    seq(|fired|, i requires 0 <= i < |fired| => fired[i].0)
  }

  predicate Reading(s: State) {
    s.ops == multiset{Read(s.stream)}
  }

  predicate Connecting(s: State) {
    s.ops == multiset{Resolve} || s.ops == multiset{Connect(s.stream)}
    || (s.secure && s.ops == multiset{Handshake(s.stream)})
  }

  /** Every request is in exactly one place, in order; one operation is outstanding, on the
      current stream; a connection attempt has something to send; the read outstanding is for
      the request in front; and every write was answered by a callback, by an error, or is
      still being answered. */
  ghost predicate Inv(s: State) {
    && Answered(s.fired) + s.processing + s.requests == s.submitted
    && (!s.gone ==>
          && (Connecting(s) || Reading(s) || s.ops == multiset{Timer})
          && (Connecting(s) ==> s.processing + s.requests != [])
          && (Reading(s) ==>
                && s.processing != [] && s.written != []
                && s.written[|s.written| - 1] == (s.stream, s.processing[0]))
          && |s.written| == |s.fired| + s.errors + (if Reading(s) then 1 else 0))
    && (s.gone ==> s.ops == multiset{})
  }

  lemma Single(a: Op, b: Op)
    ensures a in multiset{b} <==> a == b
    ensures multiset{a} == multiset{b} <==> a == b
    ensures multiset{a} - multiset{a} == multiset{}
    ensures multiset{} + multiset{a} == multiset{a}
  {
    assert a in multiset{a};
    if multiset{a} == multiset{b} { assert a in multiset{b}; }
  }

  /** The completed operation was the only one. */
  lemma OnlyOne(s: State, e: Event)
    requires Inv(s) && Legal(s, e) && !e.Submit?
    ensures !s.gone && s.ops == multiset{Completes(s, e)} && s.ops - multiset{Completes(s, e)} == multiset{}
  {
    var o := Completes(s, e);
    Single(o, Timer);
    Single(o, Resolve);
    Single(o, Connect(s.stream));
    Single(o, Handshake(s.stream));
    Single(o, Read(s.stream));
    assert o in s.ops && !s.gone;
  }

  /** The five single operations are told apart. */
  lemma Phases(s: State, o: Op)
    requires s.ops == multiset{o}
    ensures Reading(s) <==> o == Read(s.stream)
    ensures Connecting(s) <==> o == Resolve || o == Connect(s.stream) || (s.secure && o == Handshake(s.stream))
    ensures s.ops == multiset{Timer} <==> o == Timer
  {
    Single(o, Timer);
    Single(o, Resolve);
    Single(o, Connect(s.stream));
    Single(o, Handshake(s.stream));
    Single(o, Read(s.stream));
  }

  lemma FireKeepsOrder(s: State, response: string)
    requires s.processing != []
    ensures Answered(s.fired + [(s.processing[0], response)]) + s.processing[1..] + s.requests
            == Answered(s.fired) + s.processing + s.requests
  {
    assert Answered(s.fired + [(s.processing[0], response)]) == Answered(s.fired) + [s.processing[0]];
    assert s.processing == [s.processing[0]] + s.processing[1..];
  }

  /** Moving and sending, from a state without outstanding operation. */
  lemma SendKeepsInv(s: State)
    requires !s.gone && s.ops == multiset{} && s.processing + s.requests != []
    requires Answered(s.fired) + s.processing + s.requests == s.submitted
    requires |s.written| == |s.fired| + s.errors
    ensures MoveAll(s).processing != [] && Inv(SendFront(MoveAll(s)))
  {
    var t := SendFront(MoveAll(s));
    assert t.ops == multiset{Read(t.stream)};
    Phases(t, Read(t.stream));
    assert Answered(t.fired) + t.processing + t.requests == s.submitted;
  }

  lemma SubmitKeepsInv(s: State, req: Request)
    requires Inv(s)
    ensures Inv(Step(s, Submit(req)))
  {
    var t := Step(s, Submit(req));
    assert Answered(s.fired) + s.processing + (s.requests + [req]) == s.submitted + [req];
    assert t.processing + t.requests == s.processing + s.requests + [req];
  }

  lemma SetupKeepsInv(s: State, e: Event)
    requires Inv(s) && Legal(s, e) && (e.Resolved? || e.Connected? || e.HandshakeDone?)
    ensures Inv(Step(s, e))
  {
    OnlyOne(s, e);
    var o := Completes(s, e);
    Phases(s, o);
    var t := Step(s, e);
    if e.ok && e.Resolved? {
      assert t.ops == multiset{Connect(t.stream)};
      Phases(t, Connect(t.stream));
    } else if e.ok && e.Connected? && s.secure {
      assert t.ops == multiset{Handshake(t.stream)};
      Phases(t, Handshake(t.stream));
    } else if e.ok {
      SendKeepsInv(s.(ops := multiset{}));
    }
  }

  lemma ReadKeepsInv(s: State, ok: bool, response: string)
    requires Inv(s) && Legal(s, ReadDone(ok, response))
    ensures Inv(Step(s, ReadDone(ok, response)))
    ensures s.processing != [] && s.written != [] && s.written[|s.written| - 1] == (s.stream, s.processing[0])
  {
    OnlyOne(s, ReadDone(ok, response));
    Phases(s, Read(s.stream));
    var t := Step(s, ReadDone(ok, response));
    if ok {
      FireKeepsOrder(s, response);
      assert t.ops == multiset{Timer};
      Phases(t, Timer);
    } else {
      assert t.ops == multiset{Resolve};
      Phases(t, Resolve);
      assert t.processing + t.requests != [];
    }
  }

  lemma TimerKeepsInv(s: State)
    requires Inv(s) && Legal(s, TimerFired)
    ensures Inv(Step(s, TimerFired))
  {
    OnlyOne(s, TimerFired);
    Phases(s, Timer);
    var t := Step(s, TimerFired);
    if s.processing + s.requests != [] {
      SendKeepsInv(s.(ops := multiset{}));
    } else {
      assert t.ops == multiset{Timer};
      Phases(t, Timer);
    }
  }

  lemma StepKeepsInv(s: State, e: Event)
    requires Inv(s) && Legal(s, e)
    ensures Inv(Step(s, e))
  {
    match e
    case Submit(req) => SubmitKeepsInv(s, req);
    case ReadDone(ok, response) => ReadKeepsInv(s, ok, response);
    case TimerFired => TimerKeepsInv(s);
    case _ => SetupKeepsInv(s, e);
  }

  // --------------------------------------------------------------------- runs

  predicate LegalRun(s: State, events: seq<Event>)
    decreases |events|
  {
    events != [] ==> Legal(s, events[0]) && LegalRun(Step(s, events[0]), events[1..])
  }

  function Run(s: State, events: seq<Event>): State
    decreases |events|
  {
    if events == [] then s else Run(Step(s, events[0]), events[1..])
  }

  lemma {:induction false} RunKeepsInv(s: State, events: seq<Event>)
    requires Inv(s) && LegalRun(s, events)
    ensures Inv(Run(s, events))
    decreases |events|
  {
    if events != [] {
      StepKeepsInv(s, events[0]);
      RunKeepsInv(Step(s, events[0]), events[1..]);
    }
  }

  lemma InitialInv(secure: bool, first: Request)
    ensures Inv(Initial(secure, first))
  {
    var s := Initial(secure, first);
    Phases(s, Resolve);
    assert Answered(s.fired) == [];
  }

  /** Over every run, with any read errors and reconnects: callbacks fired, requests being
      processed and requests waiting are together the submitted sequence, so callbacks fire in
      submission order and never twice; and unless the client was removed exactly one operation
      is outstanding. */
  lemma EveryRunConserves(secure: bool, first: Request, events: seq<Event>)
    requires LegalRun(Initial(secure, first), events)
    ensures var s := Run(Initial(secure, first), events);
            && Answered(s.fired) + s.processing + s.requests == s.submitted
            && Answered(s.fired) <= s.submitted
            && (!s.gone ==> |s.ops| == 1)
  {
    InitialInv(secure, first);
    RunKeepsInv(Initial(secure, first), events);
  }

  /** Nothing after `s` was written to an older stream, and what was written before stays. */
  ghost predicate WritesLater(s: State, t: State) {
    && s.stream <= t.stream && s.written <= t.written
    && forall i :: |s.written| <= i < |t.written| ==> t.written[i].0 >= s.stream
  }

  lemma StepWritesLater(s: State, e: Event)
    ensures WritesLater(s, Step(s, e))
  {
  }

  lemma WritesLaterTrans(s: State, t: State, u: State)
    requires WritesLater(s, t) && WritesLater(t, u)
    ensures WritesLater(s, u)
  {
  }

  lemma {:induction false} LaterWrites(s: State, events: seq<Event>)
    ensures WritesLater(s, Run(s, events))
    decreases |events|
  {
    hide Step;
    if events != [] {
      var t := Step(s, events[0]);
      StepWritesLater(s, events[0]);
      LaterWrites(t, events[1..]);
      WritesLaterTrans(s, t, Run(t, events[1..]));
    }
  }

  /** A stream on which a read failed is never written to again. */
  lemma NoWriteAfterFailure(s: State, response: string, events: seq<Event>)
    ensures var t := Run(s, [ReadDone(false, response)] + events);
            && s.written <= t.written
            && forall i :: |s.written| <= i < |t.written| ==> t.written[i].0 > s.stream
  {
    var all := [ReadDone(false, response)] + events;
    assert all[1..] == events;
    LaterWrites(Step(s, all[0]), events);
  }

  /** From every state in which the client was not removed, completions alone can lead to a
      state in which every submitted request has fired its callback: nothing is ever stuck. */
  lemma {:induction false} CanFinish(s: State) returns (events: seq<Event>)
    requires Inv(s) && !s.gone
    ensures LegalRun(s, events) && forall e <- events :: !e.Submit?
    ensures Answered(Run(s, events).fired) == s.submitted
    decreases |s.processing| + |s.requests|, Urgency(s)
  {
    if s.processing + s.requests == [] {
      assert s.processing == [] && s.requests == [];
      return [];
    }
    var e := NextCompletion(s);
    var rest := CanFinish(Step(s, e));
    events := [e] + rest;
    assert events[1..] == rest;
  }

  /** The successful completion of the operation that is outstanding. */
  lemma NextCompletion(s: State) returns (e: Event)
    requires Inv(s) && !s.gone && s.processing + s.requests != []
    ensures Legal(s, e) && !e.Submit? && Inv(Step(s, e)) && !Step(s, e).gone
    ensures Step(s, e).submitted == s.submitted
    ensures Closer(s, Step(s, e))
  {
    var o := Outstanding(s);
    e := SuccessOf(o);
    StepKeepsInv(s, e);
    hide *;
    match o
    case Resolve => SetupCloser(s, o);
    case Connect(_) => SetupCloser(s, o);
    case _ => SendCloser(s, o);
  }

  function SuccessOf(o: Op): Event {
    match o
    case Resolve => Resolved(true)
    case Connect(_) => Connected(true)
    case Handshake(_) => HandshakeDone(true)
    case Timer => TimerFired
    case Read(_) => ReadDone(true, "")
  }

  predicate OnCurrentStream(s: State, o: Op) {
    match o
    case Connect(k) => k == s.stream
    case Handshake(k) => k == s.stream
    case Read(k) => k == s.stream
    case _ => true
  }

  lemma Outstanding(s: State) returns (o: Op)
    requires Inv(s) && !s.gone
    ensures s.ops == multiset{o} && OnCurrentStream(s, o) && Legal(s, SuccessOf(o)) && !SuccessOf(o).Submit?
    ensures o.Read? ==> s.processing != []
  {
    if s.ops == multiset{Resolve} {
      o := Resolve;
    } else if s.ops == multiset{Connect(s.stream)} {
      o := Connect(s.stream);
    } else if s.ops == multiset{Handshake(s.stream)} {
      o := Handshake(s.stream);
    } else if s.ops == multiset{Timer} {
      o := Timer;
    } else {
      o := Read(s.stream);
    }
  }

  lemma SetupCloser(s: State, o: Op)
    requires s.ops == multiset{o} && s.processing + s.requests != [] && !s.gone
    requires OnCurrentStream(s, o) && (o.Resolve? || o.Connect?)
    ensures var t := Step(s, SuccessOf(o)); Closer(s, t) && !t.gone && t.submitted == s.submitted
  {
    var t := Step(s, SuccessOf(o));
    Single(o, o);
    Urgent(s, o);
    if o == Resolve {
      assert t.ops == multiset{Connect(t.stream)};
      Urgent(t, Connect(t.stream));
    } else if s.secure {
      assert t.ops == multiset{Handshake(t.stream)};
      Urgent(t, Handshake(t.stream));
    } else {
      assert t.ops == multiset{Read(t.stream)};
      Urgent(t, Read(t.stream));
    }
  }

  lemma SendCloser(s: State, o: Op)
    requires s.ops == multiset{o} && s.processing + s.requests != [] && !s.gone
    requires OnCurrentStream(s, o) && (o.Handshake? || o.Timer? || (o.Read? && s.processing != []))
    ensures var t := Step(s, SuccessOf(o)); Closer(s, t) && !t.gone && t.submitted == s.submitted
  {
    var t := Step(s, SuccessOf(o));
    Single(o, o);
    Urgent(s, o);
    if !o.Read? {
      assert t.ops == multiset{Read(t.stream)};
      Urgent(t, Read(t.stream));
    }
  }

  /** Fewer requests left, or as many and a step nearer to the next response. */
  predicate Closer(s: State, t: State) {
    || |t.processing| + |t.requests| < |s.processing| + |s.requests|
    || (|t.processing| + |t.requests| == |s.processing| + |s.requests| && Urgency(t) < Urgency(s))
  }

  function Urgency(s: State): nat {
    if s.ops == multiset{Resolve} then 4
    else if s.ops == multiset{Connect(s.stream)} then 3
    else if s.ops == multiset{Handshake(s.stream)} then 2
    else if s.ops == multiset{Timer} then 1
    else 0
  }

  lemma Urgent(s: State, o: Op)
    requires s.ops == multiset{o} && OnCurrentStream(s, o)
    ensures Urgency(s) == match o
      case Resolve => 4
      case Connect(_) => 3
      case Handshake(_) => 2
      case Timer => 1
      case Read(_) => 0
  {
    Single(o, Resolve);
    Single(o, Connect(s.stream));
    Single(o, Handshake(s.stream));
    Single(o, Timer);
  }

  // ------------------------------------------------------------- the client

  class OneKeepAliveClient {
    const secure: bool
    var stream: nat
    var requests: seq<Request>
    var processing: seq<Request>
    // Operations started and not completed, and the history.
    ghost var rest: State

    ghost function S(): State
      reads this
    {
      rest.(secure := secure, stream := stream, requests := requests, processing := processing)
    }

    ghost predicate Valid()
      reads this
    {
      Inv(S())
    }

    /** The client is made for its first request and starts to connect. */
    constructor (secure: bool, first: Request)
      ensures Valid() && S() == Initial(secure, first)
    {
      this.secure, stream, requests, processing := secure, 0, [first], [];
      rest := Initial(secure, first);
      new;
      InitialInv(secure, first);
    }

    method AddRequest(req: Request)
      requires Valid()
      modifies this
      ensures Valid() && S() == Step(old(S()), Submit(req))
    {
      ghost var was := S();
      requests := requests + [req];
      Record(was, Submit(req));
    }

    ghost method Record(was: State, e: Event)
      requires Inv(was) && Legal(was, e) && was.secure == secure
      requires stream == Step(was, e).stream
      requires requests == Step(was, e).requests && processing == Step(was, e).processing
      modifies this`rest
      ensures Valid() && S() == Step(was, e)
    {
      hide Inv, Step;
      StepKeepsInv(was, e);
      SecureStays(was, e);
      rest := Step(was, e);
    }

    method OnResolve(ok: bool)
      requires Valid() && Legal(S(), Resolved(ok))
      modifies this
      ensures Valid() && S() == Step(old(S()), Resolved(ok))
      ensures S().gone == !ok && S().written == old(S()).written
    {
      Record(S(), Resolved(ok));
    }

    /** The loop that three handlers share: waiting requests move behind those in process. */
    method TakeRequests()
      modifies this`requests, this`processing
      ensures requests == [] && processing == old(processing) + old(requests)
    {
      while requests != []
        invariant processing + requests == old(processing) + old(requests)
        decreases |requests|
      {
        processing := processing + [requests[0]];
        requests := requests[1..];
      }
    }

    method OnConnect(ok: bool) returns (sent: seq<Request>)
      requires Valid() && Legal(S(), Connected(ok))
      modifies this
      ensures Valid() && S() == Step(old(S()), Connected(ok))
      ensures sent == if ok && !secure then [processing[0]] else []
      ensures S().gone == !ok && stream == old(stream)
      ensures S().written == old(S()).written + if ok && !secure then [(stream, processing[0])] else []
    {
      ghost var was := S();
      SetupHasWork(was, Connected(ok));
      sent := [];
      if ok && !secure {
        TakeRequests();
        if processing != [] {
          sent := [processing[0]];
        }
      }
      Record(was, Connected(ok));
    }

    method OnSSLHandshake(ok: bool) returns (sent: seq<Request>)
      requires Valid() && Legal(S(), HandshakeDone(ok))
      modifies this
      ensures Valid() && S() == Step(old(S()), HandshakeDone(ok))
      ensures sent == if ok then [processing[0]] else []
      ensures S().gone == !ok && stream == old(stream)
      ensures S().written == old(S()).written + if ok then [(stream, processing[0])] else []
    {
      ghost var was := S();
      SetupHasWork(was, HandshakeDone(ok));
      sent := [];
      if ok {
        TakeRequests();
        if processing != [] {
          sent := [processing[0]];
        }
      }
      Record(was, HandshakeDone(ok));
    }

    /** On success the callback in front is called; on an error the stream is replaced. */
    method OnRead(ok: bool, response: string) returns (called: seq<(Request, string)>)
      requires Valid() && Legal(S(), ReadDone(ok, response))
      modifies this
      ensures Valid() && S() == Step(old(S()), ReadDone(ok, response))
      ensures if ok then stream == old(stream) else stream == old(stream) + 1
      ensures S().gone == old(S()).gone && S().written == old(S()).written
      ensures S().fired == old(S()).fired + called
      ensures !ok ==> called == [] && processing == old(processing)
      ensures ok ==> old(processing) != [] && called == [(old(processing)[0], response)]
    {
      ghost var was := S();
      ReadKeepsInv(was, ok, response);
      ReadDoes(was, ok, response);
      hide Inv, Step, Legal, Completes;
      called := [];
      if !ok {
        stream := stream + 1;
      } else if processing != [] {
        called := [(processing[0], response)];
        processing := processing[1..];
      }
      Record(was, ReadDone(ok, response));
    }

    method CheckAndSend() returns (sent: seq<Request>)
      requires Valid() && Legal(S(), TimerFired)
      modifies this
      ensures Valid() && S() == Step(old(S()), TimerFired)
      ensures sent == if processing != [] then [processing[0]] else []
      ensures requests == [] && processing == old(processing) + old(requests) && stream == old(stream)
      ensures S().written == old(S()).written + if processing != [] then [(stream, processing[0])] else []
    {
      ghost var was := S();
      TakeRequests();
      sent := if processing != [] then [processing[0]] else [];
      Record(was, TimerFired);
    }
  }

  lemma ReadDoes(s: State, ok: bool, response: string)
    requires s.processing != []
    ensures var t := Step(s, ReadDone(ok, response));
            && t.requests == s.requests && t.gone == s.gone && t.written == s.written
            && if ok then
                 && t.stream == s.stream && t.processing == s.processing[1..]
                 && t.fired == s.fired + [(s.processing[0], response)]
               else t.stream == s.stream + 1 && t.processing == s.processing && t.fired == s.fired
  {
  }

  /** The one operation that each handler starts. */
  lemma NextOperation(s: State, e: Event)
    requires Inv(s) && Legal(s, e) && !e.Submit?
    ensures var t := Step(s, e);
            && (t.gone ==> t.ops == multiset{})
            && (e == Resolved(true) ==> t.ops == multiset{Connect(s.stream)})
            && (e == Connected(true) ==> t.ops == multiset{if s.secure then Handshake(s.stream) else Read(s.stream)})
            && (e == HandshakeDone(true) ==> t.ops == multiset{Read(s.stream)})
            && (e.ReadDone? ==> t.ops == multiset{if e.ok then Timer else Resolve})
            && (e.TimerFired? ==> t.ops == multiset{if s.processing + s.requests != [] then Read(s.stream) else Timer})
  {
    OnlyOne(s, e);
    if e.Resolved? || e.Connected? || e.HandshakeDone? { SetupHasWork(s, e); }
  }

  lemma SecureStays(s: State, e: Event)
    ensures Step(s, e).secure == s.secure
  {
  }

  /** Whenever a connection comes up there is a request to send. */
  lemma SetupHasWork(s: State, e: Event)
    requires Inv(s) && Legal(s, e) && (e.Resolved? || e.Connected? || e.HandshakeDone?)
    ensures s.processing + s.requests != []
  {
    OnlyOne(s, e);
    Phases(s, Completes(s, e));
  }
}
