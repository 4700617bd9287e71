/** Remote calls over Redis or RabbitMQ end to end: any number of client connections, one server
    with any number of replying threads, ordered channels. One action is one lock region or one
    publication, so a run is any interleaving of the code's threads. */
module RpcCorrelation {
  import opened ReplyMaps

  datatype Reply = Reply(id: string, isFinal: bool, content: string)

  /** A request or a reply on its way to a topic. */
  datatype Request = Request(replyTo: Topic, id: string)
  datatype Outgoing = Outgoing(topic: Topic, reply: Reply)

  datatype Asker = Asker(conn: Topic, client: Owner)
  datatype Delivery = Delivery(to: Asker, reply: Reply)

  /** `conns` is indexed by the communication id of each client connection. `sending` holds the
      requests registered but not yet published, `sendingReplies` the server threads that left
      the lock region and have not yet published. The last four fields only record history. */
  datatype World = World(
    conns: map<Topic, ClientSide>,
    sending: map<string, Topic>,
    requests: seq<Request>,
    replyTopics: map<string, Topic>,
    sendingReplies: map<nat, Outgoing>,
    replies: map<Topic, seq<Reply>>,
    asked: map<string, Asker>,
    published: seq<Reply>,
    taken: seq<Reply>,
    delivered: seq<Delivery>)

  function Initial(topics: set<Topic>): World {
    World(map c | c in topics :: NOBODY, map[], [], map[], map[], map c | c in topics :: [], map[], [], [], [])
  }

  datatype Action =
    | AddClient(c: Topic)
    | RemoveClient(c: Topic, n: Owner)
    | RegisterRequest(c: Topic, n: Owner, id: string)
    | PublishRequest(id: string)
    | ReceiveRequest
    | LoseRequest
    | SendReply(thread: nat, reply: Reply)
    | PublishReply(thread: nat)
    | ReceiveReply(c: Topic)

  /** Request ids are used once, and by a client number that was handed out. The server may
      reply to anything, at any time, as often as it likes. */
  ghost predicate Legal(w: World, a: Action) {
    match a
    case AddClient(c) => c in w.conns
    case RemoveClient(c, _) => c in w.conns
    case RegisterRequest(c, n, id) => c in w.conns && n <= w.conns[c].counter && id !in w.asked
    case PublishRequest(id) => id in w.sending
    case ReceiveRequest => w.requests != []
    case LoseRequest => w.requests != []
    case SendReply(t, _) => t !in w.sendingReplies
    case PublishReply(t) => t in w.sendingReplies && w.sendingReplies[t].topic in w.replies
    case ReceiveReply(c) => c in w.conns && c in w.replies && w.replies[c] != []
  }

  function Join(w: World, c: Topic): World
    requires c in w.conns
  {
    w.(conns := w.conns[c := Joined(w.conns[c])])
  }

  function Leave(w: World, c: Topic, n: Owner): World
    requires c in w.conns
  {
    w.(conns := w.conns[c := Left(w.conns[c], n)])
  }

  /** The client's lock region: the id is registered before its request is published. */
  function Ask(w: World, c: Topic, n: Owner, id: string): World
    requires c in w.conns
  {
    w.(conns := w.conns[c := Asking(w.conns[c], n, id)],
       sending := w.sending[id := c],
       asked := w.asked[id := Asker(c, n)])
  }

  function SendOff(w: World, id: string): World
    requires id in w.sending
  {
    w.(sending := w.sending - {id}, requests := w.requests + [Request(w.sending[id], id)])
  }

  function Accept(w: World): World
    requires w.requests != []
  {
    var q := w.requests[0];
    w.(requests := w.requests[1..], replyTopics := Opened(w.replyTopics, q.id, q.replyTo))
  }

  function Lose(w: World): World
    requires w.requests != []
  {
    w.(requests := w.requests[1..])
  }

  /** The server's lock region; a final reply erases the entry before it is published. */
  function Answer(w: World, t: nat, r: Reply): World {
    var to := Destination(w.replyTopics, r.id);
    if to.None? then w
    else
      w.(sendingReplies := w.sendingReplies[t := Outgoing(to.value, r)],
         replyTopics := Answered(w.replyTopics, r.isFinal, r.id))
  }

  function Publish(w: World, t: nat): World
    requires t in w.sendingReplies && w.sendingReplies[t].topic in w.replies
  {
    var o := w.sendingReplies[t];
    w.(sendingReplies := w.sendingReplies - {t},
       replies := w.replies[o.topic := w.replies[o.topic] + [o.reply]],
       published := w.published + [o.reply])
  }

  /** The client's lock region for a reply that arrived. */
  function Take(w: World, c: Topic): World
    requires c in w.conns && c in w.replies && w.replies[c] != []
  {
    var r := w.replies[c][0];
    var to := Receiver(w.conns[c], r.id);
    w.(conns := w.conns[c := Replied(w.conns[c], r.isFinal, r.id)],
       replies := w.replies[c := w.replies[c][1..]],
       taken := w.taken + [r],
       delivered := if to.Some? then w.delivered + [Delivery(Asker(c, to.value), r)] else w.delivered)
  }

  function Step(w: World, a: Action): World
    requires Legal(w, a)
  {
    match a
    case AddClient(c) => Join(w, c)
    case RemoveClient(c, n) => Leave(w, c, n)
    case RegisterRequest(c, n, id) => Ask(w, c, n, id)
    case PublishRequest(id) => SendOff(w, id)
    case ReceiveRequest => Accept(w)
    case LoseRequest => Lose(w)
    case SendReply(t, r) => Answer(w, t, r)
    case PublishReply(t) => Publish(w, t)
    case ReceiveReply(c) => Take(w, c)
  }

  ghost predicate LegalRun(w: World, run: seq<Action>)
    decreases |run|
  {
    run != [] ==> Legal(w, run[0]) && LegalRun(Step(w, run[0]), run[1..])
  }

  ghost function Run(w: World, run: seq<Action>): World
    requires LegalRun(w, run)
    decreases |run|
  {
    if run == [] then w else Run(Step(w, run[0]), run[1..])
  }

  // ------------------------------------------------------------ replies of one request

  function ById(rs: seq<Reply>, id: string): seq<Reply> {
    if rs == [] then []
    else
      var init := ById(rs[..|rs| - 1], id);
      if rs[|rs| - 1].id == id then init + [rs[|rs| - 1]] else init
  }

  function Heard(ds: seq<Delivery>, id: string): seq<Reply> {
    if ds == [] then []
    else
      var init := Heard(ds[..|ds| - 1], id);
      if ds[|ds| - 1].reply.id == id then init + [ds[|ds| - 1].reply] else init
  }

  function Finals(rs: seq<Reply>): nat {
    if rs == [] then 0
    else Finals(rs[..|rs| - 1]) + if rs[|rs| - 1].isFinal then 1 else 0
  }

  /** The replies up to and including the first final one. */
  function UpToFinal(rs: seq<Reply>): (r: seq<Reply>)
    ensures r <= rs
  {
    if rs == [] then []
    else
      var init := UpToFinal(rs[..|rs| - 1]);
      if Finals(rs[..|rs| - 1]) > 0 then init else rs
  }

  lemma SnocById(rs: seq<Reply>, r: Reply, id: string)
    ensures ById(rs + [r], id) == ById(rs, id) + if r.id == id then [r] else []
  {
    assert (rs + [r])[..|rs|] == rs;
  }

  lemma {:induction false} ConsById(rs: seq<Reply>, id: string)
    requires rs != []
    ensures ById(rs, id) == (if rs[0].id == id then [rs[0]] else []) + ById(rs[1..], id)
  {
    if |rs| > 1 {
      var init := rs[..|rs| - 1];
      ConsById(init, id);
      assert init[1..] == rs[1..][..|rs[1..]| - 1];
    }
  }

  lemma SnocHeard(ds: seq<Delivery>, d: Delivery, id: string)
    ensures Heard(ds + [d], id) == Heard(ds, id) + if d.reply.id == id then [d.reply] else []
  {
    assert (ds + [d])[..|ds|] == ds;
  }

  lemma SnocFinals(rs: seq<Reply>, r: Reply)
    ensures Finals(rs + [r]) == Finals(rs) + if r.isFinal then 1 else 0
    ensures UpToFinal(rs + [r]) == if Finals(rs) > 0 then UpToFinal(rs) else rs + [r]
  {
    assert (rs + [r])[..|rs|] == rs;
  }

  lemma {:induction false} NoFinalIsWhole(rs: seq<Reply>)
    requires Finals(rs) == 0
    ensures UpToFinal(rs) == rs
  {
  }

  lemma {:induction false} FinalsSplit(a: seq<Reply>, b: seq<Reply>)
    ensures Finals(a + b) == Finals(a) + Finals(b)
  {
    if b == [] {
      assert a + b == a;
    } else {
      assert (a + b)[..|a + b| - 1] == a + b[..|b| - 1];
      FinalsSplit(a, b[..|b| - 1]);
    }
  }

  /** At most one final reply is kept, and nothing after it. */
  lemma {:induction false} UpToFinalEndsThere(rs: seq<Reply>, k: nat)
    requires k < |UpToFinal(rs)| && UpToFinal(rs)[k].isFinal
    ensures k == |UpToFinal(rs)| - 1
  {
    var init := rs[..|rs| - 1];
    if Finals(init) > 0 {
      UpToFinalEndsThere(init, k);
    } else if k < |init| {
      assert init == init[..k] + ([init[k]] + init[k + 1..]);
      FinalsSplit(init[..k], [init[k]] + init[k + 1..]);
      FinalsSplit([init[k]], init[k + 1..]);
      assert false;
    }
  }

  lemma {:induction false} ForeignIdIsAbsent(rs: seq<Reply>, id: string)
    requires forall r <- rs :: r.id != id
    ensures ById(rs, id) == []
  {
    if rs != [] {
      ForeignIdIsAbsent(rs[..|rs| - 1], id);
    }
  }

  // ------------------------------------------------------------ the invariant

  type Askers = map<string, Asker>

  /** The request was asked, and its replies belong to this topic. */
  ghost predicate Routed(asked: Askers, id: string, topic: Topic) {
    id in asked && asked[id].conn == topic
  }

  ghost predicate IdsRouted(asked: Askers, m: map<string, Topic>) {
    forall id <- m :: Routed(asked, id, m[id])
  }

  ghost predicate RequestsRouted(asked: Askers, qs: seq<Request>) {
    forall q <- qs :: Routed(asked, q.id, q.replyTo)
  }

  ghost predicate ThreadsRouted(asked: Askers, m: map<nat, Outgoing>) {
    forall t <- m :: Routed(asked, m[t].reply.id, m[t].topic)
  }

  ghost predicate ChannelsRouted(asked: Askers, m: map<Topic, seq<Reply>>) {
    forall c <- m, r <- m[c] :: Routed(asked, r.id, c)
  }

  /** Everything in flight belongs to a request that was asked and is routed to its asker. */
  ghost predicate Routes(w: World) {
    && w.replies.Keys == w.conns.Keys
    && (forall id <- w.asked :: w.asked[id].conn in w.conns)
    && IdsRouted(w.asked, w.sending)
    && RequestsRouted(w.asked, w.requests)
    && IdsRouted(w.asked, w.replyTopics)
    && ThreadsRouted(w.asked, w.sendingReplies)
    && ChannelsRouted(w.asked, w.replies)
  }

  ghost predicate AllAsked(asked: Askers, rs: seq<Reply>) {
    forall r <- rs :: r.id in asked
  }

  /** Every callback ran for the client that sent the id. */
  ghost predicate ToAsker(asked: Askers, ds: seq<Delivery>) {
    forall d <- ds :: d.reply.id in asked && asked[d.reply.id] == d.to
  }

  ghost predicate Recorded(w: World) {
    AllAsked(w.asked, w.published) && AllAsked(w.asked, w.taken) && ToAsker(w.asked, w.delivered)
  }

  /** One connection's maps name the client that asked, and no other. */
  ghost predicate Side(asked: Askers, c: Topic, s: ClientSide) {
    && (forall n <- s.clients :: n <= s.counter)
    && Exact(s.maps)
    && (forall id <- s.maps.owner :: id in asked && asked[id] == Asker(c, s.maps.owner[id]))
    && (forall id <- asked :: asked[id].conn == c ==> asked[id].client <= s.counter)
  }

  ghost predicate Sides(w: World) {
    forall c <- w.conns :: Side(w.asked, c, w.conns[c])
  }

  function Asks(qs: seq<Request>, id: string): nat {
    if qs == [] then 0
    else Asks(qs[..|qs| - 1], id) + if qs[|qs| - 1].id == id then 1 else 0
  }

  ghost function FinalThreads(m: map<nat, Outgoing>, id: string): set<nat> {
    set t | t in m && m[t].reply.id == id && m[t].reply.isFinal
  }

  /** The right to send the final reply of a request is one token that is handed on: from the
      registered request to the channel, to the server's map, to one replying thread, to the
      published reply. */
  ghost function Tokens(w: World, id: string): nat {
    (if id in w.sending then 1 else 0)
    + Asks(w.requests, id)
    + (if id in w.replyTopics then 1 else 0)
    + |FinalThreads(w.sendingReplies, id)|
    + Finals(ById(w.published, id))
  }

  ghost predicate Attached(w: World, id: string) {
    && id in w.asked
    && w.asked[id].conn in w.conns
    && w.asked[id].client in w.conns[w.asked[id].conn].clients
  }

  ghost predicate Open(w: World, id: string) {
    && id in w.asked
    && w.asked[id].conn in w.conns
    && id in w.conns[w.asked[id].conn].maps.owner
  }

  function Waiting(w: World, id: string): seq<Reply> {
    if id in w.asked && w.asked[id].conn in w.replies then ById(w.replies[w.asked[id].conn], id) else []
  }

  /** What was published for an id was taken or still waits, in order; what was heard is what
      was taken up to the final reply, cut off where the client left. */
  ghost predicate Ordered(published: seq<Reply>, taken: seq<Reply>, waiting: seq<Reply>, heard: seq<Reply>,
                          attached: bool, open: bool)
  {
    && published == taken + waiting
    && heard <= UpToFinal(taken)
    && (attached ==> heard == UpToFinal(taken) && (open <==> Finals(taken) == 0))
  }

  ghost predicate InOrder(w: World, id: string) {
    Ordered(ById(w.published, id), ById(w.taken, id), Waiting(w, id), Heard(w.delivered, id),
            Attached(w, id), Open(w, id))
  }

  ghost predicate Inv(w: World) {
    && Routes(w)
    && Recorded(w)
    && Sides(w)
    && (forall id :: Tokens(w, id) <= 1)
    && (forall id :: InOrder(w, id))
  }

  lemma InitialInv(topics: set<Topic>)
    ensures Inv(Initial(topics))
  {
  }

  // ------------------------------------------------------------ routes

  lemma MoreAsked(asked: Askers, more: Askers, ids: map<string, Topic>, qs: seq<Request>,
                  threads: map<nat, Outgoing>, channels: map<Topic, seq<Reply>>)
    requires forall id <- asked :: id in more && more[id] == asked[id]
    ensures IdsRouted(asked, ids) ==> IdsRouted(more, ids)
    ensures RequestsRouted(asked, qs) ==> RequestsRouted(more, qs)
    ensures ThreadsRouted(asked, threads) ==> ThreadsRouted(more, threads)
    ensures ChannelsRouted(asked, channels) ==> ChannelsRouted(more, channels)
  {
    assert forall i, t :: Routed(asked, i, t) ==> Routed(more, i, t);
    hide Routed;
  }

  lemma AskKeepsRoutes(w: World, c: Topic, n: Owner, id: string)
    requires Routes(w) && Recorded(w) && c in w.conns && id !in w.asked
    ensures Routes(Ask(w, c, n, id)) && Recorded(Ask(w, c, n, id))
  {
    var asked' := w.asked[id := Asker(c, n)];
    MoreAsked(w.asked, asked', w.sending, w.requests, w.sendingReplies, w.replies);
    MoreAsked(w.asked, asked', w.replyTopics, w.requests, w.sendingReplies, w.replies);
    assert IdsRouted(asked', w.sending[id := c]);
    hide IdsRouted, RequestsRouted, ThreadsRouted, ChannelsRouted, Asking;
  }

  lemma ConnsKeepRoutes(w: World, c: Topic, s: ClientSide)
    requires Routes(w) && Recorded(w) && c in w.conns
    ensures var w' := w.(conns := w.conns[c := s]); Routes(w') && Recorded(w')
  {
    hide IdsRouted, RequestsRouted, ThreadsRouted, ChannelsRouted, AllAsked, ToAsker;
  }

  lemma RequestKeepsRoutes(w: World)
    requires Routes(w) && Recorded(w)
    ensures forall id <- w.sending :: Routes(SendOff(w, id)) && Recorded(SendOff(w, id))
    ensures w.requests != [] ==> Routes(Accept(w)) && Recorded(Accept(w)) && Routes(Lose(w)) && Recorded(Lose(w))
  {
    hide Routed, AllAsked, ToAsker, ThreadsRouted, ChannelsRouted;
  }

  lemma AnswerKeepsRoutes(w: World, t: nat, r: Reply)
    requires Routes(w) && Recorded(w)
    ensures Routes(Answer(w, t, r)) && Recorded(Answer(w, t, r))
  {
    hide Routed, AllAsked, ToAsker, RequestsRouted, ChannelsRouted;
  }

  lemma PublishKeepsRoutes(w: World, t: nat)
    requires Routes(w) && Recorded(w) && t in w.sendingReplies && w.sendingReplies[t].topic in w.replies
    ensures Routes(Publish(w, t)) && Recorded(Publish(w, t))
  {
    hide ToAsker, RequestsRouted, IdsRouted;
    assert Routed(w.asked, w.sendingReplies[t].reply.id, w.sendingReplies[t].topic);
  }

  lemma TakeKeepsRoutes(w: World, c: Topic)
    requires Routes(w) && Recorded(w) && c in w.conns && c in w.replies && w.replies[c] != []
    requires Side(w.asked, c, w.conns[c])
    ensures Routes(Take(w, c)) && Recorded(Take(w, c))
  {
    hide RequestsRouted, IdsRouted, ThreadsRouted, Exact, Replied;
    var r := w.replies[c][0];
    assert r in w.replies[c];
    assert Routed(w.asked, r.id, c);
  }

  lemma StepKeepsRoutes(w: World, a: Action)
    requires Routes(w) && Recorded(w) && Sides(w) && Legal(w, a)
    ensures Routes(Step(w, a)) && Recorded(Step(w, a))
  {
    hide Routes, Recorded;
    match a
    case AddClient(c) => ConnsKeepRoutes(w, c, Joined(w.conns[c])); hide Joined;
    case RemoveClient(c, n) => ConnsKeepRoutes(w, c, Left(w.conns[c], n)); hide Left;
    case RegisterRequest(c, n, id) => AskKeepsRoutes(w, c, n, id); hide Ask;
    case SendReply(t, r) => AnswerKeepsRoutes(w, t, r); hide Answer;
    case PublishReply(t) => PublishKeepsRoutes(w, t); hide Publish;
    case ReceiveReply(c) => TakeKeepsRoutes(w, c); hide Take;
    case _ => RequestKeepsRoutes(w); hide SendOff, Accept, Lose;
  }

  // ------------------------------------------------------------ client connections

  lemma LeftSide(asked: Askers, c: Topic, s: ClientSide, n: Owner)
    requires Side(asked, c, s)
    ensures Side(asked, c, Left(s, n))
  {
    ApplyKeepsExact(s.maps, RemoveOp(n));
    hide Exact;
  }

  lemma AskingSide(asked: Askers, c: Topic, s: ClientSide, n: Owner, id: string)
    requires Side(asked, c, s) && id !in asked
    ensures n <= s.counter ==> Side(asked[id := Asker(c, n)], c, Asking(s, n, id))
    ensures forall c' :: c' != c ==> Side(asked[id := Asker(c', n)], c, s)
  {
    ApplyKeepsExact(s.maps, RegisterOp(id, n));
    hide Exact;
  }

  lemma RepliedSide(asked: Askers, c: Topic, s: ClientSide, isFinal: bool, id: string)
    requires Side(asked, c, s)
    ensures Side(asked, c, Replied(s, isFinal, id))
  {
    ApplyKeepsExact(s.maps, FinishOp(id));
    hide Exact;
  }

  lemma StepKeepsSides(w: World, a: Action)
    requires Sides(w) && Legal(w, a)
    ensures Sides(Step(w, a))
  {
    var w' := Step(w, a);
    forall c <- w'.conns ensures Side(w'.asked, c, w'.conns[c]) {
      StepKeepsSide(w, a, c);
    }
  }

  lemma StepKeepsSide(w: World, a: Action, c: Topic)
    requires Sides(w) && Legal(w, a) && c in w.conns
    ensures c in Step(w, a).conns && Side(Step(w, a).asked, c, Step(w, a).conns[c])
  {
    var s := w.conns[c];
    assert Side(w.asked, c, s);
    hide Exact, Sides, Left, Asking, Replied;
    match a
    case RemoveClient(c', n) => LeftSide(w.asked, c, s, n); hide Side;
    case RegisterRequest(c', n, id) => AskingSide(w.asked, c, s, n, id);
    case ReceiveReply(c') =>
      RepliedSide(w.asked, c, s, w.replies[c'][0].isFinal, w.replies[c'][0].id);
      hide Side, Receiver;
    case AddClient(_) =>
    case _ => hide Side;
  }

  // ------------------------------------------------------------ the one right to finish

  lemma SnocAsks(qs: seq<Request>, q: Request, id: string)
    ensures Asks(qs + [q], id) == Asks(qs, id) + if q.id == id then 1 else 0
  {
    assert (qs + [q])[..|qs|] == qs;
  }

  lemma {:induction false} ConsAsks(qs: seq<Request>, id: string)
    requires qs != []
    ensures Asks(qs, id) == (if qs[0].id == id then 1 else 0) + Asks(qs[1..], id)
  {
    if |qs| > 1 {
      var init := qs[..|qs| - 1];
      ConsAsks(init, id);
      assert init[1..] == qs[1..][..|qs[1..]| - 1];
    }
  }

  lemma {:induction false} UnaskedHasNoRequest(asked: Askers, qs: seq<Request>, id: string)
    requires RequestsRouted(asked, qs) && id !in asked
    ensures Asks(qs, id) == 0
  {
    if qs != [] {
      UnaskedHasNoRequest(asked, qs[..|qs| - 1], id);
    }
  }

  /** An id that nobody asked for has no token anywhere. */
  lemma UnaskedHasNoToken(w: World, id: string)
    requires Routes(w) && Recorded(w) && id !in w.asked
    ensures Tokens(w, id) == 0
  {
    UnaskedHasNoRequest(w.asked, w.requests, id);
    ForeignIdIsAbsent(w.published, id);
    assert FinalThreads(w.sendingReplies, id) == {};
  }

  lemma RequestKeepsTokens(w: World, id: string)
    ensures forall i <- w.sending :: Tokens(SendOff(w, i), id) == Tokens(w, id)
    ensures w.requests != [] ==> Tokens(Accept(w), id) <= Tokens(w, id) && Tokens(Lose(w), id) <= Tokens(w, id)
  {
    forall i <- w.sending ensures Tokens(SendOff(w, i), id) == Tokens(w, id) {
      SnocAsks(w.requests, Request(w.sending[i], i), id);
    }
    if w.requests != [] {
      ConsAsks(w.requests, id);
    }
    hide Asks, Finals, ById, FinalThreads;
  }

  lemma ThreadAdded(m: map<nat, Outgoing>, t: nat, o: Outgoing, id: string)
    requires t !in m
    ensures |FinalThreads(m[t := o], id)|
            == |FinalThreads(m, id)| + if o.reply.id == id && o.reply.isFinal then 1 else 0
  {
    assert FinalThreads(m[t := o], id) ==
           if o.reply.id == id && o.reply.isFinal then FinalThreads(m, id) + {t} else FinalThreads(m, id);
  }

  lemma ThreadGone(m: map<nat, Outgoing>, t: nat, id: string)
    requires t in m
    ensures |FinalThreads(m, id)|
            == |FinalThreads(m - {t}, id)| + if m[t].reply.id == id && m[t].reply.isFinal then 1 else 0
  {
    var rest := m - {t};
    assert m == rest[t := m[t]];
    ThreadAdded(rest, t, m[t], id);
  }

  lemma AnswerKeepsTokens(w: World, t: nat, r: Reply, id: string)
    requires t !in w.sendingReplies
    ensures Tokens(Answer(w, t, r), id) == Tokens(w, id)
  {
    if r.id in w.replyTopics {
      ThreadAdded(w.sendingReplies, t, Outgoing(w.replyTopics[r.id], r), id);
    }
    hide Asks, Finals, ById, FinalThreads;
  }

  lemma PublishKeepsTokens(w: World, t: nat, id: string)
    requires t in w.sendingReplies && w.sendingReplies[t].topic in w.replies
    ensures Tokens(Publish(w, t), id) == Tokens(w, id)
  {
    var r := w.sendingReplies[t].reply;
    ThreadGone(w.sendingReplies, t, id);
    SnocById(w.published, r, id);
    SnocFinals(ById(w.published, id), r);
    hide Asks, Finals, ById, FinalThreads;
  }

  /** An action other than the registration of the id itself never makes a token for it. */
  lemma TokensDoNotGrow(w: World, a: Action, id: string)
    requires Legal(w, a) && (a.RegisterRequest? ==> a.id != id)
    ensures Tokens(Step(w, a), id) <= Tokens(w, id)
  {
    match a
    case AddClient(_) =>
    case RemoveClient(_, _) =>
    case RegisterRequest(_, _, _) =>
    case SendReply(t, r) => AnswerKeepsTokens(w, t, r, id); hide Tokens, Answer;
    case PublishReply(t) => PublishKeepsTokens(w, t, id); hide Tokens, Publish;
    case ReceiveReply(_) =>
    case _ => RequestKeepsTokens(w, id); hide Tokens, SendOff, Accept, Lose;
  }

  lemma StepKeepsTokens(w: World, a: Action, id: string)
    requires Inv(w) && Legal(w, a)
    ensures Tokens(Step(w, a), id) <= 1
  {
    assert Tokens(w, id) <= 1;
    if a.RegisterRequest? && a.id == id {
      UnaskedHasNoToken(w, id);
    } else {
      TokensDoNotGrow(w, a, id);
      hide Tokens;
    }
  }

  // ------------------------------------------------------------ order of replies

  lemma JoinKeepsOrder(w: World, c: Topic, id: string)
    requires InOrder(w, id) && c in w.conns && Side(w.asked, c, w.conns[c])
    ensures InOrder(Join(w, c), id)
  {
    hide Exact, Ordered;
  }

  lemma LeaveKeepsOrder(w: World, c: Topic, n: Owner, id: string)
    requires InOrder(w, id) && c in w.conns && Side(w.asked, c, w.conns[c])
    ensures InOrder(Leave(w, c, n), id)
  {
    hide Finals, UpToFinal, ById, Heard;
  }

  lemma AskKeepsOrder(w: World, c: Topic, n: Owner, id: string, i: string)
    requires Routes(w) && Recorded(w) && InOrder(w, i) && c in w.conns && id !in w.asked
    ensures InOrder(Ask(w, c, n, id), i)
  {
    if id == i {
      ForeignIdIsAbsent(w.published, i);
      ForeignIdIsAbsent(w.taken, i);
      assert forall r <- w.replies[c] :: Routed(w.asked, r.id, c);
      ForeignIdIsAbsent(w.replies[c], i);
    }
    hide Routes, Recorded, ById, Heard;
  }

  lemma PublishedMore(published: seq<Reply>, taken: seq<Reply>, waiting: seq<Reply>, heard: seq<Reply>,
                      attached: bool, open: bool, more: seq<Reply>)
    requires Ordered(published, taken, waiting, heard, attached, open)
    ensures Ordered(published + more, taken, waiting + more, heard, attached, open)
  {
    assert taken + waiting + more == taken + (waiting + more);
    hide Finals, UpToFinal;
  }

  lemma PublishKeepsOrder(w: World, t: nat, id: string)
    requires InOrder(w, id) && t in w.sendingReplies && w.sendingReplies[t].topic in w.replies
    requires Routed(w.asked, w.sendingReplies[t].reply.id, w.sendingReplies[t].topic)
    ensures InOrder(Publish(w, t), id)
  {
    hide Ordered, ById, Heard;
    var w' := Publish(w, t);
    var o := w.sendingReplies[t];
    var more := if o.reply.id == id then [o.reply] else [];
    SnocById(w.published, o.reply, id);
    SnocById(w.replies[o.topic], o.reply, id);
    assert Waiting(w', id) == Waiting(w, id) + more;
    assert Attached(w', id) == Attached(w, id) && Open(w', id) == Open(w, id);
    PublishedMore(ById(w.published, id), ById(w.taken, id), Waiting(w, id), Heard(w.delivered, id),
                  Attached(w, id), Open(w, id), more);
  }

  /** One reply is taken for this id: it is heard unless the client left or a final came before. */
  lemma TakenOne(published: seq<Reply>, taken: seq<Reply>, waiting: seq<Reply>, heard: seq<Reply>,
                 attached: bool, open: bool)
    requires Ordered(published, taken, waiting, heard, attached, open) && waiting != []
    ensures var r := waiting[0];
            Ordered(published, taken + [r], waiting[1..], if attached && open then heard + [r] else heard,
                    attached, open && !r.isFinal)
  {
    SnocFinals(taken, waiting[0]);
    if Finals(taken) == 0 { NoFinalIsWhole(taken); }
    assert taken + waiting == taken + [waiting[0]] + waiting[1..];
    hide Finals, UpToFinal;
  }

  lemma TakeKeepsOrder(w: World, c: Topic, id: string)
    requires InOrder(w, id) && c in w.conns && c in w.replies && w.replies[c] != []
    requires Routed(w.asked, w.replies[c][0].id, c) && Side(w.asked, c, w.conns[c])
    ensures InOrder(Take(w, c), id)
  {
    hide Ordered, ById, Heard, Consistent;
    var w', r := Take(w, c), w.replies[c][0];
    ConsById(w.replies[c], id);
    SnocById(w.taken, r, id);
    var to := Receiver(w.conns[c], r.id);
    if to.Some? {
      SnocHeard(w.delivered, Delivery(Asker(c, to.value), r), id);
    }
    assert Attached(w', id) == Attached(w, id);
    if r.id == id {
      assert to.Some? <==> Attached(w, id) && Open(w, id);
      assert [r] + ById(w.replies[c][1..], id) == Waiting(w, id);
      assert Open(w', id) == (Open(w, id) && !r.isFinal);
      TakenOne(ById(w.published, id), ById(w.taken, id), Waiting(w, id), Heard(w.delivered, id),
               Attached(w, id), Open(w, id));
    } else {
      assert [] + ById(w.replies[c][1..], id) == ById(w.replies[c][1..], id);
      assert Waiting(w', id) == Waiting(w, id) && Open(w', id) == Open(w, id);
      assert ById(w.taken, id) + [] == ById(w.taken, id) && Heard(w.delivered, id) + [] == Heard(w.delivered, id);
    }
  }

  lemma StepKeepsOrder(w: World, a: Action, id: string)
    requires Inv(w) && Legal(w, a)
    ensures InOrder(Step(w, a), id)
  {
    assert InOrder(w, id);
    match a
    case AddClient(c) => JoinKeepsOrder(w, c, id); hide InOrder, Join;
    case RemoveClient(c, n) => LeaveKeepsOrder(w, c, n, id); hide InOrder, Leave;
    case RegisterRequest(c, n, i) => AskKeepsOrder(w, c, n, i, id); hide InOrder, Ask;
    case PublishReply(t) => PublishKeepsOrder(w, t, id); hide InOrder, Publish;
    case ReceiveReply(c) =>
      assert w.replies[c][0] in w.replies[c];
      TakeKeepsOrder(w, c, id);
      hide InOrder, Take;
    case _ => hide Inv, Ordered, ById, Heard;
  }

  lemma StepKeepsInv(w: World, a: Action)
    requires Inv(w) && Legal(w, a)
    ensures Inv(Step(w, a))
  {
    StepKeepsRoutes(w, a);
    StepKeepsSides(w, a);
    forall id ensures Tokens(Step(w, a), id) <= 1 { StepKeepsTokens(w, a, id); }
    forall id ensures InOrder(Step(w, a), id) { StepKeepsOrder(w, a, id); }
    hide Routes, Recorded, Sides, Tokens, InOrder;
  }

  lemma {:induction false} RunKeepsInv(w: World, run: seq<Action>)
    requires Inv(w) && LegalRun(w, run)
    ensures Inv(Run(w, run))
    decreases |run|
  {
    hide Inv;
    if run != [] {
      StepKeepsInv(w, run[0]);
      RunKeepsInv(Step(w, run[0]), run[1..]);
    }
  }

  lemma OrderedEndsAtFinal(published: seq<Reply>, taken: seq<Reply>, waiting: seq<Reply>, heard: seq<Reply>,
                           attached: bool, open: bool)
    requires Ordered(published, taken, waiting, heard, attached, open)
    ensures heard <= published
    ensures forall k :: 0 <= k < |heard| - 1 ==> !heard[k].isFinal
  {
    forall k | 0 <= k < |heard| - 1 ensures !heard[k].isFinal {
      assert heard[k] == UpToFinal(taken)[k];
      if heard[k].isFinal { UpToFinalEndsThere(taken, k); }
    }
  }

  /** After any run: every callback ran for the client that sent the id; what a request was told
      is a prefix of what the server published for it; at most one final reply was published;
      and nothing was told after a final one. */
  lemma EveryRunIsSafe(topics: set<Topic>, run: seq<Action>, id: string)
    requires LegalRun(Initial(topics), run)
    ensures var w := Run(Initial(topics), run);
            && ToAsker(w.asked, w.delivered)
            && Heard(w.delivered, id) <= ById(w.published, id)
            && Finals(ById(w.published, id)) <= 1
            && forall k :: 0 <= k < |Heard(w.delivered, id)| - 1 ==> !Heard(w.delivered, id)[k].isFinal
  {
    InitialInv(topics);
    RunKeepsInv(Initial(topics), run);
    var w := Run(Initial(topics), run);
    assert Tokens(w, id) <= 1 && InOrder(w, id);
    OrderedEndsAtFinal(ById(w.published, id), ById(w.taken, id), Waiting(w, id), Heard(w.delivered, id),
                       Attached(w, id), Open(w, id));
    hide Routes, Sides, ToAsker, AllAsked, Ordered, InOrder;
  }

  /** While its client is attached and nothing waits in its channel, a request was told all that
      was published for it, up to the final reply: a reply that another thread published after
      the final one is dropped, and only such a reply. */
  lemma AttachedClientMissesNothing(topics: set<Topic>, run: seq<Action>, id: string)
    requires LegalRun(Initial(topics), run)
    requires Attached(Run(Initial(topics), run), id) && Waiting(Run(Initial(topics), run), id) == []
    ensures var w := Run(Initial(topics), run);
            Heard(w.delivered, id) == UpToFinal(ById(w.published, id))
  {
    InitialInv(topics);
    RunKeepsInv(Initial(topics), run);
    var w := Run(Initial(topics), run);
    assert InOrder(w, id);
    assert ById(w.taken, id) + [] == ById(w.taken, id);
  }
}
