/** The pair of maps that correlates request ids with their owners: a socket server's
    connections, or the clients of a Redis or RabbitMQ connection. */
module ReplyMaps {
  import opened Wrappers

  type Owner = nat

  datatype Maps = Maps(owner: map<string, Owner>, ids: map<Owner, set<string>>)

  const EMPTY := Maps(map[], map[])

  function IdsOf(m: Maps, o: Owner): set<string> {
    if o in m.ids then m.ids[o] else {}
  }

  /** The forward entry moves to the new owner; an earlier owner keeps the id in its set. */
  function Register(m: Maps, id: string, o: Owner): Maps {
    Maps(m.owner[id := o], m.ids[o := IdsOf(m, o) + {id}])
  }

  /** A final reply: the id is forgotten on both sides. */
  function Finish(m: Maps, id: string): Maps {
    if id !in m.owner then m
    else
      var o := m.owner[id];
      Maps(m.owner - {id}, if o in m.ids then m.ids[o := m.ids[o] - {id}] else m.ids)
  }

  function Remove(m: Maps, o: Owner): Maps {
    Maps(m.owner - IdsOf(m, o), m.ids - {o})
  }

  datatype Op = RegisterOp(id: string, o: Owner) | FinishOp(id: string) | RemoveOp(o: Owner)

  function Apply(m: Maps, op: Op): Maps {
    match op
    case RegisterOp(id, o) => Register(m, id, o)
    case FinishOp(id) => Finish(m, id)
    case RemoveOp(o) => Remove(m, o)
  }

  function Run(m: Maps, ops: seq<Op>): Maps
    decreases |ops|
  {
    if ops == [] then m else Run(Apply(m, ops[0]), ops[1..])
  }

  /** Every id in the forward map is in its owner's set. */
  ghost predicate Consistent(m: Maps) {
    forall id <- m.owner :: id in IdsOf(m, m.owner[id])
  }

  lemma ApplyKeepsConsistent(m: Maps, op: Op)
    requires Consistent(m)
    ensures Consistent(Apply(m, op))
  {
    var m' := Apply(m, op);
    forall id <- m'.owner ensures id in IdsOf(m', m'.owner[id]) {
      if op.RemoveOp? { assert id !in IdsOf(m, op.o); }
    }
  }

  lemma {:induction false} RunKeepsConsistent(m: Maps, ops: seq<Op>)
    requires Consistent(m)
    ensures Consistent(Run(m, ops))
    decreases |ops|
  {
    if ops != [] {
      ApplyKeepsConsistent(m, ops[0]);
      RunKeepsConsistent(Apply(m, ops[0]), ops[1..]);
    }
  }

  lemma {:induction false} RunSnoc(m: Maps, ops: seq<Op>, op: Op)
    ensures Run(m, ops + [op]) == Apply(Run(m, ops), op)
    decreases |ops|
  {
    if ops == [] {
      assert [op][1..] == [] && ops + [op] == [op];
    } else {
      assert (ops + [op])[1..] == ops[1..] + [op];
      RunSnoc(Apply(m, ops[0]), ops[1..], op);
    }
  }

  /** The `j`-th operation takes the id off the owner's list: the owner goes away, or the final
      reply goes to it. */
  ghost predicate Releases(ops: seq<Op>, j: nat, id: string, o: Owner)
    requires j < |ops|
  {
    || ops[j] == RemoveOp(o)
    || (ops[j] == FinishOp(id) && Owns(Run(EMPTY, ops[..j]), id, o))
  }

  predicate Owns(m: Maps, id: string, o: Owner) {
    id in m.owner && m.owner[id] == o
  }

  /** In the history `ops` the owner registered the id, at `k`, and did not let go of it since. */
  ghost predicate HeldSince(ops: seq<Op>, k: nat, id: string, o: Owner) {
    k < |ops| && ops[k] == RegisterOp(id, o) && forall j :: k < j < |ops| ==> !Releases(ops, j, id, o)
  }

  ghost predicate StillHeld(ops: seq<Op>, id: string, o: Owner) {
    exists k :: HeldSince(ops, k, id, o)
  }

  lemma StillHeldSnoc(ops: seq<Op>, op: Op, id: string, o: Owner)
    ensures StillHeld(ops + [op], id, o)
            <==> op == RegisterOp(id, o) || (StillHeld(ops, id, o) && !Releases(ops + [op], |ops|, id, o))
  {
    var all := ops + [op];
    forall j | 0 <= j < |ops| ensures Releases(all, j, id, o) == Releases(ops, j, id, o) {
      assert all[..j] == ops[..j];
    }
    if op == RegisterOp(id, o) {
      assert HeldSince(all, |ops|, id, o);
    }
    if StillHeld(all, id, o) && op != RegisterOp(id, o) {
      var k :| HeldSince(all, k, id, o);
      assert HeldSince(ops, k, id, o);
      assert !Releases(all, |ops|, id, o);
    }
    if StillHeld(ops, id, o) && !Releases(all, |ops|, id, o) {
      var k :| HeldSince(ops, k, id, o);
      assert HeldSince(all, k, id, o);
    }
  }

  /** An owner's set holds exactly the ids that it registered and did not let go of. */
  lemma {:induction false} ListedIffStillHeld(ops: seq<Op>, id: string, o: Owner)
    ensures id in IdsOf(Run(EMPTY, ops), o) <==> StillHeld(ops, id, o)
    decreases |ops|
  {
    if ops != [] {
      var init, op := ops[..|ops| - 1], ops[|ops| - 1];
      assert ops == init + [op] && ops[..|init|] == init;
      RunSnoc(EMPTY, init, op);
      RunKeepsConsistent(EMPTY, init);
      ListedIffStillHeld(init, id, o);
      StillHeldSnoc(init, op, id, o);
      ListedAfter(Run(EMPTY, init), op, id, o);
    }
  }

  /** How one operation changes an owner's set. */
  lemma ListedAfter(m: Maps, op: Op, id: string, o: Owner)
    ensures id in IdsOf(Apply(m, op), o)
            <==> op == RegisterOp(id, o)
                 || (id in IdsOf(m, o) && op != RemoveOp(o) && !(op == FinishOp(id) && Owns(m, id, o)))
  {
  }

  /** The `j`-th operation takes the id away from whoever has it: it is registered again, its final
      reply comes, or an owner goes away that still holds a registration of it. */
  ghost predicate Unsettles(ops: seq<Op>, j: nat, id: string)
    requires j < |ops|
  {
    match ops[j]
    case RegisterOp(i, _) => i == id
    case FinishOp(i) => i == id
    case RemoveOp(p) => StillHeld(ops[..j], id, p)
  }

  ghost predicate OwnedSince(ops: seq<Op>, k: nat, id: string, o: Owner) {
    k < |ops| && ops[k] == RegisterOp(id, o) && forall j :: k < j < |ops| ==> !Unsettles(ops, j, id)
  }

  lemma OwnedSnoc(ops: seq<Op>, op: Op, id: string, o: Owner)
    ensures (exists k: nat :: OwnedSince(ops + [op], k, id, o))
            <==> op == RegisterOp(id, o)
                 || ((exists k: nat :: OwnedSince(ops, k, id, o)) && !Unsettles(ops + [op], |ops|, id))
  {
    var all := ops + [op];
    forall j | 0 <= j < |ops| ensures Unsettles(all, j, id) == Unsettles(ops, j, id) {
      assert all[..j] == ops[..j];
    }
    hide Unsettles;
    if op == RegisterOp(id, o) {
      assert OwnedSince(all, |ops|, id, o);
    } else {
      forall k: nat | OwnedSince(all, k, id, o) ensures OwnedSince(ops, k, id, o) && !Unsettles(all, |ops|, id) {
      }
      forall k: nat | OwnedSince(ops, k, id, o) && !Unsettles(all, |ops|, id) ensures OwnedSince(all, k, id, o) {
      }
    }
  }

  /** Replies for an id go to the owner that registered it last, until its final reply comes or an
      owner goes away that still holds a registration of it. */
  lemma {:induction false} OwnerIff(ops: seq<Op>, id: string, o: Owner)
    ensures Owns(Run(EMPTY, ops), id, o) <==> exists k: nat :: OwnedSince(ops, k, id, o)
    decreases |ops|
  {
    if ops != [] {
      var init, op := ops[..|ops| - 1], ops[|ops| - 1];
      assert ops == init + [op] && ops[..|init|] == init;
      RunSnoc(EMPTY, init, op);
      OwnerIff(init, id, o);
      OwnedSnoc(init, op, id, o);
      if op.RemoveOp? { ListedIffStillHeld(init, id, op.o); }
      hide OwnedSince, StillHeld, Run;
    }
  }

  /** Whatever was done before, with or without repeated ids: after an owner is removed no id
      leads to it any more; and an id of another owner is forgotten too if and only if the
      removed owner had registered that id and since then neither went away nor got its final
      reply. All others stay as they were. */
  lemma RemovedOwnerIsGone(ops: seq<Op>, o: Owner)
    ensures var m := Run(EMPTY, ops);
            var m' := Remove(m, o);
            && Consistent(m')
            && (forall id <- m'.owner :: m'.owner[id] != o && id in m.owner && m'.owner[id] == m.owner[id])
            && (forall id <- m.owner :: id !in m'.owner <==> StillHeld(ops, id, o))
  {
    RunKeepsConsistent(EMPTY, ops);
    ApplyKeepsConsistent(Run(EMPTY, ops), RemoveOp(o));
    var m := Run(EMPTY, ops);
    forall id <- m.owner ensures id !in Remove(m, o).owner <==> StillHeld(ops, id, o) {
      ListedIffStillHeld(ops, id, o);
    }
  }

  /** The case a caller must avoid: an id registered again by a second owner is lost to it when
      the first owner goes away. */
  lemma RepeatedIdIsLost(id: string)
    ensures var m := Run(EMPTY, [RegisterOp(id, 1), RegisterOp(id, 2)]);
            m.owner[id := 2] == m.owner && id !in Remove(m, 1).owner
  {
    var ops := [RegisterOp(id, 1), RegisterOp(id, 2)];
    assert ops[1..] == [RegisterOp(id, 2)] && ops[1..][1..] == [];
    var m1 := Register(EMPTY, id, 1);
    assert Run(m1, ops[1..]) == Register(m1, id, 2);
    assert Run(EMPTY, ops) == Register(m1, id, 2);
  }

  /** No id is registered by an owner while another owner holds it. */
  ghost predicate NoTakeover(m: Maps, ops: seq<Op>)
    decreases |ops|
  {
    ops != [] ==>
      && (ops[0].RegisterOp? && ops[0].id in m.owner ==> m.owner[ops[0].id] == ops[0].o)
      && NoTakeover(Apply(m, ops[0]), ops[1..])
  }

  /** The two maps are inverse to each other. */
  ghost predicate Exact(m: Maps) {
    && Consistent(m)
    && forall o <- m.ids, id <- m.ids[o] :: id in m.owner && m.owner[id] == o
  }

  lemma ApplyKeepsExact(m: Maps, op: Op)
    requires Exact(m) && NoTakeover(m, [op])
    ensures Exact(Apply(m, op))
  {
    ApplyKeepsConsistent(m, op);
    var m' := Apply(m, op);
    forall o <- m'.ids, id <- m'.ids[o] ensures id in m'.owner && m'.owner[id] == o {
      if o in m.ids && id in m.ids[o] {
        assert m.owner[id] == o;
      }
    }
  }

  /** Without takeovers the maps stay exact. */
  lemma {:induction false} NoTakeoverIsExact(m: Maps, ops: seq<Op>)
    requires Exact(m) && NoTakeover(m, ops)
    ensures Exact(Run(m, ops))
    decreases |ops|
  {
    if ops != [] {
      ApplyKeepsExact(m, ops[0]);
      NoTakeoverIsExact(Apply(m, ops[0]), ops[1..]);
    }
  }

  /** Then a removal forgets the ids of that owner, and changes nothing else. */
  lemma RemoveIsLocal(ops: seq<Op>, o: Owner)
    requires NoTakeover(EMPTY, ops)
    ensures var m := Run(EMPTY, ops);
            && Exact(m) && Exact(Remove(m, o))
            && Remove(m, o).owner == (map id | id in m.owner && m.owner[id] != o :: m.owner[id])
            && forall p :: p != o ==> IdsOf(Remove(m, o), p) == IdsOf(m, p)
  {
    NoTakeoverIsExact(EMPTY, ops);
    ApplyKeepsExact(Run(EMPTY, ops), RemoveOp(o));
  }

  /** The loop that erases an owner's ids one by one from the forward map. */
  method EraseAll(owner: map<string, Owner>, ids: set<string>) returns (rest: map<string, Owner>)
    ensures rest == owner - ids
  {
    rest := owner;
    var todo := ids;
    while todo != {}
      invariant todo <= ids
      invariant rest == owner - (ids - todo)
      decreases todo
    {
      var id :| id in todo;
      rest := rest - {id};
      todo := todo - {id};
    }
  }

  /** The server side of socket RPC: a connection registers its request ids, a reply finds its
      connection, and a closed connection takes its ids along. */
  class SocketServer {
    var replySocketMap: map<string, Owner>
    var reverseReplySocketMap: map<Owner, set<string>>

    ghost function M(): Maps
      reads this
    {
      Maps(replySocketMap, reverseReplySocketMap)
    }

    constructor ()
      ensures M() == EMPTY
    {
      replySocketMap, reverseReplySocketMap := map[], map[];
    }

    method RegisterConnection(id: string, conn: Owner)
      modifies this
      ensures M() == Register(old(M()), id, conn)
    {
      replySocketMap := replySocketMap[id := conn];
      var known := if conn in reverseReplySocketMap then reverseReplySocketMap[conn] else {};
      reverseReplySocketMap := reverseReplySocketMap[conn := known + {id}];
    }

    method RemoveConnection(conn: Owner)
      requires Consistent(M())
      modifies this
      ensures M() == Remove(old(M()), conn)
      ensures Consistent(M()) && forall id <- replySocketMap :: replySocketMap[id] != conn
    {
      ApplyKeepsConsistent(M(), RemoveOp(conn));
      if conn in reverseReplySocketMap {
        replySocketMap := EraseAll(replySocketMap, reverseReplySocketMap[conn]);
        reverseReplySocketMap := reverseReplySocketMap - {conn};
      }
    }

    /** The connection that the reply goes to; none for an unknown or finished id. */
    method SendReply(isFinal: bool, id: string) returns (to: Option<Owner>)
      modifies this
      ensures to == if id in old(M()).owner then Some(old(M()).owner[id]) else None
      ensures M() == if isFinal then Finish(old(M()), id) else old(M())
    {
      if id !in replySocketMap {
        return None;
      }
      var conn := replySocketMap[id];
      to := Some(conn);
      if isFinal {
        if conn in reverseReplySocketMap {
          reverseReplySocketMap := reverseReplySocketMap[conn := reverseReplySocketMap[conn] - {id}];
        }
        replySocketMap := replySocketMap - {id};
      }
    }
  }

  type Topic = nat

  /** What a Redis or RabbitMQ client connection keeps under its lock: the numbers handed out so
      far, the clients still attached, and the two maps. */
  datatype ClientSide = ClientSide(counter: nat, clients: set<Owner>, maps: Maps)

  const NOBODY := ClientSide(0, {}, EMPTY)

  function Joined(s: ClientSide): ClientSide {
    s.(counter := s.counter + 1, clients := s.clients + {s.counter + 1})
  }

  function Left(s: ClientSide, number: Owner): ClientSide {
    s.(clients := s.clients - {number}, maps := Remove(s.maps, number))
  }

  function Asking(s: ClientSide, number: Owner, id: string): ClientSide {
    s.(maps := Register(s.maps, id, number))
  }

  /** The client whose callback runs for a reply, if its id is known and the client is still
      attached. */
  function Receiver(s: ClientSide, id: string): Option<Owner> {
    if id in s.maps.owner && s.maps.owner[id] in s.clients then Some(s.maps.owner[id]) else None
  }

  function Replied(s: ClientSide, isFinal: bool, id: string): ClientSide {
    if isFinal then s.(maps := Finish(s.maps, id)) else s
  }

  ghost predicate SideOk(s: ClientSide) {
    Consistent(s.maps) && forall c <- s.clients :: c <= s.counter
  }

  datatype SideOp =
    | JoinOp
    | LeaveOp(number: Owner)
    | AskOp(number: Owner, id: string)
    | ReplyOp(isFinal: bool, id: string)

  function SideAfter(s: ClientSide, op: SideOp): ClientSide {
    match op
    case JoinOp => Joined(s)
    case LeaveOp(number) => Left(s, number)
    case AskOp(number, id) => Asking(s, number, id)
    case ReplyOp(isFinal, id) => Replied(s, isFinal, id)
  }

  function SideRun(ops: seq<SideOp>): ClientSide {
    if ops == [] then NOBODY else SideAfter(SideRun(ops[..|ops| - 1]), ops[|ops| - 1])
  }

  function Joins(ops: seq<SideOp>): nat {
    if ops == [] then 0 else Joins(ops[..|ops| - 1]) + if ops[|ops| - 1].JoinOp? then 1 else 0
  }

  /** The client was added at `k`, with this number, and not removed since. */
  ghost predicate AttachedSince(ops: seq<SideOp>, k: nat, n: Owner) {
    && k < |ops| && ops[k] == JoinOp && n == Joins(ops[..k]) + 1
    && forall j :: k < j < |ops| ==> ops[j] != LeaveOp(n)
  }

  ghost predicate IsAttached(ops: seq<SideOp>, n: Owner) {
    exists k: nat :: AttachedSince(ops, k, n)
  }

  lemma AttachedSnoc(ops: seq<SideOp>, op: SideOp, n: Owner)
    ensures IsAttached(ops + [op], n)
            <==> (op == JoinOp && n == Joins(ops) + 1) || (IsAttached(ops, n) && op != LeaveOp(n))
  {
    var all := ops + [op];
    assert all[..|ops|] == ops && all[|ops|] == op;
    if op == JoinOp && n == Joins(ops) + 1 {
      assert AttachedSince(all, |ops|, n);
    }
    forall k: nat | AttachedSince(ops, k, n) && op != LeaveOp(n) ensures AttachedSince(all, k, n) {
      assert all[..k] == ops[..k];
    }
    forall k: nat | AttachedSince(all, k, n) && k < |ops| ensures AttachedSince(ops, k, n) && op != LeaveOp(n) {
      assert all[..k] == ops[..k] && all[k] == ops[k];
      assert forall j :: k < j < |ops| ==> all[j] == ops[j];
    }
  }

  /** A client is attached exactly when it was added and not removed since; numbers count up. */
  lemma {:induction false} AttachedIff(ops: seq<SideOp>, n: Owner)
    ensures n in SideRun(ops).clients <==> IsAttached(ops, n)
    ensures SideRun(ops).counter == Joins(ops)
    decreases |ops|
  {
    if ops != [] {
      var init, op := ops[..|ops| - 1], ops[|ops| - 1];
      assert ops == init + [op];
      AttachedIff(init, n);
      AttachedSnoc(init, op, n);
      hide IsAttached;
    }
  }

  lemma EveryAttached(ops: seq<SideOp>)
    ensures forall n: Owner :: n in SideRun(ops).clients <==> IsAttached(ops, n)
  {
    forall n: Owner ensures n in SideRun(ops).clients <==> IsAttached(ops, n) {
      AttachedIff(ops, n);
    }
  }

  lemma RemoveAtOnce(m: Maps, o: Owner)
    ensures Remove(m, o) == if o in m.ids then Maps(m.owner - m.ids[o], m.ids - {o}) else m
  {
  }

  lemma LeavingKeepsSideOk(s: ClientSide, number: Owner)
    requires SideOk(s)
    ensures var t := Left(s, number); SideOk(t) && forall id <- t.maps.owner :: t.maps.owner[id] != number
  {
    ApplyKeepsConsistent(s.maps, RemoveOp(number));
  }

  lemma SideRunSnoc(ops: seq<SideOp>, op: SideOp)
    ensures SideRun(ops + [op]) == SideAfter(SideRun(ops), op)
  {
    assert (ops + [op])[..|ops|] == ops;
  }

  class ClientConnection {
    var clientCounter: nat
    var clients: set<Owner>
    var clientToIDMap: map<Owner, set<string>>
    var idToClientMap: map<string, Owner>
    // Everything that was done, in order.
    ghost var ops: seq<SideOp>

    ghost function Side(): ClientSide
      reads this
    {
      ClientSide(clientCounter, clients, Maps(idToClientMap, clientToIDMap))
    }

    ghost predicate Valid()
      reads this
    {
      SideOk(Side()) && Side() == SideRun(ops)
    }

    constructor ()
      ensures Valid() && ops == [] && Side() == NOBODY
    {
      clientCounter, clients, clientToIDMap, idToClientMap := 0, {}, map[], map[];
      ops := [];
    }

    ghost method Record(op: SideOp, was: ClientSide)
      requires was == SideRun(ops) && SideOk(Side()) && Side() == SideAfter(was, op)
      modifies this`ops
      ensures Valid() && ops == old(ops) + [op]
      ensures forall n: Owner :: n in clients <==> IsAttached(ops, n)
    {
      SideRunSnoc(ops, op);
      ops := ops + [op];
      EveryAttached(ops);
      hide IsAttached, SideAfter, SideRun;
    }

    method AddClient() returns (number: Owner)
      requires Valid()
      modifies this
      ensures Valid() && ops == old(ops) + [JoinOp] && Side() == Joined(old(Side()))
      ensures number !in old(clients) && clients == old(clients) + {number}
      ensures idToClientMap == old(idToClientMap) && clientToIDMap == old(clientToIDMap)
    {
      ghost var was := Side();
      clientCounter := clientCounter + 1;
      clients := clients + {clientCounter};
      number := clientCounter;
      Record(JoinOp, was);
    }

    /** Afterwards the client is gone, no id leads to it, and no other client is affected. */
    method RemoveClient(number: Owner) returns (left: nat)
      requires Valid()
      modifies this
      ensures Valid() && ops == old(ops) + [LeaveOp(number)] && Side() == Left(old(Side()), number)
      ensures clients == old(clients) - {number} && left == |clients|
      ensures forall n: Owner :: n in clients <==> IsAttached(ops, n)
      ensures forall id <- idToClientMap :: idToClientMap[id] != number
    {
      ghost var was := Side();
      LeavingKeepsSideOk(was, number);
      RemoveAtOnce(was.maps, number);
      hide SideOk, SideRun, Consistent, IsAttached, Remove;
      if number in clientToIDMap {
        idToClientMap := EraseAll(idToClientMap, clientToIDMap[number]);
        clientToIDMap := clientToIDMap - {number};
      }
      clients := clients - {number};
      left := |clients|;
      Record(LeaveOp(number), was);
    }

    /** The registration that precedes the publication of a request. */
    method SendRequest(number: Owner, id: string)
      requires Valid()
      modifies this
      ensures Valid() && ops == old(ops) + [AskOp(number, id)] && Side() == Asking(old(Side()), number, id)
      ensures clients == old(clients)
      ensures id in idToClientMap && idToClientMap[id] == number
      ensures number in clientToIDMap && id in clientToIDMap[number]
    {
      ghost var was := Side();
      ApplyKeepsConsistent(Side().maps, RegisterOp(id, number));
      var known := if number in clientToIDMap then clientToIDMap[number] else {};
      clientToIDMap := clientToIDMap[number := known + {id}];
      idToClientMap := idToClientMap[id := number];
      Record(AskOp(number, id), was);
    }

    /** A reply arrives; `to` is the client whose callback runs. */
    method OnReply(isFinal: bool, id: string) returns (to: Option<Owner>)
      requires Valid()
      modifies this
      ensures Valid() && ops == old(ops) + [ReplyOp(isFinal, id)] && Side() == Replied(old(Side()), isFinal, id)
      ensures clients == old(clients)
      ensures forall n :: to == Some(n) <==> id in old(idToClientMap) && old(idToClientMap)[id] == n && n in clients
      ensures isFinal ==> id !in idToClientMap
      ensures to == Receiver(old(Side()), id)
    {
      ghost var was := Side();
      to := None;
      if id in idToClientMap {
        var number := idToClientMap[id];
        if number in clients {
          to := Some(number);
        }
        if isFinal {
          ApplyKeepsConsistent(Side().maps, FinishOp(id));
          assert id in clientToIDMap[number];
          clientToIDMap := clientToIDMap[number := clientToIDMap[number] - {id}];
          idToClientMap := idToClientMap - {id};
        }
      }
      Record(ReplyOp(isFinal, id), was);
    }
  }

  type Topics = map<string, Topic>

  /** The server side of Redis and RabbitMQ RPC: where each open request wants its replies. */
  function Opened(topics: Topics, id: string, topic: Topic): Topics {
    topics[id := topic]
  }

  function Destination(topics: Topics, id: string): Option<Topic> {
    if id in topics then Some(topics[id]) else None
  }

  function Answered(topics: Topics, isFinal: bool, id: string): Topics {
    if isFinal then topics - {id} else topics
  }

  datatype Call = Requested(id: string, topic: Topic) | Reply(isFinal: bool, id: string)

  function After(topics: Topics, c: Call): Topics {
    match c
    case Requested(id, topic) => Opened(topics, id, topic)
    case Reply(isFinal, id) => Answered(topics, isFinal, id)
  }

  function AfterAll(calls: seq<Call>): Topics {
    if calls == [] then map[] else After(AfterAll(calls[..|calls| - 1]), calls[|calls| - 1])
  }

  /** The request at `k` asked for replies at this topic, and neither the same id was requested
      again nor its final reply was sent since. */
  ghost predicate OpenSince(calls: seq<Call>, k: nat, id: string, topic: Topic) {
    && k < |calls| && calls[k] == Requested(id, topic)
    && forall j :: k < j < |calls| ==> !(calls[j].id == id && (calls[j].Requested? || calls[j].isFinal))
  }

  ghost predicate IsOpen(calls: seq<Call>, id: string, topic: Topic) {
    exists k :: OpenSince(calls, k, id, topic)
  }

  /** A reply is published exactly while its request is open, and to the topic that asked last. */
  lemma {:induction false} DestinationIff(calls: seq<Call>, id: string, topic: Topic)
    ensures Destination(AfterAll(calls), id) == Some(topic) <==> IsOpen(calls, id, topic)
    decreases |calls|
  {
    if calls != [] {
      var init, c := calls[..|calls| - 1], calls[|calls| - 1];
      assert calls == init + [c];
      DestinationIff(init, id, topic);
      if c == Requested(id, topic) {
        assert OpenSince(calls, |init|, id, topic);
      }
      if IsOpen(calls, id, topic) && c != Requested(id, topic) {
        var k :| OpenSince(calls, k, id, topic);
        assert OpenSince(init, k, id, topic);
      }
      if IsOpen(init, id, topic) && !(c.id == id && (c.Requested? || c.isFinal)) {
        var k :| OpenSince(init, k, id, topic);
        assert OpenSince(calls, k, id, topic);
      }
    }
  }

  lemma EveryDestination(calls: seq<Call>, id: string)
    ensures forall t: Topic :: Destination(AfterAll(calls), id) == Some(t) <==> IsOpen(calls, id, t)
  {
    forall t: Topic ensures Destination(AfterAll(calls), id) == Some(t) <==> IsOpen(calls, id, t) {
      DestinationIff(calls, id, t);
    }
  }

  class ServerConnection {
    var replyTopicMap: Topics
    // All requests received and replies asked for, in order.
    ghost var calls: seq<Call>

    ghost predicate Valid()
      reads this
    {
      replyTopicMap == AfterAll(calls)
    }

    constructor ()
      ensures Valid() && calls == []
    {
      replyTopicMap, calls := map[], [];
    }

    method OnRequest(id: string, topic: Topic)
      requires Valid()
      modifies this
      ensures Valid() && calls == old(calls) + [Requested(id, topic)]
      ensures replyTopicMap == Opened(old(replyTopicMap), id, topic)
    {
      replyTopicMap := replyTopicMap[id := topic];
      Record(Requested(id, topic));
    }

    /** The lock region of a reply: where to publish it. There is such a place exactly while the
        request is open, and a final reply closes it. */
    method SendReply(isFinal: bool, id: string) returns (topic: Option<Topic>)
      requires Valid()
      modifies this
      ensures Valid() && calls == old(calls) + [Reply(isFinal, id)]
      ensures forall t: Topic :: topic == Some(t) <==> IsOpen(old(calls), id, t)
      ensures isFinal ==> forall t: Topic :: !IsOpen(calls, id, t)
      ensures topic == Destination(old(replyTopicMap), id)
      ensures replyTopicMap == Answered(old(replyTopicMap), isFinal, id)
    {
      hide AfterAll, IsOpen;
      EveryDestination(calls, id);
      topic := None;
      if id in replyTopicMap {
        topic := Some(replyTopicMap[id]);
        if isFinal {
          replyTopicMap := replyTopicMap - {id};
        }
      }
      assert replyTopicMap == Answered(old(replyTopicMap), isFinal, id);
      Record(Reply(isFinal, id));
      EveryDestination(calls, id);
    }

    ghost method Record(c: Call)
      requires replyTopicMap == After(AfterAll(calls), c)
      modifies this`calls
      ensures Valid() && calls == old(calls) + [c]
    {
      assert (calls + [c])[..|calls|] == calls;
      calls := calls + [c];
    }
  }
}
