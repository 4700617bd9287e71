/** What the state after a run says about the run itself: who asked, which clients are attached,
    and that every reply the server accepted was published once or is about to be. */
module RpcHistory {
  import opened RpcCorrelation
  import M = ReplyMaps

  type Topic = M.Topic
  type Owner = M.Owner

  // ------------------------------------------------------------ who asked

  ghost predicate AskedBy(w: World, id: string, who: Asker) {
    id in w.asked && w.asked[id] == who
  }

  lemma StepAsks(w: World, a: Action, id: string, who: Asker)
    requires Legal(w, a)
    ensures AskedBy(Step(w, a), id, who) <==> AskedBy(w, id, who) || a == RegisterRequest(who.conn, who.client, id)
  {
  }

  lemma {:induction false} AskedIff(w: World, run: seq<Action>, id: string, who: Asker)
    requires LegalRun(w, run)
    ensures AskedBy(Run(w, run), id, who) <==> AskedBy(w, id, who) || RegisterRequest(who.conn, who.client, id) in run
    decreases |run|
  {
    hide Step, Legal;
    if run != [] {
      StepAsks(w, run[0], id, who);
      AskedIff(Step(w, run[0]), run[1..], id, who);
      assert run == [run[0]] + run[1..];
    }
  }

  /** A callback only runs for a client that sent the request the reply is for. */
  lemma EveryCallbackWasAskedFor(topics: set<Topic>, run: seq<Action>)
    requires LegalRun(Initial(topics), run)
    ensures forall d <- Run(Initial(topics), run).delivered ::
              RegisterRequest(d.to.conn, d.to.client, d.reply.id) in run
  {
    var w := Run(Initial(topics), run);
    EveryRunIsSafe(topics, run, "");
    forall d <- w.delivered ensures RegisterRequest(d.to.conn, d.to.client, d.reply.id) in run {
      AskedIff(Initial(topics), run, d.reply.id, d.to);
    }
  }

  // ------------------------------------------------------------ who is attached

  /** The additions and removals of one connection's clients, in order. */
  function Membership(run: seq<Action>, c: Topic): seq<M.SideOp>
    decreases |run|
  {
    if run == [] then [] else MemberOps(run[0], c) + Membership(run[1..], c)
  }

  function MemberOps(a: Action, c: Topic): seq<M.SideOp> {
    match a
    case AddClient(at) => if at == c then [M.JoinOp] else []
    case RemoveClient(at, n) => if at == c then [M.LeaveOp(n)] else []
    case _ => []
  }

  ghost predicate SameMembers(w: World, c: Topic, ops: seq<M.SideOp>) {
    c in w.conns && w.conns[c].clients == M.SideRun(ops).clients && w.conns[c].counter == M.SideRun(ops).counter
  }

  lemma StepMembers(w: World, a: Action, c: Topic, ops: seq<M.SideOp>)
    requires Legal(w, a) && SameMembers(w, c, ops)
    ensures SameMembers(Step(w, a), c, ops + MemberOps(a, c))
  {
    hide M.SideRun, M.Remove, M.Register, M.Finish, M.Receiver;
    assert ops + [] == ops;
    if MemberOps(a, c) != [] {
      M.SideRunSnoc(ops, MemberOps(a, c)[0]);
    }
  }

  lemma {:induction false} RunMembers(w: World, run: seq<Action>, c: Topic, ops: seq<M.SideOp>)
    requires LegalRun(w, run) && SameMembers(w, c, ops)
    ensures SameMembers(Run(w, run), c, ops + Membership(run, c))
    decreases |run|
  {
    hide Step, Legal, SameMembers;
    if run == [] {
      assert ops + Membership(run, c) == ops;
    } else {
      var first := MemberOps(run[0], c);
      StepMembers(w, run[0], c, ops);
      RunMembers(Step(w, run[0]), run[1..], c, ops + first);
      assert (ops + first) + Membership(run[1..], c) == ops + Membership(run, c);
    }
  }

  /** A client of a connection is attached exactly when it was added and not removed since. */
  lemma AttachedIffAdded(topics: set<Topic>, run: seq<Action>, c: Topic, n: Owner)
    requires LegalRun(Initial(topics), run) && c in topics
    ensures c in Run(Initial(topics), run).conns
    ensures n in Run(Initial(topics), run).conns[c].clients <==> M.IsAttached(Membership(run, c), n)
  {
    RunMembers(Initial(topics), run, c, []);
    assert [] + Membership(run, c) == Membership(run, c);
    M.AttachedIff(Membership(run, c), n);
  }

  // ------------------------------------------------------------ accepted replies

  /** How often the run handed this very reply to the server while its request was open. */
  ghost function Accepted(w: World, run: seq<Action>, r: Reply): nat
    requires LegalRun(w, run)
    decreases |run|
  {
    if run == [] then 0
    else
      (if run[0].SendReply? && run[0].reply == r && r.id in w.replyTopics then 1 else 0)
      + Accepted(Step(w, run[0]), run[1..], r)
  }

  ghost function Holding(m: map<nat, Outgoing>, r: Reply): set<nat> {
    set t | t in m && m[t].reply == r
  }

  /** Published already, or held by a thread on its way. */
  ghost function Known(w: World, r: Reply): nat {
    multiset(w.published)[r] + |Holding(w.sendingReplies, r)|
  }

  lemma HoldingMore(m: map<nat, Outgoing>, t: nat, o: Outgoing, r: Reply)
    requires t !in m
    ensures |Holding(m[t := o], r)| == |Holding(m, r)| + if o.reply == r then 1 else 0
  {
    assert Holding(m[t := o], r) == if o.reply == r then Holding(m, r) + {t} else Holding(m, r);
  }

  lemma HoldingLess(m: map<nat, Outgoing>, t: nat, r: Reply)
    requires t in m
    ensures |Holding(m, r)| == |Holding(m - {t}, r)| + if m[t].reply == r then 1 else 0
  {
    assert m == (m - {t})[t := m[t]];
    HoldingMore(m - {t}, t, m[t], r);
  }

  lemma StepKnows(w: World, a: Action, r: Reply)
    requires Legal(w, a)
    ensures Known(Step(w, a), r)
            == Known(w, r) + if a.SendReply? && a.reply == r && r.id in w.replyTopics then 1 else 0
  {
    match a
    case SendReply(t, x) =>
      if x.id in w.replyTopics {
        HoldingMore(w.sendingReplies, t, Outgoing(w.replyTopics[x.id], x), r);
      }
      hide Holding;
    case PublishReply(t) => HoldingLess(w.sendingReplies, t, r); hide Holding;
    case _ => hide Holding;
  }

  /** No reply is lost, invented or published twice, with any number of threads. */
  lemma {:induction false} RepliesConserved(w: World, run: seq<Action>, r: Reply)
    requires LegalRun(w, run)
    ensures Known(Run(w, run), r) == Known(w, r) + Accepted(w, run, r)
    decreases |run|
  {
    hide Step, Legal, Known;
    if run != [] {
      StepKnows(w, run[0], r);
      RepliesConserved(Step(w, run[0]), run[1..], r);
    }
  }

  /** From the start: once no thread is in between, each reply was published exactly as often as
      it was accepted. */
  lemma EveryReplyIsPublished(topics: set<Topic>, run: seq<Action>, r: Reply)
    requires LegalRun(Initial(topics), run) && Run(Initial(topics), run).sendingReplies == map[]
    ensures multiset(Run(Initial(topics), run).published)[r] == Accepted(Initial(topics), run, r)
  {
    RepliesConserved(Initial(topics), run, r);
  }
}
