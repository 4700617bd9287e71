/** The etcd and the Redis chain side by side. */
module BackEnds {
  import opened AppendLog
  import opened EtcdStore
  import E = EtcdRuns
  import C = EtcdChain
  import R = RedisChain

  /** Every legal etcd run, of either layout and any mix of languages, issues commands that are
      legal on Redis too. */
  lemma {:induction false} EtcdCommandsAreLegal(cfg: C.Config, w: E.World, acts: seq<E.Action>)
    requires E.Inv(cfg, w) && E.LegalRun(cfg, w, acts)
    ensures R.LegalRun(cfg.headKey, w.log, E.Commands(acts))
    decreases |acts|
  {
    if acts != [] {
      var a := acts[0];
      E.StepKeepsInv(cfg, w, a);
      EtcdCommandsAreLegal(cfg, E.Step(cfg, w, a), acts[1..]);
      if a.TryAppend? {
        var i :| C.Placed(w.log, w.births, a.cur, i);
        assert OnLog(w.log, a.cur.id);
      }
      if a.FindHead? || a.TryAppend? {
        assert E.Commands(acts)[1..] == E.Commands(acts[1..]);
      } else {
        assert E.Commands(acts) == E.Commands(acts[1..]);
      }
    }
  }

  /** Replaying the commands of an etcd run on an empty Redis gives the same log. */
  lemma ReplayAgrees(cfg: C.Config, acts: seq<E.Action>)
    requires E.LegalRun(cfg, E.FRESH, acts)
    ensures var log := LogRun(cfg.headKey, [], E.Commands(acts));
            var w := E.Run(cfg, E.FRESH, acts);
            && C.Represents(cfg, w.store, log, w.births)
            && R.Represents(cfg.headKey, R.Run(cfg.headKey, map[], E.Commands(acts)), log)
  {
    assert E.Inv(cfg, E.FRESH);
    E.RunRefinesLog(cfg, E.FRESH, acts);
    EtcdCommandsAreLegal(cfg, E.FRESH, acts);
    assert R.Represents(cfg.headKey, map[], []);
    R.RunRefinesLog(cfg.headKey, map[], [], E.Commands(acts));
  }

  /** Step for step: on stores that hold the same log, the three append transactions and the
      Lua script give the same answer. */
  lemma AppendsAgree(cfg: C.Config, lang: C.Language, s: Store, births: seq<nat>, db: R.Db, log: seq<Node>,
                     cur: C.Cursor, newID: string, newData: Data)
    requires C.Represents(cfg, s, log, births) && R.Represents(cfg.headKey, db, log)
    requires C.CursorOk(log, births, cur) && cur.nextID == "" && newID != ""
    ensures Exec(s, C.AppendTxn(cfg, lang, cur, newID, newData)).1.succeeded
            <==> R.AppendAt(db, cur.id, newID, newData).1 != 0
  {
    var i :| C.Placed(log, births, cur, i);
    C.AppendGuard(cfg, lang, s, log, births, cur, i, newID, newData);
    assert OnLog(log, cur.id);
    R.AppendStep(cfg.headKey, db, log, cur.id, newID, newData);
  }
}
