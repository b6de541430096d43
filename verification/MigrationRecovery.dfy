/**
 Recovery. From every state of the cluster, with any nodes dead and any locks left behind, restarts
 and the expiry of the locks nobody is inside of let every node return.
 */
module MigrationRecovery {
  import opened Migration
  import opened MigrationProgress
  import opened MigrationExclusion

  /** A continuation in which no lock expires under a running node. */
  ghost predicate GentlyLeads(conversions: nat, c: Cluster, c': Cluster) {
    exists run :: GentleRun(conversions, c, run) && Exec(conversions, c, run) == Next(c')
  }

  lemma GentlySelf(conversions: nat, c: Cluster)
    ensures GentlyLeads(conversions, c, c)
  {
    ExecNothing(conversions, c);
    hide Exec;
    assert GentleRun(conversions, c, []);
  }

  lemma GentlyChain(conversions: nat, a: Cluster, b: Cluster, c: Cluster)
    requires GentlyLeads(conversions, a, b) && GentlyLeads(conversions, b, c)
    ensures GentlyLeads(conversions, a, c)
  {
    hide Exec, GentleRun;
    var x :| GentleRun(conversions, a, x) && Exec(conversions, a, x) == Next(b);
    var y :| GentleRun(conversions, b, y) && Exec(conversions, b, y) == Next(c);
    ExecAppend(conversions, a, x, y);
    GentleAppend(conversions, a, x, y);
  }

  lemma GentlyOne(conversions: nat, c: Cluster, a: Action, c': Cluster)
    requires Gentle(c, a) && Apply(conversions, c, a) == Next(c')
    ensures GentlyLeads(conversions, c, c')
  {
    hide Exec, Apply, GentleRun;
    ExecOne(conversions, c, a);
    GentleOne(conversions, c, a);
  }

  lemma GentlyLed(conversions: nat, c: Cluster, c': Cluster)
    requires Leads(conversions, c, c')
    ensures GentlyLeads(conversions, c, c')
  {
    hide Exec, GentleRun;
    var run :| OnlySteps(run) && Exec(conversions, c, run) == Next(c');
    GentleSteps(conversions, c, run);
  }

  /** Every dead node is restarted. */
  lemma {:induction false} AllRestart(conversions: nat, c: Cluster, todo: set<Node>) returns (c': Cluster)
    requires todo <= c.nodes.Keys && forall n <- c.nodes :: n !in todo ==> !c.nodes[n].crashed
    ensures GentlyLeads(conversions, c, c') && c'.nodes.Keys == c.nodes.Keys && NoneCrashed(c')
    decreases |todo|
  {
    hide GentlyLeads;
    if todo == {} {
      c' := c;
      GentlySelf(conversions, c);
    } else {
      var n :| n in todo;
      var c1 := Apply(conversions, c, Restart(n)).cluster;
      GentlyOne(conversions, c, Restart(n), c1);
      c' := AllRestart(conversions, c1, todo - {n});
      GentlyChain(conversions, c, c1, c');
    }
  }

  /** Nobody is inside a lock, so each may expire. */
  lemma {:induction false} AllExpire(conversions: nat, c: Cluster, todo: set<Account>) returns (c': Cluster)
    requires c.shared.locks <= todo && forall n <- c.nodes :: Outside(c.nodes[n].pc)
    ensures GentlyLeads(conversions, c, c') && c'.nodes == c.nodes && c'.shared.locks == {} && !c'.shared.coreLock
    decreases |todo|
  {
    hide GentlyLeads;
    if todo == {} {
      c' := CoreExpired(c);
      GentlyOne(conversions, c, ExpireCoreLock, c');
    } else {
      var p :| p in todo;
      var c1 := Expired(c, p);
      GentlyOne(conversions, c, ExpireLock(p), c1);
      c' := AllExpire(conversions, c1, todo - {p});
      GentlyChain(conversions, c, c1, c');
    }
  }

  /**
   From every state whatever, however many nodes are dead and whatever locks and keys they left,
   with `FORCE_LOCK` or without, and whatever the listings return: restarting the dead nodes and
   letting locks expire that nobody running is inside of, every node can be brought to its return
   with no lock left.
   */
  lemma StageCanRecover(conversions: nat, c: Cluster, ids: seq<Account>) returns (c': Cluster)
    requires Listing(ids)
    ensures GentlyLeads(conversions, c, c') && c'.nodes.Keys == c.nodes.Keys
    ensures !c'.shared.coreLock && c'.shared.locks == {}
    ensures forall n <- c'.nodes :: c'.nodes[n].pc == Returned && !c'.nodes[n].crashed
  {
    hide GentlyLeads, Leads;
    var c1 := AllRestart(conversions, c, c.nodes.Keys);
    var c2 := AllLeave(conversions, c1, c1.nodes.Keys, ids);
    GentlyLed(conversions, c1, c2);
    GentlyChain(conversions, c, c1, c2);
    var c3 := AllExpire(conversions, c2, c2.shared.locks);
    GentlyChain(conversions, c, c2, c3);
    assert Finishing(c3, c3.nodes.Keys);
    c' := AllFinish(conversions, c3, c3.nodes.Keys, ids);
    GentlyLed(conversions, c3, c');
    GentlyChain(conversions, c, c3, c');
  }
}
