/**
 Converting once: over every run in which locks and done keys expire only where that is harmless, the
 core data and each account are converted at most once.
 */
module MigrationOnce {
  import opened Migration
  import opened MigrationProgress
  import opened MigrationExclusion

  // ---- Each thing is converted once -------------------------------------------------------------

  /**
   The action cannot lead to a second conversion. An expiring lock is harmless once the done key is
   set, and before that if nothing has been converted and no running node is about to. An expiring
   done key is harmless only behind a lock that is held by nobody running.
   */
  ghost predicate Harmless(c: Cluster, a: Action) {
    var s := c.shared;
    match a
    case ExpireCoreLock => s.coreDone || (s.coreRuns == 0 && !CoreInUse(c))
    case ExpireCoreDone => !s.coreDone || (s.coreLock && !CoreInUse(c))
    case ExpireLock(p) => p in s.done || (p !in s.runs && !InUse(c, p))
    case ExpireDone(p) => p !in s.done || (p in s.locks && !InUse(c, p))
    case _ => true
  }

  ghost predicate HarmlessRun(conversions: nat, c: Cluster, run: seq<Action>)
    decreases |run|
  {
    run == [] ||
    (Harmless(c, run[0]) &&
     var r := Apply(conversions, c, run[0]);
     r.Next? ==> HarmlessRun(conversions, r.cluster, run[1..]))
  }

  /** What was converted is marked, or still locked. */
  ghost predicate StoreOnce(s: Shared) {
    && s.coreRuns <= 1
    && (s.coreDone ==> s.coreRuns == 1)
    && (s.coreRuns == 1 ==> s.coreDone || s.coreLock)
    && (forall p :: s.runs[p] <= 1)
    && (forall p <- s.done :: p in s.runs)
    && (forall p <- s.runs :: p in s.done || p in s.locks)
  }

  /** What a running node inside a lock knows about what it protects. */
  ghost predicate Knows(s: Shared, pc: Pc) {
    && (pc.CoreCheck? ==> s.coreRuns == 0 || s.coreDone)
    && (pc.CoreMigrating? ==> s.coreRuns == 0)
    && (pc.CoreSetDone? ==> s.coreRuns == 1 && !s.coreDone)
    && (pc.CoreList? || pc.CoreUnlock? ==> s.coreDone)
    && (pc.AccountCheck? ==> pc.account !in s.runs || pc.account in s.done)
    && (pc.AccountMigrating? ==> pc.account !in s.runs)
    && (pc.AccountSetDone? ==> pc.account in s.runs && pc.account !in s.done)
    && (pc.AccountUnlock? ==> pc.account in s.done)
  }

  /** A running node is inside a lock that is held, or no longer needed. */
  ghost predicate NodeOnce(s: Shared, st: NodeState) {
    !st.force &&
    (!st.crashed ==> (HoldsCore(st.pc) ==> s.coreLock || s.coreDone) && Held(st.pc) <= s.locks + s.done && Knows(s, st.pc))
  }

  /** Two running nodes inside one lock: only when it is no longer needed. */
  ghost predicate PairOnce(s: Shared, a: Pc, b: Pc) {
    (HoldsCore(a) && HoldsCore(b) ==> s.coreDone) && Held(a) * Held(b) <= s.done
  }

  ghost predicate Once(c: Cluster) {
    && StoreOnce(c.shared)
    && (forall n <- c.nodes :: NodeOnce(c.shared, c.nodes[n]))
    && (forall n, m :: Running(c, n) && Running(c, m) && n != m ==> PairOnce(c.shared, c.nodes[n].pc, c.nodes[m].pc))
  }

  lemma CoreStepOnce(conversions: nat, s: Shared, st: NodeState, ids: seq<Account>)
    requires StoreOnce(s) && NodeOnce(s, st) && !st.crashed
    requires InCorePhase(st.pc) && CoreStep(conversions, s, st, ids).Move?
    ensures var m := CoreStep(conversions, s, st, ids);
            StoreOnce(m.shared) && NodeOnce(m.shared, m.state)
  {
  }

  lemma MigrateOnce(s: Shared, st: NodeState)
    requires StoreOnce(s) && NodeOnce(s, st) && !st.crashed && st.pc.AccountMigrating?
    ensures var m := AccountStep(s, st);
            StoreOnce(m.shared) && NodeOnce(m.shared, m.state)
  {
    assert st.pc.account in Held(st.pc);
  }

  lemma LoopOnce(s: Shared, st: NodeState)
    requires StoreOnce(s) && NodeOnce(s, st) && !st.crashed && st.pc.Loop?
    ensures var m := AccountStep(s, st);
            m.Move? && StoreOnce(m.shared) && NodeOnce(m.shared, m.state)
  {
  }

  lemma MarkOnce(s: Shared, st: NodeState)
    requires StoreOnce(s) && NodeOnce(s, st) && !st.crashed && (st.pc.AccountSetDone? || st.pc.AccountUnlock?)
    ensures var m := AccountStep(s, st);
            StoreOnce(m.shared) && NodeOnce(m.shared, m.state)
  {
  }

  lemma AccountStepOnce(s: Shared, st: NodeState)
    requires StoreOnce(s) && NodeOnce(s, st) && !st.crashed && AccountStep(s, st).Move?
    ensures var m := AccountStep(s, st);
            StoreOnce(m.shared) && NodeOnce(m.shared, m.state)
  {
    match st.pc
    case Loop(_) => LoopOnce(s, st);
    case AccountMigrating(_, _) => MigrateOnce(s, st);
    case AccountCheck(_, _) =>
    case AccountSetDone(_, _) => MarkOnce(s, st);
    case AccountUnlock(_, _) => MarkOnce(s, st);
    case Finished =>
  }

  /** Another running node stays inside what is held or no longer needed, and what it knows stays true. */
  lemma StepKeepsOnce(conversions: nat, s: Shared, st: NodeState, ids: seq<Account>, other: NodeState)
    requires StoreOnce(s) && NodeOnce(s, st) && NodeOnce(s, other) && !st.crashed && !other.crashed
    requires PairOnce(s, st.pc, other.pc) && NodeStep(conversions, s, st, ids).Move?
    ensures var m := NodeStep(conversions, s, st, ids);
            NodeOnce(m.shared, other) && PairOnce(m.shared, m.state.pc, other.pc) && PairOnce(m.shared, other.pc, m.state.pc)
  {
    if InCorePhase(st.pc) {
      CoreStepKeepsOnce(conversions, s, st, ids, other);
    } else {
      AccountStepKeepsOnce(s, st, other);
    }
    hide CoreStep, AccountStep, NodeOnce, StoreOnce;
  }

  lemma CoreStepKeepsOnce(conversions: nat, s: Shared, st: NodeState, ids: seq<Account>, other: NodeState)
    requires StoreOnce(s) && NodeOnce(s, st) && NodeOnce(s, other) && !st.crashed && !other.crashed
    requires PairOnce(s, st.pc, other.pc) && InCorePhase(st.pc) && CoreStep(conversions, s, st, ids).Move?
    ensures var m := CoreStep(conversions, s, st, ids);
            NodeOnce(m.shared, other) && PairOnce(m.shared, m.state.pc, other.pc)
  {
  }

  lemma AccountStepKeepsOnce(s: Shared, st: NodeState, other: NodeState)
    requires StoreOnce(s) && NodeOnce(s, st) && NodeOnce(s, other) && !st.crashed && !other.crashed
    requires PairOnce(s, st.pc, other.pc) && AccountStep(s, st).Move?
    ensures var m := AccountStep(s, st);
            NodeOnce(m.shared, other) && PairOnce(m.shared, m.state.pc, other.pc)
  {
    assert forall p :: p in Held(st.pc) && p in Held(other.pc) ==> p in s.done;
  }

  lemma NodeStepOnce(conversions: nat, c: Cluster, n: Node, ids: seq<Account>)
    requires Once(c) && Apply(conversions, c, Step(n, ids)).Next?
    ensures Once(Apply(conversions, c, Step(n, ids)).cluster)
  {
    var st := c.nodes[n];
    var c' := Apply(conversions, c, Step(n, ids)).cluster;
    StuckWhenCrashed(conversions, c.shared, st, ids);
    assert Running(c, n);
    hide CoreStep, AccountStep, NodeOnce, StoreOnce, PairOnce;
    if InCorePhase(st.pc) {
      CoreStepOnce(conversions, c.shared, st, ids);
    } else {
      AccountStepOnce(c.shared, st);
    }
    forall m | m in c.nodes && m != n
      ensures NodeOnce(c'.shared, c'.nodes[m])
      ensures Running(c, m) ==> PairOnce(c'.shared, c'.nodes[n].pc, c'.nodes[m].pc)
      ensures Running(c, m) ==> PairOnce(c'.shared, c'.nodes[m].pc, c'.nodes[n].pc)
    {
      if Running(c, m) {
        StepKeepsOnce(conversions, c.shared, st, ids, c.nodes[m]);
      } else {
        DeadIsOnce(c.shared, c'.shared, c.nodes[m]);
      }
    }
    forall i, j | Running(c', i) && Running(c', j) && i != j && i != n && j != n
      ensures PairOnce(c'.shared, c'.nodes[i].pc, c'.nodes[j].pc)
    {
      assert Running(c, i) && Running(c, j);
      DoneLasts(conversions, c.shared, st, ids, c.nodes[i].pc, c.nodes[j].pc);
    }
  }

  lemma DeadIsOnce(s: Shared, s': Shared, st: NodeState)
    requires NodeOnce(s, st) && st.crashed
    ensures NodeOnce(s', st)
  {
  }

  lemma DoneLasts(conversions: nat, s: Shared, st: NodeState, ids: seq<Account>, a: Pc, b: Pc)
    requires PairOnce(s, a, b) && NodeStep(conversions, s, st, ids).Move?
    ensures PairOnce(NodeStep(conversions, s, st, ids).shared, a, b)
  {
    var s' := NodeStep(conversions, s, st, ids).shared;
    assert s.done <= s'.done && (s.coreDone ==> s'.coreDone);
  }

  /** A harmless expiry concerns what is marked, or what no running node is inside of. */
  lemma ExpiryOnce(conversions: nat, c: Cluster, a: Action)
    requires Once(c) && Harmless(c, a) && !a.Step? && !a.Crash? && !a.Restart?
    ensures Once(Apply(conversions, c, a).cluster)
  {
    var c' := Apply(conversions, c, a).cluster;
    assert StoreOnce(c'.shared);
    forall m <- c.nodes
      ensures NodeOnce(c'.shared, c.nodes[m])
    {
      assert NodeOnce(c.shared, c.nodes[m]);
      if Running(c, m) {
        assert a.ExpireLock? || a.ExpireDone? ==> (a.account in Held(c.nodes[m].pc) ==> InUse(c, a.account));
        assert HoldsCore(c.nodes[m].pc) ==> CoreInUse(c);
      }
    }
    hide StoreOnce, NodeOnce;
    forall n, m | Running(c', n) && Running(c', m) && n != m
      ensures PairOnce(c'.shared, c'.nodes[n].pc, c'.nodes[m].pc)
    {
      assert Running(c, n) && Running(c, m) && PairOnce(c.shared, c.nodes[n].pc, c.nodes[m].pc);
      assert a.ExpireDone? ==> (a.account in Held(c.nodes[m].pc) ==> InUse(c, a.account));
      assert HoldsCore(c.nodes[m].pc) ==> CoreInUse(c);
    }
  }

  lemma RestOnce(conversions: nat, c: Cluster, a: Action)
    requires Once(c) && (a.Crash? || a.Restart?) && a.node in c.nodes
    ensures Once(Apply(conversions, c, a).cluster)
  {
    hide StoreOnce;
    var c' := Apply(conversions, c, a).cluster;
    assert NodeOnce(c.shared, c.nodes[a.node]);
    hide Knows;
    assert NodeOnce(c'.shared, c'.nodes[a.node]) by {
      BootKnows(c'.shared);
    }
    hide NodeOnce;
    forall n, m | Running(c', n) && Running(c', m) && n != m
      ensures PairOnce(c'.shared, c'.nodes[n].pc, c'.nodes[m].pc)
    {
      assert c'.nodes[n].pc == Boot || (Running(c, n) && c'.nodes[n] == c.nodes[n]);
      assert c'.nodes[m].pc == Boot || (Running(c, m) && c'.nodes[m] == c.nodes[m]);
    }
  }

  lemma BootKnows(s: Shared)
    ensures Knows(s, Boot)
  {
  }

  lemma ApplyOnce(conversions: nat, c: Cluster, a: Action)
    requires Once(c) && Harmless(c, a) && Apply(conversions, c, a).Next?
    ensures Once(Apply(conversions, c, a).cluster)
  {
    hide Once, Harmless;
    match a
    case Step(n, ids) => NodeStepOnce(conversions, c, n, ids);
    case Crash(_) => RestOnce(conversions, c, a);
    case Restart(_) => RestOnce(conversions, c, a);
    case _ => ExpiryOnce(conversions, c, a);
  }

  lemma {:induction false} ExecOnce(conversions: nat, c: Cluster, run: seq<Action>)
    requires Once(c) && HarmlessRun(conversions, c, run) && Exec(conversions, c, run).Next?
    ensures Once(Exec(conversions, c, run).cluster)
    decreases |run|
  {
    hide Apply, Once, Harmless;
    if run != [] {
      ApplyOnce(conversions, c, run[0]);
      ExecOnce(conversions, Apply(conversions, c, run[0]).cluster, run[1..]);
    }
  }

  /** Nothing converted yet, and no node uses `FORCE_LOCK`; locks may have been left from before. */
  ghost predicate Fresh(c: Cluster) {
    Init(c) && InOrder(c.shared) && c.shared.coreRuns == 0 && c.shared.runs == multiset{} && forall n <- c.nodes :: !c.nodes[n].force
  }

  lemma FreshIsOnce(c: Cluster)
    requires Fresh(c)
    ensures Once(c)
  {
  }

  /**
   Starting with nothing converted, over every run of harmless actions: the core data and each
   account are converted at most once, even by nodes that take over from dead ones, and exactly once
   when a node that listed the account has finished.
   */
  lemma StageConvertsOnce(conversions: nat, c0: Cluster, run: seq<Action>)
    requires Fresh(c0) && HarmlessRun(conversions, c0, run) && Exec(conversions, c0, run).Next?
    ensures var c := Exec(conversions, c0, run).cluster;
            && c.shared.coreRuns <= 1 && (forall p :: c.shared.runs[p] <= 1)
            && (forall n <- c.nodes :: c.nodes[n].pc == Finished ==>
                  c.shared.coreRuns == 1 && forall p <- c.nodes[n].listed :: c.shared.runs[p] == 1)
            && (GentleRun(conversions, c0, run) ==> !Clash(c))
  {
    FreshIsOnce(c0);
    StageIsComplete(conversions, c0, run);
    ExecOnce(conversions, c0, run);
    hide Exec;
    if GentleRun(conversions, c0, run) {
      StageIsExclusive(conversions, c0, run);
    }
  }
}
