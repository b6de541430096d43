/**
 Progress of the migration stages: what one node can do by itself, why no lock is left behind while
 no node crashes, and that the whole cluster can then always finish.
 */
module MigrationProgress {
  import opened Migration

  // ---- Runs of one node, and joining runs ---------------------------------------------------

  lemma {:induction false} ExecAppend(conversions: nat, c: Cluster, a: seq<Action>, b: seq<Action>)
    requires Exec(conversions, c, a).Next?
    ensures Exec(conversions, c, a + b) == Exec(conversions, Exec(conversions, c, a).cluster, b)
    decreases |a|
  {
    hide Apply;
    if a == [] {
      assert a + b == b;
    } else {
      assert (a + b)[1..] == a[1..] + b;
      ExecAppend(conversions, Apply(conversions, c, a[0]).cluster, a[1..], b);
    }
  }

  lemma ExecNothing(conversions: nat, c: Cluster)
    ensures Exec(conversions, c, []) == Next(c)
  {
  }

  lemma ExecOne(conversions: nat, c: Cluster, a: Action)
    ensures Exec(conversions, c, [a]) == Apply(conversions, c, a)
  {
    hide Apply;
    if Apply(conversions, c, a).Next? {
      ExecNothing(conversions, Apply(conversions, c, a).cluster);
    }
  }

  /** One node running by itself; `script` gives what each of its listings and shuffles returns. */
  function Solo(conversions: nat, s: Shared, st: NodeState, script: seq<seq<Account>>): Move
    decreases |script|
  {
    if script == [] then Move(s, st)
    else
      var m := NodeStep(conversions, s, st, script[0]);
      if m.Stuck? then Stuck else Solo(conversions, m.shared, m.state, script[1..])
  }

  function Steps(n: Node, script: seq<seq<Account>>): seq<Action> {
    seq(|script|, i requires 0 <= i < |script| => Step(n, script[i]))
  }

  /** The cluster with node `n` and the store replaced. */
  function With(c: Cluster, n: Node, st: NodeState, s: Shared): Cluster {
    Cluster(c.nodes[n := st], s)
  }

  lemma {:induction false} SoloIsRun(conversions: nat, c: Cluster, n: Node, script: seq<seq<Account>>)
    requires n in c.nodes && Solo(conversions, c.shared, c.nodes[n], script).Move?
    ensures var m := Solo(conversions, c.shared, c.nodes[n], script);
            Exec(conversions, c, Steps(n, script)) == Next(With(c, n, m.state, m.shared))
    decreases |script|
  {
    hide NodeStep;
    if script == [] {
      assert c.nodes[n := c.nodes[n]] == c.nodes;
    } else {
      var m := NodeStep(conversions, c.shared, c.nodes[n], script[0]);
      var c' := With(c, n, m.state, m.shared);
      SoloIsRun(conversions, c', n, script[1..]);
      assert Steps(n, script)[1..] == Steps(n, script[1..]);
      var end := Solo(conversions, c.shared, c.nodes[n], script);
      assert c'.nodes[n := end.state] == c.nodes[n := end.state];
    }
  }

  lemma {:induction false} SoloAppend(conversions: nat, s: Shared, st: NodeState, a: seq<seq<Account>>, b: seq<seq<Account>>)
    requires Solo(conversions, s, st, a).Move?
    ensures var m := Solo(conversions, s, st, a);
            Solo(conversions, s, st, a + b) == Solo(conversions, m.shared, m.state, b)
    decreases |a|
  {
    hide NodeStep;
    if a == [] {
      assert a + b == b;
    } else {
      assert (a + b)[1..] == a[1..] + b;
      var m := NodeStep(conversions, s, st, a[0]);
      SoloAppend(conversions, m.shared, m.state, a[1..], b);
    }
  }

  /** The node can bring itself and the store there, whatever the others are doing. */
  ghost predicate Reaches(conversions: nat, s: Shared, st: NodeState, s': Shared, st': NodeState) {
    exists script :: Solo(conversions, s, st, script) == Move(s', st')
  }

  lemma ReachesSelf(conversions: nat, s: Shared, st: NodeState)
    ensures Reaches(conversions, s, st, s, st)
  {
    assert Solo(conversions, s, st, []) == Move(s, st);
  }

  /** One step, and then whatever follows it. */
  lemma ReachesAfter(conversions: nat, s: Shared, st: NodeState, ids: seq<Account>, s': Shared, st': NodeState)
    requires var m := NodeStep(conversions, s, st, ids);
             m.Move? && Reaches(conversions, m.shared, m.state, s', st')
    ensures Reaches(conversions, s, st, s', st')
  {
    hide NodeStep;
    var m := NodeStep(conversions, s, st, ids);
    var script :| Solo(conversions, m.shared, m.state, script) == Move(s', st');
    assert ([ids] + script)[1..] == script;
    assert Solo(conversions, s, st, [ids] + script) == Move(s', st');
  }

  lemma ReachesChain(conversions: nat, s: Shared, st: NodeState, s': Shared, st': NodeState, s'': Shared, st'': NodeState)
    requires Reaches(conversions, s, st, s', st') && Reaches(conversions, s', st', s'', st'')
    ensures Reaches(conversions, s, st, s'', st'')
  {
    hide Solo;
    var a :| Solo(conversions, s, st, a) == Move(s', st');
    var b :| Solo(conversions, s', st', b) == Move(s'', st'');
    SoloAppend(conversions, s, st, a, b);
  }

  // ---- What a node can do alone -------------------------------------------------------------

  /** A listing without repetitions. */
  predicate Listing(ids: seq<Account>) {
    |Elements(ids)| == |ids|
  }

  lemma {:induction false} SomeOrder(s: set<Account>) returns (ids: seq<Account>)
    ensures Elements(ids) == s && |ids| == |s|
    decreases |s|
  {
    if s == {} {
      ids := [];
    } else {
      var x :| x in s;
      var rest := SomeOrder(s - {x});
      ids := rest + [x];
      assert Elements(ids) == Elements(rest) + {x};
    }
  }

  /** Where a node goes on after the core phase with the accounts `ids`. */
  function AfterCore(st: NodeState, ids: seq<Account>): NodeState {
    st.(pc := if Elements(ids) == {} then Finished else Loop(Work(ids, [])), listed := Elements(ids))
  }

  lemma UnlockReaches(conversions: nat, s: Shared, st: NodeState, ids: seq<Account>)
    requires !st.crashed && st.pc == CoreUnlock(Elements(ids)) && Listing(ids)
    ensures Reaches(conversions, s, st, s.(coreLock := false), AfterCore(st, ids))
  {
    var m := NodeStep(conversions, s, st, ids);
    assert m == Move(s.(coreLock := false), AfterCore(st, ids));
    hide NodeStep;
    ReachesSelf(conversions, m.shared, m.state);
    ReachesAfter(conversions, s, st, ids, m.shared, m.state);
  }

  lemma SetDoneReaches(conversions: nat, s: Shared, st: NodeState, ids: seq<Account>)
    requires !st.crashed && st.pc == CoreSetDone(Elements(ids)) && Listing(ids)
    ensures Reaches(conversions, s, st, s.(coreLock := false, coreDone := true), AfterCore(st, ids))
  {
    var s', st' := s.(coreDone := true), st.(pc := CoreUnlock(Elements(ids)));
    UnlockReaches(conversions, s', st', ids);
    ReachesAfter(conversions, s, st, [], s.(coreLock := false, coreDone := true), AfterCore(st, ids));
  }

  /** The record once all conversions from `k` on have been run. */
  function RunFrom(conversions: nat, steps: multiset<nat>, k: nat): multiset<nat>
    decreases conversions - k
  {
    var more := steps + multiset{k};
    if k + 1 < conversions then RunFrom(conversions, more, k + 1) else more
  }

  /** The store after the core phase of a node that may have had to convert. */
  function CoreConverted(conversions: nat, s: Shared): Shared {
    if s.coreDone then s
    else s.(coreDone := true, coreRuns := s.coreRuns + 1, steps := RunFrom(conversions, s.steps, 0))
  }

  lemma {:induction false} MigratingReaches(conversions: nat, s: Shared, st: NodeState, ids: seq<Account>)
    requires !st.crashed && st.pc.CoreMigrating? && Listing(ids)
    ensures var s' := s.(coreLock := false, coreDone := true, coreRuns := s.coreRuns + 1,
                         steps := RunFrom(conversions, s.steps, st.pc.conversion));
            Reaches(conversions, s, st, s', AfterCore(st, ids))
    decreases conversions - st.pc.conversion
  {
    var k := st.pc.conversion;
    var s' := s.(coreLock := false, coreDone := true, coreRuns := s.coreRuns + 1, steps := RunFrom(conversions, s.steps, k));
    var s1 := s.(steps := s.steps + multiset{k});
    var m := NodeStep(conversions, s, st, ids);
    if k + 1 < conversions {
      assert m == Move(s1, st.(pc := CoreMigrating(k + 1)));
      MigratingReaches(conversions, s1, m.state, ids);
    } else {
      assert m == Move(s1.(coreRuns := s.coreRuns + 1), st.(pc := CoreSetDone(Elements(ids))));
      SetDoneReaches(conversions, m.shared, m.state, ids);
    }
    hide NodeStep;
    ReachesAfter(conversions, s, st, ids, s', AfterCore(st, ids));
  }

  /** From the check of the done key, on either branch, to the account phase. */
  lemma CheckReaches(conversions: nat, s: Shared, st: NodeState, ids: seq<Account>) returns (s': Shared)
    requires !st.crashed && st.pc == CoreCheck && Listing(ids)
    ensures Reaches(conversions, s, st, s', AfterCore(st, ids))
    ensures s' == CoreConverted(conversions, s).(coreLock := false)
  {
    var m := NodeStep(conversions, s, st, []);
    s' := CoreConverted(conversions, s).(coreLock := false);
    if s.coreDone {
      assert m == Move(s, st.(pc := CoreList));
      var m2 := NodeStep(conversions, s, m.state, ids);
      assert m2 == Move(s, st.(pc := CoreUnlock(Elements(ids))));
      UnlockReaches(conversions, s, m2.state, ids);
      hide NodeStep;
      ReachesAfter(conversions, s, m.state, ids, s', AfterCore(st, ids));
    } else {
      assert m == Move(s, st.(pc := CoreMigrating(0)));
      MigratingReaches(conversions, s, m.state, ids);
    }
    hide NodeStep;
    ReachesAfter(conversions, s, st, [], s', AfterCore(st, ids));
  }

  /** A node inside the core lock can leave it, with the accounts it listed, or with `ids` if it has not yet. */
  lemma LeavesCore(conversions: nat, s: Shared, st: NodeState, ids: seq<Account>)
    returns (s': Shared, st': NodeState, order: seq<Account>)
    requires !st.crashed && HoldsCore(st.pc) && Listing(ids)
    ensures Reaches(conversions, s, st, s', st') && st' == AfterCore(st, order)
    ensures Elements(order) == if st.pc.CoreUnlock? || st.pc.CoreSetDone? then st.pc.ids else Elements(ids)
    ensures !s'.coreLock && s'.locks == s.locks && s'.done == s.done && s'.runs == s.runs && s'.schema == s.schema
    ensures st.pc.CoreList? || st.pc.CoreUnlock? ==> s' == s.(coreLock := false)
  {
    order := ids;
    if st.pc.CoreUnlock? || st.pc.CoreSetDone? {
      order := SomeOrder(st.pc.ids);
    }
    st' := AfterCore(st, order);
    match st.pc
    case CoreCheck => s' := CheckReaches(conversions, s, st, order);
    case CoreMigrating(_) =>
      s' := s.(coreLock := false, coreDone := true, coreRuns := s.coreRuns + 1,
               steps := RunFrom(conversions, s.steps, st.pc.conversion));
      MigratingReaches(conversions, s, st, order);
    case CoreSetDone(_) =>
      s' := s.(coreLock := false, coreDone := true);
      SetDoneReaches(conversions, s, st, order);
    case CoreList =>
      s' := s.(coreLock := false);
      UnlockReaches(conversions, s, st.(pc := CoreUnlock(Elements(order))), order);
      ReachesAfter(conversions, s, st, order, s', st');
    case CoreUnlock(_) =>
      s' := s.(coreLock := false);
      UnlockReaches(conversions, s, st, order);
  }

  /** From the start to the account phase, when the core lock is free. */
  lemma BootReaches(conversions: nat, s: Shared, st: NodeState, ids: seq<Account>) returns (s': Shared)
    requires !st.crashed && (st.pc == Boot || st.pc == CoreTry) && Listing(ids)
    requires !s.coreLock && (st.pc == Boot ==> s.schema.Unstamped?)
    ensures Reaches(conversions, s, st, s', AfterCore(st, ids))
    ensures s' == CoreConverted(conversions, s)
  {
    var tried := st.(pc := CoreTry);
    var m := NodeStep(conversions, s, tried, []);
    s' := CheckReaches(conversions, m.shared, m.state, ids);
    assert s' == CoreConverted(conversions, s);
    ReachesAfter(conversions, s, tried, [], s', AfterCore(st, ids));
    if st.pc == Boot {
      assert NodeStep(conversions, s, st, []) == Move(s, tried);
      hide NodeStep;
      ReachesAfter(conversions, s, st, [], s', AfterCore(st, ids));
    }
  }

  /** A node inside an account's lock can leave it. */
  lemma LeavesAccount(conversions: nat, s: Shared, st: NodeState) returns (s': Shared, st': NodeState)
    requires !st.crashed && Held(st.pc) != {}
    ensures Reaches(conversions, s, st, s', st') && st' == st.(pc := Loop(st.pc.work))
    ensures s'.locks == s.locks - {st.pc.account} && s'.coreLock == s.coreLock && s'.schema == s.schema
    ensures forall q :: q != st.pc.account ==> (q in s'.done <==> q in s.done) && s'.runs[q] == s.runs[q]
    decreases if st.pc.AccountCheck? then 3 else if st.pc.AccountMigrating? then 2 else if st.pc.AccountSetDone? then 1 else 0
  {
    var m := NodeStep(conversions, s, st, []);
    if st.pc.AccountUnlock? {
      s', st' := m.shared, m.state;
      ReachesSelf(conversions, s', st');
    } else {
      s', st' := LeavesAccount(conversions, m.shared, m.state);
    }
    ReachesAfter(conversions, s, st, [], s', st');
  }

  /** With no lock taken, a node in the account phase works through its list. */
  lemma {:induction false} LoopReaches(conversions: nat, s: Shared, st: NodeState) returns (s': Shared)
    requires !st.crashed && st.pc.Loop? && s.locks == {} && !s.coreLock
    ensures Reaches(conversions, s, st, s', st.(pc := Finished)) && s'.locks == {} && !s'.coreLock
    decreases |st.pc.work.todo| + |st.pc.work.skipped|, |st.pc.work.skipped|
  {
    var w := st.pc.work;
    var m := NodeStep(conversions, s, st, []);
    if w.todo == [] && w.skipped == [] {
      s' := s;
      ReachesSelf(conversions, s, m.state);
    } else if w.todo == [] {
      s' := LoopReaches(conversions, s, m.state);
    } else {
      var s1, st1 := LeavesAccount(conversions, m.shared, m.state);
      s' := LoopReaches(conversions, s1, st1);
      ReachesChain(conversions, m.shared, m.state, s1, st1, s', st.(pc := Finished));
    }
    ReachesAfter(conversions, s, st, [], s', st.(pc := Finished));
  }

  // ---- Locks: without crashes, none is left behind --------------------------------------------

  /** Every lock in the store is one that some running node is inside of. */
  ghost predicate Tended(c: Cluster) {
    && (forall n <- c.nodes :: !c.nodes[n].crashed)
    && (c.shared.coreLock ==> exists n :: n in c.nodes && HoldsCore(c.nodes[n].pc))
    && (forall p <- c.shared.locks :: exists n :: n in c.nodes && p in Held(c.nodes[n].pc))
  }

  predicate NoCrash(a: Action) {
    !a.Crash? && !a.Restart?
  }

  /** A step leaves a lock only if the node is inside it, or was not and it was there before. */
  lemma StepTends(conversions: nat, s: Shared, st: NodeState, ids: seq<Account>, p: Account)
    requires NodeStep(conversions, s, st, ids).Move?
    ensures var m := NodeStep(conversions, s, st, ids);
            && !m.state.crashed
            && (m.shared.coreLock ==> HoldsCore(m.state.pc) || (s.coreLock && !HoldsCore(st.pc)))
            && (p in m.shared.locks ==> p in Held(m.state.pc) || (p in s.locks && p !in Held(st.pc)))
  {
  }

  lemma ApplyTended(conversions: nat, c: Cluster, a: Action)
    requires Tended(c) && NoCrash(a) && Apply(conversions, c, a).Next?
    ensures Tended(Apply(conversions, c, a).cluster)
  {
    hide NodeStep, HoldsCore, Held;
    var c' := Apply(conversions, c, a).cluster;
    if a.Step? {
      var n, st := a.node, c.nodes[a.node];
      StepTends(conversions, c.shared, st, a.ids, 0);
      if c'.shared.coreLock && !HoldsCore(c'.nodes[n].pc) {
        var m :| m in c.nodes && HoldsCore(c.nodes[m].pc);
        assert m in c'.nodes && HoldsCore(c'.nodes[m].pc);
      }
      forall p <- c'.shared.locks
        ensures exists m :: m in c'.nodes && p in Held(c'.nodes[m].pc)
      {
        StepTends(conversions, c.shared, st, a.ids, p);
        if p in Held(c'.nodes[n].pc) {
          assert n in c'.nodes;
        } else {
          var m :| m in c.nodes && p in Held(c.nodes[m].pc);
          assert m in c'.nodes && p in Held(c'.nodes[m].pc);
        }
      }
    } else {
      assert c'.nodes == c.nodes && c'.shared.locks <= c.shared.locks;
    }
  }

  lemma {:induction false} ExecTended(conversions: nat, c: Cluster, run: seq<Action>)
    requires Tended(c) && Exec(conversions, c, run).Next?
    requires forall i :: 0 <= i < |run| ==> NoCrash(run[i])
    ensures Tended(Exec(conversions, c, run).cluster)
    decreases |run|
  {
    hide Apply, Tended;
    if run != [] {
      ApplyTended(conversions, c, run[0]);
      ExecTended(conversions, Apply(conversions, c, run[0]).cluster, run[1..]);
    }
  }

  /** A node inside a lock never waits: its next step is enabled and moves it on. */
  lemma HolderMoves(conversions: nat, s: Shared, st: NodeState) returns (ids: seq<Account>)
    requires !st.crashed && (HoldsCore(st.pc) || Held(st.pc) != {})
    ensures var m := NodeStep(conversions, s, st, ids);
            m.Move? && m.state.pc != st.pc
  {
    ids := [];
    if st.pc.CoreUnlock? {
      ids := SomeOrder(st.pc.ids);
    }
  }

  /**
   While no node crashes, even with expiry and `FORCE_LOCK`, a lock found taken is one that
   another node is inside of, and that node can go on: no lock is left behind, and no two nodes
   wait for each other.
   */
  lemma LocksAreTended(conversions: nat, c0: Cluster, run: seq<Action>)
    requires Init(c0) && !c0.shared.coreLock && c0.shared.locks == {}
    requires forall i :: 0 <= i < |run| ==> NoCrash(run[i])
    requires Exec(conversions, c0, run).Next?
    ensures var c := Exec(conversions, c0, run).cluster;
            && Tended(c)
            && (forall n <- c.nodes :: HoldsCore(c.nodes[n].pc) || Held(c.nodes[n].pc) != {} ==>
                  exists ids ::
                    var m := NodeStep(conversions, c.shared, c.nodes[n], ids);
                    m.Move? && m.state.pc != c.nodes[n].pc)
  {
    ExecTended(conversions, c0, run);
    var c := Exec(conversions, c0, run).cluster;
    hide NodeStep, Exec;
    forall n | n in c.nodes && (HoldsCore(c.nodes[n].pc) || Held(c.nodes[n].pc) != {})
      ensures exists ids ::
        var m := NodeStep(conversions, c.shared, c.nodes[n], ids);
        m.Move? && m.state.pc != c.nodes[n].pc
    {
      var ids := HolderMoves(conversions, c.shared, c.nodes[n]);
    }
  }

  // ---- The cluster can finish -------------------------------------------------------------------

  /** A continuation in which nodes only take their own steps. */
  ghost predicate Leads(conversions: nat, c: Cluster, c': Cluster) {
    exists run :: OnlySteps(run) && Exec(conversions, c, run) == Next(c')
  }

  predicate OnlySteps(run: seq<Action>) {
    forall i :: 0 <= i < |run| ==> run[i].Step?
  }

  lemma LeadsSelf(conversions: nat, c: Cluster)
    ensures Leads(conversions, c, c)
  {
    assert OnlySteps([]) && Exec(conversions, c, []) == Next(c);
  }

  lemma LeadsChain(conversions: nat, a: Cluster, b: Cluster, c: Cluster)
    requires Leads(conversions, a, b) && Leads(conversions, b, c)
    ensures Leads(conversions, a, c)
  {
    hide Exec;
    var x :| OnlySteps(x) && Exec(conversions, a, x) == Next(b);
    var y :| OnlySteps(y) && Exec(conversions, b, y) == Next(c);
    ExecAppend(conversions, a, x, y);
    assert OnlySteps(x + y);
  }

  lemma ReachesLeads(conversions: nat, c: Cluster, n: Node, s': Shared, st': NodeState)
    requires n in c.nodes && Reaches(conversions, c.shared, c.nodes[n], s', st')
    ensures Leads(conversions, c, With(c, n, st', s'))
  {
    hide Exec, Solo;
    var script :| Solo(conversions, c.shared, c.nodes[n], script) == Move(s', st');
    SoloIsRun(conversions, c, n, script);
    assert OnlySteps(Steps(n, script));
  }

  lemma LeadsTended(conversions: nat, c: Cluster, c': Cluster)
    requires Tended(c) && Leads(conversions, c, c')
    ensures Tended(c')
  {
    hide Tended, Exec;
    var run :| OnlySteps(run) && Exec(conversions, c, run) == Next(c');
    ExecTended(conversions, c, run);
  }

  predicate Outside(pc: Pc) {
    !HoldsCore(pc) && Held(pc) == {}
  }

  /** A node can step outside of every lock. */
  lemma CanLeave(conversions: nat, c: Cluster, n: Node, ids: seq<Account>) returns (c': Cluster)
    requires n in c.nodes && !c.nodes[n].crashed && Listing(ids)
    ensures Leads(conversions, c, c') && c'.nodes.Keys == c.nodes.Keys
    ensures Outside(c'.nodes[n].pc) && !c'.nodes[n].crashed
    ensures forall m :: m in c.nodes && m != n ==> c'.nodes[m] == c.nodes[m]
  {
    var st := c.nodes[n];
    if Outside(st.pc) {
      c' := c;
      LeadsSelf(conversions, c);
    } else {
      var s', st';
      if HoldsCore(st.pc) {
        var order;
        s', st', order := LeavesCore(conversions, c.shared, st, ids);
      } else {
        s', st' := LeavesAccount(conversions, c.shared, st);
      }
      hide Reaches;
      c' := With(c, n, st', s');
      ReachesLeads(conversions, c, n, s', st');
    }
  }

  ghost predicate NoneCrashed(c: Cluster) {
    forall n <- c.nodes :: !c.nodes[n].crashed
  }

  lemma {:induction false} AllLeave(conversions: nat, c: Cluster, todo: set<Node>, ids: seq<Account>) returns (c': Cluster)
    requires NoneCrashed(c) && todo <= c.nodes.Keys && Listing(ids)
    requires forall n <- c.nodes :: n !in todo ==> Outside(c.nodes[n].pc)
    ensures Leads(conversions, c, c') && c'.nodes.Keys == c.nodes.Keys && NoneCrashed(c')
    ensures forall n <- c'.nodes :: Outside(c'.nodes[n].pc)
    decreases |todo|
  {
    hide Leads, Outside;
    if todo == {} {
      c' := c;
      LeadsSelf(conversions, c);
    } else {
      var n :| n in todo;
      var c1 := CanLeave(conversions, c, n, ids);
      c' := AllLeave(conversions, c1, todo - {n}, ids);
      LeadsChain(conversions, c, c1, c');
    }
  }

  lemma NobodyInside(c: Cluster)
    requires Tended(c) && forall n <- c.nodes :: Outside(c.nodes[n].pc)
    ensures !c.shared.coreLock && c.shared.locks == {}
  {
  }

  /** With every lock free, a node outside of them can finish, and leaves them free. */
  lemma Finishes(conversions: nat, s: Shared, st: NodeState, ids: seq<Account>) returns (s': Shared, st': NodeState)
    requires !st.crashed && Outside(st.pc) && !s.coreLock && s.locks == {} && Listing(ids)
    ensures Reaches(conversions, s, st, s', st') && st'.pc == Returned && !st'.crashed
    ensures !s'.coreLock && s'.locks == {}
  {
    if st.pc == Returned {
      s', st' := s, st;
      ReachesSelf(conversions, s, st);
    } else if st.pc == Boot && s.schema.Stamped? {
      s', st' := s, st.(pc := Returned);
      ReachesSelf(conversions, s', st');
      ReachesAfter(conversions, s, st, [], s', st');
    } else if st.pc == Finished {
      s', st' := StampReaches(conversions, s, st);
    } else if st.pc.Loop? {
      s', st' := LoopFinishes(conversions, s, st);
    } else {
      var s1 := BootReaches(conversions, s, st, ids);
      var st1 := AfterCore(st, ids);
      if st1.pc.Loop? {
        s', st' := LoopFinishes(conversions, s1, st1);
      } else {
        s', st' := StampReaches(conversions, s1, st1);
      }
      ReachesChain(conversions, s, st, s1, st1, s', st');
    }
  }

  lemma StampReaches(conversions: nat, s: Shared, st: NodeState) returns (s': Shared, st': NodeState)
    requires !st.crashed && st.pc == Finished
    ensures s' == s.(schema := Stamped(st.listed)) && st' == st.(pc := Returned)
    ensures Reaches(conversions, s, st, s', st')
  {
    s', st' := s.(schema := Stamped(st.listed)), st.(pc := Returned);
    ReachesSelf(conversions, s', st');
    ReachesAfter(conversions, s, st, [], s', st');
  }

  lemma LoopFinishes(conversions: nat, s: Shared, st: NodeState) returns (s': Shared, st': NodeState)
    requires !st.crashed && st.pc.Loop? && s.locks == {} && !s.coreLock
    ensures Reaches(conversions, s, st, s', st') && st'.pc == Returned && !st'.crashed
    ensures !s'.coreLock && s'.locks == {}
  {
    var s1 := LoopReaches(conversions, s, st);
    s', st' := StampReaches(conversions, s1, st.(pc := Finished));
    ReachesChain(conversions, s, st, s1, st.(pc := Finished), s', st');
  }

  /** All nodes running and outside, no lock taken: those not in `todo` have returned. */
  ghost predicate Finishing(c: Cluster, todo: set<Node>) {
    && !c.shared.coreLock && c.shared.locks == {}
    && (forall n <- c.nodes :: !c.nodes[n].crashed && Outside(c.nodes[n].pc))
    && (forall n <- c.nodes :: n !in todo ==> c.nodes[n].pc == Returned)
  }

  lemma {:induction false} AllFinish(conversions: nat, c: Cluster, todo: set<Node>, ids: seq<Account>) returns (c': Cluster)
    requires Finishing(c, todo) && todo <= c.nodes.Keys && Listing(ids)
    ensures Leads(conversions, c, c') && c'.nodes.Keys == c.nodes.Keys && Finishing(c', {})
    decreases |todo|
  {
    hide Reaches, Leads;
    if todo == {} {
      c' := c;
      LeadsSelf(conversions, c);
    } else {
      var n :| n in todo;
      var s1, st1 := Finishes(conversions, c.shared, c.nodes[n], ids);
      ReachesLeads(conversions, c, n, s1, st1);
      var c1 := With(c, n, st1, s1);
      assert Finishing(c1, todo - {n});
      c' := AllFinish(conversions, c1, todo - {n}, ids);
      LeadsChain(conversions, c, c1, c');
    }
  }

  /**
   From every state reachable without crashes, even with expiry and `FORCE_LOCK`, and whatever the
   listings return, the nodes' own steps can bring every node to its return with no lock left.
   */
  lemma StageCanFinish(conversions: nat, c0: Cluster, run: seq<Action>, ids: seq<Account>) returns (c': Cluster)
    requires Init(c0) && !c0.shared.coreLock && c0.shared.locks == {} && Listing(ids)
    requires forall i :: 0 <= i < |run| ==> NoCrash(run[i])
    requires Exec(conversions, c0, run).Next?
    ensures var c := Exec(conversions, c0, run).cluster;
            Leads(conversions, c, c') && c'.nodes.Keys == c.nodes.Keys
    ensures !c'.shared.coreLock && c'.shared.locks == {} && forall n <- c'.nodes :: c'.nodes[n].pc == Returned
  {
    hide Exec, Leads;
    ExecTended(conversions, c0, run);
    var c := Exec(conversions, c0, run).cluster;
    var c1 := AllLeave(conversions, c, c.nodes.Keys, ids);
    LeadsTended(conversions, c, c1);
    NobodyInside(c1);
    assert Finishing(c1, c1.nodes.Keys);
    c' := AllFinish(conversions, c1, c1.nodes.Keys, ids);
    LeadsChain(conversions, c, c1, c');
  }
}
