/**
 Exclusion between migrating nodes. Locks expire so that a node may take over from one that died;
 exclusion between running nodes survives exactly as long as no lock expires under a running node.
 */
module MigrationExclusion {
  import Basics
  import opened Migration
  import opened MigrationProgress

  /** Not both inside the core lock, nor both inside the lock of one account. */
  ghost predicate Compatible(a: Pc, b: Pc) {
    !(HoldsCore(a) && HoldsCore(b)) && Held(a) !! Held(b)
  }

  predicate Running(c: Cluster, n: Node) {
    n in c.nodes && !c.nodes[n].crashed
  }

  /** Two running nodes are inside the same lock. */
  ghost predicate Clash(c: Cluster) {
    exists n, m :: Running(c, n) && Running(c, m) && n != m && !Compatible(c.nodes[n].pc, c.nodes[m].pc)
  }

  /** A running node is inside the core lock, or inside the lock of `p`. */
  ghost predicate CoreInUse(c: Cluster) {
    exists n :: Running(c, n) && HoldsCore(c.nodes[n].pc)
  }

  ghost predicate InUse(c: Cluster, p: Account) {
    exists n :: Running(c, n) && p in Held(c.nodes[n].pc)
  }

  /** No lock expires under a running node; done keys may expire, and nodes crash, at any time. */
  ghost predicate Gentle(c: Cluster, a: Action) {
    (a.ExpireCoreLock? ==> !CoreInUse(c)) && (a.ExpireLock? ==> !InUse(c, a.account))
  }

  ghost predicate GentleRun(conversions: nat, c: Cluster, run: seq<Action>)
    decreases |run|
  {
    run == [] ||
    (Gentle(c, run[0]) &&
     var r := Apply(conversions, c, run[0]);
     r.Next? ==> GentleRun(conversions, r.cluster, run[1..]))
  }

  lemma {:induction false} GentleAppend(conversions: nat, c: Cluster, a: seq<Action>, b: seq<Action>)
    requires GentleRun(conversions, c, a) && Exec(conversions, c, a).Next?
    requires GentleRun(conversions, Exec(conversions, c, a).cluster, b)
    ensures GentleRun(conversions, c, a + b)
    decreases |a|
  {
    hide Apply, Gentle;
    if a == [] {
      assert a + b == b;
    } else {
      assert (a + b)[1..] == a[1..] + b;
      GentleAppend(conversions, Apply(conversions, c, a[0]).cluster, a[1..], b);
    }
  }

  lemma GentleOne(conversions: nat, c: Cluster, a: Action)
    requires Gentle(c, a)
    ensures GentleRun(conversions, c, [a])
  {
    hide Gentle, Apply;
  }

  lemma {:induction false} GentleSteps(conversions: nat, c: Cluster, run: seq<Action>)
    requires forall i :: 0 <= i < |run| ==> run[i].Step? || run[i].Crash?
    ensures GentleRun(conversions, c, run)
    decreases |run|
  {
    hide Apply;
    if run != [] && Apply(conversions, c, run[0]).Next? {
      GentleSteps(conversions, Apply(conversions, c, run[0]).cluster, run[1..]);
    }
  }

  // ---- Exclusion under gentle expiry --------------------------------------------------------

  /** A running node has the lock it is inside of. */
  ghost predicate Backed(s: Shared, st: NodeState) {
    !st.force && (!st.crashed ==> (HoldsCore(st.pc) ==> s.coreLock) && Held(st.pc) <= s.locks)
  }

  ghost predicate Apart(c: Cluster) {
    && (forall n <- c.nodes :: Backed(c.shared, c.nodes[n]))
    && (forall n, m :: Running(c, n) && Running(c, m) && n != m ==> Compatible(c.nodes[n].pc, c.nodes[m].pc))
  }

  lemma StepBacked(conversions: nat, s: Shared, st: NodeState, ids: seq<Account>)
    requires Backed(s, st) && NodeStep(conversions, s, st, ids).Move?
    ensures var m := NodeStep(conversions, s, st, ids);
            Backed(m.shared, m.state) && !m.state.crashed
  {
  }

  /** A step of one node leaves another running one its lock, and keeps out of it. */
  lemma StepKeepsOther(conversions: nat, s: Shared, st: NodeState, ids: seq<Account>, other: NodeState)
    requires Backed(s, st) && Backed(s, other) && !other.crashed && Compatible(st.pc, other.pc)
    requires NodeStep(conversions, s, st, ids).Move?
    ensures var m := NodeStep(conversions, s, st, ids);
            Backed(m.shared, other) && Compatible(m.state.pc, other.pc) && Compatible(other.pc, m.state.pc)
  {
    if InCorePhase(st.pc) {
      CoreStepKeepsOther(conversions, s, st, ids, other);
    } else {
      AccountStepKeepsOther(s, st, other);
    }
    hide CoreStep, AccountStep, Backed;
  }

  lemma CoreStepKeepsOther(conversions: nat, s: Shared, st: NodeState, ids: seq<Account>, other: NodeState)
    requires Backed(s, st) && Backed(s, other) && !st.crashed && !other.crashed && Compatible(st.pc, other.pc)
    requires InCorePhase(st.pc) && CoreStep(conversions, s, st, ids).Move?
    ensures var m := CoreStep(conversions, s, st, ids);
            Backed(m.shared, other) && Compatible(m.state.pc, other.pc)
  {
  }

  lemma AccountStepKeepsOther(s: Shared, st: NodeState, other: NodeState)
    requires Backed(s, st) && Backed(s, other) && !st.crashed && !other.crashed && Compatible(st.pc, other.pc)
    requires AccountStep(s, st).Move?
    ensures var m := AccountStep(s, st);
            Backed(m.shared, other) && Compatible(m.state.pc, other.pc)
  {
    assert Held(st.pc) * Held(other.pc) == {};
  }

  lemma NodeStepApart(conversions: nat, c: Cluster, n: Node, ids: seq<Account>)
    requires Apart(c) && Apply(conversions, c, Step(n, ids)).Next?
    ensures Apart(Apply(conversions, c, Step(n, ids)).cluster)
  {
    hide NodeStep, Compatible;
    var st := c.nodes[n];
    var c' := Apply(conversions, c, Step(n, ids)).cluster;
    StuckWhenCrashed(conversions, c.shared, st, ids);
    StepBacked(conversions, c.shared, st, ids);
    forall m | m in c.nodes && m != n
      ensures Backed(c'.shared, c'.nodes[m])
      ensures Running(c, m) ==> Compatible(c'.nodes[n].pc, c'.nodes[m].pc) && Compatible(c'.nodes[m].pc, c'.nodes[n].pc)
    {
      if Running(c, m) {
        assert Running(c, n) && Compatible(c.nodes[n].pc, c.nodes[m].pc);
        StepKeepsOther(conversions, c.shared, st, ids, c.nodes[m]);
      }
    }
  }

  lemma StuckWhenCrashed(conversions: nat, s: Shared, st: NodeState, ids: seq<Account>)
    ensures NodeStep(conversions, s, st, ids).Move? ==> !st.crashed
  {
  }

  lemma ApplyApart(conversions: nat, c: Cluster, a: Action)
    requires Apart(c) && Gentle(c, a) && Apply(conversions, c, a).Next?
    ensures Apart(Apply(conversions, c, a).cluster)
  {
    match a
    case Step(n, ids) => NodeStepApart(conversions, c, n, ids);
    case Crash(n) => CrashApart(conversions, c, n);
    case Restart(n) => RestartApart(conversions, c, n);
    case ExpireCoreLock => CoreExpiryApart(c);
    case ExpireCoreDone =>
      forall m <- c.nodes
        ensures Backed(c.shared.(coreDone := false), c.nodes[m])
      {
        assert Backed(c.shared, c.nodes[m]);
      }
    case ExpireLock(p) => ExpiryApart(c, p);
    case ExpireDone(p) =>
      forall m <- c.nodes
        ensures Backed(c.shared.(done := c.shared.done - {p}), c.nodes[m])
      {
        assert Backed(c.shared, c.nodes[m]);
      }
  }

  lemma CrashApart(conversions: nat, c: Cluster, n: Node)
    requires Apart(c) && n in c.nodes
    ensures Apart(Apply(conversions, c, Crash(n)).cluster)
  {
    hide Compatible;
    assert Backed(c.shared, c.nodes[n]);
    var c' := Apply(conversions, c, Crash(n)).cluster;
    assert forall m :: Running(c', m) ==> Running(c, m) && c'.nodes[m] == c.nodes[m];
  }

  lemma RestartApart(conversions: nat, c: Cluster, n: Node)
    requires Apart(c) && n in c.nodes
    ensures Apart(Apply(conversions, c, Restart(n)).cluster)
  {
    assert Backed(c.shared, c.nodes[n]);
    var c' := Apply(conversions, c, Restart(n)).cluster;
    assert forall m :: Running(c', m) && m != n ==> Running(c, m) && c'.nodes[m] == c.nodes[m];
  }

  lemma CoreExpiryApart(c: Cluster)
    requires Apart(c) && !CoreInUse(c)
    ensures Apart(c.(shared := c.shared.(coreLock := false)))
  {
    var c' := c.(shared := c.shared.(coreLock := false));
    forall m <- c.nodes
      ensures Backed(c'.shared, c'.nodes[m])
    {
      assert Backed(c.shared, c.nodes[m]);
      assert Running(c, m) ==> !HoldsCore(c.nodes[m].pc);
    }
    assert forall m :: Running(c', m) ==> Running(c, m);
  }

  lemma ExpiryApart(c: Cluster, p: Account)
    requires Apart(c) && !InUse(c, p)
    ensures Apart(Expired(c, p))
  {
    var c' := Expired(c, p);
    forall m <- c.nodes
      ensures Backed(c'.shared, c'.nodes[m])
    {
      assert Backed(c.shared, c.nodes[m]);
      assert Running(c, m) ==> p !in Held(c.nodes[m].pc);
    }
    assert forall m :: Running(c', m) ==> Running(c, m);
  }

  /** The cluster after the lock of `p` expired. */
  function Expired(c: Cluster, p: Account): Cluster {
    c.(shared := c.shared.(locks := c.shared.locks - {p}))
  }

  function CoreExpired(c: Cluster): Cluster {
    c.(shared := c.shared.(coreLock := false))
  }

  lemma {:induction false} ExecApart(conversions: nat, c: Cluster, run: seq<Action>)
    requires Apart(c) && GentleRun(conversions, c, run) && Exec(conversions, c, run).Next?
    ensures Apart(Exec(conversions, c, run).cluster)
    decreases |run|
  {
    hide Apply, Apart, Gentle;
    if run != [] {
      ApplyApart(conversions, c, run[0]);
      ExecApart(conversions, Apply(conversions, c, run[0]).cluster, run[1..]);
    }
  }

  lemma ApartNoClash(c: Cluster)
    requires Apart(c)
    ensures !Clash(c)
  {
    hide Compatible;
  }

  /**
   While no lock expires under a running node and no node uses `FORCE_LOCK`, no two running nodes
   are ever inside the core lock or inside the lock of one account, whatever locks were left from
   before, and however nodes crash, restart and take over locks that expired.
   */
  lemma StageIsExclusive(conversions: nat, c0: Cluster, run: seq<Action>)
    requires Init(c0) && (forall n <- c0.nodes :: !c0.nodes[n].force)
    requires GentleRun(conversions, c0, run) && Exec(conversions, c0, run).Next?
    ensures !Clash(Exec(conversions, c0, run).cluster)
  {
    assert Apart(c0);
    ExecApart(conversions, c0, run);
    ApartNoClash(Exec(conversions, c0, run).cluster);
  }

  // ---- Expiry under a running node is exactly what breaks it --------------------------------

  /** Some gentle continuation brings two running nodes inside one lock. */
  ghost predicate CanClash(conversions: nat, c: Cluster) {
    exists run ::
      && GentleRun(conversions, c, run) && Exec(conversions, c, run).Next?
      && Clash(Exec(conversions, c, run).cluster)
  }

  lemma ClashNow(conversions: nat, c: Cluster, n: Node, m: Node)
    requires Running(c, n) && Running(c, m) && n != m && !Compatible(c.nodes[n].pc, c.nodes[m].pc)
    ensures CanClash(conversions, c)
  {
    ExecNothing(conversions, c);
    hide Exec;
    assert GentleRun(conversions, c, []);
  }

  lemma ClashAfter(conversions: nat, c: Cluster, a: Action)
    requires Gentle(c, a) && Apply(conversions, c, a).Next? && CanClash(conversions, Apply(conversions, c, a).cluster)
    ensures CanClash(conversions, c)
  {
    hide Apply, Gentle, Clash;
    var c' := Apply(conversions, c, a).cluster;
    var run :| GentleRun(conversions, c', run) && Exec(conversions, c', run).Next?
               && Clash(Exec(conversions, c', run).cluster);
    assert ([a] + run)[1..] == run;
    assert GentleRun(conversions, c, [a] + run);
    assert Exec(conversions, c, [a] + run) == Exec(conversions, c', run);
  }

  lemma {:induction false} ClashAfterScript(conversions: nat, c: Cluster, n: Node, script: seq<seq<Account>>)
    requires n in c.nodes && Solo(conversions, c.shared, c.nodes[n], script).Move?
    requires var m := Solo(conversions, c.shared, c.nodes[n], script);
             CanClash(conversions, With(c, n, m.state, m.shared))
    ensures CanClash(conversions, c)
    decreases |script|
  {
    hide CanClash, NodeStep;
    if script == [] {
      assert c.nodes[n := c.nodes[n]] == c.nodes;
    } else {
      var m := NodeStep(conversions, c.shared, c.nodes[n], script[0]);
      var c' := With(c, n, m.state, m.shared);
      var end := Solo(conversions, c.shared, c.nodes[n], script);
      assert c'.nodes[n := end.state] == c.nodes[n := end.state];
      ClashAfterScript(conversions, c', n, script[1..]);
      ClashAfter(conversions, c, Step(n, script[0]));
    }
  }

  lemma ClashAfterReaching(conversions: nat, c: Cluster, n: Node, s': Shared, st': NodeState)
    requires n in c.nodes && Reaches(conversions, c.shared, c.nodes[n], s', st')
    requires CanClash(conversions, With(c, n, st', s'))
    ensures CanClash(conversions, c)
  {
    hide CanClash, Solo;
    var script :| Solo(conversions, c.shared, c.nodes[n], script) == Move(s', st');
    ClashAfterScript(conversions, c, n, script);
  }

  /** The account phase of a node that listed only `p`, about to convert it. */
  function Converting(st: NodeState, p: Account): NodeState {
    st.(pc := AccountMigrating(p, Work([], [])), listed := {p})
  }

  /** A node that starts while the core lock is free comes to convert `p`, if it may enter. */
  lemma ComesToConvert(conversions: nat, s: Shared, st: NodeState, p: Account) returns (s': Shared)
    requires !st.crashed && st.pc == Boot && s.schema.Unstamped? && !s.coreLock
    requires p !in s.done && (p !in s.locks || st.force)
    ensures Reaches(conversions, s, st, s', Converting(st, p))
    ensures s'.done == s.done && s'.runs == s.runs && s'.schema == s.schema && !s'.coreLock
    ensures s'.locks == s.locks + if st.force then {} else {p}
  {
    assert Elements([p]) == {p} && [p][1..] == [];
    var s1 := BootReaches(conversions, s, st, [p]);
    var st1 := AfterCore(st, [p]);
    s' := if st.force then s1 else s1.(locks := s1.locks + {p});
    var st2 := st1.(pc := AccountCheck(p, Work([], [])));
    assert NodeStep(conversions, s1, st1, []) == Move(s', st2);
    assert NodeStep(conversions, s', st2, []) == Move(s', Converting(st, p));
    hide NodeStep, AfterCore;
    ReachesSelf(conversions, s', Converting(st, p));
    ReachesAfter(conversions, s', st2, [], s', Converting(st, p));
    ReachesAfter(conversions, s1, st1, [], s', Converting(st, p));
    ReachesChain(conversions, s, st, s1, st1, s', Converting(st, p));
  }

  /** The running nodes are pairwise apart. */
  ghost predicate Spread(c: Cluster) {
    forall n, m :: Running(c, n) && Running(c, m) && n != m ==> Compatible(c.nodes[n].pc, c.nodes[m].pc)
  }

  lemma CrashFreesCore(conversions: nat, c: Cluster, k: Node) returns (c': Cluster)
    requires Spread(c) && Running(c, k) && HoldsCore(c.nodes[k].pc)
    ensures Apply(conversions, c, Crash(k)) == Next(c') && !CoreInUse(c') && c'.shared == c.shared
    ensures c'.nodes == c.nodes[k := c.nodes[k].(crashed := true)]
  {
    c' := c.(nodes := c.nodes[k := c.nodes[k].(crashed := true)]);
    assert forall j :: Running(c', j) ==> Running(c, j) && j != k && c'.nodes[j] == c.nodes[j];
    assert forall j :: Running(c, j) && j != k ==> Compatible(c.nodes[j].pc, c.nodes[k].pc);
  }

  lemma {:induction false} ExecKeepsNodes(conversions: nat, c: Cluster, run: seq<Action>)
    requires Exec(conversions, c, run).Next?
    ensures Exec(conversions, c, run).cluster.nodes.Keys == c.nodes.Keys
    decreases |run|
  {
    hide NodeStep;
    if run != [] {
      ExecKeepsNodes(conversions, Apply(conversions, c, run[0]).cluster, run[1..]);
    }
  }

  lemma ClashNeedsTwo(conversions: nat, c: Cluster)
    requires CanClash(conversions, c)
    ensures |c.nodes.Keys| >= 2
  {
    hide Exec, GentleRun, Compatible;
    var run :| GentleRun(conversions, c, run) && Exec(conversions, c, run).Next?
               && Clash(Exec(conversions, c, run).cluster);
    ExecKeepsNodes(conversions, c, run);
    var end := Exec(conversions, c, run).cluster;
    var n, m :| Running(end, n) && Running(end, m) && n != m;
    TwoElements(c.nodes.Keys, n, m);
  }

  lemma TwoElements(s: set<Node>, n: Node, m: Node)
    requires n in s && m in s && n != m
    ensures |s| >= 2
  {
    assert |s - {n}| == |s| - 1 && m in s - {n};
  }

  lemma ApartCannotClash(conversions: nat, c: Cluster)
    requires Apart(c)
    ensures !CanClash(conversions, c)
  {
    hide Exec, GentleRun, Apart, Clash;
    if CanClash(conversions, c) {
      var run :| GentleRun(conversions, c, run) && Exec(conversions, c, run).Next?
                 && Clash(Exec(conversions, c, run).cluster);
      ExecApart(conversions, c, run);
      ApartNoClash(Exec(conversions, c, run).cluster);
    }
  }

  // ---- Who can still come to a lock -----------------------------------------------------------

  /** The node may still come to account `p` by its own steps: it has it on its list, or may yet list it. */
  predicate MayCome(pc: Pc, p: Account) {
    match pc
    case CoreTry => true
    case CoreCheck => true
    case CoreMigrating(_) => true
    case CoreList => true
    case CoreSetDone(ids) => p in ids
    case CoreUnlock(ids) => p in ids
    case Loop(w) => OnList(w, p)
    case AccountCheck(_, w) => OnList(w, p)
    case AccountMigrating(_, w) => OnList(w, p)
    case AccountSetDone(_, w) => OnList(w, p)
    case AccountUnlock(_, w) => OnList(w, p)
    case _ => false
  }

  predicate OnList(w: Work, p: Account) {
    p in w.todo || p in w.skipped
  }

  /** A node in the account phase comes inside the free lock of an account on its list. */
  lemma {:induction false} LoopComesInside(conversions: nat, s: Shared, st: NodeState, p: Account)
    returns (s': Shared, st': NodeState)
    requires !st.crashed && st.pc.Loop? && OnList(st.pc.work, p) && p !in s.locks
    ensures Reaches(conversions, s, st, s', st') && !st'.crashed && st'.pc.AccountCheck? && st'.pc.account == p
    ensures (p in s'.done <==> p in s.done) && s'.runs[p] == s.runs[p]
    decreases if p in st.pc.work.todo then 0 else 1, |st.pc.work.todo|
  {
    var w := st.pc.work;
    var m := NodeStep(conversions, s, st, []);
    if w.todo != [] {
      Basics.HeadTail(w.todo);
    }
    if w.todo != [] && w.todo[0] == p {
      s', st' := m.shared, m.state;
      ReachesSelf(conversions, s', st');
    } else if w.todo != [] && (st.force || w.todo[0] !in s.locks) {
      var s1, st1 := LeavesAccount(conversions, m.shared, m.state);
      s', st' := LoopComesInside(conversions, s1, st1, p);
      ReachesChain(conversions, m.shared, m.state, s1, st1, s', st');
    } else {
      s', st' := LoopComesInside(conversions, m.shared, m.state, p);
    }
    ReachesAfter(conversions, s, st, [], s', st');
  }

  lemma AfterCoreComesInside(conversions: nat, s: Shared, st: NodeState, order: seq<Account>, p: Account)
    returns (s': Shared, st': NodeState)
    requires !st.crashed && p in Elements(order) && p !in s.locks
    ensures Reaches(conversions, s, AfterCore(st, order), s', st') && !st'.crashed
    ensures st'.pc.AccountCheck? && st'.pc.account == p
    ensures (p in s'.done <==> p in s.done) && s'.runs[p] == s.runs[p]
  {
    s', st' := LoopComesInside(conversions, s, AfterCore(st, order), p);
  }

  /** Wherever the node is, if it may still come to `p` and the locks on its way are free, it can. */
  lemma ComesInside(conversions: nat, s: Shared, st: NodeState, p: Account) returns (s': Shared, st': NodeState)
    requires !st.crashed && MayCome(st.pc, p) && p !in s.locks && (st.pc.CoreTry? ==> !s.coreLock)
    ensures Reaches(conversions, s, st, s', st') && !st'.crashed && st'.pc.AccountCheck? && st'.pc.account == p
    ensures p !in Held(st.pc) ==> (p in s'.done <==> p in s.done) && s'.runs[p] == s.runs[p]
  {
    assert Elements([p]) == {p};
    if st.pc.Loop? {
      s', st' := LoopComesInside(conversions, s, st, p);
    } else if Held(st.pc) != {} {
      var s1, st1 := LeavesAccount(conversions, s, st);
      s', st' := LoopComesInside(conversions, s1, st1, p);
      ReachesChain(conversions, s, st, s1, st1, s', st');
    } else if st.pc.CoreTry? {
      var s1 := BootReaches(conversions, s, st, [p]);
      s', st' := AfterCoreComesInside(conversions, s1, st, [p], p);
      ReachesChain(conversions, s, st, s1, AfterCore(st, [p]), s', st');
    } else {
      var s1, st1, order := LeavesCore(conversions, s, st, [p]);
      s', st' := AfterCoreComesInside(conversions, s1, st, order, p);
      ReachesChain(conversions, s, st, s1, st1, s', st');
    }
  }

  /** A running node that may still come to `p` clashes with `n` inside it, if the locks on its way are free. */
  lemma ComerClashes(conversions: nat, c: Cluster, n: Node, m: Node, p: Account)
    requires Running(c, n) && p in Held(c.nodes[n].pc) && Running(c, m) && m != n && MayCome(c.nodes[m].pc, p)
    requires p !in c.shared.locks && (c.nodes[m].pc.CoreTry? ==> !c.shared.coreLock)
    ensures CanClash(conversions, c)
  {
    hide CanClash, Reaches;
    var s', st' := ComesInside(conversions, c.shared, c.nodes[m], p);
    var c' := With(c, m, st', s');
    assert Running(c', n) && Running(c', m) && p in Held(c'.nodes[n].pc) * Held(c'.nodes[m].pc);
    ClashNow(conversions, c', n, m);
    ClashAfterReaching(conversions, c, m, s', st');
  }

  /** The same, after the core lock's running owner, if any, died and its lock expired. */
  lemma ComerClashesLater(conversions: nat, c: Cluster, n: Node, m: Node, p: Account)
    requires Running(c, n) && p in Held(c.nodes[n].pc) && Running(c, m) && m != n && MayCome(c.nodes[m].pc, p)
    requires p !in c.shared.locks && Spread(c)
    ensures CanClash(conversions, c)
  {
    hide CanClash;
    if !c.nodes[m].pc.CoreTry? {
      ComerClashes(conversions, c, n, m, p);
    } else if CoreInUse(c) {
      var k :| Running(c, k) && HoldsCore(c.nodes[k].pc);
      var c1 := CrashFreesCore(conversions, c, k);
      assert k != n && k != m;
      assert Running(c1, n) && Running(c1, m);
      hide Spread, CoreInUse;
      ComerClashes(conversions, CoreExpired(c1), n, m, p);
      ClashAfter(conversions, c1, ExpireCoreLock);
      ClashAfter(conversions, c, Crash(k));
    } else {
      assert Running(CoreExpired(c), n) && Running(CoreExpired(c), m);
      ComerClashes(conversions, CoreExpired(c), n, m, p);
      ClashAfter(conversions, c, ExpireCoreLock);
    }
  }

  /** Before the stamp any node may restart and come. */
  lemma StarterClashes(conversions: nat, c: Cluster, n: Node, m: Node, p: Account)
    requires Running(c, n) && p in Held(c.nodes[n].pc) && m in c.nodes && m != n
    requires c.shared.schema.Unstamped? && p !in c.shared.locks && Spread(c)
    ensures CanClash(conversions, c)
  {
    hide CanClash;
    var c1 := Apply(conversions, c, Restart(m)).cluster;
    var c2 := Apply(conversions, c1, Step(m, [])).cluster;
    assert c2 == c.(nodes := c.nodes[m := NodeState(CoreTry, {}, c.nodes[m].force, false)]);
    assert Running(c2, n) && Running(c2, m);
    BesideSpreads(c, c2, m);
    ComerClashesLater(conversions, c2, n, m, p);
    ClashAfter(conversions, c1, Step(m, []));
    ClashAfter(conversions, c, Restart(m));
  }

  lemma BesideSpreads(c: Cluster, c': Cluster, m: Node)
    requires Spread(c) && m in c.nodes && c'.nodes == c.nodes[m := NodeState(CoreTry, {}, c.nodes[m].force, false)]
    ensures Spread(c')
  {
    assert forall n :: Running(c', n) && n != m ==> Running(c, n) && c'.nodes[n] == c.nodes[n];
  }

  // ---- When nobody else can come ----------------------------------------------------------------

  datatype Lock = TheCore | Of(account: Account)

  /** The node is inside the lock or may still come to it, after the stamp. */
  predicate Concerned(pc: Pc, l: Lock) {
    match l
    case TheCore => pc.CoreTry? || HoldsCore(pc)
    case Of(p) => p in Held(pc) || MayCome(pc, p)
  }

  function Loose(l: Lock): set<Account> {
    if l.Of? then {l.account} else {}
  }

  /** A running node has the lock it is inside of, or it is the lock that expired under it. */
  ghost predicate BackedBut(s: Shared, st: NodeState, l: Lock) {
    !st.force &&
    (!st.crashed ==> (HoldsCore(st.pc) ==> s.coreLock || l.TheCore?) && Held(st.pc) <= s.locks + Loose(l))
  }

  /** Two running nodes are apart, and not both concerned with the lock. */
  ghost predicate Away(a: Pc, b: Pc, l: Lock) {
    Compatible(a, b) && !(Concerned(a, l) && Concerned(b, l))
  }

  ghost predicate Quiet(c: Cluster, l: Lock) {
    && c.shared.schema.Stamped?
    && (forall n <- c.nodes :: BackedBut(c.shared, c.nodes[n], l))
    && (forall n, m :: Running(c, n) && Running(c, m) && n != m ==> Away(c.nodes[n].pc, c.nodes[m].pc, l))
  }

  /** After the stamp a node gets no new concerns. */
  lemma StepConcern(conversions: nat, s: Shared, st: NodeState, ids: seq<Account>, l: Lock)
    requires s.schema.Stamped? && NodeStep(conversions, s, st, ids).Move?
    ensures var m := NodeStep(conversions, s, st, ids);
            m.shared.schema.Stamped? && (Concerned(m.state.pc, l) ==> Concerned(st.pc, l))
  {
    if InCorePhase(st.pc) {
      match st.pc
      case Boot =>
      case CoreTry =>
      case CoreCheck =>
      case CoreMigrating(_) =>
      case CoreSetDone(_) =>
      case CoreList =>
      case CoreUnlock(_) =>
    } else {
      AccountStepConcern(s, st, l);
    }
  }

  lemma AccountStepConcern(s: Shared, st: NodeState, l: Lock)
    requires s.schema.Stamped? && AccountStep(s, st).Move?
    ensures var m := AccountStep(s, st);
            m.shared.schema.Stamped? && (Concerned(m.state.pc, l) ==> Concerned(st.pc, l))
  {
    if st.pc.Loop? && st.pc.work.todo != [] {
      Basics.HeadTail(st.pc.work.todo);
    }
  }

  lemma StepBackedBut(conversions: nat, s: Shared, st: NodeState, ids: seq<Account>, l: Lock)
    requires BackedBut(s, st, l) && NodeStep(conversions, s, st, ids).Move?
    ensures var m := NodeStep(conversions, s, st, ids);
            BackedBut(m.shared, m.state, l) && !m.state.crashed
  {
  }

  lemma StepKeepsAway(conversions: nat, s: Shared, st: NodeState, ids: seq<Account>, other: NodeState, l: Lock)
    requires s.schema.Stamped? && BackedBut(s, st, l) && BackedBut(s, other, l) && !other.crashed
    requires Away(st.pc, other.pc, l) && NodeStep(conversions, s, st, ids).Move?
    ensures var m := NodeStep(conversions, s, st, ids);
            BackedBut(m.shared, other, l) && Away(m.state.pc, other.pc, l) && Away(other.pc, m.state.pc, l)
  {
    StepConcern(conversions, s, st, ids, l);
    StepKeepsCompatible(conversions, s, st, ids, other, l);
    hide NodeStep, Concerned, BackedBut;
  }

  lemma StepKeepsCompatible(conversions: nat, s: Shared, st: NodeState, ids: seq<Account>, other: NodeState, l: Lock)
    requires BackedBut(s, st, l) && BackedBut(s, other, l) && !other.crashed
    requires Away(st.pc, other.pc, l) && NodeStep(conversions, s, st, ids).Move?
    ensures var m := NodeStep(conversions, s, st, ids);
            BackedBut(m.shared, other, l) && Compatible(m.state.pc, other.pc)
  {
    assert Held(st.pc) * Held(other.pc) == {};
    if !InCorePhase(st.pc) && st.pc.Loop? && st.pc.work.todo != [] {
      assert OnList(st.pc.work, st.pc.work.todo[0]);
    }
  }

  lemma NodeStepQuiet(conversions: nat, c: Cluster, n: Node, ids: seq<Account>, l: Lock)
    requires Quiet(c, l) && Apply(conversions, c, Step(n, ids)).Next?
    ensures Quiet(Apply(conversions, c, Step(n, ids)).cluster, l)
  {
    hide NodeStep, Away, BackedBut;
    var st := c.nodes[n];
    var c' := Apply(conversions, c, Step(n, ids)).cluster;
    StuckWhenCrashed(conversions, c.shared, st, ids);
    StepBackedBut(conversions, c.shared, st, ids, l);
    StepConcern(conversions, c.shared, st, ids, l);
    forall m | m in c.nodes && m != n
      ensures BackedBut(c'.shared, c'.nodes[m], l)
      ensures Running(c, m) ==> Away(c'.nodes[n].pc, c'.nodes[m].pc, l) && Away(c'.nodes[m].pc, c'.nodes[n].pc, l)
    {
      if Running(c, m) {
        assert Running(c, n) && Away(c.nodes[n].pc, c.nodes[m].pc, l);
        StepKeepsAway(conversions, c.shared, st, ids, c.nodes[m], l);
      } else {
        CrashedIsBacked(c.shared, c'.shared, c.nodes[m], l);
      }
    }
  }

  lemma CrashedIsBacked(s: Shared, s': Shared, st: NodeState, l: Lock)
    requires BackedBut(s, st, l) && st.crashed
    ensures BackedBut(s', st, l)
  {
  }

  lemma ApplyQuiet(conversions: nat, c: Cluster, a: Action, l: Lock)
    requires Quiet(c, l) && Gentle(c, a) && Apply(conversions, c, a).Next?
    ensures Quiet(Apply(conversions, c, a).cluster, l)
  {
    var c' := Apply(conversions, c, a).cluster;
    if a.Step? {
      NodeStepQuiet(conversions, c, a.node, a.ids, l);
    } else {
      forall m <- c'.nodes
        ensures BackedBut(c'.shared, c'.nodes[m], l)
      {
        OtherBacked(conversions, c, a, l, m);
      }
      hide BackedBut;
      forall n, m | Running(c', n) && Running(c', m) && n != m
        ensures Away(c'.nodes[n].pc, c'.nodes[m].pc, l)
      {
        assert c'.nodes[n].pc == Boot || (Running(c, n) && c'.nodes[n] == c.nodes[n]);
        assert c'.nodes[m].pc == Boot || (Running(c, m) && c'.nodes[m] == c.nodes[m]);
        BootIsAway(c'.nodes[n].pc, c'.nodes[m].pc, l);
      }
    }
  }

  lemma BootIsAway(a: Pc, b: Pc, l: Lock)
    ensures a == Boot || b == Boot ==> Away(a, b, l)
  {
  }

  lemma OtherBacked(conversions: nat, c: Cluster, a: Action, l: Lock, m: Node)
    requires Quiet(c, l) && Gentle(c, a) && !a.Step? && Apply(conversions, c, a).Next? && m in c.nodes
    ensures var c' := Apply(conversions, c, a).cluster;
            m in c'.nodes && BackedBut(c'.shared, c'.nodes[m], l)
  {
    assert BackedBut(c.shared, c.nodes[m], l);
    if Running(c, m) {
      assert a.ExpireCoreLock? ==> !HoldsCore(c.nodes[m].pc);
      assert a.ExpireLock? ==> a.account !in Held(c.nodes[m].pc);
    }
  }

  lemma {:induction false} ExecQuiet(conversions: nat, c: Cluster, run: seq<Action>, l: Lock)
    requires Quiet(c, l) && GentleRun(conversions, c, run) && Exec(conversions, c, run).Next?
    ensures Quiet(Exec(conversions, c, run).cluster, l)
    decreases |run|
  {
    hide Apply, Quiet, Gentle;
    if run != [] {
      ApplyQuiet(conversions, c, run[0], l);
      ExecQuiet(conversions, Apply(conversions, c, run[0]).cluster, run[1..], l);
    }
  }

  lemma QuietCannotClash(conversions: nat, c: Cluster, l: Lock)
    requires Quiet(c, l)
    ensures !CanClash(conversions, c)
  {
    hide Exec, GentleRun, Clash, Quiet;
    if CanClash(conversions, c) {
      var run :| GentleRun(conversions, c, run) && Exec(conversions, c, run).Next?
                 && Clash(Exec(conversions, c, run).cluster);
      ExecQuiet(conversions, c, run, l);
      QuietNoClash(Exec(conversions, c, run).cluster, l);
    }
  }

  lemma QuietNoClash(c: Cluster, l: Lock)
    requires Quiet(c, l)
    ensures !Clash(c)
  {
    hide Compatible, Concerned, BackedBut;
  }

  // ---- Exactly when an expiry is unsafe ---------------------------------------------------------

  /** `n` is running inside the lock of `p`, and `m` can still come to it. */
  predicate Exposes(c: Cluster, p: Account, n: Node, m: Node) {
    && Running(c, n) && p in Held(c.nodes[n].pc) && m in c.nodes && m != n
    && (c.shared.schema.Unstamped? || (Running(c, m) && MayCome(c.nodes[m].pc, p)))
  }

  /**
   Exactly when the expiry of an account's lock can break exclusion: a running node is inside the
   lock, and another node can still come to it, which before the stamp is any node. In every other
   case no gentle continuation brings two running nodes together.
   */
  lemma ExpiryIsUnsafeIff(conversions: nat, c: Cluster, p: Account)
    requires Apart(c)
    ensures CanClash(conversions, Expired(c, p)) <==> exists n, m :: Exposes(c, p, n, m)
  {
    hide CanClash;
    var c1 := Expired(c, p);
    if n, m :| Exposes(c, p, n, m) {
      assert Running(c1, n);
      assert forall j :: Running(c1, j) ==> Running(c, j);
      hide Apart;
      assert Spread(c1);
      if c.shared.schema.Unstamped? {
        StarterClashes(conversions, c1, n, m, p);
      } else {
        assert Running(c1, m);
        ComerClashesLater(conversions, c1, n, m, p);
      }
    } else if !InUse(c, p) {
      ExpiryApart(c, p);
      ApartCannotClash(conversions, c1);
    } else if c.shared.schema.Stamped? {
      ExpiryQuiet(c, p);
      QuietCannotClash(conversions, c1, Of(p));
    } else {
      AloneCannotClash(conversions, c1, c, p);
    }
  }

  /** A node inside, before the stamp, and nobody else at all. */
  lemma AloneCannotClash(conversions: nat, c1: Cluster, c: Cluster, p: Account)
    requires c1.nodes == c.nodes && InUse(c, p) && c.shared.schema.Unstamped? && !exists n, m :: Exposes(c, p, n, m)
    ensures !CanClash(conversions, c1)
  {
    hide CanClash;
    var n: Node :| Running(c, n) && p in Held(c.nodes[n].pc);
    assert forall m: Node :: m in c.nodes ==> !Exposes(c, p, n, m);
    assert c.nodes.Keys == {n};
    if CanClash(conversions, c1) {
      ClashNeedsTwo(conversions, c1);
    }
  }

  lemma ExpiryQuiet(c: Cluster, p: Account)
    requires Apart(c) && c.shared.schema.Stamped? && InUse(c, p) && !exists n, m :: Exposes(c, p, n, m)
    ensures Quiet(Expired(c, p), Of(p))
  {
    var c1 := Expired(c, p);
    forall m <- c1.nodes
      ensures BackedBut(c1.shared, c1.nodes[m], Of(p))
    {
      assert Backed(c.shared, c.nodes[m]);
    }
    var n :| Running(c, n) && p in Held(c.nodes[n].pc);
    forall m | Running(c, m) && m != n
      ensures !Concerned(c.nodes[m].pc, Of(p))
    {
      assert !Exposes(c, p, n, m);
      assert Compatible(c.nodes[n].pc, c.nodes[m].pc);
    }
    forall i, j | Running(c1, i) && Running(c1, j) && i != j
      ensures Away(c1.nodes[i].pc, c1.nodes[j].pc, Of(p))
    {
      assert Running(c, i) && Running(c, j) && Compatible(c.nodes[i].pc, c.nodes[j].pc);
    }
  }

  /** The same for the core lock, which only nodes that have already asked for it can enter after the stamp. */
  predicate ExposesCore(c: Cluster, n: Node, m: Node) {
    && Running(c, n) && HoldsCore(c.nodes[n].pc) && m in c.nodes && m != n
    && (c.shared.schema.Unstamped? || (Running(c, m) && c.nodes[m].pc == CoreTry))
  }

  lemma CoreExpiryIsUnsafeIff(conversions: nat, c: Cluster)
    requires Apart(c)
    ensures CanClash(conversions, CoreExpired(c)) <==> exists n, m :: ExposesCore(c, n, m)
  {
    hide CanClash;
    var c1 := CoreExpired(c);
    if n, m :| ExposesCore(c, n, m) {
      assert Running(c1, n);
      hide Apart;
      if c.shared.schema.Unstamped? {
        var c2 := Apply(conversions, c1, Restart(m)).cluster;
        var c3 := Apply(conversions, c2, Step(m, [])).cluster;
        assert Running(c3, n) && Running(c3, m);
        CoreComerClashes(conversions, c3, n, m);
        ClashAfter(conversions, c2, Step(m, []));
        ClashAfter(conversions, c1, Restart(m));
      } else {
        assert Running(c1, m);
        CoreComerClashes(conversions, c1, n, m);
      }
    } else if !CoreInUse(c) {
      CoreExpiryApart(c);
      ApartCannotClash(conversions, c1);
    } else if c.shared.schema.Stamped? {
      CoreExpiryQuiet(c);
      QuietCannotClash(conversions, c1, TheCore);
    } else {
      CoreAloneCannotClash(conversions, c1, c);
    }
  }

  lemma CoreComerClashes(conversions: nat, c: Cluster, n: Node, m: Node)
    requires Running(c, n) && HoldsCore(c.nodes[n].pc) && Running(c, m) && m != n && c.nodes[m].pc == CoreTry
    requires !c.shared.coreLock
    ensures CanClash(conversions, c)
  {
    hide CanClash;
    var c1 := Apply(conversions, c, Step(m, [])).cluster;
    assert Running(c1, n) && Running(c1, m) && HoldsCore(c1.nodes[n].pc) && HoldsCore(c1.nodes[m].pc);
    ClashNow(conversions, c1, n, m);
    ClashAfter(conversions, c, Step(m, []));
  }

  lemma CoreAloneCannotClash(conversions: nat, c1: Cluster, c: Cluster)
    requires c1.nodes == c.nodes && CoreInUse(c) && c.shared.schema.Unstamped? && !exists n, m :: ExposesCore(c, n, m)
    ensures !CanClash(conversions, c1)
  {
    hide CanClash;
    var n: Node :| Running(c, n) && HoldsCore(c.nodes[n].pc);
    assert forall m: Node :: m in c.nodes ==> !ExposesCore(c, n, m);
    assert c.nodes.Keys == {n};
    if CanClash(conversions, c1) {
      ClashNeedsTwo(conversions, c1);
    }
  }

  lemma CoreExpiryQuiet(c: Cluster)
    requires Apart(c) && c.shared.schema.Stamped? && CoreInUse(c) && !exists n, m :: ExposesCore(c, n, m)
    ensures Quiet(CoreExpired(c), TheCore)
  {
    var c1 := CoreExpired(c);
    forall m <- c1.nodes
      ensures BackedBut(c1.shared, c1.nodes[m], TheCore)
    {
      assert Backed(c.shared, c.nodes[m]);
    }
    var n :| Running(c, n) && HoldsCore(c.nodes[n].pc);
    forall m | Running(c, m) && m != n
      ensures !Concerned(c.nodes[m].pc, TheCore)
    {
      assert !ExposesCore(c, n, m);
      assert Compatible(c.nodes[n].pc, c.nodes[m].pc);
    }
    forall i, j | Running(c1, i) && Running(c1, j) && i != j
      ensures Away(c1.nodes[i].pc, c1.nodes[j].pc, TheCore)
    {
      assert Running(c, i) && Running(c, j) && Compatible(c.nodes[i].pc, c.nodes[j].pc);
    }
  }

  // ---- Exactly when `FORCE_LOCK` is unsafe ------------------------------------------------------

  /**
   From any start, exclusion can break without a lock expiring under a running node if and only if
   some node uses `FORCE_LOCK` and there is another node.
   */
  lemma ForceIsUnsafeIff(conversions: nat, c0: Cluster)
    requires Init(c0)
    ensures CanClash(conversions, c0) <==> exists n, m :: n in c0.nodes && m in c0.nodes && n != m && c0.nodes[n].force
  {
    hide CanClash;
    if n, m :| n in c0.nodes && m in c0.nodes && n != m && c0.nodes[n].force {
      ForcedClashes(conversions, c0, n, m);
    } else if forall n <- c0.nodes :: !c0.nodes[n].force {
      assert Apart(c0);
      ApartCannotClash(conversions, c0);
    } else {
      var n :| n in c0.nodes && c0.nodes[n].force;
      assert c0.nodes.Keys == {n};
      if CanClash(conversions, c0) {
        ClashNeedsTwo(conversions, c0);
      }
    }
  }

  /** The other node takes the core lock, left or not, and the forced one walks in. */
  lemma ForcedClashes(conversions: nat, c0: Cluster, n: Node, m: Node)
    requires Init(c0) && n in c0.nodes && m in c0.nodes && n != m && c0.nodes[n].force
    ensures CanClash(conversions, c0)
  {
    hide CanClash;
    var c1 := CoreExpired(c0);
    var c2 := Apply(conversions, c1, Step(m, [])).cluster;
    var c3 := Apply(conversions, c2, Step(m, [])).cluster;
    var c4 := Apply(conversions, c3, Step(n, [])).cluster;
    var c5 := Apply(conversions, c4, Step(n, [])).cluster;
    assert Running(c5, n) && Running(c5, m) && HoldsCore(c5.nodes[n].pc) && HoldsCore(c5.nodes[m].pc);
    ClashNow(conversions, c5, n, m);
    ClashAfter(conversions, c4, Step(n, []));
    ClashAfter(conversions, c3, Step(n, []));
    ClashAfter(conversions, c2, Step(m, []));
    ClashAfter(conversions, c1, Step(m, []));
    assert !CoreInUse(c0);
    ClashAfter(conversions, c0, ExpireCoreLock);
  }

  /** Also after the stamp: a node about to try the account walks in on the one inside. */
  lemma ExpiryLetsNextIn(conversions: nat, c: Cluster, n: Node, m: Node, p: Account)
    requires Running(c, n) && p in Held(c.nodes[n].pc) && Running(c, m) && m != n
    requires c.nodes[m].pc.Loop? && c.nodes[m].pc.work.todo != [] && c.nodes[m].pc.work.todo[0] == p
    ensures var end := Exec(conversions, c, [ExpireLock(p), Step(m, [])]);
            end.Next? && Clash(end.cluster)
  {
    var c1 := Expired(c, p);
    var end := Apply(conversions, c1, Step(m, [])).cluster;
    assert [ExpireLock(p), Step(m, [])][1..] == [Step(m, [])];
    ExecOne(conversions, c1, Step(m, []));
    assert Running(end, n) && Running(end, m) && p in Held(end.nodes[n].pc) * Held(end.nodes[m].pc);
  }

  // ---- Each assumption is needed, on its own ------------------------------------------------

  /** Nothing converted and no lock taken; all nodes about to boot. */
  ghost predicate CleanStart(c: Cluster) {
    Init(c) && c.shared.coreRuns == 0 && c.shared.runs == multiset{} && !c.shared.coreLock && c.shared.locks == {}
  }

  ghost predicate BothConvert(r: Result, p: Account) {
    && r.Next? && 0 in r.cluster.nodes && 1 in r.cluster.nodes
    && !r.cluster.nodes[0].crashed && !r.cluster.nodes[1].crashed
    && r.cluster.nodes[0].pc == r.cluster.nodes[1].pc == AccountMigrating(p, Work([], []))
  }

  function TwoNodes(force: bool): Cluster {
    Cluster(map[0 := NodeState(Boot, {}, false, false), 1 := NodeState(Boot, {}, force, false)],
            Shared(false, false, {}, {}, multiset{}, 0, multiset{}, Unstamped))
  }

  lemma FirstConverts(conversions: nat, force: bool, p: Account) returns (script: seq<seq<Account>>, c: Cluster)
    ensures Exec(conversions, TwoNodes(force), Steps(0, script)) == Next(c)
    ensures c.nodes == TwoNodes(force).nodes[0 := Converting(NodeState(Boot, {}, false, false), p)]
    ensures c.shared.schema.Unstamped? && !c.shared.coreLock && c.shared.locks == {p}
    ensures c.shared.done == {} && c.shared.runs == multiset{}
  {
    hide Exec, Solo;
    var c0 := TwoNodes(force);
    var s' := ComesToConvert(conversions, c0.shared, c0.nodes[0], p);
    script :| Solo(conversions, c0.shared, c0.nodes[0], script) == Move(s', Converting(c0.nodes[0], p));
    SoloIsRun(conversions, c0, 0, script);
    c := With(c0, 0, Converting(c0.nodes[0], p), s');
  }

  lemma SecondConverts(conversions: nat, c: Cluster, p: Account) returns (script: seq<seq<Account>>)
    requires 0 in c.nodes && !c.nodes[0].crashed && c.nodes[0].pc == AccountMigrating(p, Work([], []))
    requires 1 in c.nodes && c.nodes[1].pc == Boot && !c.nodes[1].crashed
    requires c.shared.schema.Unstamped? && !c.shared.coreLock && p !in c.shared.done
    requires p !in c.shared.locks || c.nodes[1].force
    ensures BothConvert(Exec(conversions, c, Steps(1, script)), p)
  {
    hide Exec, Solo;
    var s' := ComesToConvert(conversions, c.shared, c.nodes[1], p);
    script :| Solo(conversions, c.shared, c.nodes[1], script) == Move(s', Converting(c.nodes[1], p));
    SoloIsRun(conversions, c, 1, script);
  }

  /** From a clean start without `FORCE_LOCK`, one expiry is enough for two nodes to convert one account. */
  lemma ExpiryBreaksExclusion(conversions: nat, p: Account) returns (first: seq<seq<Account>>, second: seq<seq<Account>>)
    ensures var c0 := TwoNodes(false);
            && CleanStart(c0) && (forall n <- c0.nodes :: !c0.nodes[n].force)
            && BothConvert(Exec(conversions, c0, Steps(0, first) + [ExpireLock(p)] + Steps(1, second)), p)
  {
    hide Exec, Apply, Solo;
    var c0, c := TwoNodes(false), TwoNodes(false);
    first, c := FirstConverts(conversions, false, p);
    var c1 := Expired(c, p);
    ExecOne(conversions, c, ExpireLock(p));
    ExpireApplies(conversions, c, p);
    ExecAppend(conversions, c0, Steps(0, first), [ExpireLock(p)]);
    second := SecondConverts(conversions, c1, p);
    ExecAppend(conversions, c0, Steps(0, first) + [ExpireLock(p)], Steps(1, second));
  }

  lemma ExpireApplies(conversions: nat, c: Cluster, p: Account)
    ensures Apply(conversions, c, ExpireLock(p)) == Next(Expired(c, p))
  {
  }

  /** From a clean start without expiry, one node with `FORCE_LOCK` is enough. */
  lemma ForceBreaksExclusion(conversions: nat, p: Account) returns (first: seq<seq<Account>>, second: seq<seq<Account>>)
    ensures CleanStart(TwoNodes(true))
    ensures BothConvert(Exec(conversions, TwoNodes(true), Steps(0, first) + Steps(1, second)), p)
  {
    hide Exec, Solo;
    var c;
    first, c := FirstConverts(conversions, true, p);
    second := SecondConverts(conversions, c, p);
    ExecAppend(conversions, TwoNodes(true), Steps(0, first), Steps(1, second));
  }
}
