/**
 Converting twice: exactly which expiries of locks and done keys can make the cluster convert the core
 data, or an account, a second time.
 */
module MigrationRepeats {
  import Basics
  import opened Migration
  import opened MigrationProgress
  import opened MigrationExclusion
  import opened MigrationOnce

  // ---- Every other expiry can convert again -----------------------------------------------------

  ghost predicate Repeats(s: Shared) {
    s.coreRuns >= 2 || exists p :: s.runs[p] >= 2
  }

  /** Some continuation by harmless actions converts something a second time. */
  ghost predicate CanRepeat(conversions: nat, c: Cluster) {
    exists run ::
      && HarmlessRun(conversions, c, run) && Exec(conversions, c, run).Next?
      && Repeats(Exec(conversions, c, run).cluster.shared)
  }

  lemma RepeatNow(conversions: nat, c: Cluster)
    requires Repeats(c.shared)
    ensures CanRepeat(conversions, c)
  {
    ExecNothing(conversions, c);
    hide Exec, Repeats;
    assert HarmlessRun(conversions, c, []);
  }

  lemma RepeatAfter(conversions: nat, c: Cluster, a: Action)
    requires Harmless(c, a) && Apply(conversions, c, a).Next? && CanRepeat(conversions, Apply(conversions, c, a).cluster)
    ensures CanRepeat(conversions, c)
  {
    hide Apply, Harmless, Repeats;
    var c' := Apply(conversions, c, a).cluster;
    var run :| HarmlessRun(conversions, c', run) && Exec(conversions, c', run).Next?
               && Repeats(Exec(conversions, c', run).cluster.shared);
    assert ([a] + run)[1..] == run;
    assert HarmlessRun(conversions, c, [a] + run);
    assert Exec(conversions, c, [a] + run) == Exec(conversions, c', run);
  }

  lemma {:induction false} RepeatAfterScript(conversions: nat, c: Cluster, n: Node, script: seq<seq<Account>>)
    requires n in c.nodes && Solo(conversions, c.shared, c.nodes[n], script).Move?
    requires var m := Solo(conversions, c.shared, c.nodes[n], script);
             CanRepeat(conversions, With(c, n, m.state, m.shared))
    ensures CanRepeat(conversions, c)
    decreases |script|
  {
    hide CanRepeat, NodeStep;
    if script == [] {
      assert c.nodes[n := c.nodes[n]] == c.nodes;
    } else {
      var m := NodeStep(conversions, c.shared, c.nodes[n], script[0]);
      var c' := With(c, n, m.state, m.shared);
      var end := Solo(conversions, c.shared, c.nodes[n], script);
      assert c'.nodes[n := end.state] == c.nodes[n := end.state];
      RepeatAfterScript(conversions, c', n, script[1..]);
      RepeatAfter(conversions, c, Step(n, script[0]));
    }
  }

  lemma RepeatAfterReaching(conversions: nat, c: Cluster, n: Node, s': Shared, st': NodeState)
    requires n in c.nodes && Reaches(conversions, c.shared, c.nodes[n], s', st')
    requires CanRepeat(conversions, With(c, n, st', s'))
    ensures CanRepeat(conversions, c)
  {
    hide CanRepeat, Solo;
    var script :| Solo(conversions, c.shared, c.nodes[n], script) == Move(s', st');
    RepeatAfterScript(conversions, c, n, script);
  }

  /** A node that can come to `p`: any that starts, while starting works, or one with `p` still ahead of it. */
  predicate Comer(c: Cluster, m: Node, p: Account) {
    && m in c.nodes && !c.nodes[m].force
    && ((c.shared.schema.Unstamped? && c.shared.coreDone) ||
        (Running(c, m) && p !in Held(c.nodes[m].pc) && MayCome(c.nodes[m].pc, p) &&
         (c.nodes[m].pc.CoreTry? ==> c.shared.coreDone)))
  }

  /** A converted account, neither marked nor locked, and a node that is about to look at it. */
  lemma ChecksAgain(conversions: nat, c: Cluster, m: Node, p: Account)
    requires Running(c, m) && c.nodes[m].pc.AccountCheck? && c.nodes[m].pc.account == p
    requires p in c.shared.runs && p !in c.shared.done
    ensures CanRepeat(conversions, c)
  {
    hide CanRepeat;
    var c1 := Apply(conversions, c, Step(m, [])).cluster;
    var c2 := Apply(conversions, c1, Step(m, [])).cluster;
    assert c2.shared.runs == c.shared.runs + multiset{p};
    assert c2.shared.runs[p] >= 2;
    RepeatNow(conversions, c2);
    RepeatAfter(conversions, c1, Step(m, []));
    RepeatAfter(conversions, c, Step(m, []));
  }

  lemma RunningComes(conversions: nat, c: Cluster, m: Node, p: Account)
    requires Running(c, m) && p !in Held(c.nodes[m].pc) && MayCome(c.nodes[m].pc, p)
    requires c.nodes[m].pc.CoreTry? ==> !c.shared.coreLock
    requires p in c.shared.runs && p !in c.shared.done && p !in c.shared.locks
    ensures CanRepeat(conversions, c)
  {
    hide CanRepeat, Reaches;
    var s', st' := ComesInside(conversions, c.shared, c.nodes[m], p);
    var c' := With(c, m, st', s');
    assert p in s'.runs;
    ChecksAgain(conversions, c', m, p);
    RepeatAfterReaching(conversions, c, m, s', st');
  }

  /** The core lock may expire once the core key is set. */
  lemma AfterCoreExpiry(conversions: nat, c: Cluster)
    requires c.shared.coreDone && CanRepeat(conversions, CoreExpired(c))
    ensures CanRepeat(conversions, c)
  {
    hide CanRepeat;
    RepeatAfter(conversions, c, ExpireCoreLock);
  }

  /** A converted account, neither marked nor locked: a node that can come converts it again. */
  lemma ConvertsAgain(conversions: nat, c: Cluster, m: Node, p: Account)
    requires Comer(c, m, p) && p in c.shared.runs && p !in c.shared.done && p !in c.shared.locks
    ensures CanRepeat(conversions, c)
  {
    hide CanRepeat, Held;
    if c.shared.schema.Unstamped? && c.shared.coreDone {
      var c1 := Apply(conversions, c, Restart(m)).cluster;
      var c2 := Apply(conversions, c1, Step(m, [])).cluster;
      assert c2 == c.(nodes := c.nodes[m := NodeState(CoreTry, {}, c.nodes[m].force, false)]);
      StarterComes(conversions, c2, m, p);
      RepeatAfter(conversions, c1, Step(m, []));
      RepeatAfter(conversions, c, Restart(m));
    } else if c.nodes[m].pc.CoreTry? {
      StarterComes(conversions, c, m, p);
    } else {
      RunningComes(conversions, c, m, p);
    }
  }

  lemma StarterComes(conversions: nat, c: Cluster, m: Node, p: Account)
    requires Running(c, m) && c.nodes[m].pc == CoreTry && c.shared.coreDone
    requires p in c.shared.runs && p !in c.shared.done && p !in c.shared.locks
    ensures CanRepeat(conversions, c)
  {
    hide CanRepeat;
    var c' := CoreExpired(c);
    assert Running(c', m);
    RunningComes(conversions, c', m, p);
    AfterCoreExpiry(conversions, c);
  }

  /** A node that converts an account whose lock is gone; another comes before it is marked. */
  lemma ConvertsUnlocked(conversions: nat, c: Cluster, n: Node, m: Node, p: Account)
    requires Running(c, n) && Comer(c, m, p)
    requires (c.nodes[n].pc.AccountCheck? || c.nodes[n].pc.AccountMigrating?) && c.nodes[n].pc.account == p
    requires p !in c.shared.done && p !in c.shared.locks
    ensures CanRepeat(conversions, c)
    decreases c.nodes[n].pc.AccountCheck?
  {
    hide CanRepeat;
    var c1 := Apply(conversions, c, Step(n, [])).cluster;
    assert Comer(c1, m, p);
    if c.nodes[n].pc.AccountCheck? {
      ConvertsUnlocked(conversions, c1, n, m, p);
    } else {
      assert c1.shared.runs == c.shared.runs + multiset{p};
      ConvertsAgain(conversions, c1, m, p);
    }
    RepeatAfter(conversions, c, Step(n, []));
  }

  /** A node that can come to the core lock. */
  predicate CoreComer(c: Cluster, m: Node) {
    m in c.nodes && (c.shared.schema.Unstamped? || (Running(c, m) && c.nodes[m].pc == CoreTry))
  }

  lemma ConvertsCoreAgain(conversions: nat, c: Cluster, m: Node)
    requires CoreComer(c, m) && c.shared.coreRuns >= 1 && !c.shared.coreDone && !c.shared.coreLock
    ensures CanRepeat(conversions, c)
  {
    hide CanRepeat;
    if Running(c, m) && c.nodes[m].pc == CoreTry {
      EntersCoreAgain(conversions, c, m);
    } else {
      var c1 := Apply(conversions, c, Restart(m)).cluster;
      EntersCoreAgain(conversions, c1, m);
      RepeatAfter(conversions, c, Restart(m));
    }
  }

  lemma EntersCoreAgain(conversions: nat, c: Cluster, m: Node)
    requires Running(c, m) && (c.nodes[m].pc == CoreTry || (c.nodes[m].pc == Boot && c.shared.schema.Unstamped?))
    requires c.shared.coreRuns >= 1 && !c.shared.coreDone && !c.shared.coreLock
    ensures CanRepeat(conversions, c)
  {
    hide CanRepeat, Reaches;
    assert Elements([]) == {};
    var s' := BootReaches(conversions, c.shared, c.nodes[m], []);
    var st' := AfterCore(c.nodes[m], []);
    RepeatNow(conversions, With(c, m, st', s'));
    RepeatAfterReaching(conversions, c, m, s', st');
  }

  /** A node converting the core data a second time, or while its lock is gone and another can come. */
  lemma {:induction false} ConvertsCore(conversions: nat, c: Cluster, n: Node, m: Node)
    requires Running(c, n) && c.nodes[n].pc.CoreMigrating?
    requires c.shared.coreRuns >= 1 || (!c.shared.coreDone && !c.shared.coreLock && CoreComer(c, m))
    ensures CanRepeat(conversions, c)
    decreases conversions - c.nodes[n].pc.conversion
  {
    hide CanRepeat;
    var c1 := Apply(conversions, c, Step(n, [])).cluster;
    if c.nodes[n].pc.conversion + 1 < conversions {
      ConvertsCore(conversions, c1, n, m);
    } else if c.shared.coreRuns >= 1 {
      RepeatNow(conversions, c1);
    } else {
      ConvertsCoreAgain(conversions, c1, m);
    }
    RepeatAfter(conversions, c, Step(n, []));
  }

  lemma ChecksCore(conversions: nat, c: Cluster, n: Node, m: Node)
    requires Running(c, n) && c.nodes[n].pc == CoreCheck && !c.shared.coreDone
    requires c.shared.coreRuns >= 1 || (!c.shared.coreLock && CoreComer(c, m))
    ensures CanRepeat(conversions, c)
  {
    hide CanRepeat;
    var c1 := Apply(conversions, c, Step(n, [])).cluster;
    ConvertsCore(conversions, c1, n, m);
    RepeatAfter(conversions, c, Step(n, []));
  }

  /** A node leaves the core lock, and another comes. */
  lemma LeaverRepeats(conversions: nat, c: Cluster, n: Node, m: Node)
    requires Running(c, n) && (c.nodes[n].pc.CoreList? || c.nodes[n].pc.CoreUnlock?) && CoreComer(c, m)
    requires c.shared.coreRuns >= 1 && !c.shared.coreDone
    ensures CanRepeat(conversions, c)
  {
    hide CanRepeat, Reaches;
    assert Elements([]) == {};
    var s', st', order := LeavesCore(conversions, c.shared, c.nodes[n], []);
    ConvertsCoreAgain(conversions, With(c, n, st', s'), m);
    RepeatAfterReaching(conversions, c, n, s', st');
  }

  // ---- Who can still come -----------------------------------------------------------------------

  /** The core key expired behind a lock whose owner is dead: nobody passes the core phase any more. */
  ghost predicate Sealed(c: Cluster) {
    c.shared.coreRuns == 1 && !c.shared.coreDone && c.shared.coreLock && !CoreInUse(c)
  }

  /** Before the stamp every node can come, by starting; after it, those that have not got past it yet. */
  ghost predicate CanCome(c: Cluster, a: Action, m: Node) {
    var unstamped := c.shared.schema.Unstamped?;
    m in c.nodes &&
    match a
    case ExpireCoreLock => unstamped || (Running(c, m) && c.nodes[m].pc.CoreTry?)
    case ExpireCoreDone => unstamped || (Running(c, m) && (c.nodes[m].pc.CoreTry? || c.nodes[m].pc.CoreCheck?))
    case ExpireLock(p) =>
      (unstamped && !Sealed(c)) ||
      (Running(c, m) && p !in Held(c.nodes[m].pc) && MayCome(c.nodes[m].pc, p) && (c.nodes[m].pc.CoreTry? ==> !Sealed(c)))
    case ExpireDone(p) =>
      (unstamped && !Sealed(c)) ||
      (Running(c, m) && (MayCome(c.nodes[m].pc, p) || Checking(c.nodes[m].pc, p)) && (c.nodes[m].pc.CoreTry? ==> !Sealed(c)))
    case _ => false
  }

  predicate Checking(pc: Pc, p: Account) {
    pc.AccountCheck? && pc.account == p
  }

  /** Once a node has passed the core phase, the core key is there, or the core phase is sealed. */
  ghost predicate CoreKept(c: Cluster) {
    && (c.shared.runs != multiset{} ==> c.shared.coreDone || Sealed(c))
    && (forall n :: Running(c, n) && InAccounts(c.nodes[n].pc) ==> c.shared.coreDone || Sealed(c))
  }

  predicate InAccounts(pc: Pc) {
    pc.Loop? || pc.AccountCheck? || pc.AccountMigrating? || pc.AccountSetDone? || pc.AccountUnlock?
  }

  /** A step of a node outside the core lock leaves a core lock that is taken, and the core key. */
  lemma StepSealed(conversions: nat, s: Shared, st: NodeState, ids: seq<Account>)
    requires NodeStep(conversions, s, st, ids).Move? && !st.force && s.coreLock && !HoldsCore(st.pc)
    ensures var m := NodeStep(conversions, s, st, ids);
            && m.shared.coreLock && m.shared.coreDone == s.coreDone && m.shared.coreRuns == s.coreRuns
            && !HoldsCore(m.state.pc)
  {
  }

  lemma SealedStays(conversions: nat, c: Cluster, a: Action)
    requires Sealed(c) && Harmless(c, a) && Apply(conversions, c, a).Next? && forall n <- c.nodes :: !c.nodes[n].force
    ensures Sealed(Apply(conversions, c, a).cluster)
  {
    hide NodeStep, HoldsCore;
    var c' := Apply(conversions, c, a).cluster;
    if a.Step? {
      StuckWhenCrashed(conversions, c.shared, c.nodes[a.node], a.ids);
      assert Running(c, a.node);
      StepSealed(conversions, c.shared, c.nodes[a.node], a.ids);
    }
    BootOutside();
    forall n | Running(c', n)
      ensures !HoldsCore(c'.nodes[n].pc)
    {
      if !a.Step? || n != a.node {
        assert c'.nodes[n].pc == Boot || Running(c, n);
      }
    }
  }

  lemma BootOutside()
    ensures !HoldsCore(Boot)
  {
  }

  lemma StepCoreKept(conversions: nat, s: Shared, st: NodeState, ids: seq<Account>)
    requires NodeStep(conversions, s, st, ids).Move? && NodeOnce(s, st)
    ensures var m := NodeStep(conversions, s, st, ids);
            && (s.coreDone ==> m.shared.coreDone)
            && (InAccounts(m.state.pc) ==> InAccounts(st.pc) || s.coreDone)
            && (m.shared.runs != multiset{} ==> s.runs != multiset{} || InAccounts(st.pc))
  {
  }

  lemma ApplyCoreKept(conversions: nat, c: Cluster, a: Action)
    requires Once(c) && CoreKept(c) && Harmless(c, a) && Apply(conversions, c, a).Next?
    ensures CoreKept(Apply(conversions, c, a).cluster)
  {
    var c' := Apply(conversions, c, a).cluster;
    if Sealed(c) {
      assert forall n <- c.nodes :: NodeOnce(c.shared, c.nodes[n]);
      hide Once;
      SealedStays(conversions, c, a);
    } else if c.shared.coreDone {
      CoreDoneKept(conversions, c, a);
    } else {
      hide NodeStep, NodeOnce, StoreOnce, PairOnce, Harmless;
      if a.Step? {
        StuckWhenCrashed(conversions, c.shared, c.nodes[a.node], a.ids);
        assert Running(c, a.node);
        StepCoreKept(conversions, c.shared, c.nodes[a.node], a.ids);
      }
      forall n | Running(c', n)
        ensures !InAccounts(c'.nodes[n].pc)
      {
        if !a.Step? || n != a.node {
          assert c'.nodes[n].pc == Boot || (Running(c, n) && c'.nodes[n] == c.nodes[n]);
        }
      }
    }
  }

  lemma CoreDoneKept(conversions: nat, c: Cluster, a: Action)
    requires Once(c) && Harmless(c, a) && Apply(conversions, c, a).Next? && c.shared.coreDone
    ensures var c' := Apply(conversions, c, a).cluster;
            c'.shared.coreDone || Sealed(c')
  {
    var c' := Apply(conversions, c, a).cluster;
    if a.Step? {
      assert NodeOnce(c.shared, c.nodes[a.node]);
      StepCoreKept(conversions, c.shared, c.nodes[a.node], a.ids);
    } else if a.ExpireCoreDone? {
      assert forall n :: Running(c', n) ==> Running(c, n);
    }
  }

  lemma {:induction false} ExecCoreKept(conversions: nat, c: Cluster, run: seq<Action>)
    requires Once(c) && CoreKept(c) && HarmlessRun(conversions, c, run) && Exec(conversions, c, run).Next?
    ensures CoreKept(Exec(conversions, c, run).cluster)
    decreases |run|
  {
    hide Apply, Once, Harmless, CoreKept;
    if run != [] {
      ApplyOnce(conversions, c, run[0]);
      ApplyCoreKept(conversions, c, run[0]);
      ExecCoreKept(conversions, Apply(conversions, c, run[0]).cluster, run[1..]);
    }
  }

  // ---- A harmful expiry, and a node that can come -----------------------------------------------

  lemma LockExpiryRepeats(conversions: nat, c: Cluster, p: Account, m: Node)
    requires Once(c) && CoreKept(c) && !Harmless(c, ExpireLock(p)) && CanCome(c, ExpireLock(p), m)
    ensures CanRepeat(conversions, Expired(c, p))
  {
    hide CanRepeat;
    var c1 := Expired(c, p);
    assert NodeOnce(c.shared, c.nodes[m]);
    if p in c.shared.runs {
      assert c.shared.coreDone || Sealed(c);
      ConvertsAgain(conversions, c1, m, p);
    } else {
      var n :| Running(c, n) && p in Held(c.nodes[n].pc);
      assert NodeOnce(c.shared, c.nodes[n]) && InAccounts(c.nodes[n].pc);
      ConvertsUnlocked(conversions, c1, n, m, p);
    }
  }

  lemma DoneExpiryRepeats(conversions: nat, c: Cluster, p: Account, m: Node)
    requires Once(c) && CoreKept(c) && !Harmless(c, ExpireDone(p)) && CanCome(c, ExpireDone(p), m)
    ensures CanRepeat(conversions, Apply(conversions, c, ExpireDone(p)).cluster)
  {
    hide CanRepeat;
    var c1 := Apply(conversions, c, ExpireDone(p)).cluster;
    assert NodeOnce(c.shared, c.nodes[m]);
    assert c.shared.coreDone || Sealed(c);
    if n :| Running(c, n) && Checking(c.nodes[n].pc, p) {
      ChecksAgain(conversions, c1, n, p);
    } else if n :| Running(c, n) && p in Held(c.nodes[n].pc) {
      assert NodeOnce(c.shared, c.nodes[n]);
      LeavesAndRepeats(conversions, c1, n, m, p);
    } else {
      assert Running(c, m) ==> p !in Held(c.nodes[m].pc);
      ConvertsAgain(conversions, c1, m, p);
    }
  }

  /** A node inside the lock when the done key expired leaves, and one that can come converts again. */
  lemma LeavesAndRepeats(conversions: nat, c: Cluster, n: Node, m: Node, p: Account)
    requires Running(c, n) && c.nodes[n].pc.AccountUnlock? && c.nodes[n].pc.account == p
    requires p in c.shared.runs && p !in c.shared.done
    requires m in c.nodes && !c.nodes[m].force
    requires Running(c, m) && p in Held(c.nodes[m].pc) ==> c.nodes[m].pc.AccountUnlock?
    requires (c.shared.schema.Unstamped? && c.shared.coreDone) ||
             (Running(c, m) && MayCome(c.nodes[m].pc, p) && (c.nodes[m].pc.CoreTry? ==> c.shared.coreDone))
    ensures CanRepeat(conversions, c)
  {
    hide CanRepeat;
    var c1 := Apply(conversions, c, Step(n, [])).cluster;
    if m != n && Running(c, m) && p in Held(c.nodes[m].pc) {
      var c2 := Apply(conversions, c1, Step(m, [])).cluster;
      ConvertsAgain(conversions, c2, m, p);
      RepeatAfter(conversions, c1, Step(m, []));
    } else {
      ConvertsAgain(conversions, c1, m, p);
    }
    RepeatAfter(conversions, c, Step(n, []));
  }

  lemma CoreLockExpiryRepeats(conversions: nat, c: Cluster, m: Node)
    requires Once(c) && !Harmless(c, ExpireCoreLock) && CanCome(c, ExpireCoreLock, m)
    ensures CanRepeat(conversions, CoreExpired(c))
  {
    hide CanRepeat;
    if c.shared.coreRuns == 0 {
      var n :| Running(c, n) && HoldsCore(c.nodes[n].pc);
      assert NodeOnce(c.shared, c.nodes[n]);
      assert c.nodes[n].pc.CoreCheck? || c.nodes[n].pc.CoreMigrating?;
      if c.nodes[n].pc.CoreCheck? {
        ChecksCore(conversions, CoreExpired(c), n, m);
      } else {
        ConvertsCore(conversions, CoreExpired(c), n, m);
      }
    } else {
      ConvertsCoreAgain(conversions, CoreExpired(c), m);
    }
  }

  lemma CoreDoneExpiryRepeats(conversions: nat, c: Cluster, m: Node)
    requires Once(c) && !Harmless(c, ExpireCoreDone) && CanCome(c, ExpireCoreDone, m)
    ensures CanRepeat(conversions, Apply(conversions, c, ExpireCoreDone).cluster)
  {
    hide CanRepeat, Reaches;
    var c1 := Apply(conversions, c, ExpireCoreDone).cluster;
    if n :| Running(c, n) && c.nodes[n].pc.CoreCheck? {
      ChecksCore(conversions, c1, n, m);
    } else if !c.shared.coreLock {
      ConvertsCoreAgain(conversions, c1, m);
    } else {
      var n :| Running(c, n) && HoldsCore(c.nodes[n].pc);
      assert NodeOnce(c.shared, c.nodes[n]);
      LeaverRepeats(conversions, c1, n, m);
    }
  }

  // ---- A harmful expiry, and nobody to come -----------------------------------------------------

  /** The store as if the expiry had not happened. */
  function Unexpired(s: Shared, a: Action): Shared {
    match a
    case ExpireCoreLock => s.(coreLock := true)
    case ExpireCoreDone => s.(coreDone := true)
    case ExpireLock(p) => s.(locks := s.locks + {p})
    case ExpireDone(p) => s.(done := s.done + {p})
    case _ => s
  }

  function Patched(c: Cluster, a: Action): Cluster {
    c.(shared := Unexpired(c.shared, a))
  }

  /** Nobody can come, so nobody will see the difference. */
  ghost predicate Unseen(c: Cluster, a: Action) {
    Once(Patched(c, a)) && forall m :: !CanCome(c, a, m)
  }

  predicate IsExpiry(a: Action) {
    a.ExpireCoreLock? || a.ExpireCoreDone? || a.ExpireLock? || a.ExpireDone?
  }

  /** A step of the node does not depend on what expired. */
  predicate Blind(pc: Pc, a: Action) {
    match a
    case ExpireCoreLock => !pc.CoreTry?
    case ExpireCoreDone => !pc.CoreCheck?
    case ExpireLock(p) => !(pc.Loop? && pc.work.todo != [] && pc.work.todo[0] == p)
    case ExpireDone(p) => !Checking(pc, p)
    case _ => true
  }

  /** The same move, and a store that differs as before or not at all. */
  predicate Alike(m: Move, patched: Move, a: Action) {
    m.Move? && patched.Move? && patched.state == m.state &&
    (patched.shared == Unexpired(m.shared, a) || patched.shared == m.shared)
  }

  lemma CoreStepPatched(conversions: nat, s: Shared, st: NodeState, ids: seq<Account>, a: Action)
    requires CoreStep(conversions, s, st, ids).Move? && Blind(st.pc, a)
    ensures Alike(CoreStep(conversions, s, st, ids), CoreStep(conversions, Unexpired(s, a), st, ids), a)
  {
    hide Elements;
    match st.pc
    case CoreTry =>
    case CoreCheck =>
    case CoreMigrating(_) =>
    case CoreUnlock(_) =>
    case CoreSetDone(_) =>
    case Boot =>
    case CoreList =>
  }

  lemma AccountStepUnmarked(s: Shared, st: NodeState, p: Account)
    requires AccountStep(s, st).Move? && Blind(st.pc, ExpireDone(p))
    ensures Alike(AccountStep(s, st), AccountStep(s.(done := s.done + {p}), st), ExpireDone(p))
  {
    if st.pc.AccountSetDone? {
      assert s.done + {p} + {st.pc.account} == s.done + {st.pc.account} + {p};
    }
  }

  lemma AccountStepUnlocked(s: Shared, st: NodeState, p: Account)
    requires AccountStep(s, st).Move? && Blind(st.pc, ExpireLock(p))
    ensures Alike(AccountStep(s, st), AccountStep(s.(locks := s.locks + {p}), st), ExpireLock(p))
  {
    match st.pc
    case Loop(w) =>
      if w.todo != [] {
        assert s.locks + {p} + {w.todo[0]} == s.locks + {w.todo[0]} + {p};
      }
    case AccountUnlock(q, _) =>
      if q == p {
        assert s.locks + {p} - {p} == s.locks - {p};
      } else {
        assert s.locks + {p} - {q} == s.locks - {q} + {p};
      }
    case _ =>
  }

  lemma AccountStepPatched(s: Shared, st: NodeState, a: Action)
    requires AccountStep(s, st).Move? && Blind(st.pc, a)
    ensures Alike(AccountStep(s, st), AccountStep(Unexpired(s, a), st), a)
  {
    match a
    case ExpireLock(p) => AccountStepUnlocked(s, st, p);
    case ExpireDone(p) => AccountStepUnmarked(s, st, p);
    case _ => CoreIsUnread(s, st, a);
  }

  lemma CoreIsUnread(s: Shared, st: NodeState, a: Action)
    requires AccountStep(s, st).Move? && !a.ExpireLock? && !a.ExpireDone?
    ensures Alike(AccountStep(s, st), AccountStep(Unexpired(s, a), st), a)
  {
    match st.pc
    case Loop(_) =>
    case AccountCheck(_, _) =>
    case AccountMigrating(_, _) =>
    case AccountSetDone(_, _) =>
    case AccountUnlock(_, _) =>
    case Finished =>
  }

  lemma StepPatched(conversions: nat, s: Shared, st: NodeState, ids: seq<Account>, a: Action)
    requires NodeStep(conversions, s, st, ids).Move? && Blind(st.pc, a)
    ensures Alike(NodeStep(conversions, s, st, ids), NodeStep(conversions, Unexpired(s, a), st, ids), a)
  {
    hide CoreStep, AccountStep, Alike, Blind, Unexpired;
    if InCorePhase(st.pc) {
      CoreStepPatched(conversions, s, st, ids, a);
    } else {
      AccountStepPatched(s, st, a);
    }
  }

  /** A node that is not among those that can come does not look at what expired. */
  lemma BarrenIsBlind(c: Cluster, a: Action, n: Node)
    requires Running(c, n) && IsExpiry(a) && !CanCome(c, a, n)
    ensures Blind(c.nodes[n].pc, a)
  {
  }

  lemma HarmlessPatched(c: Cluster, a: Action, b: Action)
    requires IsExpiry(a) && Harmless(c, b)
    requires b == a ==> !(a.ExpireCoreDone? || a.ExpireDone?)
    ensures Harmless(Patched(c, a), b)
  {
    var c' := Patched(c, a);
    assert forall n :: Running(c', n) <==> Running(c, n);
    assert CoreInUse(c') <==> CoreInUse(c);
    assert forall p :: InUse(c', p) <==> InUse(c, p);
  }

  /** The rest of the actions, too, leave the difference as it was, or undo it. */
  lemma ApplyPatched(conversions: nat, c: Cluster, a: Action, b: Action)
    requires IsExpiry(a) && Apply(conversions, c, b).Next? && (b.Step? ==> Blind(c.nodes[b.node].pc, a))
    ensures var c', patched := Apply(conversions, c, b).cluster, Apply(conversions, Patched(c, a), b);
            patched == Next(Patched(c', a)) || patched == Next(c')
  {
    if b.Step? {
      hide NodeStep, Blind;
      StepPatched(conversions, c.shared, c.nodes[b.node], b.ids, a);
    } else {
      ExpiryPatched(conversions, c, a, b);
    }
  }

  lemma ExpiryPatched(conversions: nat, c: Cluster, a: Action, b: Action)
    requires IsExpiry(a) && Apply(conversions, c, b).Next? && !b.Step?
    ensures var c', patched := Apply(conversions, c, b).cluster, Apply(conversions, Patched(c, a), b);
            patched == Next(Patched(c', a)) || patched == Next(c')
  {
    var s := c.shared;
    if a.ExpireLock? && b.ExpireLock? {
      SetsCommute(s.locks, a.account, b.account);
    } else if a.ExpireDone? && b.ExpireDone? {
      SetsCommute(s.done, a.account, b.account);
    }
  }

  lemma SetsCommute(s: set<Account>, p: Account, q: Account)
    ensures s + {p} - {q} == if p == q then s - {q} else s - {q} + {p}
  {
  }

  /** The one inside the lock that expired leaves it: the lock would be gone by now anyway. */
  predicate Leaves(c: Cluster, a: Action, b: Action) {
    && a.ExpireLock? && b.Step? && Running(c, b.node)
    && c.nodes[b.node].pc.AccountUnlock? && c.nodes[b.node].pc.account == a.account
  }

  lemma LeaverRestores(conversions: nat, c: Cluster, a: Action, b: Action)
    requires Leaves(c, a, b)
    ensures Apply(conversions, Patched(c, a), b) == Apply(conversions, c, b)
  {
    SetsCommute(c.shared.locks, a.account, a.account);
  }

  /** After the stamp, or with the core phase sealed, a step gives a node nothing new to come to. */
  lemma StepBarren(conversions: nat, s: Shared, st: NodeState, ids: seq<Account>, p: Account)
    requires NodeStep(conversions, s, st, ids).Move?
    requires (s.schema.Stamped? && st.pc != CoreTry) || (s.coreLock && !st.force && !HoldsCore(st.pc))
    ensures var m := NodeStep(conversions, s, st, ids);
            && (m.state.pc.CoreTry? ==> st.pc.CoreTry? || st.pc.Boot?)
            && (MayCome(m.state.pc, p) && !m.state.pc.CoreTry? ==> MayCome(st.pc, p))
            && (Checking(m.state.pc, p) ==> MayCome(st.pc, p))
            && (MayCome(m.state.pc, p) && p in Held(st.pc) && p !in Held(m.state.pc) ==>
                  st.pc.AccountUnlock? && st.pc.account == p)
  {
    if st.pc.Loop? && st.pc.work.todo != [] {
      Basics.HeadTail(st.pc.work.todo);
    }
  }

  lemma StampLasts(conversions: nat, s: Shared, st: NodeState, ids: seq<Account>)
    requires NodeStep(conversions, s, st, ids).Move? && s.schema.Stamped?
    ensures var m := NodeStep(conversions, s, st, ids);
            && m.shared.schema.Stamped? && !(m.state.pc.CoreTry? && st.pc.Boot?)
            && (m.state.pc.CoreTry? ==> st.pc.CoreTry?) && (m.state.pc.CoreCheck? ==> st.pc.CoreTry?)
  {
  }

  /** For those that did not move. */
  lemma OthersStayAway(c: Cluster, c': Cluster, a: Action, m: Node)
    requires IsExpiry(a) && m in c.nodes && !CanCome(c, a, m) && (Sealed(c) ==> Sealed(c'))
    requires m in c'.nodes && (c'.nodes[m] == c.nodes[m] || c'.nodes[m].crashed || c'.nodes[m].pc == Boot)
    requires c.shared.schema.Stamped? ==> c'.shared.schema.Stamped?
    ensures !CanCome(c', a, m)
  {
  }

  lemma StepperStaysAway(conversions: nat, c: Cluster, a: Action, n: Node, ids: seq<Account>)
    requires IsExpiry(a) && !CanCome(c, a, n) && Running(c, n) && !c.nodes[n].force && !Leaves(c, a, Step(n, ids))
    requires Apply(conversions, c, Step(n, ids)).Next?
    requires Sealed(c) ==> Sealed(Apply(conversions, c, Step(n, ids)).cluster)
    ensures !CanCome(Apply(conversions, c, Step(n, ids)).cluster, a, n)
  {
    var st := c.nodes[n];
    if c.shared.schema.Stamped? {
      StampLasts(conversions, c.shared, st, ids);
    }
    if a.ExpireLock? || a.ExpireDone? {
      if Sealed(c) {
        assert !HoldsCore(st.pc);
      }
      StepBarren(conversions, c.shared, st, ids, a.account);
    }
    hide NodeStep, Held, MayCome, HoldsCore;
  }

  lemma BarrenStays(conversions: nat, c: Cluster, a: Action, b: Action)
    requires IsExpiry(a) && Harmless(c, b) && Apply(conversions, c, b).Next? && !Leaves(c, a, b)
    requires (forall n <- c.nodes :: !c.nodes[n].force) && forall m :: !CanCome(c, a, m)
    ensures forall m :: !CanCome(Apply(conversions, c, b).cluster, a, m)
  {
    var c' := Apply(conversions, c, b).cluster;
    if Sealed(c) {
      SealedStays(conversions, c, b);
    }
    if b.Step? {
      StuckWhenCrashed(conversions, c.shared, c.nodes[b.node], b.ids);
      if c.shared.schema.Stamped? {
        StampLasts(conversions, c.shared, c.nodes[b.node], b.ids);
      }
    }
    hide NodeStep, Harmless, Sealed, CanCome, Leaves;
    forall m
      ensures !CanCome(c', a, m)
    {
      if m !in c'.nodes {
        AbsentCannotCome(c', a, m);
      } else if b.Step? && m == b.node {
        StepperStaysAway(conversions, c, a, m, b.ids);
      } else {
        OthersStayAway(c, c', a, m);
      }
    }
  }

  lemma AbsentCannotCome(c: Cluster, a: Action, m: Node)
    requires m !in c.nodes
    ensures !CanCome(c, a, m)
  {
  }

  lemma OnceIsUnforced(c: Cluster, a: Action)
    requires Once(Patched(c, a))
    ensures forall n <- c.nodes :: !c.nodes[n].force
  {
    var c' := Patched(c, a);
    assert forall n <- c'.nodes :: NodeOnce(c'.shared, c'.nodes[n]);
  }

  lemma UnseenApply(conversions: nat, c: Cluster, a: Action, b: Action)
    requires IsExpiry(a) && Unseen(c, a) && Harmless(c, b) && Apply(conversions, c, b).Next?
    ensures var c' := Apply(conversions, c, b).cluster;
            Once(c') || Unseen(c', a)
  {
    hide Once, Harmless, CanCome, NodeStep;
    var c' := Apply(conversions, c, b).cluster;
    if Patched(c, a) == c {
      ApplyOnce(conversions, c, b);
    } else if b == a && (a.ExpireCoreDone? || a.ExpireDone?) {
      NothingLeft(conversions, c, a);
    } else {
      OnceIsUnforced(c, a);
      if b.Step? {
        StuckWhenCrashed(conversions, c.shared, c.nodes[b.node], b.ids);
        BarrenIsBlind(c, a, b.node);
      }
      ApplyPatched(conversions, c, a, b);
      HarmlessPatched(c, a, b);
      ApplyOnce(conversions, Patched(c, a), b);
      if Leaves(c, a, b) {
        LeaverRestores(conversions, c, a, b);
      } else {
        BarrenStays(conversions, c, a, b);
      }
    }
  }

  lemma NothingLeft(conversions: nat, c: Cluster, a: Action)
    requires (a.ExpireCoreDone? || a.ExpireDone?) && Patched(c, a) != c
    ensures Apply(conversions, c, a) == Next(c)
  {
    if a.ExpireDone? {
      AddedOrAbsent(c.shared.done, a.account);
    }
  }

  lemma AddedOrAbsent(s: set<Account>, p: Account)
    ensures s + {p} == s || s - {p} == s
  {
    if p in s {
      assert s + {p} == s;
    }
  }

  lemma {:induction false} ExecUnseen(conversions: nat, c: Cluster, a: Action, run: seq<Action>)
    requires IsExpiry(a) && (Once(c) || Unseen(c, a))
    requires HarmlessRun(conversions, c, run) && Exec(conversions, c, run).Next?
    ensures var end := Exec(conversions, c, run).cluster;
            Once(end) || Unseen(end, a)
    decreases |run|
  {
    hide Apply, Once, Harmless, Unseen, IsExpiry;
    if run != [] {
      if Once(c) {
        ApplyOnce(conversions, c, run[0]);
      } else {
        UnseenApply(conversions, c, a, run[0]);
      }
      ExecUnseen(conversions, Apply(conversions, c, run[0]).cluster, a, run[1..]);
    }
  }

  lemma UnseenNoRepeat(c: Cluster, a: Action)
    requires Once(c) || Unseen(c, a)
    ensures !Repeats(c.shared)
  {
    hide NodeOnce, PairOnce, CanCome;
    if Unseen(c, a) {
      assert StoreOnce(Patched(c, a).shared);
      assert forall p :: Patched(c, a).shared.runs[p] == c.shared.runs[p];
    }
  }

  lemma UnseenCannotRepeat(conversions: nat, c: Cluster, a: Action)
    requires IsExpiry(a) && (Once(c) || Unseen(c, a))
    ensures !CanRepeat(conversions, c)
  {
    hide Exec, HarmlessRun, Once, Unseen, Repeats, IsExpiry;
    if CanRepeat(conversions, c) {
      var run :| HarmlessRun(conversions, c, run) && Exec(conversions, c, run).Next?
                 && Repeats(Exec(conversions, c, run).cluster.shared);
      ExecUnseen(conversions, c, a, run);
      UnseenNoRepeat(Exec(conversions, c, run).cluster, a);
    }
  }

  /** A harmful expiry takes something away, and it does not change who can come. */
  lemma HarmfulIsUnseen(conversions: nat, c: Cluster, a: Action)
    requires Once(c) && !Harmless(c, a) && forall m :: !CanCome(c, a, m)
    ensures IsExpiry(a) && Unseen(Apply(conversions, c, a).cluster, a)
  {
    var c' := Apply(conversions, c, a).cluster;
    HarmfulIsPatched(conversions, c, a);
    assert forall n :: Running(c', n) <==> Running(c, n);
    hide Once, Harmless, Held, MayCome, HoldsCore;
    assert CoreInUse(c') <==> CoreInUse(c);
    forall m
      ensures !CanCome(c', a, m)
    {
      assert !CanCome(c, a, m);
    }
  }

  lemma HarmfulIsPatched(conversions: nat, c: Cluster, a: Action)
    requires Once(c) && !Harmless(c, a)
    ensures IsExpiry(a) && Patched(Apply(conversions, c, a).cluster, a) == c
  {
    var s := c.shared;
    match a
    case ExpireLock(p) =>
      if p !in s.runs {
        var n :| Running(c, n) && p in Held(c.nodes[n].pc);
        assert NodeOnce(s, c.nodes[n]);
      }
      assert s.locks - {p} + {p} == s.locks;
    case ExpireDone(p) => assert s.done - {p} + {p} == s.done;
    case ExpireCoreLock =>
      if s.coreRuns == 0 {
        var n :| Running(c, n) && HoldsCore(c.nodes[n].pc);
        assert NodeOnce(s, c.nodes[n]);
      }
    case ExpireCoreDone =>
  }

  // ---- The equivalence --------------------------------------------------------------------------

  /**
   Exactly when an action can lead to a second conversion, in every state reached from a fresh start
   by harmless actions:

   - the lock of an account expires, and the account is not marked done but has been converted, or a
     running node is inside the lock;
   - the done key of an account expires, and its lock is free, or a running node is inside it;
   - the same two for the core data;

   and some node can still come. Everything else, including every crash, restart and step of a
   node, never does.
   */
  lemma RepeatsIffHarmful(conversions: nat, c0: Cluster, run: seq<Action>, a: Action)
    requires Fresh(c0) && HarmlessRun(conversions, c0, run) && Exec(conversions, c0, run).Next?
    requires Apply(conversions, Exec(conversions, c0, run).cluster, a).Next?
    ensures var c := Exec(conversions, c0, run).cluster;
            CanRepeat(conversions, Apply(conversions, c, a).cluster) <==> !Harmless(c, a) && exists m :: CanCome(c, a, m)
  {
    FreshIsOnce(c0);
    assert CoreKept(c0);
    hide Once, CoreKept, CanRepeat, Exec, HarmlessRun, CanCome, Unseen, IsExpiry;
    ExecOnce(conversions, c0, run);
    ExecCoreKept(conversions, c0, run);
    var c := Exec(conversions, c0, run).cluster;
    if Harmless(c, a) {
      ApplyOnce(conversions, c, a);
      OnceCannotRepeat(conversions, Apply(conversions, c, a).cluster);
    } else if m :| CanCome(c, a, m) {
      HarmfulRepeats(conversions, c, a, m);
    } else {
      HarmfulIsUnseen(conversions, c, a);
      UnseenCannotRepeat(conversions, Apply(conversions, c, a).cluster, a);
    }
  }

  lemma HarmfulRepeats(conversions: nat, c: Cluster, a: Action, m: Node)
    requires Once(c) && CoreKept(c) && !Harmless(c, a) && CanCome(c, a, m)
    ensures CanRepeat(conversions, Apply(conversions, c, a).cluster)
  {
    hide Once, CoreKept, CanRepeat, CanCome;
    match a
    case ExpireCoreLock => CoreLockExpiryRepeats(conversions, c, m);
    case ExpireCoreDone => CoreDoneExpiryRepeats(conversions, c, m);
    case ExpireLock(p) => LockExpiryRepeats(conversions, c, p, m);
    case ExpireDone(p) => DoneExpiryRepeats(conversions, c, p, m);
  }

  lemma OnceCannotRepeat(conversions: nat, c: Cluster)
    requires Once(c)
    ensures !CanRepeat(conversions, c)
  {
    hide Once, CanRepeat;
    UnseenCannotRepeat(conversions, c, ExpireCoreLock);
  }

  // ---- Two runs that convert twice --------------------------------------------------------------

  lemma SecondConvertsAgain(conversions: nat, c: Cluster, p: Account) returns (script: seq<seq<Account>>)
    requires 1 in c.nodes && c.nodes[1].pc == Boot && !c.nodes[1].crashed && !c.nodes[1].force
    requires c.shared.schema.Unstamped? && !c.shared.coreLock && p !in c.shared.locks && p !in c.shared.done
    ensures var end := Exec(conversions, c, Steps(1, script));
            end.Next? && end.cluster.shared.runs == c.shared.runs + multiset{p}
  {
    var st := c.nodes[1];
    var s1 := ComesToConvert(conversions, c.shared, st, p);
    var m := NodeStep(conversions, s1, Converting(st, p), []);
    assert m.Move? && m.shared.runs == c.shared.runs + multiset{p};
    hide NodeStep, Solo, Exec;
    ReachesSelf(conversions, m.shared, m.state);
    ReachesAfter(conversions, s1, Converting(st, p), [], m.shared, m.state);
    ReachesChain(conversions, c.shared, st, s1, Converting(st, p), m.shared, m.state);
    script :| Solo(conversions, c.shared, st, script) == m;
    SoloIsRun(conversions, c, 1, script);
  }

  /** Runs the actions one after the other. */
  lemma ExecTwo(conversions: nat, c: Cluster, a: Action, b: Action, c1: Cluster, c2: Cluster)
    requires Apply(conversions, c, a) == Next(c1) && Apply(conversions, c1, b) == Next(c2)
    ensures Exec(conversions, c, [a, b]) == Next(c2)
  {
    hide Apply;
    assert [a, b][1..] == [b];
    ExecOne(conversions, c1, b);
  }

  /** A node that dies between converting and marking: the one that takes over converts again. */
  lemma TakeoverConvertsTwice(conversions: nat, p: Account) returns (first: seq<seq<Account>>, second: seq<seq<Account>>)
    ensures var c0 := TwoNodes(false);
            var run := Steps(0, first) + [Step(0, []), Crash(0)] + [ExpireLock(p)] + Steps(1, second);
            && CleanStart(c0) && GentleRun(conversions, c0, run)
            && Exec(conversions, c0, run).Next? && Exec(conversions, c0, run).cluster.shared.runs[p] == 2
  {
    var c0 := TwoNodes(false);
    var c;
    first, c := FirstConverts(conversions, false, p);
    var c2 := DiesAfterConverting(conversions, c, p);
    var c3 := Expired(c2, p);
    ExpireApplies(conversions, c2, p);
    second := SecondConvertsAgain(conversions, c3, p);
    hide Exec, Apply, InUse;
    GentleSteps(conversions, c0, Steps(0, first));
    GentleSteps(conversions, c, [Step(0, []), Crash(0)]);
    GentleSteps(conversions, c3, Steps(1, second));
    GentleOne(conversions, c2, ExpireLock(p));
    ExecOne(conversions, c2, ExpireLock(p));
    var r1 := Steps(0, first) + [Step(0, []), Crash(0)];
    ExecAppend(conversions, c0, Steps(0, first), [Step(0, []), Crash(0)]);
    GentleAppend(conversions, c0, Steps(0, first), [Step(0, []), Crash(0)]);
    ExecAppend(conversions, c0, r1, [ExpireLock(p)]);
    GentleAppend(conversions, c0, r1, [ExpireLock(p)]);
    ExecAppend(conversions, c0, r1 + [ExpireLock(p)], Steps(1, second));
    GentleAppend(conversions, c0, r1 + [ExpireLock(p)], Steps(1, second));
  }

  lemma DiesAfterConverting(conversions: nat, c: Cluster, p: Account) returns (c': Cluster)
    requires c.nodes == TwoNodes(false).nodes[0 := Converting(NodeState(Boot, {}, false, false), p)]
    ensures Exec(conversions, c, [Step(0, []), Crash(0)]) == Next(c') && !InUse(c', p)
    ensures c'.nodes.Keys == {0, 1} && c'.nodes[1] == TwoNodes(false).nodes[1]
    ensures c'.shared == c.shared.(runs := c.shared.runs + multiset{p})
  {
    var c1 := Apply(conversions, c, Step(0, [])).cluster;
    c' := Apply(conversions, c1, Crash(0)).cluster;
    hide Exec;
    ExecTwo(conversions, c, Step(0, []), Crash(0), c1, c');
  }

  lemma FirstConverted(conversions: nat, p: Account) returns (script: seq<seq<Account>>, c: Cluster)
    ensures Exec(conversions, TwoNodes(false), Steps(0, script)) == Next(c) && c.nodes.Keys == {0, 1}
    ensures c.nodes[1] == TwoNodes(false).nodes[1]
    ensures c.shared.schema.Unstamped? && !c.shared.coreLock && c.shared.locks == {} && c.shared.runs == multiset{p}
  {
    var c0 := TwoNodes(false);
    var st := Converting(c0.nodes[0], p);
    var s1 := ComesToConvert(conversions, c0.shared, c0.nodes[0], p);
    var m1 := NodeStep(conversions, s1, st, []);
    var m2 := NodeStep(conversions, m1.shared, m1.state, []);
    var m3 := NodeStep(conversions, m2.shared, m2.state, []);
    assert m3.shared.locks == {} && m3.shared.runs == multiset{p} && m3.shared.schema.Unstamped? && !m3.shared.coreLock;
    hide NodeStep, Solo, Exec;
    ReachesSelf(conversions, m3.shared, m3.state);
    ReachesAfter(conversions, m2.shared, m2.state, [], m3.shared, m3.state);
    ReachesAfter(conversions, m1.shared, m1.state, [], m3.shared, m3.state);
    ReachesAfter(conversions, s1, st, [], m3.shared, m3.state);
    ReachesChain(conversions, c0.shared, c0.nodes[0], s1, st, m3.shared, m3.state);
    script :| Solo(conversions, c0.shared, c0.nodes[0], script) == m3;
    SoloIsRun(conversions, c0, 0, script);
    c := With(c0, 0, m3.state, m3.shared);
  }

  /** A done key that expires: the next node to come by converts again. */
  lemma DoneExpiryConvertsTwice(conversions: nat, p: Account) returns (first: seq<seq<Account>>, second: seq<seq<Account>>)
    ensures var c0 := TwoNodes(false);
            var run := Steps(0, first) + [ExpireDone(p)] + Steps(1, second);
            && CleanStart(c0)
            && Exec(conversions, c0, run).Next? && Exec(conversions, c0, run).cluster.shared.runs[p] == 2
  {
    var c0 := TwoNodes(false);
    var c;
    first, c := FirstConverted(conversions, p);
    var c1 := Apply(conversions, c, ExpireDone(p)).cluster;
    assert c1.nodes == c.nodes && p !in c1.shared.done;
    second := SecondConvertsAgain(conversions, c1, p);
    ExecOne(conversions, c, ExpireDone(p));
    hide Exec;
    ExecAppend(conversions, c0, Steps(0, first), [ExpireDone(p)]);
    ExecAppend(conversions, c0, Steps(0, first) + [ExpireDone(p)], Steps(1, second));
  }
}
