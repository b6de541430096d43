/**
 The cluster migration stages v0.11 and v0.13 as a transition system.

 Nodes race over expiring locks and "done" keys: first for the core data, then for each account,
 with a worklist of accounts found locked. Every shared operation (try a lock, read or write a
 key, remove a lock) and every conversion is one atomic step; nodes may crash and restart between
 any two, and the environment may let any lock or key expire.
 */
module Migration {
  type Node = nat
  type Account = nat

  /** Where a node stands in `try_migrate` and the stage it calls. */
  datatype Pc =
    | Boot
    | CoreTry
    | CoreCheck
    | CoreMigrating(conversion: nat)
    | CoreSetDone(ids: set<Account>)
    | CoreList
    | CoreUnlock(ids: set<Account>)
    | Loop(work: Work)
    | AccountCheck(account: Account, work: Work)
    | AccountMigrating(account: Account, work: Work)
    | AccountSetDone(account: Account, work: Work)
    | AccountUnlock(account: Account, work: Work)
    | Finished
    | Returned

  /** The rest of the current pass over the accounts, and those found locked in it. */
  datatype Work = Work(todo: seq<Account>, skipped: seq<Account>)

  datatype NodeState = NodeState(pc: Pc, listed: set<Account>, force: bool, crashed: bool)

  datatype Schema = Unstamped | Stamped(accounts: set<Account>)

  /**
   The shared store, and what has been converted so far: `steps` records each of the conversions
   that make up the core conversion when it is run, `coreRuns` counts complete core conversions and
   `runs` complete account conversions. `schema` is the stamped version, with the accounts listed by
   the node that stamped it.
   */
  datatype Shared = Shared(
    coreLock: bool, coreDone: bool,
    locks: set<Account>, done: set<Account>,
    steps: multiset<nat>, coreRuns: nat, runs: multiset<Account>,
    schema: Schema)

  datatype Cluster = Cluster(nodes: map<Node, NodeState>, shared: Shared)

  datatype Action =
    | Step(node: Node, ids: seq<Account>)
    | Crash(node: Node)
    | Restart(node: Node)
    | ExpireCoreLock
    | ExpireCoreDone
    | ExpireLock(account: Account)
    | ExpireDone(account: Account)

  /** What one step of a node makes of the store and of the node. */
  datatype Move = Stuck | Move(shared: Shared, state: NodeState)

  datatype Result = Blocked | Next(cluster: Cluster)

  function Elements(s: seq<Account>): set<Account> {
    set x | x in s
  }

  /** The core phase: take the lock, check the done key, convert or list, mark, unlock. */
  function CoreStep(conversions: nat, s: Shared, st: NodeState, ids: seq<Account>): Move {
    match st.pc
    case Boot =>
      Move(s, st.(pc := if s.schema.Stamped? then Returned else CoreTry))
    case CoreTry =>
      if st.force then Move(s, st.(pc := CoreCheck))
      else if !s.coreLock then Move(s.(coreLock := true), st.(pc := CoreCheck))
      else Move(s, st)
    case CoreCheck =>
      Move(s, st.(pc := if s.coreDone then CoreList else CoreMigrating(0)))
    case CoreMigrating(k) =>
      var s' := s.(steps := s.steps + multiset{k});
      if k + 1 < conversions then Move(s', st.(pc := CoreMigrating(k + 1)))
      else Move(s'.(coreRuns := s.coreRuns + 1), st.(pc := CoreSetDone(Elements(ids))))
    case CoreSetDone(l) =>
      Move(s.(coreDone := true), st.(pc := CoreUnlock(l)))
    case CoreList =>
      Move(s, st.(pc := CoreUnlock(Elements(ids))))
    case CoreUnlock(l) =>
      // The accounts are shuffled: any order, each once.
      if Elements(ids) != l || |ids| != |l| then Stuck
      else Move(s.(coreLock := false), st.(pc := if l == {} then Finished else Loop(Work(ids, [])), listed := l))
    case _ => Stuck
  }

  /** The account phase: one pass over `todo`, then another over what was skipped; then the stamp. */
  function AccountStep(s: Shared, st: NodeState): Move {
    match st.pc
    case Loop(w) =>
      if w.todo == [] then
        Move(s, st.(pc := if w.skipped == [] then Finished else Loop(Work(w.skipped, []))))
      else
        var p, rest := w.todo[0], w.todo[1..];
        if st.force then Move(s, st.(pc := AccountCheck(p, Work(rest, w.skipped))))
        else if p !in s.locks then
          Move(s.(locks := s.locks + {p}), st.(pc := AccountCheck(p, Work(rest, w.skipped))))
        else Move(s, st.(pc := Loop(Work(rest, w.skipped + [p]))))
    case AccountCheck(p, w) =>
      Move(s, st.(pc := if p in s.done then AccountUnlock(p, w) else AccountMigrating(p, w)))
    case AccountMigrating(p, w) =>
      Move(s.(runs := s.runs + multiset{p}), st.(pc := AccountSetDone(p, w)))
    case AccountSetDone(p, w) =>
      Move(s.(done := s.done + {p}), st.(pc := AccountUnlock(p, w)))
    case AccountUnlock(p, w) =>
      Move(s.(locks := s.locks - {p}), st.(pc := Loop(w)))
    case Finished =>
      Move(s.(schema := Stamped(st.listed)), st.(pc := Returned))
    case _ => Stuck
  }

  predicate InCorePhase(pc: Pc) {
    pc.Boot? || pc.CoreTry? || pc.CoreCheck? || pc.CoreMigrating? || pc.CoreSetDone? || pc.CoreList? || pc.CoreUnlock?
  }

  function NodeStep(conversions: nat, s: Shared, st: NodeState, ids: seq<Account>): Move {
    if st.crashed then Stuck
    else if InCorePhase(st.pc) then CoreStep(conversions, s, st, ids)
    else AccountStep(s, st)
  }

  function Apply(conversions: nat, c: Cluster, a: Action): Result {
    var s := c.shared;
    match a
    case Step(n, ids) =>
      if n !in c.nodes then Blocked
      else (match NodeStep(conversions, s, c.nodes[n], ids)
            case Stuck => Blocked
            case Move(s', st') => Next(Cluster(c.nodes[n := st'], s')))
    case Crash(n) =>
      if n !in c.nodes then Blocked
      else Next(c.(nodes := c.nodes[n := c.nodes[n].(crashed := true)]))
    case Restart(n) =>
      if n !in c.nodes then Blocked
      else Next(c.(nodes := c.nodes[n := NodeState(Boot, {}, c.nodes[n].force, false)]))
    case ExpireCoreLock => Next(c.(shared := s.(coreLock := false)))
    case ExpireCoreDone => Next(c.(shared := s.(coreDone := false)))
    case ExpireLock(p) => Next(c.(shared := s.(locks := s.locks - {p})))
    case ExpireDone(p) => Next(c.(shared := s.(done := s.done - {p})))
  }

  /** A run: any sequence of enabled actions. */
  function Exec(conversions: nat, c: Cluster, run: seq<Action>): Result
    decreases |run|
  {
    if run == [] then Next(c)
    else match Apply(conversions, c, run[0])
      case Blocked => Blocked
      case Next(c') => Exec(conversions, c', run[1..])
  }

  /** All nodes about to boot; locks may be in any state, done keys only where they are true. */
  ghost predicate Init(c: Cluster) {
    && (forall n <- c.nodes :: c.nodes[n].pc == Boot && !c.nodes[n].crashed)
    && (c.shared.coreDone ==> c.shared.coreRuns > 0)
    && (forall p <- c.shared.done :: p in c.shared.runs)
    && c.shared.schema == Unstamped
  }

  // ---- Completeness: nothing is reported done that was not done -----------------------------

  /** The node knows that the core conversion has completed. */
  predicate PastCore(pc: Pc) {
    !(pc.Boot? || pc.CoreTry? || pc.CoreCheck? || pc.CoreMigrating? || pc.Returned?)
  }

  /** Accounts the node still has to look at. */
  function Pending(pc: Pc): set<Account> {
    match pc
    case Loop(w) => Elements(w.todo) + Elements(w.skipped)
    case AccountCheck(p, w) => {p} + Elements(w.todo) + Elements(w.skipped)
    case AccountMigrating(p, w) => {p} + Elements(w.todo) + Elements(w.skipped)
    case AccountSetDone(p, w) => Elements(w.todo) + Elements(w.skipped)
    case AccountUnlock(p, w) => Elements(w.todo) + Elements(w.skipped)
    case _ => {}
  }

  /** In the account phase, every listed account is converted or still to be looked at. */
  ghost predicate Accounted(s: Shared, st: NodeState) {
    forall p <- st.listed :: p in s.runs || p in Pending(st.pc)
  }

  ghost predicate NodeTruthful(s: Shared, st: NodeState) {
    && (PastCore(st.pc) ==> s.coreRuns > 0)
    && (!InCorePhase(st.pc) && !st.pc.Returned? ==> Accounted(s, st))
    && (st.pc.AccountSetDone? ==> st.pc.account in s.runs)
  }

  ghost predicate StoreTruthful(s: Shared) {
    && (s.coreDone ==> s.coreRuns > 0)
    && (forall p <- s.done :: p in s.runs)
    && (s.schema.Stamped? ==> s.coreRuns > 0 && forall p <- s.schema.accounts :: p in s.runs)
  }

  ghost predicate Truthful(c: Cluster) {
    StoreTruthful(c.shared) && forall n <- c.nodes :: NodeTruthful(c.shared, c.nodes[n])
  }

  ghost predicate Grows(s: Shared, s': Shared) {
    s.coreRuns <= s'.coreRuns && s.runs <= s'.runs
  }

  lemma NodeStaysTruthful(s: Shared, s': Shared, st: NodeState)
    requires Grows(s, s') && NodeTruthful(s, st)
    ensures NodeTruthful(s', st)
  {
  }

  lemma CoreStepTruthful(conversions: nat, s: Shared, st: NodeState, ids: seq<Account>)
    requires StoreTruthful(s) && NodeTruthful(s, st) && CoreStep(conversions, s, st, ids).Move?
    ensures var m := CoreStep(conversions, s, st, ids);
            Grows(s, m.shared) && StoreTruthful(m.shared) && NodeTruthful(m.shared, m.state)
  {
  }

  lemma LoopStepTruthful(s: Shared, st: NodeState)
    requires StoreTruthful(s) && NodeTruthful(s, st) && st.pc.Loop?
    ensures var m := AccountStep(s, st);
            m.Move? && Grows(s, m.shared) && StoreTruthful(m.shared) && NodeTruthful(m.shared, m.state)
  {
    var todo := st.pc.work.todo;
    if todo != [] {
      assert todo == [todo[0]] + todo[1..];
    }
  }

  lemma AccountStepTruthful(s: Shared, st: NodeState)
    requires StoreTruthful(s) && NodeTruthful(s, st) && AccountStep(s, st).Move?
    ensures var m := AccountStep(s, st);
            Grows(s, m.shared) && StoreTruthful(m.shared) && NodeTruthful(m.shared, m.state)
  {
    if st.pc.Loop? {
      LoopStepTruthful(s, st);
    } else if st.pc.AccountMigrating? {
      MigrateTruthful(s, st);
    } else {
      hide Elements;
      match st.pc
      case AccountCheck(_, _) =>
      case AccountSetDone(_, _) =>
      case AccountUnlock(_, _) =>
      case Finished =>
    }
  }

  lemma MigrateTruthful(s: Shared, st: NodeState)
    requires StoreTruthful(s) && NodeTruthful(s, st) && st.pc.AccountMigrating?
    ensures var m := AccountStep(s, st);
            Grows(s, m.shared) && StoreTruthful(m.shared) && NodeTruthful(m.shared, m.state)
  {
    hide Elements;
  }

  lemma NodeStepTruthful(conversions: nat, c: Cluster, n: Node, ids: seq<Account>)
    requires Truthful(c) && Apply(conversions, c, Step(n, ids)).Next?
    ensures Truthful(Apply(conversions, c, Step(n, ids)).cluster)
  {
    var st := c.nodes[n];
    assert NodeTruthful(c.shared, st);
    if InCorePhase(st.pc) {
      CoreStepTruthful(conversions, c.shared, st, ids);
    } else {
      AccountStepTruthful(c.shared, st);
    }
    hide CoreStep, AccountStep, NodeTruthful, StoreTruthful, Grows;
    var c' := Apply(conversions, c, Step(n, ids)).cluster;
    forall m <- c'.nodes
      ensures NodeTruthful(c'.shared, c'.nodes[m])
    {
      if m != n {
        NodeStaysTruthful(c.shared, c'.shared, c.nodes[m]);
      }
    }
  }

  lemma ApplyTruthful(conversions: nat, c: Cluster, a: Action)
    requires Truthful(c) && Apply(conversions, c, a).Next?
    ensures Truthful(Apply(conversions, c, a).cluster)
  {
    match a
    case Step(n, ids) => NodeStepTruthful(conversions, c, n, ids);
    case Crash(n) => assert NodeTruthful(c.shared, c.nodes[n]);
    case Restart(n) =>
    case _ =>
      var s' := Apply(conversions, c, a).cluster.shared;
      forall n <- c.nodes
        ensures NodeTruthful(s', c.nodes[n])
      {
        NodeStaysTruthful(c.shared, s', c.nodes[n]);
      }
  }

  lemma {:induction false} ExecTruthful(conversions: nat, c: Cluster, run: seq<Action>)
    requires Truthful(c) && Exec(conversions, c, run).Next?
    ensures Truthful(Exec(conversions, c, run).cluster)
    decreases |run|
  {
    hide Apply, Truthful;
    if run != [] {
      ApplyTruthful(conversions, c, run[0]);
      ExecTruthful(conversions, Apply(conversions, c, run[0]).cluster, run[1..]);
    }
  }

  // ---- The conversions that make up the core conversion -----------------------------------------

  /** Each of them has been run. */
  ghost predicate AllRun(conversions: nat, s: Shared) {
    forall k :: 0 <= k < conversions ==> k in s.steps
  }

  /** None was run before those that come before it. */
  ghost predicate InOrder(s: Shared) {
    forall j, k :: 0 <= j < k && k in s.steps ==> j in s.steps
  }

  ghost predicate StoreRecorded(conversions: nat, s: Shared) {
    InOrder(s) && (s.coreRuns > 0 ==> AllRun(conversions, s))
  }

  /** A node at conversion `k` has seen those before it run. */
  ghost predicate NodeRecorded(s: Shared, st: NodeState) {
    st.pc.CoreMigrating? ==> forall k :: 0 <= k < st.pc.conversion ==> k in s.steps
  }

  ghost predicate Recorded(conversions: nat, c: Cluster) {
    StoreRecorded(conversions, c.shared) && forall n <- c.nodes :: NodeRecorded(c.shared, c.nodes[n])
  }

  lemma NodeStaysRecorded(s: Shared, s': Shared, st: NodeState)
    requires s.steps <= s'.steps && NodeRecorded(s, st)
    ensures NodeRecorded(s', st)
  {
  }

  lemma ConversionRecorded(conversions: nat, s: Shared, st: NodeState, ids: seq<Account>)
    requires StoreRecorded(conversions, s) && NodeRecorded(s, st) && st.pc.CoreMigrating?
    ensures var m := CoreStep(conversions, s, st, ids);
            m.Move? && s.steps <= m.shared.steps && StoreRecorded(conversions, m.shared) && NodeRecorded(m.shared, m.state)
  {
    hide Elements;
  }

  lemma StepRecorded(conversions: nat, s: Shared, st: NodeState, ids: seq<Account>)
    requires StoreRecorded(conversions, s) && NodeRecorded(s, st) && NodeStep(conversions, s, st, ids).Move?
    ensures var m := NodeStep(conversions, s, st, ids);
            s.steps <= m.shared.steps && StoreRecorded(conversions, m.shared) && NodeRecorded(m.shared, m.state)
  {
    if st.pc.CoreMigrating? {
      ConversionRecorded(conversions, s, st, ids);
      hide CoreStep, AccountStep, StoreRecorded, NodeRecorded;
    } else {
      OtherStepRecorded(conversions, s, st, ids);
      hide NodeStep;
    }
  }

  lemma OtherStepRecorded(conversions: nat, s: Shared, st: NodeState, ids: seq<Account>)
    requires NodeStep(conversions, s, st, ids).Move? && !st.pc.CoreMigrating?
    ensures var m := NodeStep(conversions, s, st, ids);
            && m.shared.steps == s.steps && m.shared.coreRuns == s.coreRuns
            && (m.state.pc.CoreMigrating? ==> m.state.pc.conversion == 0)
  {
    hide Elements;
  }

  lemma ApplyRecorded(conversions: nat, c: Cluster, a: Action)
    requires Recorded(conversions, c) && Apply(conversions, c, a).Next?
    ensures Recorded(conversions, Apply(conversions, c, a).cluster)
  {
    var c' := Apply(conversions, c, a).cluster;
    if a.Step? {
      StepRecorded(conversions, c.shared, c.nodes[a.node], a.ids);
    }
    hide NodeStep;
    forall n <- c'.nodes
      ensures NodeRecorded(c'.shared, c'.nodes[n])
    {
      if !a.Step? || n != a.node {
        assert c'.nodes[n].pc == Boot || c'.nodes[n].pc == c.nodes[n].pc;
        NodeStaysRecorded(c.shared, c'.shared, c.nodes[n]);
      }
    }
  }

  lemma {:induction false} ExecRecorded(conversions: nat, c: Cluster, run: seq<Action>)
    requires Recorded(conversions, c) && Exec(conversions, c, run).Next?
    ensures Recorded(conversions, Exec(conversions, c, run).cluster)
    decreases |run|
  {
    hide Apply, Recorded;
    if run != [] {
      ApplyRecorded(conversions, c, run[0]);
      ExecRecorded(conversions, Apply(conversions, c, run[0]).cluster, run[1..]);
    }
  }

  /** A start whose record of conversions is true as well. */
  ghost predicate Start(conversions: nat, c: Cluster) {
    Init(c) && StoreRecorded(conversions, c.shared)
  }

  /**
   In every interleaving, with crashes, restarts, expiring locks and keys and `FORCE_LOCK`:
   a node that finished the stage, and a stamped schema, mean that each conversion of the core data
   has been run, as part of a complete one, and every account listed has been converted at least once
   by some node. No node converts an account, and no core done key is set, before each conversion of
   the core data has been run; and none of these is run before those that come before it.
   */
  lemma StageIsComplete(conversions: nat, c0: Cluster, run: seq<Action>)
    requires Start(conversions, c0) && Exec(conversions, c0, run).Next?
    ensures var c := Exec(conversions, c0, run).cluster;
            && (forall n <- c.nodes :: c.nodes[n].pc == Finished ==>
                  && AllRun(conversions, c.shared) && c.shared.coreRuns > 0
                  && forall p <- c.nodes[n].listed :: p in c.shared.runs)
            && (forall n <- c.nodes :: c.nodes[n].pc.AccountMigrating? ==>
                  AllRun(conversions, c.shared) && c.shared.coreRuns > 0)
            && (c.shared.coreDone ==> AllRun(conversions, c.shared) && c.shared.coreRuns > 0)
            && (c.shared.schema.Stamped? ==>
                  && AllRun(conversions, c.shared) && c.shared.coreRuns > 0
                  && forall p <- c.shared.schema.accounts :: p in c.shared.runs)
            && InOrder(c.shared)
  {
    ExecTruthful(conversions, c0, run);
    ExecRecorded(conversions, c0, run);
    hide AllRun, InOrder;
    var c := Exec(conversions, c0, run).cluster;
    assert forall n <- c.nodes :: NodeTruthful(c.shared, c.nodes[n]);
  }

  // ---- Who is inside a lock -----------------------------------------------------------------

  predicate HoldsCore(pc: Pc) {
    pc.CoreCheck? || pc.CoreMigrating? || pc.CoreSetDone? || pc.CoreList? || pc.CoreUnlock?
  }

  /** The account whose lock the node took and has not removed. */
  function Held(pc: Pc): set<Account> {
    if pc.AccountCheck? || pc.AccountMigrating? || pc.AccountSetDone? || pc.AccountUnlock?
    then {pc.account} else {}
  }
}
