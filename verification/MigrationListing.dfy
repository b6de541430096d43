/**
 Which accounts a migrating node works on: exactly those it was given when it converted or listed the
 core data, in the order they were shuffled to, and with no lock of its own when it was told to force.
 */
module MigrationListing {
  import opened Basics
  import opened Migration

  // ---- From the listing to the stamp ------------------------------------------------------------

  /** The step at this point is given the accounts: the last conversion of the core data, or a listing. */
  predicate Lists(conversions: nat, pc: Pc) {
    pc.CoreList? || (pc.CoreMigrating? && pc.conversion + 1 >= conversions)
  }

  /** The accounts a run gave to each node, whenever it did. */
  function Listings(conversions: nat, c: Cluster, run: seq<Action>): set<(Node, set<Account>)>
    decreases |run|
  {
    if run == [] then {}
    else
      var r := Apply(conversions, c, run[0]);
      if r.Blocked? then {} else Given(conversions, c, run[0]) + Listings(conversions, r.cluster, run[1..])
  }

  function Given(conversions: nat, c: Cluster, a: Action): set<(Node, set<Account>)> {
    if a.Step? && a.node in c.nodes && Lists(conversions, c.nodes[a.node].pc) then {(a.node, Elements(a.ids))} else {}
  }

  /** The accounts a node works on, once it has been given some. */
  function Carried(st: NodeState): set<Account> {
    if st.pc.CoreSetDone? || st.pc.CoreUnlock? then st.pc.ids else st.listed
  }

  predicate Carries(pc: Pc) {
    !(pc.Boot? || pc.CoreTry? || pc.CoreCheck? || pc.CoreMigrating? || pc.CoreList? || pc.Returned?)
  }

  /** What nodes carry, and what was stamped, was given by the run. */
  ghost predicate Backed(given: set<(Node, set<Account>)>, c: Cluster) {
    && (forall n <- c.nodes :: Carries(c.nodes[n].pc) ==> (n, Carried(c.nodes[n])) in given)
    && (c.shared.schema.Stamped? ==> exists n :: (n, c.shared.schema.accounts) in given)
  }

  lemma CoreStepCarries(conversions: nat, s: Shared, st: NodeState, ids: seq<Account>)
    requires CoreStep(conversions, s, st, ids).Move?
    ensures var m := CoreStep(conversions, s, st, ids);
            && m.shared.schema == s.schema
            && (Carries(m.state.pc) ==>
                  if Lists(conversions, st.pc) then Carried(m.state) == Elements(ids)
                  else Carries(st.pc) && Carried(m.state) == Carried(st))
  {
    hide Elements;
  }

  lemma AccountStepCarries(s: Shared, st: NodeState)
    requires AccountStep(s, st).Move?
    ensures var m := AccountStep(s, st);
            && Carries(st.pc) && (Carries(m.state.pc) ==> Carried(m.state) == Carried(st))
            && m.shared.schema == if st.pc == Finished then Stamped(Carried(st)) else s.schema
  {
  }

  lemma ApplyBacked(conversions: nat, c: Cluster, a: Action, given: set<(Node, set<Account>)>)
    requires Backed(given, c) && Apply(conversions, c, a).Next?
    ensures Backed(given + Given(conversions, c, a), Apply(conversions, c, a).cluster)
  {
    hide CoreStep, AccountStep, Elements, Carries, Carried, Lists;
    var c' := Apply(conversions, c, a).cluster;
    if a.Step? {
      var st := c.nodes[a.node];
      if InCorePhase(st.pc) {
        CoreStepCarries(conversions, c.shared, st, a.ids);
      } else {
        AccountStepCarries(c.shared, st);
        assert c'.shared.schema == c.shared.schema || (a.node, c'.shared.schema.accounts) in given;
      }
    } else {
      OtherActionsCarry(conversions, c, a);
    }
  }

  lemma OtherActionsCarry(conversions: nat, c: Cluster, a: Action)
    requires !a.Step? && Apply(conversions, c, a).Next?
    ensures var c' := Apply(conversions, c, a).cluster;
            && c'.shared.schema == c.shared.schema && c'.nodes.Keys == c.nodes.Keys
            && forall n <- c'.nodes :: Carries(c'.nodes[n].pc) ==>
                 Carries(c.nodes[n].pc) && Carried(c'.nodes[n]) == Carried(c.nodes[n])
  {
  }

  lemma {:induction false} ExecBacked(conversions: nat, c: Cluster, run: seq<Action>, given: set<(Node, set<Account>)>)
    requires Backed(given, c) && Exec(conversions, c, run).Next?
    ensures Backed(given + Listings(conversions, c, run), Exec(conversions, c, run).cluster)
    decreases |run|
  {
    hide Apply, Given, Backed;
    if run == [] {
      assert given + {} == given;
    } else {
      var c' := Apply(conversions, c, run[0]).cluster;
      var more := Given(conversions, c, run[0]);
      ApplyBacked(conversions, c, run[0], given);
      ExecBacked(conversions, c', run[1..], given + more);
      assert given + more + Listings(conversions, c', run[1..]) == given + (more + Listings(conversions, c', run[1..]));
    }
  }

  ghost predicate AllConverted(accounts: set<Account>, s: Shared) {
    forall p <- accounts :: p in s.runs
  }

  /**
   In every interleaving, with crashes, restarts, expiry and `FORCE_LOCK`: a node that finished has
   worked on all the accounts it was given, and each of them has been converted; and all the accounts
   some node was given have been converted when the schema is stamped.
   */
  lemma ListingIsConverted(conversions: nat, c0: Cluster, run: seq<Action>)
    requires Start(conversions, c0) && Exec(conversions, c0, run).Next?
    ensures var c, given := Exec(conversions, c0, run).cluster, Listings(conversions, c0, run);
            && (forall n <- c.nodes :: c.nodes[n].pc == Finished ==>
                  (n, c.nodes[n].listed) in given && AllConverted(c.nodes[n].listed, c.shared))
            && (c.shared.schema.Stamped? ==>
                  && (exists n :: (n, c.shared.schema.accounts) in given)
                  && AllConverted(c.shared.schema.accounts, c.shared))
  {
    hide Exec, Listings;
    StageIsComplete(conversions, c0, run);
    ExecBacked(conversions, c0, run, {});
    var given := Listings(conversions, c0, run);
    assert {} + given == given;
  }

  // ---- The order of the work --------------------------------------------------------------------

  /** The accounts a node still has, in the order it takes them if it finds their locks free. */
  function Queue(pc: Pc): seq<Account> {
    match pc
    case Loop(w) => w.skipped + w.todo
    case AccountCheck(p, w) => w.skipped + [p] + w.todo
    case AccountMigrating(p, w) => w.skipped + [p] + w.todo
    case AccountSetDone(p, w) => w.skipped + [p] + w.todo
    case AccountUnlock(p, w) => w.skipped + [p] + w.todo
    case _ => []
  }

  /** The shuffled list is the queue; a step changes it only by taking out the account it unlocks. */
  lemma QueueKeepsOrder(conversions: nat, s: Shared, st: NodeState, ids: seq<Account>)
    requires NodeStep(conversions, s, st, ids).Move?
    ensures var pc := NodeStep(conversions, s, st, ids).state.pc;
            if st.pc.CoreUnlock? then Queue(pc) == ids
            else if st.pc.AccountUnlock? then Queue(pc) == st.pc.work.skipped + st.pc.work.todo
            else Queue(pc) == Queue(st.pc)
  {
    hide CoreStep, AccountStep, Queue, Elements;
    if st.pc.CoreUnlock? {
      UnlockQueues(conversions, s, st, ids);
    } else if InCorePhase(st.pc) {
      CoreHasNoQueue(conversions, s, st, ids);
    } else if st.pc.Loop? {
      LoopKeepsQueue(s, st);
    } else {
      InsideKeepsQueue(s, st);
    }
  }

  lemma CoreHasNoQueue(conversions: nat, s: Shared, st: NodeState, ids: seq<Account>)
    requires InCorePhase(st.pc) && !st.pc.CoreUnlock? && CoreStep(conversions, s, st, ids).Move?
    ensures Queue(CoreStep(conversions, s, st, ids).state.pc) == Queue(st.pc) == []
  {
    hide Elements;
  }

  lemma LoopKeepsQueue(s: Shared, st: NodeState)
    requires st.pc.Loop?
    ensures var m := AccountStep(s, st);
            m.Move? && Queue(m.state.pc) == Queue(st.pc)
  {
    var w := st.pc.work;
    AppendEmpty(w.skipped);
    if w.todo != [] {
      HeadTail(w.todo);
      AppendAssoc(w.skipped, [w.todo[0]], w.todo[1..]);
    }
  }

  lemma InsideKeepsQueue(s: Shared, st: NodeState)
    requires !st.pc.Loop? && AccountStep(s, st).Move?
    ensures Queue(AccountStep(s, st).state.pc) ==
            if st.pc.AccountUnlock? then st.pc.work.skipped + st.pc.work.todo else Queue(st.pc)
  {
  }

  lemma UnlockQueues(conversions: nat, s: Shared, st: NodeState, ids: seq<Account>)
    requires st.pc.CoreUnlock? && CoreStep(conversions, s, st, ids).Move?
    ensures Queue(CoreStep(conversions, s, st, ids).state.pc) == ids
  {
    assert [] + ids == ids;
  }

  // ---- Who takes locks --------------------------------------------------------------------------

  /** The account at the head of a pass. */
  function Head(pc: Pc): set<Account> {
    if pc.Loop? && pc.work.todo != [] then {pc.work.todo[0]} else {}
  }

  /**
   A step takes a lock only when the node is not told to force, and then goes inside it; a node inside
   a lock removes it and no other; a node told to force goes inside with the locks as they are.
   */
  lemma StepTakesLock(conversions: nat, s: Shared, st: NodeState, ids: seq<Account>)
    requires NodeStep(conversions, s, st, ids).Move?
    ensures var m := NodeStep(conversions, s, st, ids);
            && (m.shared.coreLock != s.coreLock ==>
                  if m.shared.coreLock then st.pc.CoreTry? && !st.force && m.state.pc.CoreCheck? else st.pc.CoreUnlock?)
            && (st.pc.CoreTry? && (st.force || !s.coreLock) ==> m.state.pc.CoreCheck?)
            && (m.shared.locks == s.locks
                || (m.shared.locks == s.locks + Head(st.pc) && !st.force && Held(m.state.pc) == Head(st.pc))
                || (m.shared.locks == s.locks - Held(st.pc) && st.pc.AccountUnlock?))
            && (Head(st.pc) != {} && (st.force || Head(st.pc) !! s.locks) ==> Held(m.state.pc) == Head(st.pc))
  {
    hide Elements;
  }
}
