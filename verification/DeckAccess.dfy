/** The last-holder guard: concurrent grants, flag changes, revocations and deck deletions under the
    deck row lock (internal/db/deletion.go, internal/db/deletion.sql.go, internal/db/deck_access.sql.go). */
module DeckAccess {
  import opened Wrappers
  import Rows

  // The permissions this protocol reads.
  datatype Flags = Flags(view: bool, manage: bool, delete_: bool)

  const FULL := Flags(true, true, true)

  // deck_access rows by (deck, user).
  type Access = map<(int, int), Flags>

  datatype AccessError = NoRows | LastAccessHolder

  // What one transaction does to a deck it has locked.
  datatype Change =
    | Revoke(target: int)
    | SetFlags(target: int, flags: Flags)
    | Drop

  predicate MayManage(access: Access, deck: int, user: int) {
    (deck, user) in access && access[(deck, user)].view && access[(deck, user)].manage
  }

  predicate MayDelete(access: Access, deck: int, user: int) {
    (deck, user) in access && access[(deck, user)].view && access[(deck, user)].delete_
  }

  predicate Authorised(access: Access, deck: int, user: int, c: Change) {
    if c.Drop? then MayDelete(access, deck, user) else MayManage(access, deck, user)
  }

  function Apply(access: Access, deck: int, c: Change): Access {
    match c
    case Revoke(target) => access - {(deck, target)}
    case SetFlags(target, flags) => if (deck, target) in access then access[(deck, target) := flags] else access
    case Drop => map row | row in access && row.0 != deck :: access[row]
  }

  /** Which rows a change writes: a revocation takes the target's row away, a flag change gives it the
      flags if it is there, dropping the deck takes all of its rows; no other row changes. */
  lemma ApplyWrites(access: Access, deck: int, c: Change)
    ensures var after := Apply(access, deck, c);
            && (forall row :: row in access && (row.0 != deck || (!c.Drop? && row.1 != c.target)) ==> row in after && after[row] == access[row])
            && (forall row :: row in after ==> row in access)
            && (c.Revoke? ==> (deck, c.target) !in after)
            && (c.SetFlags? && (deck, c.target) in access ==> (deck, c.target) in after && after[(deck, c.target)] == c.flags)
            && (c.Drop? ==> forall row :: row in after ==> row.0 != deck)
  {
  }

  function Managers(access: Access, deck: int): set<(int, int)> {
    set row | row in access && row.0 == deck && access[row].manage
  }

  function Deleters(access: Access, deck: int): set<(int, int)> {
    set row | row in access && row.0 == deck && access[row].delete_
  }

  /** The deck keeps somebody to manage it and somebody to delete it. */
  predicate Held(access: Access, deck: int) {
    Managers(access, deck) != {} && Deleters(access, deck) != {}
  }

  // ---- One transaction ----

  class AccessTable {
    var access: Access

    // count(*) FILTER (WHERE ...) over the deck's rows.
    method CountDeckAccessHolders(deck: int) returns (manage: nat, delete_: nat)
      ensures manage == |Managers(access, deck)| && delete_ == |Deleters(access, deck)|
    {
      var todo := set row | row in access && row.0 == deck;
      var rows := todo;
      manage, delete_ := 0, 0;
      var m, d: set<(int, int)> := {}, {};
      while todo != {}
        invariant todo <= rows && manage == |m| && delete_ == |d|
        invariant forall row :: row in m <==> row in rows && row !in todo && access[row].manage
        invariant forall row :: row in d <==> row in rows && row !in todo && access[row].delete_
      {
        var row := Rows.Pick(todo);
        todo := todo - {row};
        if access[row].manage { manage := manage + 1; m := m + {row}; }
        if access[row].delete_ { delete_ := delete_ + 1; d := d + {row}; }
      }
      assert m == Managers(access, deck) && d == Deleters(access, deck);
    }

    method AssertDeckStillManageable(deck: int) returns (r: Result<(), AccessError>)
      ensures r == if Held(access, deck) then Ok(()) else Err(LastAccessHolder)
    {
      var manage, delete_ := CountDeckAccessHolders(deck);
      if manage == 0 || delete_ == 0 { return Err(LastAccessHolder); }
      r := Ok(());
    }

    /** A revocation or flag change inside the caller's transaction: on LastAccessHolder it has already
        been applied, and only the caller's rollback undoes it. */
    method ChangeDeckAccess(deck: int, user: int, c: Change) returns (r: Result<(), AccessError>)
      requires !c.Drop?
      modifies this
      ensures r == Err(NoRows) <==> !MayManage(old(access), deck, user) || (deck, c.target) !in old(access)
      ensures access == if r == Err(NoRows) then old(access) else Apply(old(access), deck, c)
      ensures r.Ok? ==> Held(access, deck)
      ensures r == Err(LastAccessHolder) ==> !Held(access, deck)
    {
      if !MayManage(access, deck, user) { return Err(NoRows); }
      var n := if (deck, c.target) in access then 1 else 0;
      access := Apply(access, deck, c);
      if n == 0 { return Err(NoRows); }
      r := AssertDeckStillManageable(deck);
    }
  }

  // ---- Concurrent transactions ----

  // Authorised in its first statement; holding the deck's row lock; its one row written but not
  // committed; and found by its own count to leave the deck held.
  datatype Phase = Waiting | Locked | Mutated | Checked

  datatype Tx = Tx(deck: int, change: Change, phase: Phase)

  // What is committed, and the transactions under way.
  datatype System = System(decks: set<int>, access: Access, txs: map<int, Tx>)

  datatype Step =
    | CreateDeck(deck: int, owner: int)
    | Grant(user: int, deck: int, target: int, flags: Flags)
    | Begin(tx: int, user: int, deck: int, change: Change)
    | Lock(tx: int)
    | Mutate(tx: int)
    | Check(tx: int)
    | Commit(tx: int)
    | Abort(tx: int)

  // Nobody else has the deck's row locked.
  ghost predicate LockFree(s: System, tx: int, deck: int) {
    forall other :: other in s.txs && other != tx && s.txs[other].deck == deck ==> s.txs[other].phase == Waiting
  }

  function End(s: System, tx: int): System { s.(txs := s.txs - {tx}) }

  function At(s: System, tx: int, phase: Phase): System
    requires tx in s.txs
  {
    s.(txs := s.txs[tx := s.txs[tx].(phase := phase)])
  }

  /** One step. A count sees what is committed plus the transaction's own row; a failed count, or a
      row that is not there, ends the transaction with nothing changed. Leaving out the lock is what
      locking = false means. */
  ghost predicate Next(step: Step, s: System, s': System, locking: bool) {
    match step
    case CreateDeck(deck, owner) =>
      deck !in s.decks && (forall row :: row in s.access ==> row.0 != deck)
      && s' == s.(decks := s.decks + {deck}, access := s.access[(deck, owner) := FULL])
    case Grant(user, deck, target, flags) =>
      deck in s.decks && MayManage(s.access, deck, user) && (deck, target) !in s.access
      && s' == s.(access := s.access[(deck, target) := flags])
    case Begin(tx, user, deck, change) =>
      tx !in s.txs && deck in s.decks && Authorised(s.access, deck, user, change)
      && s' == s.(txs := s.txs[tx := Tx(deck, change, Waiting)])
    case Lock(tx) =>
      tx in s.txs && s.txs[tx].phase == Waiting && (locking ==> LockFree(s, tx, s.txs[tx].deck))
      && s' == if s.txs[tx].deck in s.decks then At(s, tx, Locked) else End(s, tx)
    case Mutate(tx) =>
      tx in s.txs && s.txs[tx].phase == Locked
      && s' == if s.txs[tx].change.Drop? then At(s, tx, Checked)
               else if (s.txs[tx].deck, s.txs[tx].change.target) in s.access then At(s, tx, Mutated)
               else End(s, tx)
    case Check(tx) =>
      tx in s.txs && s.txs[tx].phase == Mutated
      && s' == if Held(Apply(s.access, s.txs[tx].deck, s.txs[tx].change), s.txs[tx].deck) then At(s, tx, Checked)
               else End(s, tx)
    case Commit(tx) =>
      tx in s.txs && s.txs[tx].phase == Checked
      && s' == End(s, tx).(decks := if s.txs[tx].change.Drop? then s.decks - {s.txs[tx].deck} else s.decks,
                           access := Apply(s.access, s.txs[tx].deck, s.txs[tx].change))
    case Abort(tx) => tx in s.txs && s' == End(s, tx)
  }

  /** Every existing deck has a manager and a deleter among its committed rows. */
  ghost predicate Safe(s: System) { forall deck :: deck in s.decks ==> Held(s.access, deck) }

  // One lock holder per deck, the row it writes is there, and a passed count still holds.
  ghost predicate Inv(s: System) {
    && Safe(s)
    && (forall tx :: tx in s.txs && s.txs[tx].phase != Waiting ==>
          s.txs[tx].deck in s.decks && LockFree(s, tx, s.txs[tx].deck))
    && (forall tx :: tx in s.txs && s.txs[tx].phase == Checked && !s.txs[tx].change.Drop? ==>
          Held(Apply(s.access, s.txs[tx].deck, s.txs[tx].change), s.txs[tx].deck))
    && (forall tx :: tx in s.txs && s.txs[tx].phase in {Mutated, Checked} && !s.txs[tx].change.Drop? ==>
          (s.txs[tx].deck, s.txs[tx].change.target) in s.access)
  }

  // Rows that stay keep a deck held.
  lemma HeldByMore(a: Access, b: Access, deck: int)
    requires Held(a, deck)
    requires forall row :: row in a && row.0 == deck ==> row in b && b[row] == a[row]
    ensures Held(b, deck)
  {
    var m :| m in Managers(a, deck);
    var d :| d in Deleters(a, deck);
    assert m in Managers(b, deck) && d in Deleters(b, deck);
  }

  // A change to one deck leaves the rows of the others alone.
  lemma OtherDecks(access: Access, deck: int, c: Change, other: int)
    requires other != deck
    ensures Held(Apply(access, deck, c), other) <==> Held(access, other)
  {
    var after := Apply(access, deck, c);
    assert Managers(after, other) == Managers(access, other);
    assert Deleters(after, other) == Deleters(access, other);
  }

  // A row added by somebody else cannot unmake a passed count.
  lemma GrantKeepsCount(access: Access, row: (int, int), flags: Flags, deck: int, c: Change)
    requires row !in access && !c.Drop? && Held(Apply(access, deck, c), deck)
    ensures Held(Apply(access[row := flags], deck, c), deck)
  {
    HeldByMore(Apply(access, deck, c), Apply(access[row := flags], deck, c), deck);
  }

  lemma CreateKeepsInv(s: System, s': System, deck: int, owner: int)
    requires Inv(s) && Next(CreateDeck(deck, owner), s, s', true)
    ensures Inv(s')
  {
    assert (deck, owner) in Managers(s'.access, deck) && (deck, owner) in Deleters(s'.access, deck);
    RowAddedKeeps(s, s', (deck, owner), FULL);
  }

  lemma RowAddedKeeps(s: System, s': System, row: (int, int), flags: Flags)
    requires Inv(s) && row !in s.access && s'.access == s.access[row := flags] && s'.txs == s.txs
    requires s'.decks == s.decks || (s'.decks == s.decks + {row.0} && Held(s'.access, row.0))
    ensures Inv(s')
  {
    forall deck | deck in s.decks ensures Held(s'.access, deck) {
      HeldByMore(s.access, s'.access, deck);
    }
    forall tx | tx in s.txs && s.txs[tx].phase == Checked && !s.txs[tx].change.Drop?
      ensures Held(Apply(s'.access, s.txs[tx].deck, s.txs[tx].change), s.txs[tx].deck)
    {
      GrantKeepsCount(s.access, row, flags, s.txs[tx].deck, s.txs[tx].change);
    }
  }

  // A commit on one deck does not touch what a count on another deck has found.
  lemma OtherCount(access: Access, deck: int, c: Change, other: int, d: Change)
    requires other != deck && !d.Drop? && Held(Apply(access, other, d), other)
    ensures Held(Apply(Apply(access, deck, c), other, d), other)
  {
    SameRows(Apply(access, other, d), Apply(Apply(access, deck, c), other, d), other);
  }

  lemma CommitKeepsInv(s: System, s': System, tx: int)
    requires Inv(s) && Next(Commit(tx), s, s', true)
    ensures Inv(s')
  {
    var t := s.txs[tx];
    forall deck | deck in s'.decks ensures Held(s'.access, deck) {
      if deck != t.deck { OtherDecks(s.access, t.deck, t.change, deck); }
    }
    forall other | other in s'.txs && s'.txs[other].phase == Checked && !s'.txs[other].change.Drop?
      ensures Held(Apply(s'.access, s'.txs[other].deck, s'.txs[other].change), s'.txs[other].deck)
    {
      OtherCount(s.access, t.deck, t.change, s.txs[other].deck, s.txs[other].change);
    }
  }

  lemma SameRows(a: Access, b: Access, deck: int)
    requires Held(a, deck) && forall row: (int, int) :: row.0 == deck ==> (row in a <==> row in b) && (row in a ==> a[row] == b[row])
    ensures Held(b, deck)
  {
    HeldByMore(a, b, deck);
  }

  lemma NextKeepsInv(step: Step, s: System, s': System)
    requires Inv(s) && Next(step, s, s', true)
    ensures Inv(s')
  {
    match step
    case CreateDeck(deck, owner) => CreateKeepsInv(s, s', deck, owner);
    case Grant(_, deck, target, flags) => RowAddedKeeps(s, s', (deck, target), flags);
    case Begin(_, _, _, _) =>
    case Lock(_) =>
    case Mutate(_) =>
    case Check(_) =>
    case Commit(tx) => CommitKeepsInv(s, s', tx);
    case Abort(_) =>
  }

  ghost predicate Runs(steps: seq<Step>, trace: seq<System>, locking: bool) {
    |trace| == |steps| + 1 && forall i :: 0 <= i < |steps| ==> Next(steps[i], trace[i], trace[i + 1], locking)
  }

  const EMPTY := System({}, map[], map[])

  /** Last-holder safety: however grants, flag changes, revocations and deletions interleave, after
      every step each existing deck has a can_manage_access holder and a can_delete holder. */
  lemma {:induction false} EveryCommitIsSafe(steps: seq<Step>, trace: seq<System>, n: nat)
    requires Runs(steps, trace, true) && trace[0] == EMPTY && n < |trace|
    ensures Inv(trace[n]) && Safe(trace[n])
  {
    if n > 0 {
      EveryCommitIsSafe(steps, trace, n - 1);
      NextKeepsInv(steps[n - 1], trace[n - 1], trace[n]);
    }
  }

  // Two members revoking each other: both begin and lock, both write and count, both commit.
  const A: (int, int) := (1, 1)
  const B: (int, int) := (1, 2)
  const BOTH: Access := map[A := FULL, B := FULL]

  function Pair(first: Phase, second: Phase): System {
    System({1}, BOTH, map[1 := Tx(1, Revoke(2), first), 2 := Tx(1, Revoke(1), second)])
  }

  lemma StrandingBegins()
    ensures Next(CreateDeck(1, 1), EMPTY, System({1}, map[A := FULL], map[]), false)
    ensures Next(Grant(1, 1, 2, FULL), System({1}, map[A := FULL], map[]), System({1}, BOTH, map[]), false)
    ensures Next(Begin(1, 1, 1, Revoke(2)), System({1}, BOTH, map[]), System({1}, BOTH, map[1 := Tx(1, Revoke(2), Waiting)]), false)
    ensures Next(Begin(2, 2, 1, Revoke(1)), System({1}, BOTH, map[1 := Tx(1, Revoke(2), Waiting)]), Pair(Waiting, Waiting), false)
  {
  }

  lemma StrandingWrites()
    ensures Next(Lock(1), Pair(Waiting, Waiting), Pair(Locked, Waiting), false)
    ensures Next(Lock(2), Pair(Locked, Waiting), Pair(Locked, Locked), false)
    ensures Next(Mutate(1), Pair(Locked, Locked), Pair(Mutated, Locked), false)
    ensures Next(Mutate(2), Pair(Mutated, Locked), Pair(Mutated, Mutated), false)
  {
  }

  lemma StrandingCommits()
    ensures Next(Check(1), Pair(Mutated, Mutated), Pair(Checked, Mutated), false)
    ensures Next(Check(2), Pair(Checked, Mutated), Pair(Checked, Checked), false)
  {
    var only1, only2 := Apply(BOTH, 1, Revoke(2)), Apply(BOTH, 1, Revoke(1));
    assert A in Managers(only1, 1) && A in Deleters(only1, 1);
    assert B in Managers(only2, 1) && B in Deleters(only2, 1);
  }

  lemma StrandingEnds()
    ensures Next(Commit(1), Pair(Checked, Checked), System({1}, map[A := FULL], map[2 := Tx(1, Revoke(1), Checked)]), false)
    ensures Next(Commit(2), System({1}, map[A := FULL], map[2 := Tx(1, Revoke(1), Checked)]), System({1}, map[], map[]), false)
  {
    var only1 := Apply(BOTH, 1, Revoke(2));
    assert only1 == map[A := FULL] && Apply(only1, 1, Revoke(1)) == map[];
  }

  /** Without the row lock two full holders revoke each other: each count still sees the other's row,
      both commit, and the deck is left to nobody. */
  lemma StrandedWithoutLock() returns (steps: seq<Step>, trace: seq<System>)
    ensures Runs(steps, trace, false) && trace[0] == EMPTY && !Safe(trace[|trace| - 1])
  {
    hide Next;
    steps := [CreateDeck(1, 1), Grant(1, 1, 2, FULL), Begin(1, 1, 1, Revoke(2)), Begin(2, 2, 1, Revoke(1)), Lock(1), Lock(2),
              Mutate(1), Mutate(2), Check(1), Check(2), Commit(1), Commit(2)];
    trace := [EMPTY, System({1}, map[A := FULL], map[]), System({1}, BOTH, map[]),
              System({1}, BOTH, map[1 := Tx(1, Revoke(2), Waiting)]),
              Pair(Waiting, Waiting), Pair(Locked, Waiting), Pair(Locked, Locked), Pair(Mutated, Locked),
              Pair(Mutated, Mutated), Pair(Checked, Mutated), Pair(Checked, Checked),
              System({1}, map[A := FULL], map[2 := Tx(1, Revoke(1), Checked)]), System({1}, map[], map[])];
    StrandingBegins();
    StrandingWrites();
    StrandingCommits();
    StrandingEnds();
    assert Managers(map[], 1) == {};
  }

  // ---- What the guard counts, and what the lock statement asks for ----

  ghost predicate SomeManages(access: Access, deck: int) { exists user :: MayManage(access, deck, user) }

  ghost predicate SomeDeletes(access: Access, deck: int) { exists user :: MayDelete(access, deck, user) }

  /** Somebody can pass each of the deck's two lock statements. */
  ghost predicate Reachable(access: Access, deck: int) { SomeManages(access, deck) && SomeDeletes(access, deck) }

  // Somebody other than the target, or the target with the new flags.
  ghost predicate LeavesManager(access: Access, deck: int, c: Change)
    requires !c.Drop?
  {
    (exists user :: user != c.target && MayManage(access, deck, user))
    || (c.SetFlags? && c.flags.view && c.flags.manage)
  }

  ghost predicate LeavesDeleter(access: Access, deck: int, c: Change)
    requires !c.Drop?
  {
    (exists user :: user != c.target && MayDelete(access, deck, user))
    || (c.SetFlags? && c.flags.view && c.flags.delete_)
  }

  /** A revocation or flag change leaves somebody who can manage the deck exactly when another user can,
      or the new flags let the target; and likewise for deleting it. */
  lemma ChangeLeavesActors(access: Access, deck: int, c: Change)
    requires !c.Drop? && (deck, c.target) in access
    ensures SomeManages(Apply(access, deck, c), deck) <==> LeavesManager(access, deck, c)
    ensures SomeDeletes(Apply(access, deck, c), deck) <==> LeavesDeleter(access, deck, c)
  {
    var after := Apply(access, deck, c);
    forall user
      ensures user != c.target ==> (MayManage(after, deck, user) <==> MayManage(access, deck, user))
                                   && (MayDelete(after, deck, user) <==> MayDelete(access, deck, user))
      ensures MayManage(after, deck, c.target) <==> c.SetFlags? && c.flags.view && c.flags.manage
      ensures MayDelete(after, deck, c.target) <==> c.SetFlags? && c.flags.view && c.flags.delete_
    {
    }
  }

  // A commit of a revocation or flag change that leaves both kinds of actor.
  ghost predicate LeavesActors(step: Step, s: System) {
    step.Commit? && step.tx in s.txs && !s.txs[step.tx].change.Drop? ==>
      var t := s.txs[step.tx];
      LeavesManager(s.access, t.deck, t.change) && LeavesDeleter(s.access, t.deck, t.change)
  }

  ghost predicate AllReachable(s: System) { forall deck :: deck in s.decks ==> Reachable(s.access, deck) }

  // Rows that stay keep a deck reachable.
  lemma ReachableByMore(a: Access, b: Access, deck: int)
    requires Reachable(a, deck)
    requires forall row :: row in a && row.0 == deck ==> row in b && b[row] == a[row]
    ensures Reachable(b, deck)
  {
    var m :| MayManage(a, deck, m);
    var d :| MayDelete(a, deck, d);
    assert (deck, m) in a && (deck, d) in a;
    assert MayManage(b, deck, m) && MayDelete(b, deck, d);
  }

  // One step keeps every deck reachable exactly when it leaves actors.
  lemma NextReaches(step: Step, s: System, s': System)
    requires Inv(s) && Next(step, s, s', true) && AllReachable(s)
    ensures AllReachable(s') <==> LeavesActors(step, s)
  {
    match step
    case CreateDeck(deck, owner) =>
      forall other | other in s'.decks ensures Reachable(s'.access, other) {
        if other == deck {
          assert MayManage(s'.access, deck, owner) && MayDelete(s'.access, deck, owner);
        } else {
          ReachableByMore(s.access, s'.access, other);
        }
      }
    case Grant(_, _, _, _) =>
      forall other | other in s'.decks ensures Reachable(s'.access, other) {
        ReachableByMore(s.access, s'.access, other);
      }
    case Commit(tx) => CommitReaches(s, s', tx);
    case _ =>
  }

  lemma CommitReaches(s: System, s': System, tx: int)
    requires Inv(s) && Next(Commit(tx), s, s', true) && AllReachable(s)
    ensures AllReachable(s') <==> LeavesActors(Commit(tx), s)
  {
    var t := s.txs[tx];
    forall other | other in s'.decks && other != t.deck ensures Reachable(s'.access, other) {
      ReachableByMore(s.access, s'.access, other);
    }
    if !t.change.Drop? { ChangeLeavesActors(s.access, t.deck, t.change); }
  }

  /** Reachability over runs, exactly: every deck can be managed and deleted by somebody after every
      step if and only if each revocation and flag change, when it commits, leaves another user who
      can, or gives its target flags with which they can. */
  lemma ReachableExactly(steps: seq<Step>, trace: seq<System>)
    requires Runs(steps, trace, true) && trace[0] == EMPTY
    ensures (forall n :: 0 <= n < |trace| ==> AllReachable(trace[n]))
            <==> (forall i :: 0 <= i < |steps| ==> LeavesActors(steps[i], trace[i]))
  {
    if forall n :: 0 <= n < |trace| ==> AllReachable(trace[n]) {
      forall i | 0 <= i < |steps| ensures LeavesActors(steps[i], trace[i]) {
        EveryCommitIsSafe(steps, trace, i);
        NextReaches(steps[i], trace[i], trace[i + 1]);
      }
    }
    if forall i :: 0 <= i < |steps| ==> LeavesActors(steps[i], trace[i]) {
      forall n | 0 <= n < |trace| ensures AllReachable(trace[n]) {
        ReachableSoFar(steps, trace, n);
      }
    }
  }

  lemma {:induction false} ReachableSoFar(steps: seq<Step>, trace: seq<System>, n: nat)
    requires Runs(steps, trace, true) && trace[0] == EMPTY && n < |trace|
    requires forall i :: 0 <= i < |steps| ==> LeavesActors(steps[i], trace[i])
    ensures AllReachable(trace[n])
  {
    if n > 0 {
      ReachableSoFar(steps, trace, n - 1);
      EveryCommitIsSafe(steps, trace, n - 1);
      assert Next(steps[n - 1], trace[n - 1], trace[n - 1 + 1], true) && LeavesActors(steps[n - 1], trace[n - 1]);
      hide *;
      NextReaches(steps[n - 1], trace[n - 1], trace[n]);
    } else {
      assert trace[0].decks == {};
    }
  }

  // The convention neither the schema nor the forms enforce: the other flags come with can_view.
  predicate Viewing(flags: Flags) { flags.manage || flags.delete_ ==> flags.view }

  ghost predicate Conventional(step: Step) {
    match step
    case Grant(_, _, _, flags) => Viewing(flags)
    case Begin(_, _, _, change) => change.SetFlags? ==> Viewing(change.flags)
    case _ => true
  }

  ghost predicate AllViewing(s: System) {
    && (forall row :: row in s.access ==> Viewing(s.access[row]))
    && (forall tx :: tx in s.txs && s.txs[tx].change.SetFlags? ==> Viewing(s.txs[tx].change.flags))
  }

  // Where every row with another flag has can_view, the guard counts just those who can act.
  lemma ViewingReaches(s: System, deck: int)
    requires AllViewing(s)
    ensures Held(s.access, deck) <==> Reachable(s.access, deck)
  {
    if Held(s.access, deck) {
      var m :| m in Managers(s.access, deck);
      var d :| d in Deleters(s.access, deck);
      assert MayManage(s.access, deck, m.1) && MayDelete(s.access, deck, d.1);
    }
    if Reachable(s.access, deck) {
      var m :| MayManage(s.access, deck, m);
      var d :| MayDelete(s.access, deck, d);
      assert (deck, m) in Managers(s.access, deck) && (deck, d) in Deleters(s.access, deck);
    }
  }

  lemma NextKeepsViewing(step: Step, s: System, s': System)
    requires AllViewing(s) && Conventional(step) && Next(step, s, s', true)
    ensures AllViewing(s')
  {
  }

  /** One way to meet the condition everywhere: while every change keeps to the convention, the guard
      that is there is enough. */
  lemma {:induction false} ConventionKeepsReach(steps: seq<Step>, trace: seq<System>, n: nat)
    requires Runs(steps, trace, true) && trace[0] == EMPTY && n < |trace|
    requires forall i :: 0 <= i < |steps| ==> Conventional(steps[i])
    ensures AllViewing(trace[n]) && AllReachable(trace[n])
  {
    if n > 0 {
      ConventionKeepsReach(steps, trace, n - 1);
      NextKeepsViewing(steps[n - 1], trace[n - 1], trace[n]);
    }
    EveryCommitIsSafe(steps, trace, n);
    forall deck | deck in trace[n].decks ensures Reachable(trace[n].access, deck) {
      ViewingReaches(trace[n], deck);
    }
  }

  /** The guard alone is satisfied by a holder nobody can act through: a sole member who clears
      their own can_view passes the count, and from then on no access change is authorised. */
  lemma HolderWithoutView() returns (steps: seq<Step>, trace: seq<System>)
    ensures Runs(steps, trace, true) && trace[0] == EMPTY
    ensures var last := trace[|trace| - 1];
            1 in last.decks && Safe(last) && forall user, c :: !Authorised(last.access, 1, user, c)
  {
    var a, hidden := (1, 1), Flags(false, true, true);
    var c := SetFlags(1, hidden);
    var full, after := map[a := FULL], map[a := hidden];
    steps := [CreateDeck(1, 1), Begin(1, 1, 1, c), Lock(1), Mutate(1), Check(1), Commit(1)];
    trace := [EMPTY, System({1}, full, map[]), System({1}, full, map[1 := Tx(1, c, Waiting)]),
              System({1}, full, map[1 := Tx(1, c, Locked)]), System({1}, full, map[1 := Tx(1, c, Mutated)]),
              System({1}, full, map[1 := Tx(1, c, Checked)]), System({1}, after, map[])];
    assert a in Managers(after, 1) && a in Deleters(after, 1);
    assert Apply(full, 1, c) == after;
    forall i | 0 <= i < |steps| ensures Next(steps[i], trace[i], trace[i + 1], true) {
    }
  }
}
