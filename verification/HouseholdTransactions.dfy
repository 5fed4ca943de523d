/**
 * Interleaved household transactions. The service reads without a lock; the store then locks the household
 * row, re-reads, re-checks, writes and commits. Adding a member and creating a household take no lock.
 */
module HouseholdTransactions {
  import opened Options
  import opened Sets
  import opened Household

  type TxId = nat

  /** How far a transaction has come: begun after the service's checks; holding the household lock; holding the
      member row it read; guarded by the re-check; or, for a transfer, past the clearing statement. */
  datatype Tx =
    | Begun(op: Op)
    | Locked(op: Op, home: HouseholdId)
    | Held(op: Op, home: HouseholdId, cur: Member)
    | Guarded(op: Op, home: HouseholdId, cur: Member)
    | Cleared(op: Op, home: HouseholdId, rows: set<MemberId>)

  /** The committed tables and the open transactions. */
  datatype State = State(households: set<HouseholdId>, members: Members, open: map<TxId, Tx>)

  datatype Step =
    | Create(h: HouseholdId, id: MemberId, identity: nat, role: Role, birthdate: Option<int>)
    | Add(id: MemberId, m: Member)
    | Begin(t: TxId, op: Op, managers: nat)
    | Lock(t: TxId)
    | Read(t: TxId)
    | Recheck(t: TxId)
    | Clear(t: TxId)
    | Commit(t: TxId)
    | Abort(t: TxId)

  predicate HoldsLock(tx: Tx, h: HouseholdId) { !tx.Begun? && tx.home == h }

  /** The household a transaction locks: the one named, or the one found by peeking at the member. */
  function Home(members: Members, op: Op): Option<HouseholdId> {
    if op.TransferOwner? then Some(op.household)
    else if op.member in members then Some(members[op.member].household)
    else None
  }

  predicate LockFree(s: State, h: HouseholdId) { forall t | t in s.open :: !HoldsLock(s.open[t], h) }

  /** What the commit of an open transaction leaves in the table, or why its statement fails. */
  function Outcome(members: Members, tx: Tx): Result<Members, Error> {
    match tx
    case Guarded(op, _, cur) =>
      if op.TransferOwner? then Err(NotFound) else UpdateRow(members, op.member, Written(op, cur))
    case Cleared(op, h, rows) => Transfer(members, rows, h, op.member)
    case _ => Err(NotFound)
  }

  predicate Enabled(s: State, a: Step) {
    match a
    case Create(h, id, identity, role, birthdate) =>
      h !in s.households && id !in s.members && !role.UnknownRole? && ValidateCapabilities(role, true, true).None?
    case Add(id, m) =>
      id !in s.members && PrecheckAdd(m).None? && InsertMember(s.households, s.members, id, Defaulted(m)).Ok?
    case Begin(t, op, managers) => t !in s.open && Precheck(s.members, op, managers).None?
    case Lock(t) =>
      t in s.open && s.open[t].Begun? && Home(s.members, s.open[t].op).Some?
      && Home(s.members, s.open[t].op).value in s.households && LockFree(s, Home(s.members, s.open[t].op).value)
    case Read(t) => t in s.open && s.open[t].Locked? && !s.open[t].op.TransferOwner? && s.open[t].op.member in s.members
    case Recheck(t) =>
      t in s.open && s.open[t].Held? && !s.open[t].op.TransferOwner?
      && GuardOp(s.open[t].op, s.open[t].cur, |Managers(s.members, s.open[t].cur.household)|).None?
    case Clear(t) => t in s.open && s.open[t].Locked? && s.open[t].op.TransferOwner?
    case Commit(t) => t in s.open && Outcome(s.members, s.open[t]).Ok?
    case Abort(t) => t in s.open
  }

  function Apply(s: State, a: Step): (r: State)
    requires Enabled(s, a)
  {
    match a
    case Create(h, id, identity, role, birthdate) =>
      s.(households := s.households + {h}, members := s.members[id := Founder(h, identity, role, birthdate)])
    case Add(id, m) => s.(members := s.members[id := Defaulted(m)])
    case Begin(t, op, _) => s.(open := s.open[t := Begun(op)])
    case Lock(t) => s.(open := s.open[t := Locked(s.open[t].op, Home(s.members, s.open[t].op).value)])
    case Read(t) => s.(open := s.open[t := Held(s.open[t].op, s.open[t].home, s.members[s.open[t].op.member])])
    case Recheck(t) => s.(open := s.open[t := Guarded(s.open[t].op, s.open[t].home, s.open[t].cur)])
    case Clear(t) => s.(open := s.open[t := Cleared(s.open[t].op, s.open[t].home, Owners(s.members, s.open[t].home))])
    case Commit(t) => s.(members := Outcome(s.members, s.open[t]).value, open := s.open - {t})
    case Abort(t) => s.(open := s.open - {t})
  }

  function Initial(): State { State({}, map[], map[]) }

  ghost predicate Run(states: seq<State>, steps: seq<Step>) {
    && |states| == |steps| + 1
    && states[0] == Initial()
    && forall i: nat | i < |steps| :: Enabled(states[i], steps[i]) && states[i + 1] == Apply(states[i], steps[i])
  }

  // ---------------------------------------------------------------- what open transactions know

  /** A role change to child was checked against a birthdate, which no statement ever changes. */
  ghost predicate OpOk(members: Members, op: Op) {
    op.ChangeRole? && op.role.Child? ==> op.member in members && members[op.member].birthdate.Some?
  }

  /** What holding the lock makes stable. */
  ghost predicate TxOk(households: set<HouseholdId>, members: Members, tx: Tx) {
    && OpOk(members, tx.op)
    && match tx
       case Begun(_) => true
       case Locked(op, h) => h in households && Home(members, op) == Some(h)
       case Held(op, h, cur) =>
         && h in households && !op.TransferOwner?
         && op.member in members && members[op.member] == cur && cur.household == h
       case Guarded(op, h, cur) =>
         && h in households && !op.TransferOwner?
         && op.member in members && members[op.member] == cur && cur.household == h
         && GuardOp(op, cur, |Managers(members, h)|).None?
       case Cleared(op, h, rows) =>
         h in households && op.TransferOwner? && op.household == h && rows == Owners(members, h)
  }

  ghost predicate Exclusive(open: map<TxId, Tx>) {
    forall t, u | t in open && u in open && t != u && !open[t].Begun? :: !HoldsLock(open[u], open[t].home)
  }

  /** Every child has the birthdate that the age test reads. */
  ghost predicate ChildrenDated(members: Members) {
    forall id | id in members && members[id].role.Child? :: members[id].birthdate.Some?
  }

  ghost predicate Inv(s: State) {
    && Good(s.households, s.members)
    && ChildrenDated(s.members)
    && Exclusive(s.open)
    && forall t | t in s.open :: TxOk(s.households, s.members, s.open[t])
  }

  // ---------------------------------------------------------------- frames

  /** Every row is still there, with the same household, identity and birthdate, and removed rows stay removed. */
  ghost predicate Continues(members: Members, next: Members) {
    forall id | id in members ::
      && id in next
      && next[id].household == members[id].household
      && next[id].identity == members[id].identity
      && next[id].birthdate == members[id].birthdate
      && (members[id].status == Removed ==> next[id].status == Removed)
  }

  /** Nothing that a transaction on household h relies on has changed: its rows, its owner, and no manager fewer. */
  ghost predicate Undisturbed(members: Members, next: Members, h: HouseholdId) {
    && (forall id | id in members && members[id].household == h :: id in next && next[id] == members[id])
    && Owners(next, h) == Owners(members, h)
    && Managers(members, h) <= Managers(next, h)
  }

  lemma TxStays(households: set<HouseholdId>, after: set<HouseholdId>, members: Members, next: Members, tx: Tx)
    requires TxOk(households, members, tx) && households <= after && Continues(members, next)
    requires tx.Begun? || Undisturbed(members, next, tx.home)
    ensures TxOk(after, next, tx)
  {
    if tx.Guarded? { SubsetSize(Managers(members, tx.home), Managers(next, tx.home)); }
  }

  lemma WriteContinues(members: Members, op: Op, h: HouseholdId)
    requires !op.TransferOwner? && op.member in members && Present(members[op.member])
    ensures Continues(members, members[op.member := Written(op, members[op.member])])
    ensures h != members[op.member].household ==>
      Undisturbed(members, members[op.member := Written(op, members[op.member])], h)
  {
    var next := members[op.member := Written(op, members[op.member])];
    if h != members[op.member].household {
      assert Owners(next, h) == Owners(members, h) && Managers(next, h) == Managers(members, h);
    }
  }

  lemma TransferContinues(members: Members, rows: set<MemberId>, h: HouseholdId, id: MemberId, k: HouseholdId)
    requires Transfer(members, rows, h, id).Ok? && rows == Owners(members, h)
    ensures Continues(members, Transfer(members, rows, h, id).value)
    ensures k != h ==> Undisturbed(members, Transfer(members, rows, h, id).value, k)
  {
    var next := Transfer(members, rows, h, id).value;
    assert id in ClearOwners(members, rows);
    TransferRow(members, rows, h, id, id);
    forall i | i in members
      ensures next[i] == members[i].(isAccountOwner := i == id || (i !in rows && members[i].isAccountOwner))
    {
      TransferRow(members, rows, h, id, i);
    }
    if k != h { assert Owners(next, k) == Owners(members, k) && Managers(next, k) == Managers(members, k); }
  }

  lemma InsertUndisturbed(households: set<HouseholdId>, members: Members, id: MemberId, m: Member, h: HouseholdId)
    requires Good(households, members) && id !in members
    requires InsertMember(households, members, id, m).Ok? || m.household !in households
    requires h in households
    ensures Undisturbed(members, members[id := m], h) && Continues(members, members[id := m])
  {
    assert HouseholdOk(members, h);
    OwnerUnmoved(households, members, id, m, h);
    ManagersGrow(members, id, m, h);
  }

  lemma InsertDisturbsNone(households: set<HouseholdId>, members: Members, id: MemberId, m: Member)
    requires Good(households, members) && id !in members && ChildrenDated(members)
    requires InsertMember(households, members, id, m).Ok? || m.household !in households
    ensures Continues(members, members[id := m])
    ensures (m.role.Child? ==> m.birthdate.Some?) ==> ChildrenDated(members[id := m])
    ensures forall h | h in households :: Undisturbed(members, members[id := m], h)
  {
    forall h | h in households ensures Undisturbed(members, members[id := m], h) {
      InsertUndisturbed(households, members, id, m, h);
    }
  }

  lemma OwnerUnmoved(households: set<HouseholdId>, members: Members, id: MemberId, m: Member, h: HouseholdId)
    requires HouseholdOk(members, h) && id !in members && h in households
    requires InsertMember(households, members, id, m).Ok? || m.household !in households
    ensures Owners(members[id := m], h) == Owners(members, h)
  {
    var next := members[id := m];
    assert Owners(members, h) <= Owners(next, h) <= Owners(members, h) + {id};
    assert id !in Owners(members, h) && Owners(members, h) != {};
  }

  lemma ManagersGrow(members: Members, id: MemberId, m: Member, h: HouseholdId)
    requires id !in members
    ensures Managers(members, h) <= Managers(members[id := m], h)
  {}

  // ---------------------------------------------------------------- every step

  lemma CommitKeepsGood(s: State, t: TxId)
    requires Inv(s) && Enabled(s, Commit(t))
    ensures Good(s.households, Apply(s, Commit(t)).members)
    ensures Continues(s.members, Apply(s, Commit(t)).members)
    ensures forall h | h != s.open[t].home :: Undisturbed(s.members, Apply(s, Commit(t)).members, h)
  {
    var tx := s.open[t];
    var op := tx.op;
    assert TxOk(s.households, s.members, tx);
    if tx.Guarded? {
      GuardedWriteKeepsGood(s.households, s.members, op, |Managers(s.members, tx.home)|);
      forall h ensures h != tx.home ==> Undisturbed(s.members, Apply(s, Commit(t)).members, h) {
        WriteContinues(s.members, op, h);
      }
      WriteContinues(s.members, op, tx.home);
    } else {
      TransferKeepsGood(s.households, s.members, tx.home, op.member);
      forall h ensures h != tx.home ==> Undisturbed(s.members, Apply(s, Commit(t)).members, h) {
        TransferContinues(s.members, tx.rows, tx.home, op.member, h);
      }
      TransferContinues(s.members, tx.rows, tx.home, op.member, tx.home);
    }
  }

  lemma CommitKeepsDates(s: State, t: TxId)
    requires Inv(s) && Enabled(s, Commit(t))
    ensures ChildrenDated(Apply(s, Commit(t)).members)
  {
    var tx := s.open[t];
    assert TxOk(s.households, s.members, tx);
    if tx.Cleared? {
      forall k | k in s.members ensures Apply(s, Commit(t)).members[k].role == s.members[k].role
          && Apply(s, Commit(t)).members[k].birthdate == s.members[k].birthdate
          && Apply(s, Commit(t)).members.Keys == s.members.Keys
      {
        TransferRow(s.members, tx.rows, tx.home, tx.op.member, k);
      }
      assert tx.op.member in ClearOwners(s.members, tx.rows);
    }
  }

  /** A step of a transaction that writes nothing. */
  lemma QuietStepKeepsInv(s: State, a: Step)
    requires Inv(s) && Enabled(s, a) && !a.Create? && !a.Add? && !a.Commit?
    ensures Inv(Apply(s, a))
  {
    var r := Apply(s, a);
    forall t | t in r.open ensures TxOk(r.households, r.members, r.open[t]) {
      if t in s.open { assert TxOk(s.households, s.members, s.open[t]); }
    }
  }

  lemma WritingStep(s: State, a: Step)
    requires Inv(s) && Enabled(s, a) && (a.Create? || a.Add? || a.Commit?)
    ensures Good(Apply(s, a).households, Apply(s, a).members) && Continues(s.members, Apply(s, a).members)
    ensures ChildrenDated(Apply(s, a).members)
    ensures forall h | h in s.households && !(a.Commit? && s.open[a.t].home == h) ::
      Undisturbed(s.members, Apply(s, a).members, h)
  {
    match a
    case Create(h, id, identity, role, birthdate) =>
      var m := Founder(h, identity, role, birthdate);
      CreateKeepsGood(s.households, s.members, h, id, m);
      InsertDisturbsNone(s.households, s.members, id, m);
    case Add(id, m) =>
      InsertKeepsGood(s.households, s.members, id, Defaulted(m));
      InsertDisturbsNone(s.households, s.members, id, Defaulted(m));
    case Commit(t) =>
      CommitKeepsGood(s, t);
      CommitKeepsDates(s, t);
  }

  lemma StepKeepsInv(s: State, a: Step)
    requires Inv(s) && Enabled(s, a)
    ensures Inv(Apply(s, a)) && Continues(s.members, Apply(s, a).members)
  {
    if a.Create? || a.Add? || a.Commit? {
      WritingStep(s, a);
      var r := Apply(s, a);
      forall t | t in r.open ensures TxOk(r.households, r.members, r.open[t]) {
        assert t in s.open && r.open[t] == s.open[t] && TxOk(s.households, s.members, s.open[t]);
        TxStays(s.households, r.households, s.members, r.members, s.open[t]);
      }
    } else {
      QuietStepKeepsInv(s, a);
    }
  }

  // ---------------------------------------------------------------- every run

  lemma {:induction false} EveryRunIsSafe(states: seq<State>, steps: seq<Step>, i: nat)
    requires Run(states, steps) && i < |states|
    ensures Inv(states[i])
  {
    if i > 0 {
      EveryRunIsSafe(states, steps, i - 1);
      assert Enabled(states[i - 1], steps[i - 1]) && states[i - 1 + 1] == Apply(states[i - 1], steps[i - 1]);
      StepKeepsInv(states[i - 1], steps[i - 1]);
    }
  }

  /** No member leaves the table, and no removed member comes back. */
  lemma {:induction false} NoRevival(states: seq<State>, steps: seq<Step>, i: nat, j: nat)
    requires Run(states, steps) && i <= j < |states|
    ensures Continues(states[i].members, states[j].members)
  {
    if i < j {
      NoRevival(states, steps, i, j - 1);
      EveryRunIsSafe(states, steps, j - 1);
      assert Enabled(states[j - 1], steps[j - 1]) && states[j - 1 + 1] == Apply(states[j - 1], steps[j - 1]);
      StepKeepsInv(states[j - 1], steps[j - 1]);
      ContinuesIsTransitive(states[i].members, states[j - 1].members, states[j].members);
    }
  }

  lemma ContinuesIsTransitive(a: Members, b: Members, c: Members)
    requires Continues(a, b) && Continues(b, c)
    ensures Continues(a, c)
  {}

  /** In every state of every interleaving: one present account owner per household, never a child; a present
      manager; no capability on a child; no child without a birthdate. */
  lemma CommittedStates(states: seq<State>, steps: seq<Step>, i: nat, h: HouseholdId)
      returns (owner: MemberId, manager: MemberId)
    requires Run(states, steps) && i < |states| && h in states[i].households
    ensures forall id: MemberId :: id == owner <==>
      && id in states[i].members && states[i].members[id].household == h
      && states[i].members[id].isAccountOwner && states[i].members[id].status != Removed
    ensures !states[i].members[owner].role.Child?
    ensures manager in states[i].members && states[i].members[manager].household == h
    ensures states[i].members[manager].isManager && states[i].members[manager].status != Removed
    ensures forall id | id in states[i].members && states[i].members[id].role.Child? ::
      var m := states[i].members[id];
      !m.isManager && !m.isAccountOwner && m.birthdate.Some?
  {
    EveryRunIsSafe(states, steps, i);
    owner := TheOwner(states[i].households, states[i].members, h);
    forall id ensures id in Owners(states[i].members, h) <==>
      && id in states[i].members && states[i].members[id].household == h
      && states[i].members[id].isAccountOwner && states[i].members[id].status != Removed
    {
      CountedIff(states[i].members, h, id);
    }
    assert HouseholdOk(states[i].members, h);
    manager :| manager in Managers(states[i].members, h);
  }
}
