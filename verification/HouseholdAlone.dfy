/**
 A household operation whose steps run with nothing in between: it goes through exactly under the conditions that the
 service states for the whole call, with the same effect.
 */
module HouseholdAlone {
  import opened Options
  import opened Household
  import opened HouseholdTransactions
  import opened HouseholdService

  ghost function Then(s: Option<State>, a: Step): Option<State> {
    if s.Some? && Enabled(s.value, a) then Some(Apply(s.value, a)) else None
  }

  /** Check, begin, lock, read, re-check, commit. */
  ghost function Alone(s: State, t: TxId, op: Op, managers: nat): Option<State> {
    var locked := Then(Then(Some(s), Begin(t, op, managers)), Lock(t));
    if op.TransferOwner? then Then(Then(locked, Clear(t)), Commit(t))
    else Then(Then(Then(locked, Read(t)), Recheck(t)), Commit(t))
  }

  /** What the five steps come to. */
  lemma GuardedAlone(s: State, t: TxId, op: Op, managers: nat)
    requires Inv(s) && t !in s.open && !op.TransferOwner? && op.member in s.members
    requires LockFree(s, s.members[op.member].household)
    ensures var cur := s.members[op.member];
      var row := UpdateRow(s.members, op.member, Written(op, cur));
      Alone(s, t, op, managers) ==
      if && Precheck(s.members, op, managers).None? && row.Ok?
         && GuardOp(op, cur, |Managers(s.members, cur.household)|).None?
      then Some(s.(members := row.value)) else None
  {
    var cur := s.members[op.member];
    if Precheck(s.members, op, managers).None? {
      LockAlone(s, t, op);
      ReadAlone(s, t, op);
      CommitAlone(s, t, op, cur);
    }
  }

  lemma ReadAlone(s: State, t: TxId, op: Op)
    requires t !in s.open && !op.TransferOwner? && op.member in s.members
    ensures var cur := s.members[op.member];
      Then(Then(Some(s.(open := s.open[t := Locked(op, cur.household)])), Read(t)), Recheck(t)) ==
      if GuardOp(op, cur, |Managers(s.members, cur.household)|).None?
      then Some(s.(open := s.open[t := Guarded(op, cur.household, cur)])) else None
  {
    var cur := s.members[op.member];
    var locked := s.(open := s.open[t := Locked(op, cur.household)]);
    var held := Apply(locked, Read(t));
    assert held == s.(open := s.open[t := Held(op, cur.household, cur)]);
    assert held.open[t := Guarded(op, cur.household, cur)] == s.open[t := Guarded(op, cur.household, cur)];
  }

  lemma LockAlone(s: State, t: TxId, op: Op)
    requires Inv(s) && t !in s.open && !op.TransferOwner? && op.member in s.members
    requires LockFree(s, s.members[op.member].household)
    ensures var begun := s.(open := s.open[t := Begun(op)]); var h := s.members[op.member].household;
      Enabled(begun, Lock(t)) && Apply(begun, Lock(t)) == s.(open := s.open[t := Locked(op, h)])
  {
    var begun := s.(open := s.open[t := Begun(op)]);
    assert begun.open[t := Locked(op, s.members[op.member].household)]
        == s.open[t := Locked(op, s.members[op.member].household)];
  }

  lemma CommitAlone(s: State, t: TxId, op: Op, cur: Member)
    requires t !in s.open && !op.TransferOwner?
    ensures var row := UpdateRow(s.members, op.member, Written(op, cur));
      Then(Some(s.(open := s.open[t := Guarded(op, cur.household, cur)])), Commit(t)) ==
      if row.Ok? then Some(s.(members := row.value)) else None
  {
    assert s.open[t := Guarded(op, cur.household, cur)] - {t} == s.open;
  }

  /** UpdateMemberRole alone, from the check on. */
  lemma ChangeAlone(s: State, t: TxId, id: MemberId, role: Role, isManager: bool, isAccountOwner: bool)
    requires Inv(s) && t !in s.open && id in s.members && LockFree(s, s.members[id].household)
    ensures var cur := s.members[id]; var managers := |Managers(s.members, cur.household)|;
      Alone(s, t, ChangeRole(id, role, isManager, isAccountOwner), managers) ==
      if && !role.UnknownRole? && (role == Child ==> !isManager && !isAccountOwner && cur.birthdate != None)
         && cur.status != Removed && (isAccountOwner <==> cur.isAccountOwner)
         && (cur.isManager && !isManager ==> managers >= 2)
      then Some(s.(members := s.members[id :=
        cur.(role := role, isManager := isManager, isAccountOwner := isAccountOwner)]))
      else None
  {
    var cur := s.members[id];
    var managers, op := |Managers(s.members, cur.household)|, ChangeRole(id, role, isManager, isAccountOwner);
    GuardedAlone(s, t, op, managers);
    if Present(cur) && RowAllowed(Written(op, cur)) { ChangedRow(s, id, Written(op, cur)); }
  }

  /** The one-owner index refuses exactly a second owner. */
  lemma ChangedRow(s: State, id: MemberId, m: Member)
    requires Inv(s) && id in s.members && Present(s.members[id]) && RowAllowed(m)
    requires m.household == s.members[id].household && m.status == s.members[id].status
    ensures UpdateRow(s.members, id, m).Ok? <==> !(m.isAccountOwner && !s.members[id].isAccountOwner)
  {
    var h, next := m.household, s.members[id := m];
    var owner := TheOwner(s.households, s.members, h);
    assert owner in Owners(s.members, h);
    if s.members[id].isAccountOwner {
      assert id in Owners(s.members, h);
      assert Owners(next, h) <= {id};
    } else {
      assert owner in Owners(next, h) && owner != id;
    }
  }

  /** RemoveMember alone. */
  lemma RemoveAlone(s: State, t: TxId, id: MemberId)
    requires Inv(s) && t !in s.open && id in s.members && LockFree(s, s.members[id].household)
    ensures var cur := s.members[id]; var managers := |Managers(s.members, cur.household)|;
      Alone(s, t, Remove(id), managers) ==
      if cur.status != Removed && !cur.isAccountOwner && (cur.isManager ==> managers >= 2)
      then Some(s.(members := s.members[id := cur.(status := Removed)])) else None
  {
    GuardedAlone(s, t, Remove(id), |Managers(s.members, s.members[id].household)|);
    assert RowAllowed(s.members[id]);
  }

  /** SetAccountOwner alone: afterwards the target is the one owner, and nothing but owner flags has changed. */
  lemma TransferAlone(s: State, t: TxId, h: HouseholdId, id: MemberId, managers: nat)
    requires Inv(s) && t !in s.open && LockFree(s, h)
    ensures var v := Alone(s, t, TransferOwner(h, id), managers);
      if && id in s.members && s.members[id].household == h && s.members[id].status != Removed
         && s.members[id].role != Child
      then
        && v.Some? && v.value == s.(members := v.value.members) && Owners(v.value.members, h) == {id}
        && v.value.members.Keys == s.members.Keys
        && forall k | k in s.members ::
             v.value.members[k].(isAccountOwner := false) == s.members[k].(isAccountOwner := false)
      else v == None
  {
    var op := TransferOwner(h, id);
    if Precheck(s.members, op, managers).None? {
      assert s.members[id].household in s.households;
      TransferSucceeds(s.households, s.members, h, id);
      TransferKeepsGood(s.households, s.members, h, id);
      var rows := Owners(s.members, h);
      ClearAlone(s, t, op, managers);
      forall k | k in s.members { TransferRow(s.members, rows, h, id, k); }
    }
  }

  lemma ClearAlone(s: State, t: TxId, op: Op, managers: nat)
    requires t !in s.open && op.TransferOwner? && LockFree(s, op.household) && op.household in s.households
    requires Precheck(s.members, op, managers).None?
    ensures var next := Transfer(s.members, Owners(s.members, op.household), op.household, op.member);
      Alone(s, t, op, managers) == if next.Ok? then Some(s.(members := next.value)) else None
  {
    var h := op.household;
    var begun := Apply(s, Begin(t, op, managers));
    assert Enabled(begun, Lock(t));
    var locked := Apply(begun, Lock(t));
    var cleared := Apply(locked, Clear(t));
    assert cleared == s.(open := s.open[t := Cleared(op, h, Owners(s.members, h))]);
    assert s.open[t := Cleared(op, h, Owners(s.members, h))] - {t} == s.open;
  }

  /** A household is founded exactly by a known role that is not a child's. */
  lemma CreateIff(s: State, h: HouseholdId, id: MemberId, identity: nat, role: Role, birthdate: Option<int>)
    requires h !in s.households && id !in s.members
    ensures Enabled(s, Create(h, id, identity, role, birthdate)) <==> role == Adult || role == Guardian
  {}

  /** A member is added exactly to an existing household, under an identity new to it, with a known role and status,
      never as a present second owner, and as a child only without capabilities and with a birthdate. */
  lemma AddIff(s: State, id: MemberId, m: Member)
    requires Inv(s) && id !in s.members
    ensures Enabled(s, Add(id, m)) <==>
      && m.household in s.households && !m.role.UnknownRole? && !m.status.UnknownStatus?
      && (forall k | k in s.members && s.members[k].household == m.household :: s.members[k].identity != m.identity)
      && (m.role == Child ==> !m.isManager && !m.isAccountOwner && m.birthdate != None)
      && (m.isAccountOwner ==> m.status == Removed)
  {
    var row := Defaulted(m);
    var next := s.members[id := row];
    assert IdentityIndex(s.members, row) <==>
      forall k | k in s.members && s.members[k].household == m.household :: s.members[k].identity != m.identity;
    if m.household in s.households {
      var owner := TheOwner(s.households, s.members, m.household);
      assert owner in Owners(s.members, m.household);
      assert owner in Owners(next, m.household) && owner != id;
    }
  }

  /** A transaction can be given up at any point, leaving the tables as they are. */
  lemma AbortAlways(s: State, t: TxId)
    requires t in s.open
    ensures Enabled(s, Abort(t)) && Apply(s, Abort(t)) == s.(open := s.open - {t})
  {}
}
