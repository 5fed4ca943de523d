/** The household service over its store, one call at a time; ids are assigned by the database. */
module HouseholdService {
  import opened Options
  import opened Household

  class Service {
    var households: set<HouseholdId>
    var members: Members

    ghost predicate Valid() reads this { Good(households, members) }

    constructor ()
      ensures Valid() && households == {} && members == map[]
    {
      households, members := {}, map[];
    }

    method CreateHouseholdWithOwner(h: HouseholdId, id: MemberId, identity: nat, role: Role, birthdate: Option<int>)
        returns (r: Result<Member, Error>)
      requires Valid() && h !in households && id !in members
      modifies this
      ensures Valid()
      ensures r.Ok? <==> role.Guardian? || role.Adult?
      ensures r.Ok? ==> households == old(households) + {h} && members == old(members)[id := r.value]
      ensures r.Ok? ==> Owners(members, h) == {id} && Managers(members, h) == {id}
      ensures r.Ok? ==> r.value == Member(h, identity, role, Active, true, true, birthdate)
      ensures r.Err? ==> households == old(households) && members == old(members)
      ensures r.Err? ==> r.error == if role.Child? then ChildCannotHoldCapability else InvalidRole
    {
      if role.UnknownRole? { return Err(InvalidRole); }
      var problem := ValidateCapabilities(role, true, true);
      if problem.Some? { return Err(problem.value); }
      var owner := Founder(h, identity, role, birthdate);
      CreateKeepsGood(households, members, h, id, owner);
      households, members := households + {h}, members[id := owner];
      r := Ok(owner);
    }

    method AddMember(id: MemberId, m: Member) returns (r: Result<Member, Error>)
      requires Valid() && id !in members
      modifies this`members
      ensures Valid()
      ensures r.Ok? ==> members == old(members)[id := r.value]
      ensures r.Ok? ==> r.value == m.(status := if m.status == Unset then Active else m.status)
      ensures r.Err? ==> members == old(members)
      ensures r.Err? ==>
        r.error ==
          if m.role.UnknownRole? then InvalidRole
          else if m.role.Child? && m.birthdate.None? then ChildBirthdateRequired
          else if m.status.UnknownStatus? then InvalidStatus
          else if m.role.Child? && (m.isManager || m.isAccountOwner) then ChildCannotHoldCapability
          else if m.household in households
            && (forall k | k in old(members) && old(members)[k].household == m.household ::
                  old(members)[k].identity != m.identity) then AccountOwnerExists
          else ConstraintViolation
      // A household in the invariant always has its owner, so no present owner can be added.
      ensures r.Ok? <==>
        && !m.role.UnknownRole? && !m.status.UnknownStatus? && m.household in households
        && (m.role.Child? ==> m.birthdate.Some? && !m.isManager && !m.isAccountOwner)
        && !(m.isAccountOwner && m.status != Removed)
        && (forall k | k in old(members) && old(members)[k].household == m.household ::
              old(members)[k].identity != m.identity)
    {
      var problem := PrecheckAdd(m);
      if problem.Some? { return Err(problem.value); }
      var row := Defaulted(m);
      var inserted := InsertMember(households, members, id, row);
      if row.household in households { OwnerInsertConflicts(households, members, id, row); }
      if inserted.Err? { return Err(inserted.error); }
      InsertKeepsGood(households, members, id, row);
      members := inserted.value;
      r := Ok(row);
    }

    /** The store's transaction for a role change or a removal: lock, read, re-check, write, commit. */
    method Mutate(op: Op) returns (r: Option<Error>)
      requires Valid() && !op.TransferOwner?
      modifies this`members
      ensures Valid()
      ensures r.Some? ==> members == old(members)
      ensures r.None? <==>
        && op.member in old(members)
        && GuardOp(op, old(members)[op.member], |Managers(old(members), old(members)[op.member].household)|).None?
        && UpdateRow(old(members), op.member, Written(op, old(members)[op.member])).Ok?
      ensures r.None? ==> members == old(members)[op.member := Written(op, old(members)[op.member])]
      ensures r.Some? && op.member in old(members) ==>
        var cur := old(members)[op.member];
        var guarded := GuardOp(op, cur, |Managers(old(members), cur.household)|);
        if guarded.Some? then r == guarded
        else UpdateRow(old(members), op.member, Written(op, cur)) == Err(r.value)
    {
      if op.member !in members { return Some(NotFound); }
      var cur := members[op.member];
      var count := |Managers(members, cur.household)|;
      var problem := GuardOp(op, cur, count);
      if problem.Some? { return problem; }
      var next := UpdateRow(members, op.member, Written(op, cur));
      if next.Err? { return Some(next.error); }
      GuardedWriteKeepsGood(households, members, op, count);
      members := next.value;
      r := None;
    }

    method UpdateMemberRole(id: MemberId, role: Role, isManager: bool, isAccountOwner: bool) returns (r: Option<Error>)
      requires Valid()
      modifies this`members
      ensures Valid()
      ensures r.Some? ==> members == old(members)
      ensures r.None? ==> id in old(members) && members == old(members)[id :=
        old(members)[id].(role := role, isManager := isManager, isAccountOwner := isAccountOwner)]
      // Ownership neither leaves nor arrives here; the last manager stays one.
      ensures r.None? <==>
        && id in old(members) && old(members)[id].status != Removed && !role.UnknownRole?
        && (role.Child? ==> old(members)[id].birthdate.Some? && !isManager && !isAccountOwner)
        && isAccountOwner == old(members)[id].isAccountOwner
        && (old(members)[id].isManager && !isManager ==> |Managers(old(members), old(members)[id].household)| >= 2)
      // Which refusal it is, in the order of the checks.
      ensures r.Some? ==>
        r.value ==
          if role.UnknownRole? then InvalidRole
          else if role.Child? && (isManager || isAccountOwner) then ChildCannotHoldCapability
          else if id !in old(members) || old(members)[id].status == Removed then NotFound
          else if role.Child? && old(members)[id].birthdate.None? then ChildBirthdateRequired
          else if old(members)[id].isAccountOwner && !isAccountOwner then CannotRemoveAccountOwner
          else if old(members)[id].isManager && !isManager && |Managers(old(members), old(members)[id].household)| <= 1
          then LastManager
          else AccountOwnerExists
    {
      var op := ChangeRole(id, role, isManager, isAccountOwner);
      var count := if id in members then |Managers(members, members[id].household)| else 0;
      var problem := Precheck(members, op, count);
      if problem.Some? { return problem; }
      OwnerUpdateConflicts(households, members, op);
      r := Mutate(op);
    }

    method RemoveMember(id: MemberId) returns (r: Option<Error>)
      requires Valid()
      modifies this`members
      ensures Valid()
      ensures r.Some? ==> members == old(members)
      ensures r.None? ==> id in old(members) && members == old(members)[id := old(members)[id].(status := Removed)]
      ensures r.None? <==>
        && id in old(members) && old(members)[id].status != Removed && !old(members)[id].isAccountOwner
        && (old(members)[id].isManager ==> |Managers(old(members), old(members)[id].household)| >= 2)
      ensures r.Some? ==>
        r.value ==
          if id !in old(members) then NotFound
          else if old(members)[id].isAccountOwner then CannotRemoveAccountOwner
          else if
            && old(members)[id].isManager
            && |Managers(old(members), old(members)[id].household)| <= 1 then LastManager
          else NotFound
    {
      var count := if id in members then |Managers(members, members[id].household)| else 0;
      var problem := Precheck(members, Remove(id), count);
      if problem.Some? { return problem; }
      r := Mutate(Remove(id));
    }

    method SetAccountOwner(h: HouseholdId, id: MemberId) returns (r: Option<Error>)
      requires Valid()
      modifies this`members
      ensures Valid()
      ensures r.Some? ==> members == old(members)
      ensures r.None? <==>
        && id in old(members) && old(members)[id].household == h && old(members)[id].status != Removed
        && !old(members)[id].role.Child?
      ensures r.Some? ==>
        r.value ==
          if id in old(members) && old(members)[id].household == h && old(members)[id].status != Removed
          then AccountOwnerMustBeAdult else NotFound
      ensures r.None? ==> Owners(members, h) == {id} && members.Keys == old(members).Keys
      ensures r.None? ==> forall k | k in members ::
        members[k] == old(members)[k].(isAccountOwner :=
          (k == id || (k !in Owners(old(members), h) && old(members)[k].isAccountOwner)))
    {
      var problem := Precheck(members, TransferOwner(h, id), 0);
      if problem.Some? { return problem; }
      members := TransferOwnership(households, members, h, id);
      r := None;
    }
  }

  /** The store's transaction: lock, demote whoever owns, promote, commit. */
  method TransferOwnership(households: set<HouseholdId>, members: Members, h: HouseholdId, id: MemberId)
      returns (next: Members)
    requires Good(households, members)
    requires id in members && members[id].household == h && Present(members[id]) && !members[id].role.Child?
    ensures Good(households, next) && Owners(next, h) == {id} && next.Keys == members.Keys
    ensures forall k | k in next ::
      next[k] == members[k].(isAccountOwner := (k == id || (k !in Owners(members, h) && members[k].isAccountOwner)))
  {
    TransferSucceeds(households, members, h, id);
    TransferKeepsGood(households, members, h, id);
    TransferRows(members, Owners(members, h), h, id);
    var done := Transfer(members, Owners(members, h), h, id);
    next := done.value;
  }

  lemma TransferRows(members: Members, rows: set<MemberId>, h: HouseholdId, id: MemberId)
    requires Transfer(members, rows, h, id).Ok?
    ensures var next := Transfer(members, rows, h, id).value;
      next.Keys == members.Keys && forall k | k in next ::
        next[k] == members[k].(isAccountOwner := (k == id || (k !in rows && members[k].isAccountOwner)))
  {
    assert id in ClearOwners(members, rows);
    TransferRow(members, rows, h, id, id);
    var next := Transfer(members, rows, h, id).value;
    forall k | k in members
      ensures next[k] == members[k].(isAccountOwner := (k == id || (k !in rows && members[k].isAccountOwner)))
    {
      TransferRow(members, rows, h, id, k);
    }
  }

  lemma OwnerInsertConflicts(households: set<HouseholdId>, members: Members, id: MemberId, m: Member)
    requires Good(households, members) && id !in members && m.household in households
    ensures OneOwnerIndex(members[id := m], id) <==> !(m.isAccountOwner && Present(m))
  {
    assert HouseholdOk(members, m.household);
    var owner :| owner in Owners(members, m.household);
    assert owner in Owners(members[id := m], m.household);
  }

  lemma OwnerUpdateConflicts(households: set<HouseholdId>, members: Members, op: Op)
    requires Good(households, members) && op.ChangeRole? && op.member in members && Present(members[op.member])
    ensures OneOwnerIndex(members[op.member := Written(op, members[op.member])], op.member)
      <==> (op.isAccountOwner ==> members[op.member].isAccountOwner)
  {
    var id, cur := op.member, members[op.member];
    var next := members[id := Written(op, cur)];
    var owner := TheOwner(households, members, cur.household);
    assert owner in Owners(members, cur.household);
    assert cur.isAccountOwner ==> id in Owners(members, cur.household);
    if owner != id { assert owner in Owners(next, cur.household); }
  }

  /** After the demotion the promotion cannot collide. */
  lemma TransferSucceeds(households: set<HouseholdId>, members: Members, h: HouseholdId, id: MemberId)
    requires Good(households, members) && id in members && members[id].household == h && Present(members[id])
    requires !members[id].role.Child?
    ensures Transfer(members, Owners(members, h), h, id).Ok?
  {
    var cleared := ClearOwners(members, Owners(members, h));
    assert id in cleared && cleared[id].household == h;
    var next := cleared[id := cleared[id].(isAccountOwner := true)];
    assert forall k | k in members :: !(cleared[k].household == h && cleared[k].isAccountOwner && Present(cleared[k]));
  }
}
