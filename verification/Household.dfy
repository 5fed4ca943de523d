/** Household members: the service's checks, the SQL statements with the table's constraints, the invariant. */
module Household {
  import opened Options
  import opened Sets

  type HouseholdId = nat
  type MemberId = nat

  datatype Role = Guardian | Adult | Child | UnknownRole(name: string)
  datatype Status = Pending | Active | Removed | Unset | UnknownStatus(name: string)

  datatype Member = Member(
    household: HouseholdId,
    identity: nat,
    role: Role,
    status: Status,
    isManager: bool,
    isAccountOwner: bool,
    birthdate: Option<int>)

  type Members = map<MemberId, Member>

  datatype Error =
    | InvalidRole | InvalidStatus | ChildBirthdateRequired | ChildCannotHoldCapability | AccountOwnerMustBeAdult
    | LastManager | CannotRemoveAccountOwner | NotFound | AccountOwnerExists | ConstraintViolation

  predicate Present(m: Member) { m.status != Removed }

  // ---------------------------------------------------------------- service checks

  function Check(ok: bool, error: Error): Option<Error> { if ok then None else Some(error) }

  /** validateCapabilities. */
  function ValidateCapabilities(role: Role, isManager: bool, isAccountOwner: bool): Option<Error> {
    if role.Child? && (isManager || isAccountOwner) then Some(ChildCannotHoldCapability)
    else if isAccountOwner && role.Child? then Some(AccountOwnerMustBeAdult)
    else None
  }

  /** What AddMember checks before the insert. */
  function PrecheckAdd(m: Member): Option<Error> {
    if m.role.UnknownRole? then Some(InvalidRole)
    else if m.role.Child? && m.birthdate.None? then Some(ChildBirthdateRequired)
    else if m.status.UnknownStatus? then Some(InvalidStatus)
    else ValidateCapabilities(m.role, m.isManager, m.isAccountOwner)
  }

  /** The first member of a new household: active, manager and account owner. */
  function Founder(h: HouseholdId, identity: nat, role: Role, birthdate: Option<int>): Member {
    Member(h, identity, role, Active, true, true, birthdate)
  }

  /** An unset status becomes active. */
  function Defaulted(m: Member): Member { if m.status.Unset? then m.(status := Active) else m }

  datatype Op =
    | ChangeRole(member: MemberId, role: Role, isManager: bool, isAccountOwner: bool)
    | Remove(member: MemberId)
    | TransferOwner(household: HouseholdId, member: MemberId)

  /** What the service checks, without holding any lock, before it calls the store; `managers` is the count
      it read for the member's household. */
  function Precheck(members: Members, op: Op, managers: nat): Option<Error> {
    match op
    case ChangeRole(id, role, isManager, isAccountOwner) =>
      if role.UnknownRole? then Some(InvalidRole)
      else if ValidateCapabilities(role, isManager, isAccountOwner).Some? then
        ValidateCapabilities(role, isManager, isAccountOwner)
      else if id !in members || members[id].status == Removed then Some(NotFound)
      else
        var cur := members[id];
        if role.Child? && cur.birthdate.None? then Some(ChildBirthdateRequired)
        else if cur.isAccountOwner && !isAccountOwner then Some(CannotRemoveAccountOwner)
        else Check(!(cur.isManager && !isManager && managers <= 1), LastManager)
    case Remove(id) =>
      if id !in members then Some(NotFound)
      else
        var m := members[id];
        if m.isAccountOwner then Some(CannotRemoveAccountOwner)
        else Check(!(m.isManager && managers <= 1), LastManager)
    case TransferOwner(h, id) =>
      if id !in members || members[id].household != h || members[id].status == Removed then Some(NotFound)
      else Check(!members[id].role.Child?, AccountOwnerMustBeAdult)
  }

  // ---------------------------------------------------------------- statements

  /** countHouseholdManagers counts these. */
  function Managers(members: Members, h: HouseholdId): set<MemberId> {
    set id | id in members && members[id].household == h && members[id].isManager && Present(members[id])
  }

  function Owners(members: Members, h: HouseholdId): set<MemberId> {
    set id | id in members && members[id].household == h && members[id].isAccountOwner && Present(members[id])
  }

  /** Removed rows are the only ones not counted: a pending member counts. */
  lemma CountedIff(members: Members, h: HouseholdId, id: MemberId)
    ensures id in Managers(members, h) <==>
      id in members && members[id].household == h && members[id].isManager && members[id].status != Removed
    ensures id in Owners(members, h) <==>
      id in members && members[id].household == h && members[id].isAccountOwner && members[id].status != Removed
  {}

  /** The row CHECKs: a known role, and no capability on a child. */
  predicate RowAllowed(m: Member) { !m.role.UnknownRole? && !(m.role.Child? && (m.isManager || m.isAccountOwner)) }

  /** The partial unique index: at most one present account owner per household. */
  predicate OneOwnerIndex(members: Members, id: MemberId)
    requires id in members
  {
    members[id].isAccountOwner && Present(members[id]) ==> Owners(members, members[id].household) <= {id}
  }

  /** UNIQUE (household, identity), over removed rows too. */
  predicate IdentityIndex(members: Members, m: Member) {
    forall id | id in members :: !(members[id].household == m.household && members[id].identity == m.identity)
  }

  /** addHouseholdMember: foreign key, checks and unique indexes. */
  function InsertMember(households: set<HouseholdId>, members: Members, id: MemberId, m: Member)
    : Result<Members, Error>
  {
    var next := members[id := m];
    if m.household !in households || !RowAllowed(m) || !IdentityIndex(members, m) then Err(ConstraintViolation)
    else if !OneOwnerIndex(next, id) then Err(AccountOwnerExists)
    else Ok(next)
  }

  /** updateHouseholdMemberRole. */
  function UpdateRow(members: Members, id: MemberId, m: Member): Result<Members, Error> {
    var next := members[id := m];
    if !RowAllowed(m) then Err(ConstraintViolation)
    else if !OneOwnerIndex(next, id) then Err(AccountOwnerExists)
    else Ok(next)
  }

  /** clearHouseholdAccountOwner, on the rows its WHERE clause selected. */
  function ClearOwners(members: Members, rows: set<MemberId>): Members {
    map id | id in members :: if id in rows then members[id].(isAccountOwner := false) else members[id]
  }

  /** setHouseholdAccountOwner; no matching row is ErrNotFound. */
  function SetOwner(members: Members, h: HouseholdId, id: MemberId): Result<Members, Error> {
    if id !in members || members[id].household != h || !Present(members[id]) then Err(NotFound)
    else UpdateRow(members, id, members[id].(isAccountOwner := true))
  }

  /** guardMutation: the store's re-check under the household lock. */
  function Guard(cur: Member, stripsOwner: bool, stripsManager: bool, managers: nat): Option<Error> {
    if cur.status == Removed then Some(NotFound)
    else if stripsOwner && cur.isAccountOwner then Some(CannotRemoveAccountOwner)
    else Check(!(stripsManager && cur.isManager && managers <= 1), LastManager)
  }

  function GuardOp(op: Op, cur: Member, managers: nat): Option<Error>
    requires !op.TransferOwner?
  {
    if op.Remove? then Guard(cur, true, true, managers) else Guard(cur, !op.isAccountOwner, !op.isManager, managers)
  }

  /** The write of a guarded operation on the row read under the lock. */
  function Written(op: Op, cur: Member): Member
    requires !op.TransferOwner?
  {
    if op.Remove? then cur.(status := Removed)
    else cur.(role := op.role, isManager := op.isManager, isAccountOwner := op.isAccountOwner)
  }

  /** The household's account-owner transfer: demote the rows found, then promote. */
  function Transfer(members: Members, rows: set<MemberId>, h: HouseholdId, id: MemberId): Result<Members, Error> {
    SetOwner(ClearOwners(members, rows), h, id)
  }

  // ---------------------------------------------------------------- the invariant

  /** Exactly one present account owner, at least one present manager. */
  ghost predicate HouseholdOk(members: Members, h: HouseholdId) {
    |Owners(members, h)| == 1 && |Managers(members, h)| >= 1
  }

  /** The invariant of every committed state. */
  ghost predicate Good(households: set<HouseholdId>, members: Members) {
    && (forall h | h in households :: HouseholdOk(members, h))
    && (forall id | id in members :: members[id].household in households && RowAllowed(members[id]))
  }

  lemma SingletonOwner(members: Members, h: HouseholdId, id: MemberId)
    requires |Owners(members, h)| == 1 && id in Owners(members, h)
    ensures Owners(members, h) == {id}
  {
    var rest := Owners(members, h) - {id};
    assert |rest| == 0;
  }

  /** Two owners are the same member, and the owner is present and never a child. */
  lemma TheOwner(households: set<HouseholdId>, members: Members, h: HouseholdId) returns (owner: MemberId)
    requires Good(households, members) && h in households
    ensures Owners(members, h) == {owner}
    ensures owner in members && Present(members[owner]) && !members[owner].role.Child? && members[owner].isAccountOwner
    ensures exists manager | manager in members ::
      members[manager].household == h && members[manager].isManager && Present(members[manager])
  {
    assert HouseholdOk(members, h);
    owner :| owner in Owners(members, h);
    SingletonOwner(members, h, owner);
    var manager :| manager in Managers(members, h);
  }

  lemma CreateKeepsGood(households: set<HouseholdId>, members: Members, h: HouseholdId, id: MemberId, m: Member)
    requires Good(households, members) && h !in households && id !in members
    requires m.household == h && m.isManager && m.isAccountOwner && Present(m) && RowAllowed(m)
    ensures Good(households + {h}, members[id := m])
  {
    var next := members[id := m];
    assert Owners(next, h) == {id} && Managers(next, h) == {id};
    forall k | k in households ensures HouseholdOk(next, k) {
      assert HouseholdOk(members, k);
      assert Owners(next, k) == Owners(members, k) && Managers(next, k) == Managers(members, k);
    }
  }

  lemma InsertKeepsGood(households: set<HouseholdId>, members: Members, id: MemberId, m: Member)
    requires Good(households, members) && id !in members && InsertMember(households, members, id, m).Ok?
    ensures Good(households, members[id := m])
  {
    var next := members[id := m];
    forall h | h in households ensures HouseholdOk(next, h) {
      assert HouseholdOk(members, h);
      assert Managers(members, h) <= Managers(next, h);
      SubsetSize(Managers(members, h), Managers(next, h));
      assert Owners(members, h) <= Owners(next, h);
      assert id !in Owners(members, h);
      assert Owners(members, h) != {};
      assert Owners(next, h) == Owners(members, h);
    }
  }

  /** A guarded write by a transaction that read the row, and a manager count no larger than the present
      one, keeps the invariant. */
  lemma GuardedWriteKeepsGood(households: set<HouseholdId>, members: Members, op: Op, managers: nat)
    requires Good(households, members) && !op.TransferOwner? && op.member in members
    requires managers <= |Managers(members, members[op.member].household)|
    requires GuardOp(op, members[op.member], managers).None?
    requires UpdateRow(members, op.member, Written(op, members[op.member])).Ok?
    ensures Good(households, members[op.member := Written(op, members[op.member])])
  {
    var id, cur := op.member, members[op.member];
    var h := cur.household;
    var next := members[id := Written(op, cur)];
    forall k | k in households ensures HouseholdOk(next, k) {
      assert HouseholdOk(members, k);
      if k != h {
        assert Owners(next, k) == Owners(members, k) && Managers(next, k) == Managers(members, k);
      } else {
        OwnersStay(households, members, op);
        ManagersStay(households, members, op, managers);
      }
    }
  }

  lemma OwnersStay(households: set<HouseholdId>, members: Members, op: Op)
    requires Good(households, members) && !op.TransferOwner? && op.member in members && Present(members[op.member])
    requires members[op.member].isAccountOwner ==> op.ChangeRole? && op.isAccountOwner
    requires UpdateRow(members, op.member, Written(op, members[op.member])).Ok?
    ensures var h := members[op.member].household;
      Owners(members[op.member := Written(op, members[op.member])], h) == Owners(members, h)
  {
    var id, cur := op.member, members[op.member];
    var next := members[id := Written(op, cur)];
    var owner := TheOwner(households, members, cur.household);
    assert forall k | k in members && k != id :: next[k] == members[k];
    if id != owner { assert owner in Owners(next, cur.household); }
  }

  lemma ManagersStay(households: set<HouseholdId>, members: Members, op: Op, managers: nat)
    requires Good(households, members) && !op.TransferOwner? && op.member in members
    requires managers <= |Managers(members, members[op.member].household)|
    requires GuardOp(op, members[op.member], managers).None?
    ensures |Managers(members[op.member := Written(op, members[op.member])], members[op.member].household)| >= 1
  {
    var id, cur := op.member, members[op.member];
    var h := cur.household;
    var next := members[id := Written(op, cur)];
    assert HouseholdOk(members, h);
    assert Managers(members, h) - {id} <= Managers(next, h);
    if cur.isManager && (op.Remove? || !op.isManager) {
      assert |Managers(members, h) - {id}| >= 1;
      SubsetSize(Managers(members, h) - {id}, Managers(next, h));
    } else {
      assert Managers(members, h) <= Managers(next, h);
      SubsetSize(Managers(members, h), Managers(next, h));
    }
  }

  /** The re-check is exact: it refuses precisely the writes that would break the invariant. */
  lemma GuardIsExact(households: set<HouseholdId>, members: Members, op: Op)
    requires Good(households, members) && !op.TransferOwner? && op.member in members && Present(members[op.member])
    requires UpdateRow(members, op.member, Written(op, members[op.member])).Ok?
    ensures var cur := members[op.member];
      GuardOp(op, cur, |Managers(members, cur.household)|).None?
      <==> Good(households, members[op.member := Written(op, cur)])
  {
    var id, cur := op.member, members[op.member];
    var h := cur.household;
    var next := members[id := Written(op, cur)];
    if GuardOp(op, cur, |Managers(members, h)|).None? {
      GuardedWriteKeepsGood(households, members, op, |Managers(members, h)|);
    } else if cur.isAccountOwner && (op.Remove? || !op.isAccountOwner) {
      assert HouseholdOk(members, h) && id in Owners(members, h);
      SingletonOwner(members, h, id);
      assert Owners(next, h) == {};
      assert !HouseholdOk(next, h);
    } else {
      assert id in Managers(members, h);
      assert |Managers(members, h) - {id}| == 0;
      assert Managers(next, h) == {};
      assert !HouseholdOk(next, h);
    }
  }

  /** A transfer touches only the owner flag: it is cleared on the rows given and set on the target. */
  lemma TransferRow(members: Members, rows: set<MemberId>, h: HouseholdId, id: MemberId, k: MemberId)
    requires Transfer(members, rows, h, id).Ok? && k in members
    ensures k in Transfer(members, rows, h, id).value && id in members && members[id].household == h
    ensures Present(members[id])
    ensures Transfer(members, rows, h, id).value[k]
         == members[k].(isAccountOwner := k == id || (k !in rows && members[k].isAccountOwner))
    ensures Transfer(members, rows, h, id).value.Keys == members.Keys
    ensures !members[id].role.Child?
  {
    assert ClearOwners(members, rows).Keys == members.Keys;
    assert k in ClearOwners(members, rows);
  }

  lemma TransferKeepsGood(households: set<HouseholdId>, members: Members, h: HouseholdId, id: MemberId)
    requires Good(households, members) && Transfer(members, Owners(members, h), h, id).Ok?
    ensures Good(households, Transfer(members, Owners(members, h), h, id).value)
    ensures Owners(Transfer(members, Owners(members, h), h, id).value, h) == {id}
  {
    var next := Transfer(members, Owners(members, h), h, id).value;
    TransferRow(members, Owners(members, h), h, id, id);
    AfterTransfer(households, members, next, h, id) by {
      forall k | k in members
        ensures next[k]
             == members[k].(isAccountOwner := k == id || (k !in Owners(members, h) && members[k].isAccountOwner))
      {
        TransferRow(members, Owners(members, h), h, id, k);
      }
    }
  }

  lemma AfterTransfer(households: set<HouseholdId>, members: Members, next: Members, h: HouseholdId, id: MemberId)
    requires Good(households, members) && Transferred(members, next, h, id) && !members[id].role.Child?
    ensures Good(households, next) && Owners(next, h) == {id}
  {
    OneOwnerAfter(members, next, h, id);
    forall k | k in households ensures HouseholdOk(next, k) {
      assert HouseholdOk(members, k);
      SameCountsAfter(members, next, h, id, k);
    }
    forall k | k in next ensures next[k].household in households && RowAllowed(next[k]) {
      assert members[k].household in households && RowAllowed(members[k]);
    }
  }

  /** The rows after a transfer of household h to member id. */
  ghost predicate Transferred(members: Members, next: Members, h: HouseholdId, id: MemberId) {
    && next.Keys == members.Keys
    && id in members && members[id].household == h && Present(members[id])
    && forall k | k in members ::
         next[k] == members[k].(isAccountOwner := k == id || (k !in Owners(members, h) && members[k].isAccountOwner))
  }

  lemma OneOwnerAfter(members: Members, next: Members, h: HouseholdId, id: MemberId)
    requires Transferred(members, next, h, id)
    ensures Owners(next, h) == {id}
  {}

  lemma SameCountsAfter(members: Members, next: Members, h: HouseholdId, id: MemberId, k: HouseholdId)
    requires Transferred(members, next, h, id)
    ensures Managers(next, k) == Managers(members, k)
    ensures k != h ==> Owners(next, k) == Owners(members, k)
  {}
}
