/** What each household step does to the member rows, column by column, and how statuses move over runs. */
module HouseholdStatus {
  import opened Options
  import opened Household
  import opened HouseholdTransactions

  /** A new row: the founder is active, manager and owner; an added member keeps what was asked for, active if no
      status was given. Nothing else changes. */
  lemma NewRowEffect(s: State, a: Step)
    requires Enabled(s, a) && (a.Create? || a.Add?)
    ensures a.Create? ==>
      && Apply(s, a).households == s.households + {a.h}
      && Apply(s, a).members == s.members[a.id := Member(a.h, a.identity, a.role, Active, true, true, a.birthdate)]
    ensures a.Add? ==>
      && Apply(s, a).households == s.households
      && Apply(s, a).members == s.members[a.id := a.m.(status := if a.m.status == Unset then Active else a.m.status)]
    ensures a.id !in s.members && Apply(s, a).open == s.open
  {}

  /** A guarded commit writes exactly what was asked for on exactly one row. */
  lemma CommitEffect(s: State, t: TxId)
    requires Inv(s) && Enabled(s, Commit(t)) && s.open[t].Guarded?
    ensures var op := s.open[t].op;
      && op.member in s.members && !op.TransferOwner?
      && Apply(s, Commit(t)).households == s.households && Apply(s, Commit(t)).open == s.open - {t}
      && Apply(s, Commit(t)).members == s.members[op.member :=
           if op.Remove? then s.members[op.member].(status := Removed)
           else s.members[op.member].(role := op.role, isManager := op.isManager, isAccountOwner := op.isAccountOwner)]
  {
    assert TxOk(s.households, s.members, s.open[t]);
  }

  /** A transfer commit moves the owner flag within one household and touches nothing else. */
  lemma TransferEffect(s: State, t: TxId, k: MemberId)
    requires Inv(s) && Enabled(s, Commit(t)) && s.open[t].Cleared? && k in s.members
    ensures var op := s.open[t].op; var next := Apply(s, Commit(t)).members;
      && op.TransferOwner? && next.Keys == s.members.Keys && op.member in s.members
      && s.members[op.member].household == op.household && s.members[op.member].status != Removed
      && next[k] == s.members[k].(isAccountOwner :=
           if k == op.member then true
           else if s.members[k].household == op.household && s.members[k].status != Removed then false
           else s.members[k].isAccountOwner)
  {
    assert TxOk(s.households, s.members, s.open[t]);
    var tx := s.open[t];
    TransferRow(s.members, tx.rows, tx.home, tx.op.member, k);
    CountedIff(s.members, tx.home, k);
  }

  /** Every other step leaves the tables alone. */
  lemma QuietEffect(s: State, a: Step)
    requires Enabled(s, a) && !a.Create? && !a.Add? && !a.Commit?
    ensures Apply(s, a).members == s.members && Apply(s, a).households == s.households
  {}

  // ---------------------------------------------------------------- statuses over runs

  predicate RealStatus(m: Member) { m.status == Pending || m.status == Active || m.status == Removed }

  /** The step commits a removal of this member. */
  predicate Removes(s: State, a: Step, id: MemberId) {
    a.Commit? && a.t in s.open && s.open[a.t].Guarded? && s.open[a.t].op == Remove(id)
  }

  lemma StatusStep(s: State, a: Step, id: MemberId)
    requires Inv(s) && Enabled(s, a) && id in s.members
    ensures var t := Apply(s, a);
      id in t.members && t.members[id].status == if Removes(s, a, id) then Removed else s.members[id].status
  {
    if a.Create? || a.Add? {
      NewRowEffect(s, a);
    } else if !a.Commit? {
      QuietEffect(s, a);
    } else if s.open[a.t].Guarded? {
      CommitEffect(s, a.t);
    } else {
      TransferEffect(s, a.t, id);
    }
  }

  lemma NewStatus(s: State, a: Step, id: MemberId)
    requires Inv(s) && Enabled(s, a) && id !in s.members && id in Apply(s, a).members
    ensures (a.Create? || a.Add?) && a.id == id && RealStatus(Apply(s, a).members[id])
  {
    if a.Create? || a.Add? {
      NewRowEffect(s, a);
    } else if !a.Commit? {
      QuietEffect(s, a);
    } else if s.open[a.t].Guarded? {
      CommitEffect(s, a.t);
    } else {
      assert TxOk(s.households, s.members, s.open[a.t]);
      assert s.open[a.t].op.member in ClearOwners(s.members, s.open[a.t].rows);
      TransferEffect(s, a.t, s.open[a.t].op.member);
    }
  }

  /** Every row of every committed state is pending, active or removed. */
  lemma {:induction false} EveryStatusIsReal(states: seq<State>, steps: seq<Step>, i: nat)
    requires Run(states, steps) && i < |states|
    ensures forall id | id in states[i].members :: RealStatus(states[i].members[id])
  {
    if i > 0 {
      EveryStatusIsReal(states, steps, i - 1);
      EveryRunIsSafe(states, steps, i - 1);
      assert Enabled(states[i - 1], steps[i - 1]) && states[i - 1 + 1] == Apply(states[i - 1], steps[i - 1]);
      forall id | id in states[i].members ensures RealStatus(states[i].members[id]) {
        if id in states[i - 1].members {
          StatusStep(states[i - 1], steps[i - 1], id);
        } else {
          NewStatus(states[i - 1], steps[i - 1], id);
        }
      }
    }
  }

  ghost predicate RemovedBetween(states: seq<State>, steps: seq<Step>, i: nat, j: nat, id: MemberId)
    requires i <= j < |states| == |steps| + 1
  {
    exists n: nat :: i <= n < j && Removes(states[n], steps[n], id)
  }

  /** Between two states of a run a member's status is what it was, or removed, and the latter exactly if a removal of
      that member committed in between. */
  lemma {:induction false} StatusMovesOnlyByRemoval(states: seq<State>, steps: seq<Step>, i: nat, j: nat, id: MemberId)
    requires Run(states, steps) && i <= j < |states| && id in states[i].members
    ensures id in states[j].members
    ensures states[j].members[id].status ==
      if RemovedBetween(states, steps, i, j, id) then Removed else states[i].members[id].status
    decreases j
  {
    if i < j {
      StatusMovesOnlyByRemoval(states, steps, i, j - 1, id);
      EveryRunIsSafe(states, steps, j - 1);
      assert Enabled(states[j - 1], steps[j - 1]) && states[j - 1 + 1] == Apply(states[j - 1], steps[j - 1]);
      StatusStep(states[j - 1], steps[j - 1], id);
      if Removes(states[j - 1], steps[j - 1], id) { assert RemovedBetween(states, steps, i, j, id); }
    }
  }

  /** A member added without a status is active until a removal of it commits. */
  lemma ActiveUntilRemoved(states: seq<State>, steps: seq<Step>, n: nat, j: nat)
    requires Run(states, steps) && n < j < |states| && steps[n].Add? && steps[n].m.status == Unset
    ensures steps[n].id in states[j].members
    ensures states[j].members[steps[n].id].status ==
      if RemovedBetween(states, steps, n + 1, j, steps[n].id) then Removed else Active
  {
    assert Enabled(states[n], steps[n]) && states[n + 1] == Apply(states[n], steps[n]);
    NewRowEffect(states[n], steps[n]);
    StatusMovesOnlyByRemoval(states, steps, n + 1, j, steps[n].id);
  }
}
