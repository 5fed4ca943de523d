/** Why the household lock is needed: the same protocol without its exclusion loses the last manager. */
module HouseholdRace {
  import opened Options
  import opened Household
  import opened HouseholdTransactions

  /** The step relation with the lock taken whether or not another transaction holds it. */
  predicate UnlockedEnabled(s: State, a: Step) {
    if a.Lock? then
      && a.t in s.open && s.open[a.t].Begun?
      && Home(s.members, s.open[a.t].op).Some? && Home(s.members, s.open[a.t].op).value in s.households
    else Enabled(s, a)
  }

  function UnlockedApply(s: State, a: Step): State
    requires UnlockedEnabled(s, a)
  {
    if a.Lock? then s.(open := s.open[a.t := Locked(s.open[a.t].op, Home(s.members, s.open[a.t].op).value)])
    else Apply(s, a)
  }

  ghost predicate Goes(s: State, a: Step, t: State) { UnlockedEnabled(s, a) && t == UnlockedApply(s, a) }

  ghost predicate UnlockedRun(states: seq<State>, steps: seq<Step>) {
    && |states| == |steps| + 1
    && states[0] == Initial()
    && forall i: nat | i < |steps| :: Goes(states[i], steps[i], states[i + 1])
  }

  ghost predicate EndsIn(states: seq<State>, steps: seq<Step>, t: State) {
    UnlockedRun(states, steps) && states[|states| - 1] == t
  }

  ghost predicate Reached(t: State) { exists states, steps :: EndsIn(states, steps, t) }

  lemma StartIsReached()
    ensures Reached(Initial())
  {
    assert EndsIn([Initial()], [], Initial());
  }

  lemma Then(s: State, a: Step, t: State)
    requires Reached(s) && Goes(s, a, t)
    ensures Reached(t)
  {
    var states, steps :| EndsIn(states, steps, s);
    assert EndsIn(states + [t], steps + [a], t);
  }

  // Household 0 with its owner 0, a manager, and a second manager 1.

  function Owner(): Member { Founder(0, 10, Guardian, None) }

  function Second(): Member { Member(0, 11, Adult, Active, true, false, None) }

  function Two(open: map<TxId, Tx>): State { State({0}, map[0 := Owner(), 1 := Second()], open) }

  function Leave(): Op { Remove(1) }

  function StepDown(): Op { ChangeRole(0, Guardian, false, true) }

  lemma TwoManagers()
    ensures Managers(Two(map[]).members, 0) == {0, 1} && Owners(Two(map[]).members, 0) == {0}
  {}

  lemma Founding()
    ensures Reached(Two(map[]))
  {
    var one := State({0}, map[0 := Owner()], map[]);
    StartIsReached();
    assert Goes(Initial(), Create(0, 0, 10, Guardian, None), one);
    Then(Initial(), Create(0, 0, 10, Guardian, None), one);
    assert one.members[1 := Second()] == Two(map[]).members;
    assert Goes(one, Add(1, Second()), Two(map[]));
    Then(one, Add(1, Second()), Two(map[]));
  }

  lemma Beginning(begun: State)
    requires begun == Two(map[1 := Begun(Leave()), 2 := Begun(StepDown())])
    ensures Reached(begun)
  {
    Founding();
    var first := Two(map[1 := Begun(Leave())]);
    assert Goes(Two(map[]), Begin(1, Leave(), 2), first);
    Then(Two(map[]), Begin(1, Leave(), 2), first);
    assert Goes(first, Begin(2, StepDown(), 2), begun);
    Then(first, Begin(2, StepDown(), 2), begun);
  }

  /** Both take the lock, and both read. */
  lemma Reading(held: State)
    requires held == Two(map[1 := Held(Leave(), 0, Second()), 2 := Held(StepDown(), 0, Owner())])
    ensures Reached(held)
  {
    var begun := Two(map[1 := Begun(Leave()), 2 := Begun(StepDown())]);
    Beginning(begun);
    var a := Two(map[1 := Locked(Leave(), 0), 2 := Begun(StepDown())]);
    var b := Two(map[1 := Locked(Leave(), 0), 2 := Locked(StepDown(), 0)]);
    var c := Two(map[1 := Held(Leave(), 0, Second()), 2 := Locked(StepDown(), 0)]);
    assert Goes(begun, Lock(1), a);
    Then(begun, Lock(1), a);
    assert Goes(a, Lock(2), b);
    Then(a, Lock(2), b);
    assert Goes(b, Read(1), c);
    Then(b, Read(1), c);
    assert Goes(c, Read(2), held);
    Then(c, Read(2), held);
  }

  /** Both count two managers. */
  lemma Rechecking(guarded: State)
    requires guarded == Two(map[1 := Guarded(Leave(), 0, Second()), 2 := Guarded(StepDown(), 0, Owner())])
    ensures Reached(guarded)
  {
    var held := Two(map[1 := Held(Leave(), 0, Second()), 2 := Held(StepDown(), 0, Owner())]);
    Reading(held);
    TwoManagers();
    var a := Two(map[1 := Guarded(Leave(), 0, Second()), 2 := Held(StepDown(), 0, Owner())]);
    assert Goes(held, Recheck(1), a);
    Then(held, Recheck(1), a);
    assert Goes(a, Recheck(2), guarded);
    Then(a, Recheck(2), guarded);
  }

  /** One manager leaves while the other steps down: each saw two, and none is left. */
  lemma WithoutTheLock() returns (t: State)
    ensures Reached(t) && 0 in t.households && Managers(t.members, 0) == {}
  {
    var guarded := Two(map[1 := Guarded(Leave(), 0, Second()), 2 := Guarded(StepDown(), 0, Owner())]);
    Rechecking(guarded);
    TwoManagers();
    var left := State({0}, map[0 := Owner(), 1 := Second().(status := Removed)],
                      map[2 := Guarded(StepDown(), 0, Owner())]);
    FirstCommits(guarded, left);
    Then(guarded, Commit(1), left);
    t := State({0}, map[0 := Owner().(isManager := false), 1 := Second().(status := Removed)], map[]);
    SecondCommits(left, t);
    Then(left, Commit(2), t);
  }

  lemma FirstCommits(guarded: State, left: State)
    requires guarded == Two(map[1 := Guarded(Leave(), 0, Second()), 2 := Guarded(StepDown(), 0, Owner())])
    requires left.households == {0} && left.members == map[0 := Owner(), 1 := Second().(status := Removed)]
    requires left.open == map[2 := Guarded(StepDown(), 0, Owner())]
    ensures Goes(guarded, Commit(1), left)
  {
    assert guarded.open - {1} == left.open;
    assert guarded.members[1 := Second().(status := Removed)] == left.members;
  }

  lemma SecondCommits(left: State, t: State)
    requires left.households == t.households == {0} && t.open == map[]
    requires left.members == map[0 := Owner(), 1 := Second().(status := Removed)]
    requires left.open == map[2 := Guarded(StepDown(), 0, Owner())]
    requires t.members == map[0 := Owner().(isManager := false), 1 := Second().(status := Removed)]
    ensures Goes(left, Commit(2), t)
  {
    assert left.open - {2} == t.open;
    assert left.members[0 := Owner().(isManager := false)] == t.members;
    assert Owners(t.members, 0) == {0};
  }
}
