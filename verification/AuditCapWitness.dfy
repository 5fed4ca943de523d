/** The bound hardCap + N - 1 on unsent rows is exact: some run of N writers reaches it. */
module AuditCapWitness {
  import opened AuditBuffer

  /** A signed event whose jti is n characters long. */
  function Signature(n: nat): (i: Insertion)
    ensures |i.jti| == n && i.origin == Signed("jws")
  {
    Insertion(seq(n, _ => 'x'), "{}", 0, Signed("jws"))
  }

  ghost predicate Leads(c: Config, s: State, a: Action, t: State) { Enabled(c, s, a) && t == Apply(c, s, a) }

  /** A run from s to t in which every depth query succeeds. */
  ghost predicate RunsTo(c: Config, s: State, t: State) {
    exists states: seq<State>, actions: seq<Action> :: Connects(c, s, t, states, actions)
  }

  ghost predicate Connects(c: Config, s: State, t: State, states: seq<State>, actions: seq<Action>) {
    && Run(c, states, actions) && states[0] == s && states[|states| - 1] == t
    && forall m | 0 <= m < |actions| && actions[m].CheckDepth? :: actions[m].depthKnown
  }

  lemma Stay(c: Config, s: State)
    ensures RunsTo(c, s, s)
  {
    assert Connects(c, s, s, [s], []);
  }

  lemma OneMore(c: Config, s: State, t: State, a: Action, u: State)
    requires RunsTo(c, s, t) && Leads(c, t, a, u) && (a.CheckDepth? ==> a.depthKnown)
    ensures RunsTo(c, s, u)
  {
    var states, actions :| Connects(c, s, t, states, actions);
    assert Connects(c, s, u, states + [u], actions + [a]);
  }

  /** Row ids are in use below nextId only, and stored jtis have at most `longest` characters. */
  ghost predicate Room(s: State, longest: nat) {
    forall id | id in s.rows :: id < s.nextId && |s.rows[id].jti| <= longest
  }

  lemma Checks(c: Config, s: State, w: WriterId, i: Insertion, t: State)
    requires w in s.writers && s.writers[w].Ready? && Depth(s.rows) < c.hardCap
    requires t == s.(writers := s.writers[w := DepthChecked(i)])
    ensures Leads(c, s, CheckDepth(w, i, true), t)
  {
  }

  lemma Inserts(c: Config, s: State, w: WriterId, n: nat, longest: nat) returns (t: State)
    requires w in s.writers && s.writers[w] == DepthChecked(Signature(n)) && Room(s, longest) && longest < n
    ensures Leads(c, s, InsertRow(w), t) && t.writers == s.writers[w := Ready]
    ensures Depth(t.rows) == Depth(s.rows) + 1 && Room(t, n)
  {
    t := Insert(s, w);
    NewJti(s, n, longest);
    DepthPlusOne(s.rows, s.nextId, NewRow(Signature(n)));
  }

  lemma NewJti(s: State, n: nat, longest: nat)
    requires Room(s, longest) && longest < n
    ensures !HasJti(s.rows, Signature(n).jti) && Signature(n).jti != "" && s.nextId !in s.rows
  {}

  lemma DepthPlusOne(rows: map<RowId, Row>, id: RowId, row: Row)
    requires id !in rows && Unsent(row)
    ensures Depth(rows[id := row]) == Depth(rows) + 1
  {
    assert UnsentIds(rows[id := row]) == UnsentIds(rows) + {id};
  }

  /** One writer checks and inserts k times. */
  lemma Fill(c: Config, s: State, w: WriterId, longest: nat, k: nat) returns (t: State)
    requires w in s.writers && s.writers[w].Ready? && Room(s, longest) && Depth(s.rows) + k <= c.hardCap
    ensures RunsTo(c, s, t) && t.writers == s.writers
    ensures Depth(t.rows) == Depth(s.rows) + k && Room(t, longest + k)
  {
    if k == 0 {
      t := s;
      Stay(c, s);
    } else {
      var m := Fill(c, s, w, longest, k - 1);
      var i := Signature(longest + k);
      var m' := m.(writers := m.writers[w := DepthChecked(i)]);
      Checks(c, m, w, i, m');
      OneMore(c, s, m, CheckDepth(w, i, true), m');
      t := Inserts(c, m', w, longest + k, longest + k - 1);
      OneMore(c, s, m', InsertRow(w), t);
    }
  }

  ghost predicate ReadyFrom(s: State, n: nat, m: nat) {
    && (forall w: nat :: w in s.writers <==> w < n)
    && (forall w | w in s.writers && m <= w :: s.writers[w].Ready?)
  }

  /** Below the cap the first m writers all pass the check before any of them inserts. */
  lemma AllCheck(c: Config, s: State, n: nat, longest: nat, m: nat) returns (t: State)
    requires ReadyFrom(s, n, 0) && m <= n && Depth(s.rows) < c.hardCap
    ensures RunsTo(c, s, t) && t.rows == s.rows && t.nextId == s.nextId && ReadyFrom(t, n, m)
    ensures forall w | w in t.writers && w < m :: t.writers[w] == DepthChecked(Signature(longest + 1 + w))
  {
    if m == 0 {
      t := s;
      Stay(c, s);
    } else {
      var r := AllCheck(c, s, n, longest, m - 1);
      var i := Signature(longest + m);
      t := r.(writers := r.writers[m - 1 := DepthChecked(i)]);
      Checks(c, r, m - 1, i, t);
      OneMore(c, s, r, CheckDepth(m - 1, i, true), t);
    }
  }

  /** Then the first m of them insert, whatever the depth has become. */
  lemma AllInsert(c: Config, s: State, n: nat, longest: nat, m: nat) returns (t: State)
    requires m <= n && Room(s, longest) && (forall w: nat :: w in s.writers <==> w < n)
    requires forall w | w in s.writers :: s.writers[w] == DepthChecked(Signature(longest + 1 + w))
    ensures RunsTo(c, s, t) && Depth(t.rows) == Depth(s.rows) + m && Room(t, longest + m)
    ensures forall w: nat :: w in t.writers <==> w < n
    ensures forall w | w in t.writers && m <= w :: t.writers[w] == s.writers[w]
  {
    if m == 0 {
      t := s;
      Stay(c, s);
    } else {
      var r := AllInsert(c, s, n, longest, m - 1);
      t := Inserts(c, r, m - 1, longest + m, longest + m - 1);
      OneMore(c, s, r, InsertRow(m - 1), t);
    }
  }

  lemma Compose(c: Config, s: State, t: State, u: State)
    requires RunsTo(c, s, t) && RunsTo(c, t, u)
    ensures RunsTo(c, s, u)
  {
    var states, actions :| Connects(c, s, t, states, actions);
    var states', actions' :| Connects(c, t, u, states', actions');
    var all := states + states'[1..];
    forall i | 0 <= i < |actions + actions'|
      ensures Enabled(c, all[i], (actions + actions')[i]) && all[i + 1] == Apply(c, all[i], (actions + actions')[i])
    {
      if i >= |actions| {
        assert all[i] == states'[i - |actions|];
      }
    }
    assert Connects(c, s, u, all, actions + actions');
  }

  /** For every cap and every number of writers some run from the empty buffer, with every depth query
      succeeding, ends with exactly hardCap + N - 1 unsent rows: CapHolds cannot be improved. */
  lemma CapIsReached(c: Config, s: State, n: nat) returns (t: State)
    requires Initial(s) && 1 <= c.hardCap && 1 <= n && forall w: nat :: w in s.writers <==> w < n
    ensures RunsTo(c, s, t) && Depth(t.rows) == c.hardCap + n - 1
  {
    assert UnsentIds(s.rows) == {};
    var filled := Fill(c, s, 0, 0, c.hardCap - 1);
    var checked := AllCheck(c, filled, n, c.hardCap - 1, n);
    t := AllInsert(c, checked, n, c.hardCap - 1, n);
    Compose(c, s, filled, checked);
    Compose(c, s, checked, t);
  }
}
