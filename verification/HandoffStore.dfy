/**
 The in-memory handoff store: entries and redeemed marks that expire, with every clock reading an input.
 Times are nanoseconds.
 */
module HandoffStore {
  import opened Options

  type Tokens = nat  // an AuthResponse, by identity

  const HANDOFF_TTL: int := 60_000_000_000
  const MAX_ENTRIES: nat := 10_000

  datatype Item = Item(tokens: Tokens, expiresAt: int)
  datatype Store = Store(entries: map<string, Item>, redeemed: map<string, int>)

  function Live(entries: map<string, Item>, now: int): map<string, Item> {
    map j | j in entries && now <= entries[j].expiresAt :: entries[j]
  }

  function Standing(redeemed: map<string, int>, now: int): map<string, int> {
    map j | j in redeemed && now <= redeemed[j] :: redeemed[j]
  }

  /** sweepLocked. */
  function Sweep(s: Store, now: int): Store { Store(Live(s.entries, now), Standing(s.redeemed, now)) }

  /** Put: sweep, refuse when full, record. */
  function Put(s: Store, jti: string, tokens: Tokens, ttl: int, sweepAt: int, putAt: int): Result<Store, Store> {
    var swept := Sweep(s, sweepAt);
    if |swept.entries| >= MAX_ENTRIES then Err(swept)
    else Ok(swept.(entries := swept.entries[jti := Item(tokens, putAt + ttl)]))
  }

  /** Load: no deletion, no single-use check. */
  function Load(s: Store, jti: string, at: int): Option<Tokens> {
    if jti in s.entries && at <= s.entries[jti].expiresAt then Some(s.entries[jti].tokens) else None
  }

  /** MarkRedeemed: sweep, refuse while an unexpired mark stands, mark. */
  function Mark(s: Store, jti: string, ttl: int, sweepAt: int, checkAt: int, setAt: int): Result<Store, Store> {
    var swept := Sweep(s, sweepAt);
    if jti in swept.redeemed && checkAt < swept.redeemed[jti] then Err(swept)
    else Ok(swept.(redeemed := swept.redeemed[jti := setAt + ttl]))
  }

  class InMemoryHandoffStore {
    var entries: map<string, Item>
    var redeemed: map<string, int>

    function State(): Store reads this { Store(entries, redeemed) }

    constructor ()
      ensures State() == Store(map[], map[])
    {
      entries, redeemed := map[], map[];
    }

    method SweepLocked(now: int)
      modifies this
      ensures State() == Sweep(old(State()), now)
      ensures forall j :: j in entries <==> j in old(entries) && now <= old(entries)[j].expiresAt
      ensures forall j | j in entries :: entries[j] == old(entries)[j]
      ensures forall j :: j in redeemed <==> j in old(redeemed) && now <= old(redeemed)[j]
      ensures forall j | j in redeemed :: redeemed[j] == old(redeemed)[j]
    {
      var rest := entries.Keys;
      while rest != {}
        invariant rest <= old(entries.Keys) && redeemed == old(redeemed)
        invariant forall j | j in rest :: j in entries && entries[j] == old(entries)[j]
        invariant forall j | j !in rest :: j in entries <==> j in Live(old(entries), now)
        invariant forall j | j in entries :: j in old(entries) && entries[j] == old(entries)[j]
        decreases |rest|
      {
        var j :| j in rest;
        if now > entries[j].expiresAt { entries := entries - {j}; }
        rest := rest - {j};
      }
      assert entries == Live(old(entries), now);
      SweepMarks(now);
    }

    method SweepMarks(now: int)
      modifies this`redeemed
      ensures redeemed == Standing(old(redeemed), now)
    {
      var rest := redeemed.Keys;
      while rest != {}
        invariant rest <= old(redeemed.Keys)
        invariant forall j | j in rest :: j in redeemed && redeemed[j] == old(redeemed)[j]
        invariant forall j | j !in rest :: j in redeemed <==> j in Standing(old(redeemed), now)
        invariant forall j | j in redeemed :: j in old(redeemed) && redeemed[j] == old(redeemed)[j]
        decreases |rest|
      {
        var j :| j in rest;
        if now > redeemed[j] { redeemed := redeemed - {j}; }
        rest := rest - {j};
      }
      assert redeemed == Standing(old(redeemed), now);
    }

    method PutEntry(jti: string, tokens: Tokens, ttl: int, sweepAt: int, putAt: int) returns (ok: bool)
      modifies this
      ensures var r := Put(old(State()), jti, tokens, ttl, sweepAt, putAt);
        ok == r.Ok? && State() == if r.Ok? then r.value else r.error
      ensures ok <==> |map j | j in old(entries) && sweepAt <= old(entries)[j].expiresAt :: old(entries)[j]| < 10_000
      ensures ok ==> jti in entries && entries[jti] == Item(tokens, putAt + ttl)
      ensures forall j | j != jti || !ok :: j in entries <==> j in old(entries) && sweepAt <= old(entries)[j].expiresAt
      ensures forall j | j in entries && (j != jti || !ok) :: entries[j] == old(entries)[j]
    {
      SweepLocked(sweepAt);
      assert entries == map j | j in old(entries) && sweepAt <= old(entries)[j].expiresAt :: old(entries)[j];
      if |entries| >= MAX_ENTRIES { return false; }
      entries := entries[jti := Item(tokens, putAt + ttl)];
      return true;
    }

    method LoadEntry(jti: string, at: int) returns (r: Option<Tokens>)
      ensures r == Load(State(), jti, at)
      ensures r == if jti in entries && at <= entries[jti].expiresAt then Some(entries[jti].tokens) else None
    {
      if jti !in entries || at > entries[jti].expiresAt { return None; }
      return Some(entries[jti].tokens);
    }

    method MarkRedeemed(jti: string, ttl: int, sweepAt: int, checkAt: int, setAt: int) returns (first: bool)
      modifies this
      ensures var r := Mark(old(State()), jti, ttl, sweepAt, checkAt, setAt);
        first == r.Ok? && State() == if r.Ok? then r.value else r.error
      ensures first <==> !(jti in old(redeemed) && sweepAt <= old(redeemed)[jti] && checkAt < old(redeemed)[jti])
      ensures first ==> jti in redeemed && redeemed[jti] == setAt + ttl
    {
      SweepLocked(sweepAt);
      if jti in redeemed && checkAt < redeemed[jti] { return false; }
      redeemed := redeemed[jti := setAt + ttl];
      return true;
    }
  }
}
