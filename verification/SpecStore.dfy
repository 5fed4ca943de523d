/** The spec store: one flat map, keyed by owning scope and app id joined with NULs. */
module SpecStore {
  import opened Options
  import opened ExperienceSpec

  const NUL: char := '\0'

  function StoreKey(scope: Scope, app: string): string { scope.tenant + [NUL] + scope.org + [NUL] + app }

  predicate NulFree(scope: Scope) { NUL !in scope.tenant && NUL !in scope.org }

  /** The key is the two halves of the scope and the app id with a zero byte after each half. */
  lemma KeyText(scope: Scope, app: string)
    ensures StoreKey(scope, app) == scope.tenant + "\0" + scope.org + "\0" + app
    ensures NulFree(scope) <==>
      && (forall i | 0 <= i < |scope.tenant| :: scope.tenant[i] as int != 0)
      && (forall i | 0 <= i < |scope.org| :: scope.org[i] as int != 0)
  {
    assert NUL as int == 0;
  }

  lemma {:induction false} CutFirst(p: string, rest: string, q: string, tail: string)
    requires NUL !in p && NUL !in q && p + [NUL] + rest == q + [NUL] + tail
    ensures p == q && rest == tail
  {
    var x, y := p + [NUL] + rest, q + [NUL] + tail;
    assert x[|p|] == NUL && y[|q|] == NUL;
    assert forall i | 0 <= i < |p| :: x[i] == p[i];
    assert forall i | 0 <= i < |q| :: y[i] == q[i];
    assert x[..|p|] == p && y[..|q|] == q;
    assert x[|p| + 1..] == rest && y[|q| + 1..] == tail;
  }

  /** Keys of NUL-free scopes collide only when they are the same key, whatever the app ids contain. */
  lemma StoreKeyIsInjective(s: Scope, a: string, t: Scope, b: string)
    requires NulFree(s) && NulFree(t) && StoreKey(s, a) == StoreKey(t, b)
    ensures s == t && a == b
  {
    assert StoreKey(s, a) == s.tenant + [NUL] + (s.org + [NUL] + a);
    assert StoreKey(t, b) == t.tenant + [NUL] + (t.org + [NUL] + b);
    CutFirst(s.tenant, s.org + [NUL] + a, t.tenant, t.org + [NUL] + b);
    CutFirst(s.org, a, t.org, b);
  }

  /** One NUL in a tenant is enough to reach into another scope's keys. */
  lemma NulInTenantCollides(x: string, y: string, org: string, app: string)
    ensures StoreKey(Scope(x + [NUL] + y, org), app) == StoreKey(Scope(x, y), org + [NUL] + app)
  {
    assert StoreKey(Scope(x + [NUL] + y, org), app) == x + [NUL] + y + [NUL] + org + [NUL] + app;
    assert StoreKey(Scope(x, y), org + [NUL] + app) == x + [NUL] + y + [NUL] + (org + [NUL] + app);
  }

  /** Likewise one NUL in an org. */
  lemma NulInOrgCollides(tenant: string, x: string, y: string, app: string)
    ensures StoreKey(Scope(tenant, x + [NUL] + y), app) == StoreKey(Scope(tenant, x), y + [NUL] + app)
  {
    assert StoreKey(Scope(tenant, x + [NUL] + y), app) == tenant + [NUL] + x + [NUL] + y + [NUL] + app;
    assert StoreKey(Scope(tenant, x), y + [NUL] + app) == tenant + [NUL] + x + [NUL] + (y + [NUL] + app);
  }

  type Defs = map<string, AppDefinition>

  function Lookup(defs: Defs, scope: Scope, app: string): Option<AppDefinition> {
    var key := StoreKey(scope, app);
    if key in defs then Some(defs[key]) else None
  }

  class MemorySpecStore {
    var defs: Defs

    constructor ()
      ensures defs == map[]
    {
      defs := map[];
    }

    /** Overwrites this scope's definition of that id, and no other of any NUL-free scope. */
    method Put(scope: Scope, def: AppDefinition)
      modifies this
      ensures defs == old(defs)[StoreKey(scope, def.id) := def]
      ensures Lookup(defs, scope, def.id) == Some(def)
      ensures NulFree(scope) ==>
        forall s, a | NulFree(s) && (s, a) != (scope, def.id) :: Lookup(defs, s, a) == Lookup(old(defs), s, a)
    {
      defs := defs[StoreKey(scope, def.id) := def];
      forall s, a | NulFree(scope) && NulFree(s) && (s, a) != (scope, def.id)
        ensures StoreKey(s, a) != StoreKey(scope, def.id)
      {
        if StoreKey(s, a) == StoreKey(scope, def.id) { StoreKeyIsInjective(s, a, scope, def.id); }
      }
    }

    method Get(scope: Scope, app: string) returns (r: Option<AppDefinition>)
      ensures r == Lookup(defs, scope, app)
    {
      var key := StoreKey(scope, app);
      if key !in defs { return None; }
      r := Some(defs[key]);
    }
  }
}
