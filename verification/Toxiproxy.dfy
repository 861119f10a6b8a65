/** The proxy and toxic registry behind the Toxiproxy API. Any call may be lost on the way in,
    or take effect and lose its reply. */
module Toxiproxy {
  import opened Sequences

  datatype Toxic = Toxic(name: string, kind: string, stream: string, percent: nat, attrs: map<string, int>)

  datatype Proxy = Proxy(listen: string, upstream: string, enabled: bool, toxics: seq<Toxic>)

  type Registry = map<string, Proxy>

  datatype Fate = Delivered | Lost | ReplyLost

  function Named(name: string): Toxic -> bool { (t: Toxic) => t.name == name }
  function NotNamed(name: string): Toxic -> bool { (t: Toxic) => t.name != name }

  ghost predicate HasToxic(toxics: seq<Toxic>, name: string) {
    exists t :: t in toxics && t.name == name
  }

  ghost predicate DistinctNames(toxics: seq<Toxic>) {
    forall i, j :: 0 <= i < j < |toxics| ==> toxics[i].name != toxics[j].name
  }

  ghost predicate WellFormed(reg: Registry) {
    forall n :: n in reg ==> DistinctNames(reg[n].toxics)
  }

  // ---------- what a delivered call does ----------

  /** Creating a proxy under a name in use is a conflict. */
  function Created(reg: Registry, name: string, listen: string, upstream: string): Registry {
    if name in reg then reg else reg[name := Proxy(listen, upstream, true, [])]
  }

  /** Saving the enabled flag leaves the toxics alone. */
  function Saved(reg: Registry, name: string, enabled: bool): Registry {
    if name in reg then reg[name := reg[name].(enabled := enabled)] else reg
  }

  ghost predicate CanAdd(reg: Registry, name: string, t: Toxic) {
    name in reg && !HasToxic(reg[name].toxics, t.name)
  }

  /** A second toxic under the same name is refused. */
  ghost function Added(reg: Registry, name: string, t: Toxic): Registry {
    if CanAdd(reg, name, t) then reg[name := reg[name].(toxics := reg[name].toxics + [t])] else reg
  }

  ghost predicate CanRemove(reg: Registry, name: string, toxic: string) {
    name in reg && HasToxic(reg[name].toxics, toxic)
  }

  function Removed(reg: Registry, name: string, toxic: string): Registry {
    if name in reg then reg[name := reg[name].(toxics := Filter(reg[name].toxics, NotNamed(toxic)))] else reg
  }

  lemma {:induction false} FilterKeepsNamesDistinct(toxics: seq<Toxic>, name: string)
    requires DistinctNames(toxics)
    ensures DistinctNames(Filter(toxics, NotNamed(name)))
  {
    if toxics != [] {
      var front := toxics[..|toxics| - 1];
      FilterKeepsNamesDistinct(front, name);
      FilterMembers(front, NotNamed(name));
      var kept := Filter(front, NotNamed(name));
      forall i | 0 <= i < |kept| ensures kept[i].name != toxics[|toxics| - 1].name {
        assert kept[i] in kept;
      }
    }
  }

  class Server {
    const fate: nat -> Fate
    var calls: nat
    var proxies: Registry

    constructor (fate: nat -> Fate, proxies: Registry)
      requires WellFormed(proxies)
      ensures Valid() && this.fate == fate && this.proxies == proxies
    {
      this.fate, this.calls, this.proxies := fate, 0, proxies;
    }

    ghost predicate Valid()
      reads this
    {
      WellFormed(proxies)
    }

    /** No call from now on fails to arrive or to be answered. */
    ghost predicate Reliable()
      reads this
    {
      forall k: nat :: k >= calls ==> fate(k) == Delivered
    }

    method GetProxy(name: string) returns (p: Option<Proxy>)
      requires Valid()
      modifies `calls
      ensures Valid() && calls == old(calls) + 1
      ensures p == if fate(old(calls)) == Delivered && name in proxies then Some(proxies[name]) else None
    {
      var f := fate(calls);
      calls := calls + 1;
      if f != Delivered || name !in proxies { return None; }
      p := Some(proxies[name]);
    }

    method ListProxies() returns (r: Option<Registry>)
      requires Valid()
      modifies `calls
      ensures Valid() && calls == old(calls) + 1
      ensures r == if fate(old(calls)) == Delivered then Some(proxies) else None
    {
      var f := fate(calls);
      calls := calls + 1;
      r := if f == Delivered then Some(proxies) else None;
    }

    method CreateProxy(name: string, listen: string, upstream: string) returns (created: bool, conflict: bool)
      requires Valid()
      modifies this
      ensures Valid() && calls == old(calls) + 1
      ensures proxies == if fate(old(calls)) == Lost then old(proxies) else Created(old(proxies), name, listen, upstream)
      ensures created == (fate(old(calls)) == Delivered && name !in old(proxies))
      ensures conflict == (fate(old(calls)) == Delivered && name in old(proxies))
    {
      var f := fate(calls);
      calls := calls + 1;
      if f == Lost { return false, false; }
      created, conflict := f == Delivered && name !in proxies, f == Delivered && name in proxies;
      if name !in proxies { proxies := proxies[name := Proxy(listen, upstream, true, [])]; }
    }

    method Save(name: string, enabled: bool) returns (ok: bool)
      requires Valid()
      modifies this
      ensures Valid() && calls == old(calls) + 1
      ensures proxies == if fate(old(calls)) == Lost then old(proxies) else Saved(old(proxies), name, enabled)
      ensures ok == (fate(old(calls)) == Delivered && name in old(proxies))
    {
      var f := fate(calls);
      calls := calls + 1;
      if f == Lost || name !in proxies { return false; }
      proxies := proxies[name := proxies[name].(enabled := enabled)];
      ok := f == Delivered;
    }

    method GetToxics(name: string) returns (toxics: Option<seq<Toxic>>)
      requires Valid()
      modifies `calls
      ensures Valid() && calls == old(calls) + 1
      ensures toxics == if fate(old(calls)) == Delivered && name in proxies then Some(proxies[name].toxics) else None
    {
      var f := fate(calls);
      calls := calls + 1;
      toxics := if f == Delivered && name in proxies then Some(proxies[name].toxics) else None;
    }

    method AddToxic(name: string, t: Toxic) returns (ok: bool)
      requires Valid()
      modifies this
      ensures Valid() && calls == old(calls) + 1
      ensures proxies == if fate(old(calls)) == Lost then old(proxies) else Added(old(proxies), name, t)
      ensures ok == (fate(old(calls)) == Delivered && CanAdd(old(proxies), name, t))
    {
      var f := fate(calls);
      calls := calls + 1;
      if f == Lost || name !in proxies { return false; }
      NonemptyFilter(proxies[name].toxics, Named(t.name));
      if |Filter(proxies[name].toxics, Named(t.name))| > 0 { return false; }
      forall i | 0 <= i < |proxies[name].toxics| ensures proxies[name].toxics[i].name != t.name {
        assert !Named(t.name)(proxies[name].toxics[i]);
      }
      proxies := proxies[name := proxies[name].(toxics := proxies[name].toxics + [t])];
      ok := f == Delivered;
    }

    method RemoveToxic(name: string, toxic: string) returns (ok: bool)
      requires Valid()
      modifies this
      ensures Valid() && calls == old(calls) + 1
      ensures proxies == if fate(old(calls)) == Lost then old(proxies) else Removed(old(proxies), name, toxic)
      ensures ok == (fate(old(calls)) == Delivered && CanRemove(old(proxies), name, toxic))
    {
      var f := fate(calls);
      calls := calls + 1;
      if f == Lost || name !in proxies { return false; }
      NonemptyFilter(proxies[name].toxics, Named(toxic));
      FilterKeepsNamesDistinct(proxies[name].toxics, toxic);
      ok := f == Delivered && |Filter(proxies[name].toxics, Named(toxic))| > 0;
      proxies := proxies[name := proxies[name].(toxics := Filter(proxies[name].toxics, NotNamed(toxic)))];
    }
  }

  /** Removing the first of several distinctly named toxics leaves the others. */
  lemma {:induction false} RemovingHead(toxics: seq<Toxic>)
    requires DistinctNames(toxics) && toxics != []
    ensures Filter(toxics, NotNamed(toxics[0].name)) == toxics[1..]
  {
    if |toxics| > 1 {
      var front := toxics[..|toxics| - 1];
      RemovingHead(front);
      assert toxics[1..] == front[1..] + [toxics[|toxics| - 1]];
    }
  }
}
