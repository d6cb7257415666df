/** A derived parameter that a child redefines: what the load shows and what a change shows. */
module Redefinition {
  import opened PyData
  import opened Formula
  import opened TopoSort
  import opened Equation
  import opened Resolver
  import opened Inheritance
  import opened Expressions

  lemma TwoDefinitions(child: Parameter, parent: Parameter)
    requires Local(child) && Local(parent) && child.isDerived && parent.isDerived
    requires child.name == parent.name && child.id != parent.id
    ensures var chain := [Template("child", "child", [child]), Template("parent", "parent", [parent])];
            && ChainRows(chain) && !NoDerivedOverridden(chain)
            && Nearest(chain, child.name) == Some((child, "child"))
            && ByName(ChainDerived(chain)) == map[child.name := parent]
  {
    var head, tail := Template("child", "child", [child]), Template("parent", "parent", [parent]);
    var chain := [head, tail];
    OneDefinition(child);
    OneDefinition(parent);
    OneTemplate(tail, parent);
    assert chain[1..] == [tail];
    assert ChainDerived(chain) == [child] + [parent];
    ByNameConcat([child], [parent]);
    assert child in head.parameters && parent in ChainDerived([tail]);
  }

  lemma OneDefinition(p: Parameter)
    requires Local(p) && p.isDerived
    ensures ActiveDerived([p]) == [p] && LocalDefinition([p], p.name) == Some(p) && ByName([p]) == map[p.name := p]
  {
    var one := [p];
    assert one[..0] == [];
    ByNameMembers(one);
    assert ActiveDerived(one) == ActiveDerived(one[..0]) + [p];
  }

  lemma OneTemplate(t: Template, p: Parameter)
    requires t.parameters == [p] && ActiveDerived([p]) == [p]
    ensures ChainDerived([t]) == [p]
  {
    var one := [t];
    assert one[1..] == [] && ChainDerived(one[1..]) == [];
    assert ChainDerived(one) == ActiveDerived(t.parameters) + ChainDerived(one[1..]);
  }

  // ----- one equation over one plain value -----

  /** `p` takes the value of the plain parameter `source`. */
  ghost predicate Takes(p: Parameter, source: string) {
    ':' !in source && source != "" && p.name != "" && source != p.name
      && p.derivedExpression == Some("coalesce:" + source)
  }

  ghost predicate Given(ctx: Context<Value>, source: string, value: string) {
    source in ctx.m && ctx.m[source] == VStr(value) && value != ""
  }

  function One(rt: Runtime, p: Parameter): System<Value> {
    Equations(rt, map[p.name := p])
  }

  lemma OneGraph(rt: Runtime, p: Parameter, source: string)
    requires Takes(p, source)
    ensures DerivedGraph(One(rt, p)) == map[p.name := {}] && !HasCycle(DerivedGraph(One(rt, p)))
  {
    CoalesceOne(rt, p, source, Dict([], map[]));
    RecordedOne(source);
    OneNodeGraph(One(rt, p), p.name, source);
    OneNodeNoCycle(DerivedGraph(One(rt, p)), p.name);
  }

  lemma RecordedOne(source: string)
    requires source != ""
    ensures Recorded([source]) == {source}
  {
    assert [source][0] == source;
  }

  lemma OneNodeGraph(sys: System<Value>, n: string, source: string)
    requires sys.uses == map[n := {source}] && source != n
    ensures DerivedGraph(sys) == map[n := {}]
  {
    assert sys.uses.Keys == {n} && {source} * {n} == {};
  }

  lemma OneNodeNoCycle(deps: Graph, n: string)
    requires deps == map[n := {}]
    ensures !HasCycle(deps)
  {
    OrderedHasNoCycle(deps, [n]);
  }

  lemma OneSound(rt: Runtime, p: Parameter, source: string, base: Context<Value>)
    requires Takes(p, source)
    ensures Sound(rt, map[p.name := p], base) && p.name in One(rt, p).defined
  {
    var expr := "coalesce:" + source;
    assert expr[..9] == "coalesce:" && expr[0] == 'c';
    assert One(rt, p).hidden[p.name] == {""};
  }

  /** Every solution gives `p` the source's value. */
  lemma OneValue(rt: Runtime, p: Parameter, source: string, base: Context<Value>, s: Context<Value>, value: string)
    requires Takes(p, source) && Given(base, source, value) && Solves(One(rt, p), base, s)
    ensures p.name in s.m && s.m[p.name] == VStr(value)
  {
    OneSound(rt, p, source, base);
    CoalesceOne(rt, p, source, s);
    assert One(rt, p).defined <= {p.name};
    assert source in s.m && s.m[source] == base.m[source];
    assert One(rt, p).eval(p.name, s) == Ok(s.m[p.name]);
  }

  lemma OneSolvable(rt: Runtime, p: Parameter, source: string, base: Context<Value>, value: string)
    requires Takes(p, source) && Given(base, source, value)
    ensures exists s :: Solves(One(rt, p), base, s)
  {
    var s: Context<Value> := base.Set(p.name, VStr(value));
    OneSound(rt, p, source, base);
    CoalesceOne(rt, p, source, s);
    assert One(rt, p).defined == {p.name};
    assert One(rt, p).eval(p.name, s) == Ok(VStr(value));
    assert Solves(One(rt, p), base, s);
  }

  // ----- the two passes -----

  /** A child and its parent derive `v` from different plain parameters of the project. */
  ghost predicate Redefines(child: Parameter, parent: Parameter, a: Parameter, b: Parameter) {
    && Local(child) && Local(parent) && child.isDerived && parent.isDerived && child.name == parent.name
    && child.id != parent.id
    && Takes(child, a.name) && Takes(parent, b.name) && a.name != b.name
    && !a.isDerived && !b.isDerived && a.defaultValue.Some? && b.defaultValue.Some? && a.defaultValue != Some("")
    && b.defaultValue != Some("")
  }

  function Chain(child: Parameter, parent: Parameter): seq<Template> {
    [Template("child", "child", [child]), Template("parent", "parent", [parent])]
  }

  lemma OnlyChildMerged(child: Parameter, parent: Parameter, merged: Dict<string, Definition>)
    requires Local(child) && Local(parent) && child.isDerived && parent.isDerived
    requires child.name == parent.name && child.id != parent.id && MergedFrom(merged, Chain(child, parent))
    ensures MergedParameters(merged) == [child]
  {
    TwoDefinitions(child, parent);
    forall n ensures n in merged.m <==> n == child.name {
      assert Holds(merged, n, Nearest(Chain(child, parent), n));
      OnlyName(child, parent, n);
    }
    assert Holds(merged, child.name, Nearest(Chain(child, parent), child.name));
    OneKey(merged, child.name);
  }

  lemma OnlyName(child: Parameter, parent: Parameter, n: string)
    requires child.name == parent.name
    ensures n != child.name ==> Nearest(Chain(child, parent), n) == None
  {
    var chain := Chain(child, parent);
    var tail := [chain[1]];
    assert chain[1..] == tail && tail[1..] == [];
    OtherName(child, n);
    OtherName(parent, n);
    assert n != child.name ==> Nearest(tail, n) == Nearest(tail[1..], n) && Nearest(chain, n) == Nearest(chain[1..], n);
  }

  lemma OtherName(p: Parameter, n: string)
    ensures n != p.name ==> LocalDefinition([p], n) == None
  {
    var one := [p];
    assert one[..0] == [] && LocalDefinition(one[..0], n) == None;
  }

  lemma OneKey<V>(d: Dict<string, V>, key: string)
    requires d.Valid() && forall n :: n in d.m <==> n == key
    ensures d.order == [key]
  {
    assert key in d.order;
    forall n | n in d.order ensures n in {key} {
    }
    NoDupFits(d.order, {key});
    assert d.order[0] in d.order;
  }

  lemma LoadedSystem(rt: Runtime, child: Parameter, parent: Parameter, a: Parameter, b: Parameter,
                     merged: Dict<string, Definition>)
    requires Redefines(child, parent, a, b) && MergedFrom(merged, Chain(child, parent))
    ensures OnLoadDerived(merged, [a, b], []) == [child] && OnLoadByName(merged, [a, b], []) == map[child.name := child]
  {
    OnlyChildMerged(child, parent, merged);
    NoneDerived(a, b);
    OneDerived(child);
    assert [child] + [] + [] == [child];
    OneDefinition(child);
  }

  lemma NoneDerived(a: Parameter, b: Parameter)
    requires !a.isDerived && !b.isDerived
    ensures Derived([a, b]) == []
  {
    var one, two := [a], [a, b];
    assert two[..1] == one && one[..0] == [];
    assert Derived(one) == Derived(one[..0]);
    assert Derived(two) == Derived(two[..1]);
  }

  lemma OneDerived(p: Parameter)
    requires p.isDerived
    ensures Derived([p]) == [p]
  {
    var one := [p];
    assert one[..0] == [] && Derived(one[..0]) == [];
    assert Derived(one) == Derived(one[..0]) + [p];
  }

  lemma LoadedBase(child: Parameter, parent: Parameter, a: Parameter, b: Parameter, merged: Dict<string, Definition>,
                   base: Context<Value>)
    requires Redefines(child, parent, a, b) && MergedFrom(merged, Chain(child, parent))
    requires forall n :: Holds(base, n, BaseValue(MergedParameters(merged), [a, b], [], n))
    ensures Given(base, a.name, a.defaultValue.value)
  {
    var two, one := [a, b], [a];
    assert two[..1] == one && one[..0] == [];
    assert LastPlain(one, a.name) == Some(DefaultValue(a));
    assert LastPlain(two, a.name) == LastPlain(two[..1], a.name);
    assert Holds(base, a.name, BaseValue(MergedParameters(merged), [a, b], [], a.name));
  }

  lemma LoadShowsChild(rt: Runtime, child: Parameter, parent: Parameter, a: Parameter, b: Parameter,
                       merged: Dict<string, Definition>, base: Context<Value>, r: FormValues)
    requires Redefines(child, parent, a, b) && LoadedFrom(rt, Chain(child, parent), [a, b], [], merged, base, r)
    ensures r.Values? && child.name in r.prefill && r.prefill[child.name] == a.defaultValue.value
  {
    LoadedSystem(rt, child, parent, a, b, merged);
    LoadedBase(child, parent, a, b, merged, base);
    Loads(rt, child, a.name, OnLoad(rt, merged, [a, b], []), OnLoadDerived(merged, [a, b], []), base, r,
          a.defaultValue.value);
  }

  /** Values that solve the one equation show the source's value. */
  lemma Loads(rt: Runtime, p: Parameter, source: string, sys: System<Value>, derived: seq<Parameter>,
              base: Context<Value>, r: FormValues, value: string)
    requires Takes(p, source) && Given(base, source, value) && sys == One(rt, p) && p in derived
    requires r.NoValues? ==> !r.why.Resolved?
    requires r.NoValues? && r.why.Circular? <==> HasCycle(DerivedGraph(sys))
    requires Sound(rt, map[p.name := p], base) ==>
               && (r.Values? ==> Solves(sys, base, r.ctx) && r.prefill == Prefill(rt, derived, r.ctx))
               && (r.NoValues? && r.why.Failed? ==> forall s :: !Solves(sys, base, s))
    ensures r.Values? && p.name in r.prefill && r.prefill[p.name] == value
  {
    OneSound(rt, p, source, base);
    Succeeds(rt, p, source, sys, base, r, value);
    OneValue(rt, p, source, base, r.ctx, value);
  }

  lemma Succeeds(rt: Runtime, p: Parameter, source: string, sys: System<Value>, base: Context<Value>, r: FormValues,
                 value: string)
    requires Takes(p, source) && Given(base, source, value) && sys == One(rt, p)
    requires r.NoValues? ==> !r.why.Resolved?
    requires r.NoValues? && r.why.Circular? <==> HasCycle(DerivedGraph(sys))
    requires r.NoValues? && r.why.Failed? ==> forall s :: !Solves(sys, base, s)
    ensures r.Values?
  {
    OneGraph(rt, p, source);
    OneSolvable(rt, p, source, base, value);
  }

  lemma ChangeShowsParent(rt: Runtime, child: Parameter, parent: Parameter, a: Parameter, b: Parameter,
                          current: Context<Value>, r: FormValues, value: string)
    requires Redefines(child, parent, a, b) && ChangedFrom(rt, Chain(child, parent), current, r)
             && Given(current, b.name, value)
    ensures r.Values? && child.name in r.prefill && r.prefill[child.name] == value
  {
    TwoDefinitions(child, parent);
    ParentListed(child, parent);
    Loads(rt, parent, b.name, One(rt, parent), ChainDerived(Chain(child, parent)), current, r, value);
  }

  lemma ParentListed(child: Parameter, parent: Parameter)
    requires Local(child) && Local(parent) && child.isDerived && parent.isDerived
    ensures parent in ChainDerived(Chain(child, parent))
  {
    ChainDerivedMembers(Chain(child, parent), parent);
    assert Chain(child, parent)[1].parameters == [parent];
  }

  /** The load shows the child's value, and a change that sends back what the load showed
      the parent's. */
  lemma RedefinedDerivedDisagrees(rt: Runtime, child: Parameter, parent: Parameter, a: Parameter, b: Parameter,
                                  merged: Dict<string, Definition>, base: Context<Value>, loaded: FormValues,
                                  current: Context<Value>, changed: FormValues)
    requires Redefines(child, parent, a, b) && LoadedFrom(rt, Chain(child, parent), [a, b], [], merged, base, loaded)
    requires ChangedFrom(rt, Chain(child, parent), current, changed) && Given(current, b.name, b.defaultValue.value)
    ensures loaded.Values? && child.name in loaded.prefill && loaded.prefill[child.name] == a.defaultValue.value
    ensures changed.Values? && child.name in changed.prefill && changed.prefill[child.name] == b.defaultValue.value
  {
    LoadShowsChild(rt, child, parent, a, b, merged, base, loaded);
    ChangeShowsParent(rt, child, parent, a, b, current, changed, b.defaultValue.value);
  }
}
