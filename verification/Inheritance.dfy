/** Parameters inherited along a template chain: what a form shows when it is loaded and
    what it shows after a change. */
module Inheritance {
  import opened PyData
  import opened Formula
  import opened TopoSort
  import opened Equation
  import opened Resolver

  datatype Template = Template(id: string, name: string, parameters: seq<Parameter>)

  type Definition = (Parameter, string)

  predicate Local(p: Parameter) {
    p.isActive && p.scope == "template"
  }

  /** The last local definition of `name` in one template. */
  ghost function LocalDefinition(params: seq<Parameter>, name: string): Option<Parameter> {
    if params == [] then None
    else
      var last := params[|params| - 1];
      if Local(last) && last.name == name then Some(last)
      else LocalDefinition(params[..|params| - 1], name)
  }

  /** The definition nearest the leaf; `chain` runs from the leaf to the root. */
  ghost function Nearest(chain: seq<Template>, name: string): Option<Definition> {
    if chain == [] then None
    else match LocalDefinition(chain[0].parameters, name)
      case Some(p) => Some((p, chain[0].id))
      case None => Nearest(chain[1..], name)
  }

  ghost predicate Holds<V>(d: Dict<string, V>, name: string, v: Option<V>) {
    (name in d.m <==> v.Some?) && (v.Some? ==> d.m[name] == v.value)
  }

  /** Every name has the definition nearest the leaf. */
  ghost predicate MergedFrom(merged: Dict<string, Definition>, chain: seq<Template>) {
    merged.Valid() && forall n :: Holds(merged, n, Nearest(chain, n))
  }

  method MergeChain(chain: seq<Template>) returns (merged: Dict<string, Definition>)
    ensures MergedFrom(merged, chain)
  {
    merged := Dict([], map[]);
    var i := |chain|;
    while i > 0
      invariant 0 <= i <= |chain|
      invariant MergedFrom(merged, chain[i..])
    {
      i := i - 1;
      var template := chain[i];
      assert chain[i..] == [template] + chain[i + 1..];
      ghost var rest := chain[i + 1..];
      ghost var none := Upto(template, 0) + rest;
      forall n ensures Nearest(none, n) == Nearest(rest, n) {
        NearestOf(template, 0, rest, n);
      }
      for k := 0 to |template.parameters|
        invariant MergedFrom(merged, Upto(template, k) + rest)
      {
        var param := template.parameters[k];
        ghost var before, after := Upto(template, k) + rest, Upto(template, k + 1) + rest;
        forall n
          ensures Nearest(after, n) ==
                  if Local(param) && param.name == n then Some((param, template.id)) else Nearest(before, n)
        {
          NearestOf(template, k + 1, rest, n);
        }
        if Local(param) {
          merged := merged.Set(param.name, (param, template.id));
        }
      }
      assert template.parameters[..|template.parameters|] == template.parameters;
    }
    assert chain[0..] == chain;
  }

  /** The chain whose leaf has only its first `k` parameters. */
  ghost function Upto(t: Template, k: nat): seq<Template>
    requires k <= |t.parameters|
  {
    [Template(t.id, t.name, t.parameters[..k])]
  }

  lemma NearestOf(t: Template, k: nat, rest: seq<Template>, name: string)
    requires k <= |t.parameters|
    ensures k == 0 ==> Nearest(Upto(t, k) + rest, name) == Nearest(rest, name)
    ensures k > 0 ==>
              var last := t.parameters[k - 1];
              Nearest(Upto(t, k) + rest, name) ==
                if Local(last) && last.name == name then Some((last, t.id)) else Nearest(Upto(t, k - 1) + rest, name)
  {
    assert (Upto(t, k) + rest)[1..] == rest;
    if k > 0 {
      assert (Upto(t, k - 1) + rest)[1..] == rest;
      assert t.parameters[..k][..k - 1] == t.parameters[..k - 1];
    }
  }

  // ----- the context a form starts from -----

  function DefaultValue(p: Parameter): Value {
    match p.defaultValue case None => VNone case Some(s) => VStr(s)
  }

  ghost function LastPlain(params: seq<Parameter>, name: string): Option<Value> {
    if params == [] then None
    else
      var last := params[|params| - 1];
      if !last.isDerived && last.name == name then Some(DefaultValue(last))
      else LastPlain(params[..|params| - 1], name)
  }

  /** Global parameters win over project ones, and those over the template's. */
  ghost function BaseValue(tmpl: seq<Parameter>, proj: seq<Parameter>, glob: seq<Parameter>,
                           name: string): Option<Value>
  {
    if LastPlain(glob, name).Some? then LastPlain(glob, name)
    else if LastPlain(proj, name).Some? then LastPlain(proj, name)
    else LastPlain(tmpl, name)
  }

  method AddDefaults(params: seq<Parameter>, before: Context<Value>) returns (ctx: Context<Value>)
    ensures forall n ::
              if LastPlain(params, n).Some? then Holds(ctx, n, LastPlain(params, n)) else SameAt(ctx, before, n)
  {
    ctx := before;
    for i := 0 to |params|
      invariant forall n ::
                  if LastPlain(params[..i], n).Some? then Holds(ctx, n, LastPlain(params[..i], n))
                  else SameAt(ctx, before, n)
    {
      assert params[..i + 1][..i] == params[..i];
      if !params[i].isDerived {
        ctx := ctx.Set(params[i].name, DefaultValue(params[i]));
      }
    }
    assert params[..|params|] == params;
  }

  method BuildBaseContext(tmpl: seq<Parameter>, proj: seq<Parameter>, glob: seq<Parameter>)
    returns (ctx: Context<Value>)
    ensures forall n :: Holds(ctx, n, BaseValue(tmpl, proj, glob, n))
  {
    ctx := AddDefaults(tmpl, Dict([], map[]));
    ctx := AddDefaults(proj, ctx);
    ctx := AddDefaults(glob, ctx);
  }

  // ----- the derived parameters of the two passes -----

  function Derived(params: seq<Parameter>): seq<Parameter> {
    if params == [] then []
    else
      var last := params[|params| - 1];
      Derived(params[..|params| - 1]) + if last.isDerived then [last] else []
  }

  function MergedParameters(merged: Dict<string, Definition>): seq<Parameter>
    requires merged.Valid()
  {
    seq(|merged.order|, i requires 0 <= i < |merged.order| && merged.order[i] in merged.m =>
      merged.m[merged.order[i]].0)
  }

  function ActiveDerived(params: seq<Parameter>): seq<Parameter> {
    if params == [] then []
    else
      var last := params[|params| - 1];
      ActiveDerived(params[..|params| - 1]) + if last.isActive && last.isDerived then [last] else []
  }

  /** Every active derived parameter of the chain, leaf first; redefinitions stay in. */
  function ChainDerived(chain: seq<Template>): seq<Parameter> {
    if chain == [] then [] else ActiveDerived(chain[0].parameters) + ChainDerived(chain[1..])
  }

  datatype FormValues = Values(ctx: Context<Value>, prefill: map<string, string>) | NoValues(why: Resolution)

  function Prefill(rt: Runtime, params: seq<Parameter>, ctx: Context<Value>): (prefill: map<string, string>)
    ensures prefill.Keys == (set p | p in params && p.name in ctx.m :: p.name)
    ensures forall n | n in prefill :: prefill[n] == ValueText(rt, ctx.m[n])
  {
    map n | n in (set p | p in params && p.name in ctx.m :: p.name) :: ValueText(rt, ctx.m[n])
  }

  /** `merged` holds the nearest definitions, `base` their defaults, and `r` solves the
      equations of the merged definitions over that base. */
  ghost predicate LoadedFrom(rt: Runtime, chain: seq<Template>, proj: seq<Parameter>, glob: seq<Parameter>,
                             merged: Dict<string, Definition>, base: Context<Value>, r: FormValues)
  {
    && MergedFrom(merged, chain)
    && (forall n :: Holds(base, n, BaseValue(MergedParameters(merged), proj, glob, n)))
    && var sys := OnLoad(rt, merged, proj, glob);
       && (r.NoValues? && r.why.Circular? <==> HasCycle(DerivedGraph(sys)))
       && (Sound(rt, OnLoadByName(merged, proj, glob), base) ==>
             && (r.Values?
                 ==> Solves(sys, base, r.ctx) && r.prefill == Prefill(rt, OnLoadDerived(merged, proj, glob), r.ctx))
             && (r.NoValues? && r.why.Failed? ==> forall s :: !Solves(sys, base, s)))
       && (r.NoValues? ==> !r.why.Resolved?)
  }

  lemma LoadedSo(rt: Runtime, chain: seq<Template>, proj: seq<Parameter>, glob: seq<Parameter>,
                 merged: Dict<string, Definition>, base: Context<Value>, params: seq<Parameter>, resolved: Resolution,
                 r: FormValues)
    requires MergedFrom(merged, chain) && params == OnLoadDerived(merged, proj, glob)
    requires forall n :: Holds(base, n, BaseValue(MergedParameters(merged), proj, glob, n))
    requires ResolvedFrom(rt, ByName(params), base, resolved)
    requires r == if resolved.Resolved? then Values(resolved.ctx, Prefill(rt, params, resolved.ctx))
                  else NoValues(resolved)
    ensures LoadedFrom(rt, chain, proj, glob, merged, base, r)
  {
  }

  /** What a resolution says about the equations. */
  ghost predicate ResolvedFrom(rt: Runtime, byName: map<string, Parameter>, base: Context<Value>, r: Resolution) {
    var sys := Equations(rt, byName);
    && (r.Circular? <==> HasCycle(DerivedGraph(sys)))
    && (Sound(rt, byName, base) ==>
          && (r.Resolved? ==> Solves(sys, base, r.ctx))
          && (r.Failed? ==> forall s :: !Solves(sys, base, s)))
  }

  /** The merged definitions and the values that the form shows when it is loaded. */
  method LoadValues(rt: Runtime, chain: seq<Template>, proj: seq<Parameter>, glob: seq<Parameter>)
    returns (templateMerged: Dict<string, Definition>, r: FormValues)
    ensures exists base :: LoadedFrom(rt, chain, proj, glob, templateMerged, base, r)
  {
    templateMerged := MergeChain(chain);
    var tmpl := MergedParameters(templateMerged);
    var baseCtx := BuildBaseContext(tmpl, proj, glob);
    var allDerived := Derived(tmpl) + Derived(proj) + Derived(glob);
    var resolved := ResolveDerivedParams(rt, allDerived, baseCtx);
    r := if resolved.Resolved? then Values(resolved.ctx, Prefill(rt, allDerived, resolved.ctx)) else NoValues(resolved);
    LoadedSo(rt, chain, proj, glob, templateMerged, baseCtx, allDerived, resolved, r);
  }

  ghost function OnLoadDerived(merged: Dict<string, Definition>, proj: seq<Parameter>,
                               glob: seq<Parameter>): seq<Parameter>
    requires merged.Valid()
  {
    Derived(MergedParameters(merged)) + Derived(proj) + Derived(glob)
  }

  ghost function OnLoadByName(merged: Dict<string, Definition>, proj: seq<Parameter>,
                              glob: seq<Parameter>): map<string, Parameter>
    requires merged.Valid()
  {
    ByName(OnLoadDerived(merged, proj, glob))
  }

  ghost function OnLoad(rt: Runtime, merged: Dict<string, Definition>, proj: seq<Parameter>,
                        glob: seq<Parameter>): System<Value>
    requires merged.Valid()
  {
    Equations(rt, OnLoadByName(merged, proj, glob))
  }

  /** `r` solves the equations of all active derived rows of the chain over `current`. */
  ghost predicate ChangedFrom(rt: Runtime, chain: seq<Template>, current: Context<Value>, r: FormValues) {
    var sys := Equations(rt, ByName(ChainDerived(chain)));
    && (r.NoValues? && r.why.Circular? <==> HasCycle(DerivedGraph(sys)))
    && (r.Values? ==> r.prefill == Prefill(rt, ChainDerived(chain), r.ctx))
    && (Sound(rt, ByName(ChainDerived(chain)), current) ==>
          && (r.Values? ==> Solves(sys, current, r.ctx))
          && (r.NoValues? && r.why.Failed? ==> forall s :: !Solves(sys, current, s)))
    && (r.NoValues? ==> !r.why.Resolved?)
  }

  /** What the form shows after a change. */
  method ReEvaluateDerivedParams(rt: Runtime, chain: seq<Template>, current: Context<Value>) returns (r: FormValues)
    ensures ChangedFrom(rt, chain, current, r)
  {
    var allDerived := [];
    for i := 0 to |chain|
      invariant allDerived == ChainDerived(chain[..i])
    {
      ChainDerivedSnoc(chain, i);
      allDerived := allDerived + ActiveDerived(chain[i].parameters);
    }
    assert chain[..|chain|] == chain;
    var resolved := ResolveDerivedParams(rt, allDerived, current);
    r := if resolved.Resolved? then Values(resolved.ctx, Prefill(rt, allDerived, resolved.ctx)) else NoValues(resolved);
  }

  lemma {:induction false} ChainDerivedSnoc(chain: seq<Template>, i: nat)
    requires i < |chain|
    ensures ChainDerived(chain[..i + 1]) == ChainDerived(chain[..i]) + ActiveDerived(chain[i].parameters)
  {
    var longer, shorter := chain[..i + 1], chain[..i];
    if i > 0 {
      ChainDerivedSnoc(chain[1..], i - 1);
      assert longer[1..] == chain[1..][..i] && shorter[1..] == chain[1..][..i - 1];
      assert longer[0] == shorter[0] == chain[0];
    } else {
      assert longer[1..] == [] && shorter == [];
    }
  }

  // ----- which definition each pass uses -----

  /** The rows of one template: template scope only, and one row per name. */
  ghost predicate TemplateRows(params: seq<Parameter>) {
    && (forall p | p in params :: p.scope == "template")
    && (forall a, b | 0 <= a < b < |params| :: params[a].name != params[b].name)
  }

  /** The rows of a chain: no row belongs to two templates. */
  ghost predicate ChainRows(chain: seq<Template>) {
    chain == [] || (
      && TemplateRows(chain[0].parameters)
      && (forall p, q | p in chain[0].parameters && q in ChainDerived(chain[1..]) :: p.id != q.id)
      && ChainRows(chain[1..]))
  }

  /** No active derived parameter is redefined by an active one nearer the leaf. */
  ghost predicate NoDerivedOverridden(chain: seq<Template>) {
    chain == [] || (
      && (forall p, q | p in ChainDerived(chain[1..]) && q in chain[0].parameters && q.isActive :: p.name != q.name)
      && NoDerivedOverridden(chain[1..]))
  }

  ghost predicate UsesNearest(chain: seq<Template>, name: string)
    requires name in ByName(ChainDerived(chain))
  {
    Nearest(chain, name).Some? && Nearest(chain, name).value.0 == ByName(ChainDerived(chain))[name]
  }

  /** For every derived name, the pass after a change uses the definition the load used. */
  ghost predicate SameDefinitions(chain: seq<Template>) {
    forall n | n in ByName(ChainDerived(chain)) :: UsesNearest(chain, n)
  }

  lemma {:induction false} LocalDefinitionIs(params: seq<Parameter>, name: string)
    requires TemplateRows(params)
    ensures forall p | p in params && p.isActive && p.name == name :: LocalDefinition(params, name) == Some(p)
    ensures LocalDefinition(params, name).Some? ==>
              var p := LocalDefinition(params, name).value; p in params && p.isActive && p.name == name
  {
    if params != [] {
      var n := |params| - 1;
      LocalDefinitionIs(params[..n], name);
      assert params == params[..n] + [params[n]];
    }
  }

  lemma {:induction false} ByNameConcat(ps: seq<Parameter>, qs: seq<Parameter>)
    ensures ByName(ps + qs) == ByName(ps) + ByName(qs)
  {
    var all := ps + qs;
    if qs == [] {
      assert all == ps;
    } else {
      var last := qs[|qs| - 1];
      ByNameConcat(ps, qs[..|qs| - 1]);
      assert all[..|all| - 1] == ps + qs[..|qs| - 1] && all[|all| - 1] == last;
    }
  }

  lemma {:induction false} ActiveDerivedMembers(params: seq<Parameter>, p: Parameter)
    ensures p in ActiveDerived(params) <==> p in params && p.isActive && p.isDerived
  {
    if params != [] {
      var n := |params| - 1;
      ActiveDerivedMembers(params[..n], p);
      assert params == params[..n] + [params[n]];
    }
  }

  lemma {:induction false} ChainDerivedMembers(chain: seq<Template>, p: Parameter)
    ensures p in ChainDerived(chain) <==>
            p.isActive && p.isDerived && exists i :: 0 <= i < |chain| && p in chain[i].parameters
  {
    if chain != [] {
      ActiveDerivedMembers(chain[0].parameters, p);
      ChainDerivedMembers(chain[1..], p);
      if i :| 0 <= i < |chain| && p in chain[i].parameters {
        assert i > 0 ==> chain[1..][i - 1] == chain[i];
      }
      if i :| 0 <= i < |chain[1..]| && p in chain[1..][i].parameters {
        assert chain[i + 1] == chain[1..][i];
      }
    }
  }

  lemma OwnDefinition(params: seq<Parameter>, name: string)
    requires TemplateRows(params) && name in ByName(ActiveDerived(params))
    ensures LocalDefinition(params, name) == Some(ByName(ActiveDerived(params))[name])
  {
    ByNameMembers(ActiveDerived(params));
    ActiveDerivedMembers(params, ByName(ActiveDerived(params))[name]);
    LocalDefinitionIs(params, name);
  }

  lemma ForeignDefinition(params: seq<Parameter>, rest: seq<Parameter>, name: string)
    requires TemplateRows(params) && name in ByName(rest)
    requires forall p, q | p in params && q in rest :: p.id != q.id
    ensures LocalDefinition(params, name) != Some(ByName(rest)[name])
  {
    ByNameMembers(rest);
    LocalDefinitionIs(params, name);
  }

  lemma NoClash(params: seq<Parameter>, rest: seq<Parameter>)
    requires TemplateRows(params)
    ensures (forall p, q | p in rest && q in params && q.isActive :: p.name != q.name) <==>
            (forall n | n in ByName(rest) :: LocalDefinition(params, n) == None)
  {
    ByNameMembers(rest);
    if forall n | n in ByName(rest) :: LocalDefinition(params, n) == None {
      forall p, q | p in rest && q in params && q.isActive ensures p.name != q.name {
        assert p.name in ByName(rest);
        LocalDefinitionIs(params, p.name);
      }
    } else {
      var n :| n in ByName(rest) && LocalDefinition(params, n).Some?;
      LocalDefinitionIs(params, n);
      assert ByName(rest)[n] in rest && ByName(rest)[n].name == n;
    }
  }

  /** The leaf's own definitions are used by both passes unless a derived one nearer the
      root bears the same name. */
  lemma UsesNearestStep(chain: seq<Template>, name: string)
    requires chain != [] && TemplateRows(chain[0].parameters)
    requires forall p, q | p in chain[0].parameters && q in ChainDerived(chain[1..]) :: p.id != q.id
    requires name in ByName(ChainDerived(chain))
    ensures UsesNearest(chain, name) <==>
            (name in ByName(ChainDerived(chain[1..])) ==>
               LocalDefinition(chain[0].parameters, name) == None && UsesNearest(chain[1..], name))
  {
    var params, tail := chain[0].parameters, ChainDerived(chain[1..]);
    ByNameConcat(ActiveDerived(params), tail);
    if name in ByName(tail) {
      ForeignDefinition(params, tail, name);
    } else {
      OwnDefinition(params, name);
    }
  }

  lemma RestNames(chain: seq<Template>)
    requires chain != []
    ensures ByName(ChainDerived(chain[1..])).Keys <= ByName(ChainDerived(chain)).Keys
  {
    ByNameConcat(ActiveDerived(chain[0].parameters), ChainDerived(chain[1..]));
  }

  lemma SameDefinitionsStep(chain: seq<Template>)
    requires chain != [] && TemplateRows(chain[0].parameters)
    requires forall p, q | p in chain[0].parameters && q in ChainDerived(chain[1..]) :: p.id != q.id
    ensures SameDefinitions(chain) <==>
            SameDefinitions(chain[1..]) &&
            forall n | n in ByName(ChainDerived(chain[1..])) :: LocalDefinition(chain[0].parameters, n) == None
  {
    RestNames(chain);
    if SameDefinitions(chain) {
      forall n | n in ByName(ChainDerived(chain[1..]))
        ensures LocalDefinition(chain[0].parameters, n) == None && UsesNearest(chain[1..], n)
      {
        UsesNearestStep(chain, n);
      }
    } else {
      var n :| n in ByName(ChainDerived(chain)) && !UsesNearest(chain, n);
      UsesNearestStep(chain, n);
    }
  }

  /** Both passes use the same definitions exactly when no derived one is overridden. */
  lemma {:induction false} SameDefinitionsExactly(chain: seq<Template>)
    requires ChainRows(chain)
    ensures SameDefinitions(chain) <==> NoDerivedOverridden(chain)
  {
    if chain != [] {
      SameDefinitionsStep(chain);
      NoClash(chain[0].parameters, ChainDerived(chain[1..]));
      SameDefinitionsExactly(chain[1..]);
    }
  }

  // ----- agreement of the two passes -----

  /** Part of a solved system, over a context that differs at most in stale values of the
      part's own names, has the same solution and no cycle of its own. The pass over the part
      finds it if the part's records still order all that it reads. */
  lemma SubsystemAgrees(rt: Runtime, small: map<string, Parameter>, large: map<string, Parameter>, base: Context<Value>,
                        current: Context<Value>, s: Context<Value>)
    requires forall n | n in small :: n in large && small[n] == large[n]
    requires Sound(rt, large, base) && Solves(Equations(rt, large), base, s)
    requires !HasCycle(DerivedGraph(Equations(rt, large)))
    requires forall k | k !in Equations(rt, small).defined :: SameAt(current, s, k)
    ensures Solves(Equations(rt, small), current, s) && !HasCycle(DerivedGraph(Equations(rt, small)))
    ensures forall s2 | Solves(Equations(rt, small), current, s2) :: s2.m == s.m
    ensures OrdersReads(Equations(rt, small)) ==> Sound(rt, small, current)
  {
    SubsystemSound(rt, small, large, base, current, s);
    SubsystemSolved(rt, small, large, base, current, s);
    SubsystemAcyclic(rt, small, large);
    EquationsFramed(rt, large, base);
    SubsystemPart(rt, small, large);
    OnlySolution(Equations(rt, small), Equations(rt, large), base, current, s);
  }

  lemma SubsystemPart(rt: Runtime, small: map<string, Parameter>, large: map<string, Parameter>)
    requires forall n | n in small :: n in large && small[n] == large[n]
    ensures PartOf(Equations(rt, small), Equations(rt, large))
  {
  }

  lemma OnlySolution(part: System<Value>, whole: System<Value>, base: Context<Value>, current: Context<Value>,
                     s: Context<Value>)
    requires Framed(whole, base) && PartOf(part, whole) && !HasCycle(DerivedGraph(whole))
    requires Solves(whole, base, s) && Solves(part, current, s)
    ensures forall s2 | Solves(part, current, s2) :: s2.m == s.m
  {
    forall s2 | Solves(part, current, s2) ensures s2.m == s.m {
      PartUnique(part, whole, base, current, s, s2);
    }
  }

  lemma SubsystemSound(rt: Runtime, small: map<string, Parameter>, large: map<string, Parameter>, base: Context<Value>,
                       current: Context<Value>, s: Context<Value>)
    requires forall n | n in small :: n in large && small[n] == large[n]
    requires Sound(rt, large, base) && Solves(Equations(rt, large), base, s)
    requires forall k | k !in Equations(rt, small).defined :: SameAt(current, s, k)
    ensures OrdersReads(Equations(rt, small)) ==> Sound(rt, small, current)
  {
    forall k | k in current.m ensures k in base.m.Keys + large.Keys {
      assert k !in Equations(rt, small).defined ==> SameAt(current, s, k);
    }
    forall n | n in small ensures Footprint(rt, small[n], current.m.Keys + small.Keys) {
      FootprintShrinks(rt, small[n], current.m.Keys + small.Keys, base.m.Keys + large.Keys);
    }
  }

  lemma SubsystemSolved(rt: Runtime, small: map<string, Parameter>, large: map<string, Parameter>, base: Context<Value>,
                        current: Context<Value>, s: Context<Value>)
    requires forall n | n in small :: n in large && small[n] == large[n]
    requires Solves(Equations(rt, large), base, s)
    requires forall k | k !in Equations(rt, small).defined :: SameAt(current, s, k)
    ensures Solves(Equations(rt, small), current, s)
  {
    var part, whole := Equations(rt, small), Equations(rt, large);
    assert s.m.Keys == current.m.Keys + part.defined by {
      forall k ensures k in s.m <==> k in current.m.Keys + part.defined {
        assert k !in part.defined ==> SameAt(current, s, k);
      }
    }
    forall k | k in current.m && k !in part.defined ensures s.m[k] == current.m[k] {
      assert SameAt(current, s, k);
    }
    forall n | n in part.defined ensures part.eval(n, s) == Ok(s.m[n]) {
      assert whole.eval(n, s) == Ok(s.m[n]);
    }
  }

  lemma SubsystemAcyclic(rt: Runtime, small: map<string, Parameter>, large: map<string, Parameter>)
    requires forall n | n in small :: n in large && small[n] == large[n]
    requires !HasCycle(DerivedGraph(Equations(rt, large)))
    ensures !HasCycle(DerivedGraph(Equations(rt, small)))
  {
    forall c ensures !IsCycle(DerivedGraph(Equations(rt, small)), c) {
      assert IsCycle(DerivedGraph(Equations(rt, small)), c) ==> IsCycle(DerivedGraph(Equations(rt, large)), c);
    }
  }

  lemma FootprintShrinks(rt: Runtime, p: Parameter, fewer: set<string>, more: set<string>)
    requires Footprint(rt, p, more) && fewer <= more
    ensures Footprint(rt, p, fewer)
  {
    if rt.parse(Expression(p)).Some? && ExpressionType(Expression(p)).FormulaKind? {
      CleanAllShrinks(rt, rt.parse(Expression(p)).value, fewer, more);
    }
  }

  lemma {:induction false} DerivedMembers(params: seq<Parameter>, p: Parameter)
    ensures p in Derived(params) <==> p in params && p.isDerived
  {
    if params != [] {
      var n := |params| - 1;
      DerivedMembers(params[..n], p);
      MemberOrLast(params, p);
    }
  }

  lemma {:induction false} NearestIsNamed(chain: seq<Template>, name: string)
    requires Nearest(chain, name).Some?
    ensures Nearest(chain, name).value.0.name == name
  {
    LocalIsNamed(chain[0].parameters, name);
    if LocalDefinition(chain[0].parameters, name) == None {
      NearestIsNamed(chain[1..], name);
    }
  }

  lemma {:induction false} LocalIsNamed(params: seq<Parameter>, name: string)
    ensures LocalDefinition(params, name).Some? ==> LocalDefinition(params, name).value.name == name
  {
    if params != [] {
      LocalIsNamed(params[..|params| - 1], name);
    }
  }

  /** The load evaluates the definition in the merged chain unless a project or global
      derived parameter has the same name. */
  lemma LoadUsesMerged(chain: seq<Template>, merged: Dict<string, Definition>, proj: seq<Parameter>,
                       glob: seq<Parameter>, name: string)
    requires MergedFrom(merged, chain) && name in merged.m && merged.m[name].0.isDerived
    requires forall q | q in Derived(proj) + Derived(glob) :: q.name != name
    ensures name in OnLoadByName(merged, proj, glob) && OnLoadByName(merged, proj, glob)[name] == merged.m[name].0
  {
    var tmpl, outer := Derived(MergedParameters(merged)), Derived(proj) + Derived(glob);
    assert OnLoadDerived(merged, proj, glob) == tmpl + outer;
    ByNameConcat(tmpl, outer);
    ByNameMembers(outer);
    MergedByName(chain, merged, name);
  }

  lemma MergedByName(chain: seq<Template>, merged: Dict<string, Definition>, name: string)
    requires MergedFrom(merged, chain) && name in merged.m && merged.m[name].0.isDerived
    ensures var tmpl := Derived(MergedParameters(merged));
            name in ByName(tmpl) && ByName(tmpl)[name] == merged.m[name].0
  {
    var all := MergedParameters(merged);
    ByNameMembers(Derived(all));
    MergedNamed(chain, merged, name);
    var i :| 0 <= i < |merged.order| && merged.order[i] == name;
    assert all[i] == merged.m[name].0;
    DerivedMembers(all, merged.m[name].0);
    var p := ByName(Derived(all))[name];
    DerivedMembers(all, p);
    var j :| 0 <= j < |all| && all[j] == p;
    MergedNamed(chain, merged, merged.order[j]);
  }

  lemma MergedNamed(chain: seq<Template>, merged: Dict<string, Definition>, name: string)
    requires MergedFrom(merged, chain) && (name in merged.m || name in merged.order)
    ensures name in merged.m && name in merged.order && merged.m[name].0.name == name
  {
    assert Holds(merged, name, Nearest(chain, name));
    NearestIsNamed(chain, name);
  }

  /** When no derived parameter is overridden along the chain, a change that leaves the
      other values alone shows exactly the values of the load, whatever stale derived
      values the form sent. */
  lemma OnChangeAgreesWithOnLoad(rt: Runtime, chain: seq<Template>, merged: Dict<string, Definition>,
                                 proj: seq<Parameter>, glob: seq<Parameter>, base: Context<Value>, s: Context<Value>,
                                 current: Context<Value>)
    requires ChainRows(chain) && NoDerivedOverridden(chain) && MergedFrom(merged, chain)
    requires forall p, q | p in ChainDerived(chain) && q in Derived(proj) + Derived(glob) :: p.name != q.name
    requires Sound(rt, OnLoadByName(merged, proj, glob), base)
    requires !HasCycle(DerivedGraph(OnLoad(rt, merged, proj, glob))) && Solves(OnLoad(rt, merged, proj, glob), base, s)
    requires forall k | k !in Equations(rt, ByName(ChainDerived(chain))).defined :: SameAt(current, s, k)
    ensures var onChange := Equations(rt, ByName(ChainDerived(chain)));
            && (OrdersReads(onChange) ==> Sound(rt, ByName(ChainDerived(chain)), current))
            && !HasCycle(DerivedGraph(onChange)) && Solves(onChange, current, s)
            && forall s2 | Solves(onChange, current, s2) :: s2.m == s.m
    ensures forall n | n in Prefill(rt, ChainDerived(chain), s) ::
              n in Prefill(rt, OnLoadDerived(merged, proj, glob), s) &&
              Prefill(rt, ChainDerived(chain), s)[n] == Prefill(rt, OnLoadDerived(merged, proj, glob), s)[n]
  {
    var small, large := ByName(ChainDerived(chain)), OnLoadByName(merged, proj, glob);
    ByNameMembers(ChainDerived(chain));
    ByNameMembers(OnLoadDerived(merged, proj, glob));
    SameDefinitionsExactly(chain);
    forall n | n in small ensures n in large && small[n] == large[n] {
      assert UsesNearest(chain, n);
      assert Holds(merged, n, Nearest(chain, n));
      ChainDerivedMembers(chain, small[n]);
      LoadUsesMerged(chain, merged, proj, glob, n);
    }
    SubsystemAgrees(rt, small, large, base, current, s);
    forall n | n in Prefill(rt, ChainDerived(chain), s) ensures n in Prefill(rt, OnLoadDerived(merged, proj, glob), s) {
      assert n in small;
      assert large[n] in OnLoadDerived(merged, proj, glob);
    }
  }

  // ----- definitions and defaults, spelled out -----

  predicate Defines(p: Parameter, name: string) {
    p.isActive && p.scope == "template" && p.name == name
  }

  /** The last of the parameters that defines `name`. */
  ghost predicate LastDefines(params: seq<Parameter>, name: string, k: nat) {
    k < |params| && Defines(params[k], name) && forall j | k < j < |params| :: !Defines(params[j], name)
  }

  ghost predicate NoneDefines(params: seq<Parameter>, name: string) {
    forall p | p in params :: !Defines(p, name)
  }

  lemma {:induction false} LocalMeans(params: seq<Parameter>, name: string)
    ensures match LocalDefinition(params, name)
            case Some(p) => exists k: nat :: LastDefines(params, name, k) && params[k] == p
            case None => NoneDefines(params, name)
  {
    if params != [] {
      var n := |params| - 1;
      LocalMeans(params[..n], name);
      assert params == params[..n] + [params[n]];
      if Defines(params[n], name) {
        assert LastDefines(params, name, n);
      } else if LocalDefinition(params[..n], name).Some? {
        var k: nat :| LastDefines(params[..n], name, k) && params[..n][k] == LocalDefinition(params[..n], name).value;
        assert forall j | 0 <= j < n :: params[..n][j] == params[j];
        assert LastDefines(params, name, k);
      }
    }
  }

  /** Template `t` of the chain has the definition, and no template nearer the leaf has one. */
  ghost predicate NearestAt(chain: seq<Template>, name: string, d: Definition, t: int) {
    && 0 <= t < |chain| && chain[t].id == d.1
    && (exists k: nat :: LastDefines(chain[t].parameters, name, k) && chain[t].parameters[k] == d.0)
    && forall u | 0 <= u < t :: NoneDefines(chain[u].parameters, name)
  }

  /** The merged definition of a name is an active one of template scope, the last one in the
      template nearest the leaf that has any; a name without one is not merged. */
  lemma {:induction false} NearestMeans(chain: seq<Template>, name: string)
    ensures Nearest(chain, name).Some? ==> exists t :: NearestAt(chain, name, Nearest(chain, name).value, t)
    ensures Nearest(chain, name) == None ==> forall t | t in chain :: NoneDefines(t.parameters, name)
  {
    if chain != [] {
      LocalMeans(chain[0].parameters, name);
      if LocalDefinition(chain[0].parameters, name).Some? {
        var d, t: nat := (LocalDefinition(chain[0].parameters, name).value, chain[0].id), 0;
        assert Nearest(chain, name) == Some(d) && NearestAt(chain, name, d, t);
      } else {
        NearestMeans(chain[1..], name);
        var rest := Nearest(chain[1..], name);
        assert Nearest(chain, name) == rest;
        if rest.Some? {
          var t :| NearestAt(chain[1..], name, rest.value, t);
          NearestFurther(chain, name, rest.value, t);
          assert NearestAt(chain, name, rest.value, t + 1);
        } else {
          NoneFurther(chain, name);
        }
      }
    }
  }

  lemma NoneFurther(chain: seq<Template>, name: string)
    requires chain != [] && NoneDefines(chain[0].parameters, name)
    requires forall t | t in chain[1..] :: NoneDefines(t.parameters, name)
    ensures forall t | t in chain :: NoneDefines(t.parameters, name)
  {
    assert forall t | t in chain :: t == chain[0] || t in chain[1..];
  }

  lemma NearestFurther(chain: seq<Template>, name: string, d: Definition, t: int)
    requires chain != [] && NearestAt(chain[1..], name, d, t) && NoneDefines(chain[0].parameters, name)
    ensures NearestAt(chain, name, d, t + 1)
  {
    assert forall u | 0 < u < |chain| :: chain[u] == chain[1..][u - 1];
  }

  /** The last of the parameters of that name that is not derived. */
  ghost predicate LastGives(params: seq<Parameter>, name: string, k: nat) {
    && k < |params| && params[k].name == name && !params[k].isDerived
    && forall j | k < j < |params| :: params[j].name != name || params[j].isDerived
  }

  ghost predicate NoneGives(params: seq<Parameter>, name: string) {
    forall p | p in params :: p.name != name || p.isDerived
  }

  /** A default is its text, or `None` if there is none. */
  ghost predicate IsDefault(p: Parameter, v: Value) {
    match p.defaultValue case Some(text) => v == VStr(text) case None => v == VNone
  }

  lemma {:induction false} LastPlainMeans(params: seq<Parameter>, name: string)
    ensures match LastPlain(params, name)
            case Some(v) => exists k: nat :: LastGives(params, name, k) && IsDefault(params[k], v)
            case None => NoneGives(params, name)
    ensures LastPlain(params, name).Some? <==> !NoneGives(params, name)
  {
    if params != [] {
      var n := |params| - 1;
      LastPlainMeans(params[..n], name);
      assert params == params[..n] + [params[n]];
      if !params[n].isDerived && params[n].name == name {
        assert LastGives(params, name, n);
      } else if LastPlain(params[..n], name).Some? {
        var k: nat :| LastGives(params[..n], name, k) && IsDefault(params[..n][k], LastPlain(params[..n], name).value);
        assert forall j | 0 <= j < n :: params[..n][j] == params[j];
        assert LastGives(params, name, k);
      }
    }
  }

  /** The base context gives a name the default of the last global parameter of that name that
      is not derived, or else the project's, or else the template's, or else nothing. */
  lemma BaseMeans(tmpl: seq<Parameter>, proj: seq<Parameter>, glob: seq<Parameter>, name: string)
    ensures var from := if !NoneGives(glob, name) then glob else if !NoneGives(proj, name) then proj else tmpl;
            match BaseValue(tmpl, proj, glob, name)
            case Some(v) => exists k: nat :: LastGives(from, name, k) && IsDefault(from[k], v)
            case None => NoneGives(from, name)
  {
    LastPlainMeans(glob, name);
    LastPlainMeans(proj, name);
    LastPlainMeans(tmpl, name);
  }

  // ----- the definitions that the passes use -----

  /** Row `k` is the last derived one of that name; if `active`, inactive ones do not count. */
  ghost predicate LastDerivedIs(params: seq<Parameter>, name: string, active: bool, k: nat) {
    k < |params| && DerivedRow(params[k], name, active)
    && forall j | k < j < |params| :: !DerivedRow(params[j], name, active)
  }

  ghost predicate DerivedRow(p: Parameter, name: string, active: bool) {
    p.isDerived && p.name == name && (active ==> p.isActive)
  }

  ghost predicate NoneDerived(params: seq<Parameter>, name: string, active: bool) {
    forall j | 0 <= j < |params| :: !DerivedRow(params[j], name, active)
  }

  lemma NoneSnoc(params: seq<Parameter>, name: string, active: bool)
    requires params != []
    ensures var n := |params| - 1;
            NoneDerived(params, name, active)
            <==> NoneDerived(params[..n], name, active) && !DerivedRow(params[n], name, active)
  {
    var n := |params| - 1;
    assert forall k | 0 <= k < n :: params[..n][k] == params[k];
  }

  lemma ByNameMore(params: seq<Parameter>, last: Parameter)
    ensures ByName(params + [last]) == ByName(params)[last.name := last]
  {
    assert (params + [last])[..|params|] == params;
  }

  lemma DerivedSnoc(params: seq<Parameter>)
    requires params != []
    ensures var last, before := params[|params| - 1], Derived(params[..|params| - 1]);
            ByName(Derived(params)) == if last.isDerived then ByName(before)[last.name := last] else ByName(before)
  {
    var last, before := params[|params| - 1], Derived(params[..|params| - 1]);
    if last.isDerived {
      assert Derived(params) == before + [last];
      ByNameMore(before, last);
    } else {
      assert Derived(params) == before + [] == before;
    }
  }

  lemma {:induction false} NoneOfDerived(params: seq<Parameter>, name: string)
    ensures NoneDerived(params, name, false) <==> name !in ByName(Derived(params))
  {
    if params != [] {
      var n := |params| - 1;
      NoneOfDerived(params[..n], name);
      DerivedSnoc(params);
      NoneSnoc(params, name, false);
    }
  }

  lemma {:induction false} LastOfDerived(params: seq<Parameter>, name: string, k: nat)
    requires LastDerivedIs(params, name, false, k)
    ensures name in ByName(Derived(params)) && ByName(Derived(params))[name] == params[k]
  {
    var n := |params| - 1;
    DerivedSnoc(params);
    if k < n {
      assert !DerivedRow(params[n], name, false);
      LastOfDerived(params[..n], name, k);
    }
  }

  lemma ActiveDerivedSnoc(params: seq<Parameter>)
    requires params != []
    ensures var last, before := params[|params| - 1], ActiveDerived(params[..|params| - 1]);
            ByName(ActiveDerived(params)) ==
              if last.isActive && last.isDerived then ByName(before)[last.name := last] else ByName(before)
  {
    var last, before := params[|params| - 1], ActiveDerived(params[..|params| - 1]);
    if last.isActive && last.isDerived {
      assert ActiveDerived(params) == before + [last];
      ByNameMore(before, last);
    } else {
      assert ActiveDerived(params) == before + [] == before;
    }
  }

  lemma {:induction false} NoneOfActiveDerived(params: seq<Parameter>, name: string)
    ensures NoneDerived(params, name, true) <==> name !in ByName(ActiveDerived(params))
  {
    if params != [] {
      var n := |params| - 1;
      NoneOfActiveDerived(params[..n], name);
      ActiveDerivedSnoc(params);
      NoneSnoc(params, name, true);
    }
  }

  lemma {:induction false} LastOfActiveDerived(params: seq<Parameter>, name: string, k: nat)
    requires LastDerivedIs(params, name, true, k)
    ensures name in ByName(ActiveDerived(params)) && ByName(ActiveDerived(params))[name] == params[k]
  {
    var n := |params| - 1;
    ActiveDerivedSnoc(params);
    if k < n {
      assert !DerivedRow(params[n], name, true);
      LastOfActiveDerived(params[..n], name, k);
    }
  }

  /** On load a name has the equation of the last derived global row, or else of the last derived
      project row, or else of its merged definition, if that is derived. */
  lemma OnLoadUses(chain: seq<Template>, merged: Dict<string, Definition>, proj: seq<Parameter>, glob: seq<Parameter>,
                   name: string)
    requires MergedFrom(merged, chain)
    ensures var byName := OnLoadByName(merged, proj, glob);
            && (forall k: nat | LastDerivedIs(glob, name, false, k) :: name in byName && byName[name] == glob[k])
            && (NoneDerived(glob, name, false) ==>
                  forall k: nat | LastDerivedIs(proj, name, false, k) :: name in byName && byName[name] == proj[k])
            && (NoneDerived(glob, name, false) && NoneDerived(proj, name, false) ==>
                  && (name in byName <==> name in merged.m && merged.m[name].0.isDerived)
                  && (name in byName ==> byName[name] == merged.m[name].0))
  {
    var tmpl := MergedParameters(merged);
    ByNameConcat(Derived(tmpl) + Derived(proj), Derived(glob));
    ByNameConcat(Derived(tmpl), Derived(proj));
    NoneOfDerived(glob, name);
    NoneOfDerived(proj, name);
    NoneOfDerived(tmpl, name);
    MergedRow(chain, merged, name);
    forall k: nat | LastDerivedIs(glob, name, false, k) ensures ByName(Derived(glob))[name] == glob[k] {
      LastOfDerived(glob, name, k);
    }
    forall k: nat | LastDerivedIs(proj, name, false, k) ensures ByName(Derived(proj))[name] == proj[k] {
      LastOfDerived(proj, name, k);
    }
    forall k: nat | LastDerivedIs(tmpl, name, false, k) ensures ByName(Derived(tmpl))[name] == tmpl[k] {
      LastOfDerived(tmpl, name, k);
    }
  }

  lemma MergedRow(chain: seq<Template>, merged: Dict<string, Definition>, name: string)
    requires MergedFrom(merged, chain)
    ensures var tmpl := MergedParameters(merged);
            && (name in merged.m && merged.m[name].0.isDerived ==>
                  exists k: nat :: LastDerivedIs(tmpl, name, false, k) && tmpl[k] == merged.m[name].0)
            && (name !in merged.m || !merged.m[name].0.isDerived ==> NoneDerived(tmpl, name, false))
  {
    var tmpl := MergedParameters(merged);
    forall i | 0 <= i < |merged.order|
      ensures tmpl[i] == merged.m[merged.order[i]].0 && tmpl[i].name == merged.order[i] {
      assert merged.order[i] in merged.order;
      NearestMeans(chain, merged.order[i]);
      var t :| NearestAt(chain, merged.order[i], Nearest(chain, merged.order[i]).value, t);
    }
    if name in merged.m && merged.m[name].0.isDerived {
      var k :| 0 <= k < |merged.order| && merged.order[k] == name;
      assert LastDerivedIs(tmpl, name, false, k);
    }
  }

  /** Row `k` of template `t` is the last active derived one of its name, and no template nearer
      the root has any. */
  ghost predicate RootMost(chain: seq<Template>, name: string, t: nat, k: nat) {
    t < |chain| && LastDerivedIs(chain[t].parameters, name, true, k)
    && forall j | t < j < |chain| :: NoneDerived(chain[j].parameters, name, true)
  }

  ghost predicate NoneInChain(chain: seq<Template>, name: string) {
    forall j | 0 <= j < |chain| :: NoneDerived(chain[j].parameters, name, true)
  }

  lemma {:induction false} NoneChanges(chain: seq<Template>, name: string)
    ensures NoneInChain(chain, name) <==> name !in ByName(ChainDerived(chain))
  {
    if chain != [] {
      NoneOfActiveDerived(chain[0].parameters, name);
      NoneChanges(chain[1..], name);
      ByNameConcat(ActiveDerived(chain[0].parameters), ChainDerived(chain[1..]));
      assert NoneInChain(chain, name) <==> NoneDerived(chain[0].parameters, name, true) && NoneInChain(chain[1..], name)
      by {
        assert forall j | 0 < j < |chain| :: chain[1..][j - 1] == chain[j];
      }
    }
  }

  /** After a change a name has the equation of the last active derived row of the root-most
      template that has any. */
  lemma {:induction false} ChangeUses(chain: seq<Template>, name: string, t: nat, k: nat)
    requires RootMost(chain, name, t, k)
    ensures name in ByName(ChainDerived(chain)) && ByName(ChainDerived(chain))[name] == chain[t].parameters[k]
  {
    var rest := chain[1..];
    ByNameConcat(ActiveDerived(chain[0].parameters), ChainDerived(rest));
    assert forall j | 0 <= j < |rest| :: rest[j] == chain[j + 1];
    if t > 0 {
      ChangeUses(rest, name, t - 1, k);
    } else {
      assert NoneInChain(rest, name);
      NoneChanges(rest, name);
      LastOfActiveDerived(chain[0].parameters, name, k);
    }
  }
}
