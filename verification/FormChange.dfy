/** What a form shows after a change: the fills of the data sources and the re-evaluated
    derived parameters, put together. */
module FormChange {
  import opened PyData
  import opened Formula
  import opened TopoSort
  import opened Equation
  import opened Resolver
  import opened Inheritance
  import opened Redefinition
  import Datasource
  import Cascade

  /** One field of the answer; `source` is what a data source said about it besides the value. */
  datatype Field = Field(prefill: Datasource.Json, source: Option<Datasource.Enrichment>)

  /** A derived value replaces the prefill of a data source; nothing else of either is lost. */
  ghost predicate Combines(ds: Datasource.Enrichments, derived: map<string, string>, result: map<string, Field>) {
    && result.Keys == ds.Keys + derived.Keys
    && (forall n | n in result :: result[n].source == if n in ds then Some(ds[n]) else None)
    && (forall n | n in derived :: result[n].prefill == Datasource.Data(derived[n]))
    && (forall n | n in ds && n !in derived :: result[n].prefill == ds[n].prefill)
  }

  function WithDerived(result: map<string, Field>, name: string, value: string): map<string, Field> {
    var field := if name in result then result[name] else Field(Datasource.Null, None);
    result[name := field.(prefill := Datasource.Data(value))]
  }

  method Combine(ds: Datasource.Enrichments, derived: Context<string>) returns (result: map<string, Field>)
    ensures Combines(ds, derived.m, result)
  {
    result := map n | n in ds :: Field(ds[n].prefill, Some(ds[n]));
    for i := 0 to |derived.order|
      invariant Combines(ds, Firsts(derived, i), result)
    {
      var name := derived.order[i];
      FirstsSnoc(derived, i);
      CombineOne(ds, Firsts(derived, i), result, name, derived.m[name]);
      result := WithDerived(result, name, derived.m[name]);
    }
    FirstsAll(derived);
  }

  ghost function Firsts(derived: Context<string>, i: nat): map<string, string>
    requires i <= |derived.order|
  {
    map n | n in derived.order[..i] :: derived.m[n]
  }

  lemma FirstsSnoc(derived: Context<string>, i: nat)
    requires i < |derived.order|
    ensures var name := derived.order[i];
            name !in Firsts(derived, i) && Firsts(derived, i + 1) == Firsts(derived, i)[name := derived.m[name]]
  {
    assert derived.order[..i + 1] == derived.order[..i] + [derived.order[i]];
  }

  lemma FirstsAll(derived: Context<string>)
    ensures Firsts(derived, |derived.order|) == derived.m
  {
    assert derived.order[..|derived.order|] == derived.order;
  }

  lemma CombineOne(ds: Datasource.Enrichments, done: map<string, string>, result: map<string, Field>, name: string,
                   value: string)
    requires Combines(ds, done, result) && name !in done
    ensures Combines(ds, done[name := value], WithDerived(result, name, value))
  {
  }

  // ----- the handler -----

  /** A Python value as the data sources and as the formulas see it. */
  datatype Codec = Codec(sent: Value -> Datasource.Json, filled: Datasource.Json -> Value)

  function Sent(codec: Codec, current: Context<Value>): Cascade.Params {
    map n | n in current.m :: codec.sent(current.m[n])
  }

  /** `steps` account for the cascade, `form` for the derived values over what was submitted,
      and `r` combines the two; a blocking error, a cycle or a failed evaluation is raised. */
  ghost predicate HandledBy(rt: Runtime, codec: Codec, chain: seq<Template>, sources: seq<Datasource.Source>,
                            find: Datasource.Finder, remote: Cascade.Remote, changed: string, current: Context<Value>,
                            steps: seq<Cascade.Step>, merged: Option<Datasource.Enrichments>, form: FormValues,
                            r: Outcome<map<string, Field>>)
  {
    && Cascade.AccountsFor(sources, find, remote, changed, Sent(codec, current), steps, merged)
    && (merged == None ==> r.Raise?)
    && (merged.Some? ==>
          && ChangedFrom(rt, chain, current, form)
          && (r.Ok? <==> form.Values?)
          && (r.Ok? ==> Combines(merged.value, form.prefill, r.value)))
  }

  ghost predicate Handles(rt: Runtime, codec: Codec, chain: seq<Template>, sources: seq<Datasource.Source>,
                          find: Datasource.Finder, remote: Cascade.Remote, changed: string, current: Context<Value>,
                          r: Outcome<map<string, Field>>)
  {
    exists steps, merged, form ::
      HandledBy(rt, codec, chain, sources, find, remote, changed, current, steps, merged, form, r)
  }

  method ResolveOnChange(rt: Runtime, codec: Codec, chain: seq<Template>, sources: seq<Datasource.Source>,
                         find: Datasource.Finder, remote: Cascade.Remote, changed: string, current: Context<Value>)
    returns (r: Outcome<map<string, Field>>)
    ensures Handles(rt, codec, chain, sources, find, remote, changed, current, r)
  {
    var merged, visited := Cascade.OnChangeCascade(sources, find, remote, changed, Sent(codec, current));
    ghost var steps :| Cascade.AccountsFor(sources, find, remote, changed, Sent(codec, current), steps, merged);
    ghost var form := NoValues(Circular([]));
    if merged == None {
      r := Raise("DataSourceError");
    } else {
      var derived := ReEvaluateDerivedParams(rt, chain, current);
      form := derived;
      if derived.NoValues? {
        r := Raise("DerivedParamError");
      } else {
        var values := InOrder(rt, ChainDerived(chain), derived.ctx);
        var result := Combine(merged.value, values);
        r := Ok(result);
      }
    }
    assert HandledBy(rt, codec, chain, sources, find, remote, changed, current, steps, merged, form, r);
  }

  /** The derived values as a dictionary, in the order of the parameters. */
  method InOrder(rt: Runtime, params: seq<Parameter>, ctx: Context<Value>) returns (values: Context<string>)
    ensures values.m == Prefill(rt, params, ctx)
  {
    values := Dict([], map[]);
    assert params[..0] == [];
    for i := 0 to |params|
      invariant values.m == Prefill(rt, params[..i], ctx)
    {
      PrefillSnoc(rt, params, i, ctx);
      var name := params[i].name;
      if name in ctx.m {
        values := values.Set(name, ValueText(rt, ctx.m[name]));
      }
    }
    assert params[..|params|] == params;
  }

  lemma PrefillSnoc(rt: Runtime, params: seq<Parameter>, i: nat, ctx: Context<Value>)
    requires i < |params|
    ensures var before, name := Prefill(rt, params[..i], ctx), params[i].name;
            Prefill(rt, params[..i + 1], ctx) ==
              if name in ctx.m then before[name := ValueText(rt, ctx.m[name])] else before
  {
    assert params[..i + 1] == params[..i] + [params[i]];
    assert forall p :: p in params[..i + 1] <==> p in params[..i] || p == params[i];
  }

  // ----- when the derived values are those of the updated form -----

  /** A source that some reachable parameter triggers may fill in `name`. */
  ghost predicate MayFill(sources: seq<Datasource.Source>, changed: string, name: string) {
    exists s, x ::
      s in sources && Cascade.Fills(s, name) && Cascade.Reaches(sources, changed, x) && Cascade.TriggeredBy(s, x)
  }

  /** No derived expression reads what the change may fill in, unless it is derived itself. */
  ghost predicate FillsUnread(sys: System<Value>, sources: seq<Datasource.Source>, changed: string) {
    forall k | MayFill(sources, changed, k) && k !in sys.defined ::
      forall n | n in sys.defined && n in sys.uses :: k !in Reads(sys, n)
  }

  /** The submitted values with what the data sources filled in. */
  ghost predicate IsUpdated(codec: Codec, current: Context<Value>, ds: Datasource.Enrichments, updated: Context<Value>)
  {
    updated.m == current.m + map n | n in ds && ds[n].prefill != Datasource.Null :: codec.filled(ds[n].prefill)
  }

  lemma {:induction false} MergedHasStep(steps: seq<Cascade.Step>, name: string)
    requires name in Cascade.Merged(steps)
    ensures exists j ::
              0 <= j < |steps| && name in steps[j].filled && steps[j].filled[name] == Cascade.Merged(steps)[name]
  {
    var n := |steps| - 1;
    if name !in steps[n].filled {
      MergedHasStep(steps[..n], name);
      var j :| 0 <= j < n && name in steps[..n][j].filled
               && steps[..n][j].filled[name] == Cascade.Merged(steps[..n])[name];
      assert steps[j] == steps[..n][j];
    }
  }

  lemma {:induction false} LastFillAuto(find: Datasource.Finder, mapping: seq<Datasource.Mapping>, raw: Datasource.Json,
                                        name: string)
    requires Datasource.LastFill(find, mapping, raw, name) != Datasource.Null
    ensures exists m :: m in mapping && m.autoFill && m.toParameter == name
  {
    var n := |mapping| - 1;
    var m := mapping[n];
    if m.toParameter == name && m.autoFill {
      assert m in mapping;
    } else {
      LastFillAuto(find, mapping[..n], raw, name);
      var m' :| m' in mapping[..n] && m'.autoFill && m'.toParameter == name;
      assert m' in mapping;
    }
  }

  lemma {:induction false} StepCounts(steps: seq<Cascade.Step>, j: nat)
    requires j < |steps|
    ensures Cascade.Count(steps, steps[j].source) > 0
  {
    var n := |steps| - 1;
    if j < n {
      assert steps[..n][j] == steps[j];
      StepCounts(steps[..n], j);
    }
  }

  lemma StepFills(sources: seq<Datasource.Source>, find: Datasource.Finder, remote: Cascade.Remote, s: Cascade.Step,
                  request: nat, name: string)
    requires Cascade.AnsweredBy(sources, find, remote, s, request)
    requires name in s.filled && s.filled[name].prefill != Datasource.Null
    ensures Cascade.Fills(sources[s.source], name)
  {
    LastFillAuto(find, sources[s.source].mapping, s.reply.raw, name);
  }

  /** Only what may be filled in is. */
  lemma MergedMayFill(sources: seq<Datasource.Source>, find: Datasource.Finder, remote: Cascade.Remote, changed: string,
                      params: Cascade.Params, steps: seq<Cascade.Step>, merged: Option<Datasource.Enrichments>,
                      name: string)
    requires Cascade.AccountsFor(sources, find, remote, changed, params, steps, merged) && merged.Some?
    requires name in merged.value && merged.value[name].prefill != Datasource.Null
    ensures MayFill(sources, changed, name)
  {
    MergedHasStep(steps, name);
    var j :| 0 <= j < |steps| && name in steps[j].filled && steps[j].filled[name] == Cascade.Merged(steps)[name];
    AnsweredAt(sources, find, remote, steps, j);
    StepFills(sources, find, remote, steps[j], j, name);
    StepCounts(steps, j);
    FilledByReached(sources, changed, steps[j].source, name, Cascade.Count(steps, steps[j].source));
  }

  lemma AnsweredAt(sources: seq<Datasource.Source>, find: Datasource.Finder, remote: Cascade.Remote,
                   steps: seq<Cascade.Step>, j: nat)
    requires Cascade.Answered(sources, find, remote, steps, 0) && j < |steps|
    ensures Cascade.AnsweredBy(sources, find, remote, steps[j], j)
  {
    assert Cascade.AnsweredBy(sources, find, remote, steps[j], 0 + j);
  }

  lemma FilledByReached(sources: seq<Datasource.Source>, changed: string, i: nat, name: string, count: nat)
    requires i < |sources| && Cascade.Fills(sources[i], name) && count > 0
    requires count ==
             if exists x :: Cascade.Reaches(sources, changed, x) && Cascade.TriggeredBy(sources[i], x) then 1 else 0
    ensures MayFill(sources, changed, name)
  {
    var x :| Cascade.Reaches(sources, changed, x) && Cascade.TriggeredBy(sources[i], x);
    assert sources[i] in sources;
  }

  lemma AllMayFill(sources: seq<Datasource.Source>, find: Datasource.Finder, remote: Cascade.Remote, changed: string,
                   params: Cascade.Params, steps: seq<Cascade.Step>, ds: Datasource.Enrichments)
    requires Cascade.AccountsFor(sources, find, remote, changed, params, steps, Some(ds))
    ensures forall k | k in ds && ds[k].prefill != Datasource.Null :: MayFill(sources, changed, k)
  {
    forall k | k in ds && ds[k].prefill != Datasource.Null ensures MayFill(sources, changed, k) {
      MergedMayFill(sources, find, remote, changed, params, steps, Some(ds), k);
    }
  }

  lemma InputsSame(sys: System<Value>, codec: Codec, sources: seq<Datasource.Source>, changed: string,
                   current: Context<Value>, updated: Context<Value>, ds: Datasource.Enrichments)
    requires FillsUnread(sys, sources, changed) && IsUpdated(codec, current, ds, updated)
    requires forall n | n in ds && ds[n].prefill != Datasource.Null :: MayFill(sources, changed, n)
    ensures SameInputs(sys, current, updated)
  {
    forall n, d | n in sys.defined && n in sys.uses && d in Reads(sys, n) && d !in sys.defined
      ensures SameAt(current, updated, d)
    {
      assert !(d in ds && ds[d].prefill != Datasource.Null);
    }
  }

  lemma SoundBefore(rt: Runtime, byName: map<string, Parameter>, current: Context<Value>, updated: Context<Value>)
    requires Sound(rt, byName, updated) && current.m.Keys <= updated.m.Keys
    ensures Sound(rt, byName, current)
  {
    forall n | n in byName ensures Footprint(rt, byName[n], current.m.Keys + byName.Keys) {
      FootprintShrinks(rt, byName[n], current.m.Keys + byName.Keys, updated.m.Keys + byName.Keys);
    }
  }

  lemma SameSolution(rt: Runtime, byName: map<string, Parameter>, sys: System<Value>, current: Context<Value>,
                     updated: Context<Value>, shown: Context<Value>, s: Context<Value>, n: string)
    requires sys == Equations(rt, byName) && Sound(rt, byName, updated) && current.m.Keys <= updated.m.Keys
    requires SameInputs(sys, current, updated) && !HasCycle(DerivedGraph(sys))
    requires Solves(sys, current, shown) && Solves(sys, updated, s) && n in sys.defined
    ensures n in shown.m && n in s.m && shown.m[n] == s.m[n]
  {
    EquationsFramed(rt, byName, updated);
    InputsDecide(sys, current, updated, shown, s, updated);
  }

  /** When the change can fill in nothing that a derived expression reads, the handler shows
      the derived values of the updated form, whatever the remote side answers. */
  lemma FillsUnreadDoNotMatter(rt: Runtime, codec: Codec, chain: seq<Template>, sources: seq<Datasource.Source>,
                               find: Datasource.Finder, remote: Cascade.Remote, changed: string,
                               current: Context<Value>, steps: seq<Cascade.Step>, ds: Datasource.Enrichments,
                               form: FormValues, result: map<string, Field>, updated: Context<Value>, s: Context<Value>,
                               n: string)
    requires HandledBy(rt, codec, chain, sources, find, remote, changed, current, steps, Some(ds), form, Ok(result))
    requires FillsUnread(Equations(rt, ByName(ChainDerived(chain))), sources, changed)
    requires IsUpdated(codec, current, ds, updated) && Sound(rt, ByName(ChainDerived(chain)), updated)
    requires Solves(Equations(rt, ByName(ChainDerived(chain))), updated, s)
    requires n in Equations(rt, ByName(ChainDerived(chain))).defined
    ensures n in s.m && n in result && result[n].prefill == Datasource.Data(ValueText(rt, s.m[n]))
  {
    var byName := ByName(ChainDerived(chain));
    var sys := Equations(rt, byName);
    AllMayFill(sources, find, remote, changed, Sent(codec, current), steps, ds);
    InputsSame(sys, codec, sources, changed, current, updated, ds);
    SoundBefore(rt, byName, current, updated);
    SameSolution(rt, byName, sys, current, updated, form.ctx, s, n);
    ShownPrefill(rt, ChainDerived(chain), form.ctx, ds, form.prefill, result, n);
  }

  lemma ShownPrefill(rt: Runtime, derived: seq<Parameter>, ctx: Context<Value>, ds: Datasource.Enrichments,
                     prefill: map<string, string>, result: map<string, Field>, n: string)
    requires prefill == Prefill(rt, derived, ctx) && Combines(ds, prefill, result) && n in ByName(derived) && n in ctx.m
    ensures n in result && result[n].prefill == Datasource.Data(ValueText(rt, ctx.m[n]))
  {
    ByNameMembers(derived);
    assert ByName(derived)[n] in derived;
  }

  // ----- and when they are not -----

  /** One source, triggered by `changed`, that fills `target` with the value that it finds in
      the payload; the remote side always answers with that payload. */
  ghost predicate Fetches(s: Datasource.Source, find: Datasource.Finder, remote: Cascade.Remote, changed: string,
                          target: string, raw: Datasource.Json, value: Datasource.Json)
  {
    && Cascade.TriggeredBy(s, changed) && |s.mapping| == 1 && s.mapping[0].autoFill
    && s.mapping[0].toParameter == target
    && raw != Datasource.Null && value != Datasource.Null && find(s.mapping[0].remoteField, raw) == Some([value])
    && forall k, params :: remote(k, s, params) == Cascade.Payload(raw)
  }

  lemma {:induction false} CountAll(steps: seq<Cascade.Step>)
    requires forall i | 0 <= i < |steps| :: steps[i].source == 0
    ensures Cascade.Count(steps, 0) == |steps|
  {
    if steps != [] {
      CountAll(steps[..|steps| - 1]);
    }
  }

  lemma OneStep(s: Datasource.Source, find: Datasource.Finder, remote: Cascade.Remote, changed: string, target: string,
                raw: Datasource.Json, value: Datasource.Json, params: Cascade.Params, steps: seq<Cascade.Step>,
                merged: Option<Datasource.Enrichments>)
    requires Fetches(s, find, remote, changed, target, raw, value)
    requires Cascade.AccountsFor([s], find, remote, changed, params, steps, merged)
    ensures merged.Some? && |steps| == 1 && Cascade.AnsweredBy([s], find, remote, steps[0], 0)
            && merged.value == steps[0].filled
  {
    forall i | 0 <= i < |steps| ensures steps[i].source == 0 && steps[i].reply == Cascade.Payload(raw) {
      assert Cascade.AnsweredBy([s], find, remote, steps[i], 0 + i);
    }
    assert forall x | x in steps :: x.reply == Cascade.Payload(raw);
    assert merged.Some?;
    Cascade.ReachesSelf([s], changed);
    assert Cascade.Count(steps, 0) == 1;
    CountAll(steps);
    assert Cascade.AnsweredBy([s], find, remote, steps[0], 0 + 0);
    assert steps == [steps[0]];
    Cascade.MergedOne(steps[0]);
  }

  lemma StepFillsTarget(s: Datasource.Source, find: Datasource.Finder, remote: Cascade.Remote, changed: string,
                        target: string, raw: Datasource.Json, value: Datasource.Json, step: Cascade.Step)
    requires Fetches(s, find, remote, changed, target, raw, value) && Cascade.AnsweredBy([s], find, remote, step, 0)
    ensures target in step.filled && step.filled[target].prefill == value
  {
    assert s.mapping[0] in s.mapping;
    assert Datasource.Targeted(find, s.mapping, raw, target);
    assert Datasource.LastFill(find, s.mapping, raw, target) == value;
  }

  /** The derived parameter `v` takes the value of the plain `a`; a change makes a data source
      fill in `a`. The handler then shows the new `a`, and `v` for the old one, although `v` of
      the updated form is the new value. */
  lemma FilledInputIsIgnored(rt: Runtime, codec: Codec, t: Template, v: Parameter, a: string, s: Datasource.Source,
                             find: Datasource.Finder, remote: Cascade.Remote, changed: string, current: Context<Value>,
                             raw: Datasource.Json, value: Datasource.Json, before: string, now: string,
                             r: Outcome<map<string, Field>>)
    requires t.parameters == [v] && Local(v) && v.isDerived && Takes(v, a) && Given(current, a, before)
    requires Fetches(s, find, remote, changed, a, raw, value) && codec.filled(value) == VStr(now) && now != ""
    requires Handles(rt, codec, [t], [s], find, remote, changed, current, r)
    ensures r.Ok? && a in r.value && r.value[a].prefill == value
    ensures v.name in r.value && r.value[v.name].prefill == Datasource.Data(before)
    ensures UpdatedShows(rt, v, a, current, now)
  {
    var steps, merged, form :| HandledBy(rt, codec, [t], [s], find, remote, changed, current, steps, merged, form, r);
    OneStep(s, find, remote, changed, a, raw, value, Sent(codec, current), steps, merged);
    StepFillsTarget(s, find, remote, changed, a, raw, value, steps[0]);
    DerivedShowsBefore(rt, t, v, a, current, form, before);
    UpdatedShowsNow(rt, v, a, current, now);
  }

  /** Every solution over the submitted values with the new `a` gives `v` that value. */
  ghost predicate UpdatedShows(rt: Runtime, v: Parameter, a: string, current: Context<Value>, now: string) {
    forall updated: Context<Value>, s: Context<Value> | updated.m == current.m[a := VStr(now)]
      && Solves(One(rt, v), updated, s) ::
      v.name in s.m && s.m[v.name] == VStr(now)
  }

  lemma UpdatedShowsNow(rt: Runtime, v: Parameter, a: string, current: Context<Value>, now: string)
    requires Takes(v, a) && now != ""
    ensures UpdatedShows(rt, v, a, current, now)
  {
    forall updated: Context<Value>, s: Context<Value> | updated.m == current.m[a := VStr(now)]
      && Solves(One(rt, v), updated, s)
      ensures v.name in s.m && s.m[v.name] == VStr(now)
    {
      OneValue(rt, v, a, updated, s, now);
    }
  }

  lemma DerivedShowsBefore(rt: Runtime, t: Template, v: Parameter, a: string, current: Context<Value>, form: FormValues,
                           before: string)
    requires t.parameters == [v] && Local(v) && v.isDerived && Takes(v, a) && Given(current, a, before)
    requires ChangedFrom(rt, [t], current, form)
    ensures form.Values? && form.prefill.Keys == {v.name} && form.prefill[v.name] == before
  {
    OneDefinition(v);
    OneTemplate(t, v);
    ShowsBefore(rt, ChainDerived([t]), v, a, current, form, before);
  }

  lemma ShowsBefore(rt: Runtime, derived: seq<Parameter>, v: Parameter, a: string, current: Context<Value>,
                    form: FormValues, before: string)
    requires Takes(v, a) && Given(current, a, before) && derived == [v]
    requires form.NoValues? ==> !form.why.Resolved?
    requires form.NoValues? && form.why.Circular? <==> HasCycle(DerivedGraph(One(rt, v)))
    requires form.Values? ==> form.prefill == Prefill(rt, derived, form.ctx)
    requires Sound(rt, map[v.name := v], current) ==>
               && (form.Values? ==> Solves(One(rt, v), current, form.ctx))
               && (form.NoValues? && form.why.Failed? ==> forall s :: !Solves(One(rt, v), current, s))
    ensures form.Values? && form.prefill.Keys == {v.name} && form.prefill[v.name] == before
  {
    Loads(rt, v, a, One(rt, v), derived, current, form, before);
  }
}
