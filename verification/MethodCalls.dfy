/** Formulas that call a method of a parameter's value: what they read is not what is recorded.
    When this decides whether a resolution succeeds, and one such formula in full. */
module MethodCalls {
  import opened PyData
  import opened Nesting
  import opened Formula
  import opened TopoSort
  import opened Equation
  import opened Resolver

  // ----- any chain, method and arguments -----

  /** A call of an attribute of the chain `q`, or of an attribute of that, and so on. */
  ghost predicate IsCallOn(e: Expr, q: Path) {
    && e.Apply? && e.op == "call" && e.args != []
    && ChainParts(e.args[0]).Some? && q < ChainParts(e.args[0]).value
  }

  /** The parameter is a formula with such a call at its top level; of the names in play the
      chain `q` reads at most its own, and no global is in its way. */
  ghost predicate CallsOn(rt: Runtime, p: Parameter, q: Path, names: set<string>) {
    var expr := Expression(p);
    && |q| > 0 && q[0] !in rt.globals && Clear(rt, q, names)
    && expr != "" && ExpressionType(expr).FormulaKind? && rt.parse(expr).Some?
    && exists i :: 0 <= i < |rt.parse(expr).value| && IsCallOn(rt.parse(expr).value[i], q)
  }

  /** `ChainableUndefined` lets attributes of a missing value pass, but not a call. */
  ghost predicate MissingCallsRaise(rt: Runtime) {
    forall os: seq<Obj> | os != [] && os[0] == Undefined :: rt.apply("call", os).Raise?
  }

  lemma {:induction false} AttributesOfMissing(rt: Runtime, kids: map<string, Tree<Value>>, p: Path, k: nat)
    requires 0 < k <= |p| && Walk(rt, kids, p[..k]) == Ok(Undefined)
    ensures Walk(rt, kids, p) == Ok(Undefined)
    decreases |p|
  {
    if k == |p| {
      assert p[..k] == p;
    } else {
      assert p[..|p| - 1][..k] == p[..k];
      AttributesOfMissing(rt, kids, p[..|p| - 1], k);
    }
  }

  lemma MissingChain(rt: Runtime, ctx: Context<Value>, e: Expr, q: Path)
    requires ChainParts(e).Some? && q < ChainParts(e).value
    requires |q| > 0 && Clear(rt, q, ctx.m.Keys) && q[0] !in rt.globals && Join(q, '.') !in ctx.m
    ensures Eval(rt, Nested(Entries(ctx)), e) == Ok(Undefined)
  {
    var p, kids := ChainParts(e).value, Nested(Entries(ctx));
    WalkClear(rt, ctx, q);
    WalkNowhere(rt, q);
    assert p[..|q|] == q;
    AttributesOfMissing(rt, kids, p, |q|);
    EvalIsWalk(rt, kids, e);
  }

  lemma CallRaises(rt: Runtime, ctx: Context<Value>, e: Expr, q: Path)
    requires IsCallOn(e, q) && MissingCallsRaise(rt)
    requires |q| > 0 && Clear(rt, q, ctx.m.Keys) && q[0] !in rt.globals && Join(q, '.') !in ctx.m
    ensures Eval(rt, Nested(Entries(ctx)), e).Raise?
  {
    MissingChain(rt, ctx, e.args[0], q);
  }

  lemma {:induction false} OneRaises(rt: Runtime, kids: map<string, Tree<Value>>, es: seq<Expr>, i: nat)
    requires i < |es| && Eval(rt, kids, es[i]).Raise?
    ensures EvalAll(rt, kids, es).Raise?
  {
    if i > 0 {
      OneRaises(rt, kids, es[1..], i - 1);
    }
  }

  /** Without the receiver the formula raises. */
  lemma MissingReceiverRaises(rt: Runtime, p: Parameter, q: Path, names: set<string>, ctx: Context<Value>)
    requires CallsOn(rt, p, q, names) && MissingCallsRaise(rt) && ctx.m.Keys <= names && Join(q, '.') !in ctx.m
    ensures Evaluate(rt, p, ctx).Raise?
  {
    var es, d := rt.parse(Expression(p)).value, CoerceAll(rt, ctx);
    var i :| 0 <= i < |es| && IsCallOn(es[i], q);
    ClearShrinks(rt, q, d.m.Keys, names);
    CallRaises(rt, d, es[i], q);
    OneRaises(rt, Nested(Entries(d)), es, i);
  }

  /** Apart from what `x` reads of `r`, the records order all reads. */
  ghost predicate OrdersOthers(sys: System<Value>, x: string, r: string) {
    forall n, h | n in sys.uses && n in sys.hidden && h in sys.hidden[n] && h in sys.uses && !(n == x && h == r) ::
      Leads(DerivedGraph(sys), n, h)
  }

  lemma ReceiverMissingRaises(rt: Runtime, byName: map<string, Parameter>, base: Context<Value>, x: string, q: Path)
    requires x in byName && CallsOn(rt, byName[x], q, base.m.Keys + byName.Keys) && MissingCallsRaise(rt)
    ensures var sys := Equations(rt, byName);
            && x in sys.defined
            && forall c: Context<Value> | c.m.Keys <= base.m.Keys + sys.uses.Keys && Join(q, '.') !in c.m ::
              sys.eval(x, c).Raise?
  {
    var sys, names := Equations(rt, byName), base.m.Keys + byName.Keys;
    assert sys.uses.Keys == byName.Keys;
    forall c: Context<Value> | c.m.Keys <= base.m.Keys + sys.uses.Keys && Join(q, '.') !in c.m
      ensures sys.eval(x, c).Raise?
    {
      assert c.m.Keys <= names;
      MissingReceiverRaises(rt, byName[x], q, names, c);
      RaisesAsEvaluated(rt, byName, x, c);
    }
  }

  lemma RaisesAsEvaluated(rt: Runtime, byName: map<string, Parameter>, x: string, c: Context<Value>)
    requires x in byName
    ensures Equations(rt, byName).eval(x, c).Raise? <==> Evaluate(rt, byName[x], c).Raise?
  {
  }

  /** The receiver is not derived, or the records lead to it all the same. */
  ghost predicate ReceiverFirst(sys: System<Value>, x: string, r: string) {
    r !in sys.uses || Leads(DerivedGraph(sys), x, r)
  }

  ghost predicate AllFootprints(rt: Runtime, byName: map<string, Parameter>, base: Context<Value>) {
    "" !in byName && forall n | n in byName :: Footprint(rt, byName[n], base.m.Keys + byName.Keys)
  }

  lemma SoundExactly(rt: Runtime, byName: map<string, Parameter>, base: Context<Value>, x: string, q: Path, r: string)
    requires x in byName && CallsOn(rt, byName[x], q, base.m.Keys + byName.Keys) && r == Join(q, '.')
    requires AllFootprints(rt, byName, base) && OrdersOthers(Equations(rt, byName), x, r)
    ensures Sound(rt, byName, base) <==> ReceiverFirst(Equations(rt, byName), x, r)
  {
    CallIsHidden(rt, byName[x], q, r, base.m.Keys + byName.Keys);
    assert r in Equations(rt, byName).hidden[x];
  }

  lemma SomeOrderRaises(sys: System<Value>, order: seq<string>, base: Context<Value>, x: string, r: string)
    requires CompleteOrder(DerivedGraph(sys), order) && x in sys.defined && sys.defined <= sys.uses.Keys && r !in base.m
    requires forall c: Context<Value> | c.m.Keys <= base.m.Keys + sys.uses.Keys && r !in c.m :: sys.eval(x, c).Raise?
    requires !ReceiverFirst(sys, x, r)
    ensures exists other :: CompleteOrder(DerivedGraph(sys), other) && Pass(sys, other, base).Raise?
  {
    var other, i := CanPrecede(DerivedGraph(sys), order, x, r);
    FailsWithout(sys, other, i, base, r);
  }

  /** Where calling a missing value raises, and one complete order succeeds: every complete
      order does, exactly when the receiver is not derived or the records lead to it all the
      same; and then all give the same values. */
  lemma EveryOrderSucceedsExactly(rt: Runtime, byName: map<string, Parameter>, base: Context<Value>, x: string, q: Path,
                                  r: string, order: seq<string>)
    requires x in byName && CallsOn(rt, byName[x], q, base.m.Keys + byName.Keys) && r == Join(q, '.')
    requires MissingCallsRaise(rt) && r !in base.m
    requires AllFootprints(rt, byName, base) && OrdersOthers(Equations(rt, byName), x, r)
    requires CompleteOrder(DerivedGraph(Equations(rt, byName)), order) && Pass(Equations(rt, byName), order, base).Ok?
    ensures EveryOrderSucceeds(Equations(rt, byName), base) <==> ReceiverFirst(Equations(rt, byName), x, r)
    ensures ReceiverFirst(Equations(rt, byName), x, r) ==> SameValues(Equations(rt, byName), base, order)
  {
    var sys := Equations(rt, byName);
    SoundExactly(rt, byName, base, x, q, r);
    if ReceiverFirst(sys, x, r) {
      EquationsFramed(rt, byName, base);
      forall other | CompleteOrder(DerivedGraph(sys), other)
        ensures Pass(sys, other, base).Ok? && Pass(sys, other, base).value.m == Pass(sys, order, base).value.m
      {
        AllSucceed(sys, order, other, base);
      }
    } else {
      ReceiverMissingRaises(rt, byName, base, x, q);
      SomeOrderRaises(sys, order, base, x, r);
    }
  }

  ghost predicate EveryOrderSucceeds(sys: System<Value>, base: Context<Value>) {
    forall other | CompleteOrder(DerivedGraph(sys), other) :: Pass(sys, other, base).Ok?
  }

  ghost predicate SameValues(sys: System<Value>, base: Context<Value>, order: seq<string>)
    requires Pass(sys, order, base).Ok?
  {
    forall other | CompleteOrder(DerivedGraph(sys), other) ::
      Pass(sys, other, base).Ok? && Pass(sys, other, base).value.m == Pass(sys, order, base).value.m
  }

  lemma CallIsHidden(rt: Runtime, p: Parameter, q: Path, r: string, names: set<string>)
    requires CallsOn(rt, p, q, names) && r == Join(q, '.')
    ensures r in HiddenReads(rt, p)
  {
    var es := rt.parse(Expression(p)).value;
    var i :| 0 <= i < |es| && IsCallOn(es[i], q);
    var chain := ChainParts(es[i].args[0]).value;
    assert chain[..|q|] == q && r in Receivers(chain);
    assert r in Hidden(es[i].args[0]);
    HiddenAmong(es[i].args, 0, r);
    HiddenAmong(es, i, r);
  }

  lemma {:induction false} HiddenAmong(es: seq<Expr>, i: nat, r: string)
    requires i < |es| && r in Hidden(es[i])
    ensures r in HiddenAll(es)
  {
    if i > 0 {
      HiddenAmong(es[1..], i - 1, r);
    }
  }

  // ----- one call -----

  /** `{{ a.b.upper() }}` is recorded to read `a.b.upper`, not the parameter `a.b`. */
  const METHOD_CALL := Apply("call", [Getattr(Getattr(Name("a"), "b"), "upper")])

  lemma MethodCallRefs()
    ensures Refs([METHOD_CALL]) == {"a.b.upper"}
  {
    assert NodeToPath(Getattr(Name("a"), "b")) == Some("a" + "." + "b");
    assert "a" + "." + "b" == "a.b" && "a.b" + "." + "upper" == "a.b.upper";
    assert NodeToPath(METHOD_CALL.args[0]) == Some("a.b.upper");
    assert METHOD_CALL.args[..0] == [] && [METHOD_CALL][..0] == [];
    assert OccurrencesAll(METHOD_CALL.args) == [] + ["a.b.upper"];
    assert OccurrencesAll([METHOD_CALL]) == [] + Occurrences(METHOD_CALL);
  }

  const TEXT := "{{ a.b.upper() }}"

  /** Jinja2 as far as this formula goes: it parses, and neither name is taken by a global
      or by a method of `dict`. */
  ghost predicate Parses(rt: Runtime) {
    rt.parse(TEXT) == Some([METHOD_CALL]) && "a" !in rt.globals && "b" !in rt.dictAttrs
  }

  /** What the formula shows for what `a.b` is. */
  function Shown(rt: Runtime, receiver: Obj): Outcome<string> {
    match GetAttr(rt, receiver, "upper")
    case Raise(err) => Raise(err)
    case Ok(f) =>
      match rt.apply("call", [f])
      case Raise(err) => Raise(err)
      case Ok(o) => Ok(rt.strip(Concat(rt, [o])))
  }

  function Receiver(rt: Runtime, ctx: Context<Value>): Obj {
    if "a.b" in ctx.m then Val(Coerce(rt, ctx.m["a.b"])) else Undefined
  }

  lemma EvalReceiver(rt: Runtime, ctx: Context<Value>)
    requires Clear(rt, ["a", "b"], ctx.m.Keys) && "a" !in rt.globals
    ensures Eval(rt, Nested(Entries(ctx)), Getattr(Name("a"), "b"))
            == Ok(if "a.b" in ctx.m then Val(ctx.m["a.b"]) else Undefined)
  {
    var chain, p := Getattr(Name("a"), "b"), ["a", "b"];
    assert ChainParts(Name("a")) == Some(["a"]);
    assert ChainParts(chain) == Some(["a"] + ["b"]);
    assert ["a"] + ["b"] == p;
    assert Join(p, '.') == "a.b" by { assert p[1..] == ["b"]; }
    EvalIsWalk(rt, Nested(Entries(ctx)), chain);
    WalkClear(rt, ctx, p);
    WalkNowhere(rt, p);
  }

  lemma EvalCall(rt: Runtime, kids: map<string, Tree<Value>>, receiver: Obj)
    requires Eval(rt, kids, Getattr(Name("a"), "b")) == Ok(receiver)
    ensures EvalAll(rt, kids, [METHOD_CALL])
         == match GetAttr(rt, receiver, "upper")
            case Raise(err) => Raise(err)
            case Ok(f) => (match rt.apply("call", [f]) case Raise(err) => Raise(err) case Ok(o) => Ok([o]))
  {
    assert METHOD_CALL.args[1..] == [] && [METHOD_CALL][1..] == [];
    var f := Eval(rt, kids, METHOD_CALL.args[0]);
    assert f == GetAttr(rt, receiver, "upper");
    if f.Ok? {
      assert [f.value] + [] == [f.value];
      assert EvalAll(rt, kids, METHOD_CALL.args) == Ok([f.value]);
      var r := rt.apply("call", [f.value]);
      assert Eval(rt, kids, METHOD_CALL) == r;
      if r.Ok? {
        assert [r.value] + [] == [r.value];
      }
    }
  }

  lemma FormulaShows(rt: Runtime, ctx: Context<Value>)
    requires Parses(rt) && Clear(rt, ["a", "b"], ctx.m.Keys)
    ensures EvaluateFormula(rt, TEXT, ctx) == Shown(rt, Receiver(rt, ctx))
  {
    var coerced := CoerceAll(rt, ctx);
    EvalReceiver(rt, coerced);
    EvalCall(rt, Nested(Entries(coerced)), Receiver(rt, ctx));
  }

  lemma CallShows(rt: Runtime, p: Parameter, ctx: Context<Value>)
    requires Parses(rt) && p.derivedExpression == Some(TEXT) && Clear(rt, ["a", "b"], ctx.m.Keys)
    ensures Evaluate(rt, p, ctx) == Shown(rt, Receiver(rt, ctx)) && Dependencies(rt, p) == {"a.b.upper"}
  {
    assert TEXT[0] == '{';
    FormulaShows(rt, ctx);
    MethodCallRefs();
  }

  /** So the resolver's theorems hold for it as long as `a.b` is not derived. */
  lemma CallFootprint(rt: Runtime, p: Parameter, names: set<string>)
    requires Parses(rt) && p.derivedExpression == Some(TEXT) && Clear(rt, ["a", "b"], names)
    ensures Footprint(rt, p, names) && HiddenReads(rt, p) == {"", "a", "a.b"}
  {
    assert TEXT[0] == '{';
    CallClean(rt, names);
    CallHidden(rt);
  }

  lemma ChainHere()
    ensures ChainParts(METHOD_CALL.args[0]) == Some(["a", "b", "upper"])
  {
    assert ChainParts(Getattr(Name("a"), "b")) == Some(["a"] + ["b"]);
    assert ["a"] + ["b"] == ["a", "b"] && ["a", "b"] + ["upper"] == ["a", "b", "upper"];
  }

  lemma CallClean(rt: Runtime, names: set<string>)
    requires Clear(rt, ["a", "b"], names)
    ensures CleanAll(rt, [METHOD_CALL], names)
  {
    ChainHere();
    var chain := METHOD_CALL.args[0];
    assert METHOD_CALL.args == [chain] && ["a", "b", "upper"][..2] == ["a", "b"];
    assert ClearWithin(rt, ["a", "b", "upper"], names);
    OneExpression(rt, chain, names);
    OneExpression(rt, METHOD_CALL, names);
  }

  /** A list of one expression. */
  lemma OneExpression(rt: Runtime, e: Expr, names: set<string>)
    ensures CleanAll(rt, [e], names) == Clean(rt, e, names) && HiddenAll([e]) == Hidden(e)
  {
    assert [e][1..] == [];
    assert HiddenAll([e][1..]) == {};
  }

  lemma CallHidden(rt: Runtime)
    ensures HiddenAll([METHOD_CALL]) == {"a", "a.b"}
  {
    ChainHere();
    var p := ["a", "b", "upper"];
    assert p[..1] == ["a"] && p[..2] == ["a", "b"] && ["a", "b"][1..] == ["b"];
    assert Join(p[..1], '.') == "a" && Join(p[..2], '.') == "a.b";
    assert Receivers(p) == {"a", "a.b"};
    assert METHOD_CALL.args == [METHOD_CALL.args[0]];
    OneExpression(rt, METHOD_CALL.args[0], {});
    OneExpression(rt, METHOD_CALL, {});
  }

  lemma PathsHere()
    ensures PathOf("a.b") == ["a", "b"] && PathOf("c") == ["c"] && PathOf("x") == ["x"]
  {
    SplitJoin(["a", "b"], '.');
    assert Join(["a", "b"], '.') == "a.b" by { assert ["a", "b"][1..] == ["b"]; }
    SplitOne("c", '.');
    SplitOne("x", '.');
  }

  lemma ClearHere(rt: Runtime, names: set<string>)
    requires Parses(rt) && names <= {"a.b", "c", "x"}
    ensures Clear(rt, ["a", "b"], names)
  {
    PathsHere();
    forall n | n in names ensures !Conflict(rt, ["a", "b"], PathOf(n)) {
      assert n == "a.b" || (|PathOf(n)| == 1 && PathOf(n)[0] != "a");
    }
  }

  lemma CallDependencies(rt: Runtime, p: Parameter)
    requires Parses(rt) && p.derivedExpression == Some(TEXT)
    ensures Dependencies(rt, p) == {"a.b.upper"}
  {
    assert TEXT[0] == '{';
    MethodCallRefs();
  }

  lemma WithoutValue(rt: Runtime, p: Parameter, c: Context<Value>)
    requires Parses(rt) && p.derivedExpression == Some(TEXT) && c == Dict([], map[])
    ensures Clear(rt, ["a", "b"], c.m.Keys) && Evaluate(rt, p, c) == Shown(rt, Undefined)
  {
    ClearHere(rt, c.m.Keys);
    CallShows(rt, p, c);
  }

  lemma WithValue(rt: Runtime, p: Parameter, c: Context<Value>, v: Value)
    requires Parses(rt) && p.derivedExpression == Some(TEXT) && c == Dict(["a.b"], map["a.b" := v])
    ensures Clear(rt, ["a", "b"], c.m.Keys) && Evaluate(rt, p, c) == Shown(rt, Val(Coerce(rt, v)))
  {
    ClearHere(rt, c.m.Keys);
    CallShows(rt, p, c);
  }

  lemma SameRecord(rt: Runtime, p: Parameter, c1: Context<Value>, c2: Context<Value>, v: Value)
    requires Parses(rt) && p.derivedExpression == Some(TEXT)
    requires c1 == Dict([], map[]) && c2 == Dict(["a.b"], map["a.b" := v])
    ensures forall d | d in Dependencies(rt, p) :: SameAt(c1, c2, d)
  {
    CallDependencies(rt, p);
    assert |"a.b.upper"| == 9 && |"a.b"| == 3;
  }

  /** Two contexts that agree on the record, one without `a.b` and one with it: the one shows
      what a missing value gives, the other what the value gives. */
  lemma MethodCallEscapesFootprint(rt: Runtime, p: Parameter, c1: Context<Value>, c2: Context<Value>, v: Value)
    requires Parses(rt) && p.derivedExpression == Some(TEXT)
    requires c1 == Dict([], map[]) && c2 == Dict(["a.b"], map["a.b" := v])
    ensures Clear(rt, ["a", "b"], c1.m.Keys) && Clear(rt, ["a", "b"], c2.m.Keys)
    ensures forall d | d in Dependencies(rt, p) :: SameAt(c1, c2, d)
    ensures Evaluate(rt, p, c1) == Shown(rt, Undefined) && Evaluate(rt, p, c2) == Shown(rt, Val(Coerce(rt, v)))
  {
    WithoutValue(rt, p, c1);
    WithValue(rt, p, c2, v);
    SameRecord(rt, p, c1, c2, v);
  }

  // ----- at the resolver -----

  /** `x` calls a method on `a.b`, which is derived itself, from the plain parameter `c`. */
  ghost predicate CallsDerived(rt: Runtime, x: Parameter, ab: Parameter) {
    && Parses(rt) && x.name == "x" && x.derivedExpression == Some(TEXT)
    && ab.name == "a.b" && ab.derivedExpression == Some("coalesce:" + "c")
  }

  /** The plain parameter has this text, and `a.b` at most a stale value. */
  ghost predicate Holds(base: Context<Value>, v: string) {
    base.m.Keys <= {"c", "a.b"} && "c" in base.m && base.m["c"] == VStr(v) && v != ""
  }

  function Both(rt: Runtime, x: Parameter, ab: Parameter): System<Value> {
    Equations(rt, map["x" := x, "a.b" := ab])
  }

  lemma PlainParts(expr: string)
    requires expr == "coalesce:" + "c"
    ensures ExpressionType(expr) == CoalesceKind && Split(expr, ':') == ["coalesce", "c"]
  {
    assert expr[..9] == "coalesce:" && expr[0] == 'c';
    assert expr == "coalesce" + [':'] + "c";
    SplitCut("coalesce", "c", ':');
    SplitOne("c", ':');
  }

  lemma DependsOnPlain(rt: Runtime, p: Parameter, ctx: Context<Value>, v: string)
    requires p.derivedExpression == Some("coalesce:" + "c") && "c" in ctx.m && ctx.m["c"] == VStr(v) && v != ""
    ensures Evaluate(rt, p, ctx) == Ok(v)
  {
    var expr := "coalesce:" + "c";
    PlainParts(expr);
    assert Split(expr, ':')[1..] == ["c"];
  }

  lemma PlainDependencies(rt: Runtime, p: Parameter)
    requires p.derivedExpression == Some("coalesce:" + "c")
    ensures Dependencies(rt, p) == {"c"}
  {
    var expr := "coalesce:" + "c";
    PlainParts(expr);
    assert Split(expr, ':')[1..] == ["c"];
  }

  lemma BothUse(rt: Runtime, x: Parameter, ab: Parameter)
    requires CallsDerived(rt, x, ab)
    ensures Both(rt, x, ab).uses == map["x" := {"a.b.upper"}, "a.b" := {"c"}]
  {
    CallDependencies(rt, x);
    PlainDependencies(rt, ab);
  }

  lemma NoEdges(sys: System<Value>)
    requires sys.uses == map["x" := {"a.b.upper"}, "a.b" := {"c"}]
    ensures DerivedGraph(sys) == map["x" := {}, "a.b" := {}]
  {
    var keys := {"x", "a.b"};
    assert |"a.b.upper"| == 9 && |"a.b"| == 3 && "c"[0] != "x"[0];
    assert sys.uses.Keys == keys && "a.b.upper" !in keys && "c" !in keys;
    assert {"a.b.upper"} * keys == {} && {"c"} * keys == {};
  }

  lemma OrdersHere(deps: Graph)
    requires deps == map["x" := {}, "a.b" := {}]
    ensures CompleteOrder(deps, ["x", "a.b"]) && CompleteOrder(deps, ["a.b", "x"])
  {
    assert |"x"| == 1 && |"a.b"| == 3;
    AnyOrder(deps, "x", "a.b");
    AnyOrder(deps, "a.b", "x");
  }

  lemma AnyOrder(deps: Graph, n: string, m: string)
    requires deps.Keys == {n, m} && deps[n] == {} && deps[m] == {} && n != m
    ensures CompleteOrder(deps, [n, m])
  {
  }

  /** No edge leads from `x` to `a.b`, so both orders are complete. */
  lemma EitherOrder(rt: Runtime, x: Parameter, ab: Parameter)
    requires CallsDerived(rt, x, ab)
    ensures var deps := DerivedGraph(Both(rt, x, ab));
            "a.b" !in deps["x"] && CompleteOrder(deps, ["x", "a.b"]) && CompleteOrder(deps, ["a.b", "x"])
  {
    BothUse(rt, x, ab);
    NoEdges(Both(rt, x, ab));
    OrdersHere(DerivedGraph(Both(rt, x, ab)));
  }

  /** One step of the pass. */
  function After(sys: System<Value>, name: string, ctx: Context<Value>): Outcome<Context<Value>> {
    match sys.eval(name, ctx)
    case Raise(err) => Raise(err)
    case Ok(value) => Ok(ctx.Set(name, value))
  }

  lemma OneStep(sys: System<Value>, order: seq<string>, name: string, base: Context<Value>, before: Context<Value>)
    requires name in sys.defined && Pass(sys, order, base) == Ok(before)
    ensures Pass(sys, order + [name], base) == After(sys, name, before)
  {
    assert (order + [name])[..|order|] == order;
  }

  lemma TwoSteps(sys: System<Value>, first: string, second: string, base: Context<Value>)
    requires first in sys.defined && second in sys.defined
    ensures var next := After(sys, first, base);
            if next.Raise? then Pass(sys, [first, second], base).Raise?
            else Pass(sys, [first, second], base) == After(sys, second, next.value)
  {
    var none: seq<string> := [];
    OneStep(sys, none, first, base, base);
    assert none + [first] == [first] && [first] + [second] == [first, second];
    var next := After(sys, first, base);
    if next.Ok? {
      OneStep(sys, [first], second, base, next.value);
    } else {
      assert [first, second][..1] == [first];
    }
  }

  /** The order that evaluates `x` first shows what the stale or missing `a.b` gives; the other
      one what its value gives. The search may return either. */
  lemma OrderDecides(rt: Runtime, x: Parameter, ab: Parameter, v: string, base: Context<Value>)
    requires CallsDerived(rt, x, ab) && Holds(base, v)
    ensures var early, late := Pass(Both(rt, x, ab), ["x", "a.b"], base), Pass(Both(rt, x, ab), ["a.b", "x"], base);
            && (early.Ok? <==> Shown(rt, Receiver(rt, base)).Ok?)
            && (early.Ok? ==> "x" in early.value.m && early.value.m["x"] == VStr(Shown(rt, Receiver(rt, base)).value))
            && (late.Ok? <==> Shown(rt, Val(Coerce(rt, VStr(v)))).Ok?)
            && (late.Ok?
                ==> "x" in late.value.m && late.value.m["x"] == VStr(Shown(rt, Val(Coerce(rt, VStr(v)))).value))
  {
    ShowsEarly(rt, x, ab, v, base);
    ShowsLate(rt, x, ab, v, base);
  }

  lemma ShowsEarly(rt: Runtime, x: Parameter, ab: Parameter, v: string, base: Context<Value>)
    requires CallsDerived(rt, x, ab) && Holds(base, v)
    ensures var early := Pass(Both(rt, x, ab), ["x", "a.b"], base);
            && (early.Ok? <==> Shown(rt, Receiver(rt, base)).Ok?)
            && (early.Ok? ==> "x" in early.value.m && early.value.m["x"] == VStr(Shown(rt, Receiver(rt, base)).value))
  {
    TwoSteps(Both(rt, x, ab), "x", "a.b", base);
    ClearHere(rt, base.m.Keys);
    CallShows(rt, x, base);
    if Shown(rt, Receiver(rt, base)).Ok? {
      DependsOnPlain(rt, ab, base.Set("x", VStr(Shown(rt, Receiver(rt, base)).value)), v);
    }
  }

  lemma ShowsLate(rt: Runtime, x: Parameter, ab: Parameter, v: string, base: Context<Value>)
    requires CallsDerived(rt, x, ab) && Holds(base, v)
    ensures var late := Pass(Both(rt, x, ab), ["a.b", "x"], base);
            && (late.Ok? <==> Shown(rt, Val(Coerce(rt, VStr(v)))).Ok?)
            && (late.Ok?
                ==> "x" in late.value.m && late.value.m["x"] == VStr(Shown(rt, Val(Coerce(rt, VStr(v)))).value))
  {
    TwoSteps(Both(rt, x, ab), "a.b", "x", base);
    DependsOnPlain(rt, ab, base, v);
    var next: Context<Value> := base.Set("a.b", VStr(v));
    ClearHere(rt, next.m.Keys);
    CallShows(rt, x, next);
  }

  /** In Jinja2, where calling a missing value raises, the first order fails and the second
      succeeds, although both put recorded dependencies first. */
  lemma MissingCallRaises(rt: Runtime, x: Parameter, ab: Parameter, v: string, base: Context<Value>)
    requires CallsDerived(rt, x, ab) && Holds(base, v) && "a.b" !in base.m
    requires rt.apply("call", [Undefined]).Raise? && Shown(rt, Val(Coerce(rt, VStr(v)))).Ok?
    ensures var sys := Both(rt, x, ab);
            && CompleteOrder(DerivedGraph(sys), ["x", "a.b"]) && Pass(sys, ["x", "a.b"], base).Raise?
            && CompleteOrder(DerivedGraph(sys), ["a.b", "x"]) && Pass(sys, ["a.b", "x"], base).Ok?
  {
    EitherOrder(rt, x, ab);
    OrderDecides(rt, x, ab, v, base);
  }
}
