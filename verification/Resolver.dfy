/** Derived parameters: dependency extraction, evaluation and the resolution pass. */
module Resolver {
  import opened PyData
  import opened Nesting
  import opened Formula
  import opened TopoSort
  import opened Equation

  datatype ParamOption = ParamOption(value: string, conditionParam: Option<string>, conditionValue: Option<string>)

  datatype Parameter = Parameter(
    id: int, name: string, scope: string, isActive: bool, isDerived: bool,
    defaultValue: Option<string>, derivedExpression: Option<string>, options: seq<ParamOption>,
    sortOrder: int, display: string)

  datatype Kind = LookupKind | TransformKind | CoalesceKind | FormulaKind

  function Expression(p: Parameter): string {
    match p.derivedExpression case None => "" case Some(e) => e
  }

  function ExpressionType(expression: string): Kind {
    if StartsWith(expression, "lookup:") then LookupKind
    else if StartsWith(expression, "transform:") then TransformKind
    else if StartsWith(expression, "coalesce:") then CoalesceKind
    else FormulaKind
  }

  function Dependencies(rt: Runtime, p: Parameter): set<string> {
    var expr := Expression(p);
    match ExpressionType(expr)
    case LookupKind => var target := expr[|"lookup:"|..]; if target != "" then {target} else {}
    case TransformKind =>
      var parts := SplitMax(expr, ':', 2);
      if |parts| >= 2 && parts[1] != "" then {parts[1]} else {}
    case CoalesceKind => var parts := Split(expr, ':'); set n | n in parts[1..] && n != ""
    case FormulaKind => (match rt.parse(expr) case None => {} case Some(es) => Refs(es))
  }

  /** What a formula may read beyond its dependencies; the empty name is never recorded. */
  function HiddenReads(rt: Runtime, p: Parameter): set<string> {
    var expr := Expression(p);
    {""} + (if ExpressionType(expr).FormulaKind? && rt.parse(expr).Some? then HiddenAll(rt.parse(expr).value) else {})
  }

  // ----- the four evaluators -----

  function ValueText(rt: Runtime, v: Value): string {
    match v case VStr(s) => s case VNone => "None" case _ => rt.text(Val(v))
  }

  function GetText(rt: Runtime, ctx: Context<Value>, name: string): string {
    if name in ctx.m then ValueText(rt, ctx.m[name]) else ""
  }

  predicate Matches(o: ParamOption, target: string, trigger: string) {
    o.conditionParam == Some(target) && o.conditionValue == Some(trigger)
  }

  ghost predicate FirstAt(options: seq<ParamOption>, target: string, trigger: string, i: nat)
    requires i < |options|
  {
    Matches(options[i], target, trigger) && forall o | o in options[..i] :: !Matches(o, target, trigger)
  }

  /** The first option whose condition matches, or the empty string. */
  function FirstMatch(options: seq<ParamOption>, target: string, trigger: string): (r: string)
    ensures (forall o | o in options :: !Matches(o, target, trigger)) ==> r == ""
    ensures forall i: nat | i < |options| && FirstAt(options, target, trigger, i) :: r == options[i].value
  {
    if options == [] then ""
    else if Matches(options[0], target, trigger) then options[0].value
    else
      assert forall i: nat | 1 <= i < |options| && FirstAt(options, target, trigger, i) ::
               FirstAt(options[1..], target, trigger, i - 1);
      FirstMatch(options[1..], target, trigger)
  }

  function EvaluateLookup(rt: Runtime, expression: string, p: Parameter, ctx: Context<Value>): string
    requires StartsWith(expression, "lookup:")
  {
    var target := expression[|"lookup:"|..];
    FirstMatch(p.options, target, GetText(rt, ctx, target))
  }

  function TransformStep(rt: Runtime, rawOp: string, value: string): string {
    var op := rt.strip(rawOp);
    if op == "upper" then rt.upper(value)
    else if op == "lower" then rt.lower(value)
    else if op == "strip" then rt.strip(value)
    else if op == "title" then rt.title(value)
    else if StartsWith(op, "replace:") then
      var parts := SplitMax(op, ':', 2);
      if |parts| == 3 then rt.replace(value, parts[1], parts[2]) else value
    else value
  }

  function TransformAll(rt: Runtime, ops: seq<string>, value: string): string {
    if ops == [] then value
    else TransformStep(rt, ops[|ops| - 1], TransformAll(rt, ops[..|ops| - 1], value))
  }

  function Transformed(rt: Runtime, expression: string, ctx: Context<Value>): string {
    var parts := SplitMax(expression, ':', 2);
    if |parts| < 3 then "" else TransformAll(rt, Split(parts[2], '|'), GetText(rt, ctx, parts[1]))
  }

  method EvaluateTransform(rt: Runtime, expression: string, ctx: Context<Value>) returns (value: string)
    ensures value == Transformed(rt, expression, ctx)
  {
    var parts := SplitMax(expression, ':', 2);
    if |parts| < 3 {
      return "";
    }
    value := GetText(rt, ctx, parts[1]);
    var ops := Split(parts[2], '|');
    for i := 0 to |ops|
      invariant value == TransformAll(rt, ops[..i], GetText(rt, ctx, parts[1]))
    {
      assert ops[..i + 1][..i] == ops[..i];
      value := TransformStep(rt, ops[i], value);
    }
    assert ops[..|ops|] == ops;
  }

  /** Transforms apply left to right: a longer list is the shorter one, then the rest. */
  lemma {:induction false} TransformsCompose(rt: Runtime, ops: seq<string>, more: seq<string>, value: string)
    ensures TransformAll(rt, ops + more, value) == TransformAll(rt, more, TransformAll(rt, ops, value))
  {
    if more == [] {
      assert ops + more == ops;
    } else {
      TransformsCompose(rt, ops, more[..|more| - 1], value);
      assert (ops + more)[..|ops + more| - 1] == ops + more[..|more| - 1];
    }
  }

  predicate Present(rt: Runtime, ctx: Context<Value>, name: string) {
    name in ctx.m && ctx.m[name] != VNone && ValueText(rt, ctx.m[name]) != ""
  }

  ghost predicate FirstPresentAt(rt: Runtime, names: seq<string>, ctx: Context<Value>, i: nat)
    requires i < |names|
  {
    Present(rt, ctx, names[i]) && forall n | n in names[..i] :: !Present(rt, ctx, n)
  }

  /** The first value present, or the empty string. */
  function FirstPresent(rt: Runtime, names: seq<string>, ctx: Context<Value>): (r: string)
    ensures (forall n | n in names :: !Present(rt, ctx, n)) ==> r == ""
    ensures forall i: nat | i < |names| && FirstPresentAt(rt, names, ctx, i) :: r == GetText(rt, ctx, names[i])
  {
    if names == [] then ""
    else if Present(rt, ctx, names[0]) then ValueText(rt, ctx.m[names[0]])
    else
      assert forall i: nat | 1 <= i < |names| && FirstPresentAt(rt, names, ctx, i) ::
               FirstPresentAt(rt, names[1..], ctx, i - 1);
      FirstPresent(rt, names[1..], ctx)
  }

  function Evaluate(rt: Runtime, p: Parameter, ctx: Context<Value>): Outcome<string>
  {
    var expr := Expression(p);
    match ExpressionType(expr)
    case LookupKind => Ok(EvaluateLookup(rt, expr, p, ctx))
    case TransformKind => Ok(Transformed(rt, expr, ctx))
    case CoalesceKind => Ok(FirstPresent(rt, Split(expr, ':')[1..], ctx))
    case FormulaKind => EvaluateFormula(rt, expr, ctx)
  }

  // ----- soundness of the dependencies -----

  /** Every reference of a formula reads at most one of `names`. */
  ghost predicate Footprint(rt: Runtime, p: Parameter, names: set<string>) {
    ExpressionType(Expression(p)).FormulaKind? && rt.parse(Expression(p)).Some? ==>
      CleanAll(rt, rt.parse(Expression(p)).value, names)
  }

  lemma {:induction false} FirstPresentSame(rt: Runtime, names: seq<string>, c1: Context<Value>, c2: Context<Value>)
    requires forall n | n in names :: SameAt(c1, c2, n)
    ensures FirstPresent(rt, names, c1) == FirstPresent(rt, names, c2)
  {
    if names != [] {
      assert SameAt(c1, c2, names[0]);
      FirstPresentSame(rt, names[1..], c1, c2);
    }
  }

  lemma {:induction false} CleanShrinks(rt: Runtime, e: Expr, small: set<string>, large: set<string>)
    requires small <= large && Clean(rt, e, large)
    ensures Clean(rt, e, small)
    decreases e, 0
  {
    match e
    case Getattr(base, _) =>
      if ChainParts(e) == None {
        CleanShrinks(rt, base, small, large);
      } else {
        var p := ChainParts(e).value;
        var k :| 0 < k <= |p| && Clear(rt, p[..k], large);
        ClearShrinks(rt, p[..k], small, large);
      }
    case Apply(_, args) => CleanAllShrinks(rt, args, small, large);
    case Cond(test, thn, els) =>
      CleanShrinks(rt, test, small, large);
      CleanShrinks(rt, thn, small, large);
      CleanShrinks(rt, els, small, large);
    case _ =>
  }

  lemma {:induction false} CleanAllShrinks(rt: Runtime, es: seq<Expr>, small: set<string>, large: set<string>)
    requires small <= large && CleanAll(rt, es, large)
    ensures CleanAll(rt, es, small)
    decreases es, 0
  {
    if es != [] {
      CleanShrinks(rt, es[0], small, large);
      CleanAllShrinks(rt, es[1..], small, large);
    }
  }

  /** Contexts that agree on the recorded dependencies and on the hidden reads give the same
      result. */
  lemma DependenciesSound(rt: Runtime, p: Parameter, names: set<string>, c1: Context<Value>, c2: Context<Value>)
    requires c1.m.Keys <= names && c2.m.Keys <= names
    requires Footprint(rt, p, names)
    requires forall d | d in Dependencies(rt, p) || d in HiddenReads(rt, p) :: SameAt(c1, c2, d)
    ensures Evaluate(rt, p, c1) == Evaluate(rt, p, c2)
  {
    var expr := Expression(p);
    match ExpressionType(expr)
    case LookupKind =>
      var target := expr[|"lookup:"|..];
      assert SameAt(c1, c2, target);
    case TransformKind =>
      var parts := SplitMax(expr, ':', 2);
      if |parts| >= 3 {
        assert SameAt(c1, c2, parts[1]);
      }
    case CoalesceKind =>
      var parts := Split(expr, ':');
      forall n | n in parts[1..] ensures SameAt(c1, c2, n) {
        if n != "" {
          assert n in Dependencies(rt, p);
        }
      }
      FirstPresentSame(rt, parts[1..], c1, c2);
    case FormulaKind => FormulaSame(rt, expr, c1, c2, names);
  }

  // ----- the equation system -----

  /** `{p.name: p for p in params}`: of two with one name the later wins. */
  function ByName(params: seq<Parameter>): map<string, Parameter> {
    if params == [] then map[]
    else
      var last := params[|params| - 1];
      ByName(params[..|params| - 1])[last.name := last]
  }

  lemma {:induction false} ByNameMembers(params: seq<Parameter>)
    ensures forall n | n in ByName(params) :: ByName(params)[n].name == n && ByName(params)[n] in params
    ensures forall p | p in params :: p.name in ByName(params)
  {
    if params != [] {
      var k := |params| - 1;
      ByNameMembers(params[..k]);
      assert params == params[..k] + [params[k]];
    }
  }

  /** The equations of the derived parameters: a parameter without expression has none. */
  function Equations(rt: Runtime, byName: map<string, Parameter>): System<Value> {
    System(
      map n | n in byName :: Dependencies(rt, byName[n]),
      set n | n in byName && Expression(byName[n]) != "",
      map n | n in byName :: HiddenReads(rt, byName[n]),
      (n, ctx) =>
        if n !in byName then Raise("")
        else match Evaluate(rt, byName[n], ctx) case Ok(s) => Ok(VStr(s)) case Raise(err) => Raise(err))
  }

  /** Among the names in play every reference reads at most one, and what a formula reads
      without its being recorded is not derived, or the records lead to it all the same. */
  ghost predicate Sound(rt: Runtime, byName: map<string, Parameter>, base: Context<Value>) {
    && "" !in byName && OrdersReads(Equations(rt, byName))
    && forall n | n in byName :: Footprint(rt, byName[n], base.m.Keys + byName.Keys)
  }

  lemma EquationsFramed(rt: Runtime, byName: map<string, Parameter>, base: Context<Value>)
    requires Sound(rt, byName, base)
    ensures Framed(Equations(rt, byName), base)
  {
    var sys := Equations(rt, byName);
    forall n | n in sys.uses ensures FramedAt(sys, base, n) {
      forall c1: Context<Value>, c2: Context<Value> |
        Within(sys, base, c1) && Within(sys, base, c2) && AgreeOn(Reads(sys, n), c1, c2)
        ensures sys.eval(n, c1) == sys.eval(n, c2)
      {
        DependenciesSound(rt, byName[n], base.m.Keys + byName.Keys, c1, c2);
      }
    }
  }

  /** Of several parameters with one name the last counts. */
  lemma {:induction false} ByNameIsLast(params: seq<Parameter>, k: nat)
    requires k < |params| && forall j | k < j < |params| :: params[j].name != params[k].name
    ensures params[k].name in ByName(params) && ByName(params)[params[k].name] == params[k]
  {
    var n := |params| - 1;
    if k < n {
      ByNameIsLast(params[..n], k);
    }
  }

  ghost predicate HasExpression(p: Parameter) {
    p.derivedExpression != None && p.derivedExpression != Some("")
  }

  /** A solution keeps what the context holds under other names, and under every name with an
      expression it holds, as a text, what that expression gives over the solution itself. */
  lemma SolvesExactly(rt: Runtime, byName: map<string, Parameter>, base: Context<Value>, s: Context<Value>)
    ensures Solves(Equations(rt, byName), base, s) <==>
            && (forall n :: n in s.m <==> n in base.m || (n in byName && HasExpression(byName[n])))
            && (forall n | n in base.m && (n in byName ==> !HasExpression(byName[n])) ::
                n in s.m && s.m[n] == base.m[n])
            && (forall n | n in byName && HasExpression(byName[n]) ::
                  n in s.m && s.m[n].VStr? && Evaluate(rt, byName[n], s) == Ok(s.m[n].s))
  {
    var sys := Equations(rt, byName);
    assert forall n :: n in sys.defined <==> n in byName && HasExpression(byName[n]);
    forall n | n in sys.defined && n in s.m
      ensures sys.eval(n, s) == Ok(s.m[n]) <==> s.m[n].VStr? && Evaluate(rt, byName[n], s) == Ok(s.m[n].s) {
    }
    if Solves(sys, base, s) {
      forall n | n in base.m && n !in sys.defined ensures n in s.m && s.m[n] == base.m[n] {
      }
      forall n | n in sys.defined ensures n in s.m {
        assert n in base.m.Keys + sys.defined;
      }
    } else {
      assert s.m.Keys == base.m.Keys + sys.defined <==> forall n :: n in s.m <==> n in base.m || n in sys.defined;
    }
  }

  /** One parameter depends on another exactly if its expression is recorded to read it. */
  lemma EdgesAre(rt: Runtime, byName: map<string, Parameter>, n: string, d: string)
    requires n in byName
    ensures var graph := DerivedGraph(Equations(rt, byName));
            n in graph && (d in graph[n] <==> d in byName && d in Dependencies(rt, byName[n]))
  {
  }

  // ----- the resolution pass -----

  datatype Resolution = Resolved(ctx: Context<Value>) | Circular(stack: seq<string>) | Failed(error: string)

  method ResolveDerivedParams(rt: Runtime, params: seq<Parameter>, context: Context<Value>) returns (r: Resolution)
    ensures r.Circular? <==> HasCycle(DerivedGraph(Equations(rt, ByName(params))))
    ensures r.Circular? ==> ClosesCycle(DerivedGraph(Equations(rt, ByName(params))), r.stack)
    ensures Sound(rt, ByName(params), context) ==>
              && (r.Resolved? ==> Solves(Equations(rt, ByName(params)), context, r.ctx))
              && (r.Failed? ==> forall s :: !Solves(Equations(rt, ByName(params)), context, s))
  {
    var sys := Equations(rt, ByName(params));
    ByNameMembers(params);
    NamesMembers(params);
    if Sound(rt, ByName(params), context) {
      EquationsFramed(rt, ByName(params), context);
    }
    if params == [] {
      OrderedHasNoCycle(DerivedGraph(sys), []);
      return Resolved(context);
    }
    var sorted := TopologicalSort(DerivedGraph(sys), Names(params));
    if sorted.Cycle? {
      return Circular(sorted.stack);
    }
    OrderedHasNoCycle(DerivedGraph(sys), sorted.order);
    var result := RunPass(sys, sorted.order, context);
    if Framed(sys, context) {
      if result.Ok? {
        CompletePassSolves(sys, sorted.order, context);
      } else {
        PassFailsRightly(sys, sorted.order, context);
      }
    }
    r := match result case Ok(ctx) => Resolved(ctx) case Raise(err) => Failed(err);
  }

  function Names(params: seq<Parameter>): (ns: seq<string>)
    ensures |ns| == |params| && forall i | 0 <= i < |ns| :: ns[i] == params[i].name
  {
    seq(|params|, i requires 0 <= i < |params| => params[i].name)
  }

  lemma NamesMembers(params: seq<Parameter>)
    ensures forall n :: n in Names(params) <==> exists p :: p in params && p.name == n
  {
    forall n | n in Names(params) ensures exists p :: p in params && p.name == n {
      var i :| 0 <= i < |params| && Names(params)[i] == n;
      assert params[i] in params;
    }
    forall p | p in params ensures p.name in Names(params) {
      var i :| 0 <= i < |params| && params[i] == p;
      assert Names(params)[i] == p.name;
    }
  }

  // ----- what the result does not depend on -----

  lemma NamesIdentify(params: seq<Parameter>, p: Parameter, q: Parameter)
    requires NoDup(Names(params)) && p in params && q in params && p.name == q.name
    ensures p == q
  {
    var i :| 0 <= i < |params| && params[i] == p;
    var j :| 0 <= j < |params| && params[j] == q;
    assert Names(params)[i] == Names(params)[j];
  }

  lemma ByNamePermuted(params1: seq<Parameter>, params2: seq<Parameter>)
    requires NoDup(Names(params1)) && multiset(params1) == multiset(params2)
    ensures ByName(params1) == ByName(params2)
  {
    var m1, m2 := ByName(params1), ByName(params2);
    ByNameMembers(params1);
    ByNameMembers(params2);
    SameMembers(params1, params2);
    forall n | n in m1 ensures n in m2 && m1[n] == m2[n] {
      NamesIdentify(params1, m1[n], m2[n]);
    }
    assert forall n | n in m2 :: n in m1;
  }

  lemma SameMembers(params1: seq<Parameter>, params2: seq<Parameter>)
    requires multiset(params1) == multiset(params2)
    ensures forall p :: p in params1 <==> p in params2
  {
    forall p ensures p in params1 <==> p in params2 {
      assert p in params1 <==> p in multiset(params1);
      assert p in params2 <==> p in multiset(params2);
    }
  }

  /** Two resolutions of the same parameters, listed in any order, over contexts that differ
      at most in stale derived values, end with the same values. */
  lemma ResolutionUnique(rt: Runtime, params1: seq<Parameter>, params2: seq<Parameter>, ctx1: Context<Value>,
                         ctx2: Context<Value>, s1: Context<Value>, s2: Context<Value>)
    requires NoDup(Names(params1)) && multiset(params1) == multiset(params2)
    requires Sound(rt, ByName(params1), ctx1)
    requires !HasCycle(DerivedGraph(Equations(rt, ByName(params1))))
    requires forall k | k !in Equations(rt, ByName(params1)).defined :: SameAt(ctx1, ctx2, k)
    requires Solves(Equations(rt, ByName(params1)), ctx1, s1)
    requires Solves(Equations(rt, ByName(params2)), ctx2, s2)
    ensures s1.m == s2.m
  {
    ByNamePermuted(params1, params2);
    EquationsFramed(rt, ByName(params1), ctx1);
    SolutionUnique(Equations(rt, ByName(params1)), ctx1, ctx2, s1, s2);
  }
}
