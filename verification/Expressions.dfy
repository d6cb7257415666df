/** What the written forms of a derived expression mean: its text is taken apart into the
    names and operations that it was put together from. */
module Expressions {
  import opened PyData
  import opened Formula
  import opened Resolver

  lemma {:induction false} SplitMaxCut(a: string, b: string, c: char, n: nat)
    requires c !in a && n > 0
    ensures SplitMax(a + [c] + b, c, n) == [a] + SplitMax(b, c, n - 1)
  {
    var s := a + [c] + b;
    if a == "" {
      assert s[1..] == b;
    } else {
      SplitMaxCut(a[1..], b, c, n);
      assert s[1..] == a[1..] + [c] + b;
      assert [a[0]] + a[1..] == a;
    }
  }

  lemma {:induction false} SplitMaxOne(a: string, c: char, n: nat)
    requires c !in a
    ensures SplitMax(a, c, n) == [a]
  {
    if a != "" && n > 0 {
      SplitMaxOne(a[1..], c, n);
      assert [a[0]] + a[1..] == a;
    }
  }

  function Recorded(names: seq<string>): set<string> {
    set n | n in names && n != ""
  }

  /** The text of `name`: empty without a value, and Python's `None` is written out. */
  ghost predicate HasText(rt: Runtime, ctx: Context<Value>, name: string, text: string) {
    if name !in ctx.m then text == ""
    else match ctx.m[name]
      case VNone => text == "None"
      case VStr(t) => text == t
      case v => text == rt.text(Val(v))
  }

  lemma TextIs(rt: Runtime, ctx: Context<Value>, name: string)
    ensures HasText(rt, ctx, name, GetText(rt, ctx, name))
    ensures forall text :: HasText(rt, ctx, name, text) ==> text == GetText(rt, ctx, name)
  {
  }

  /** The option's condition is that `name` has this text. */
  predicate Applies(name: string, text: string, o: ParamOption) {
    o.conditionParam == Some(name) && o.conditionValue == Some(text)
  }

  /** `lookup:name`: the value of the first option whose condition holds, whatever the later
      ones say, and the empty text if none does. */
  lemma LookupMeans(rt: Runtime, p: Parameter, name: string, text: string, ctx: Context<Value>)
    requires p.derivedExpression == Some("lookup:" + name) && HasText(rt, ctx, name, text)
    ensures forall i | 0 <= i < |p.options| && Applies(name, text, p.options[i])
            && (forall j | 0 <= j < i :: !Applies(name, text, p.options[j])) ::
              Evaluate(rt, p, ctx) == Ok(p.options[i].value)
    ensures (forall o | o in p.options :: !Applies(name, text, o)) ==> Evaluate(rt, p, ctx) == Ok("")
    ensures Dependencies(rt, p) == Recorded([name])
  {
    var expr := "lookup:" + name;
    assert expr[..7] == "lookup:" && expr[7..] == name;
    TextIs(rt, ctx, name);
    assert forall o :: Applies(name, text, o) == Matches(o, name, text);
    assert Evaluate(rt, p, ctx) == Ok(FirstMatch(p.options, name, text));
  }

  /** The name has a value other than `None`, and its text is this one and not empty. */
  ghost predicate Shows(rt: Runtime, ctx: Context<Value>, name: string, text: string) {
    name in ctx.m && ctx.m[name] != VNone && HasText(rt, ctx, name, text) && text != ""
  }

  ghost predicate ShowsNothing(rt: Runtime, ctx: Context<Value>, name: string) {
    forall text :: !Shows(rt, ctx, name, text)
  }

  lemma ShownIsPresent(rt: Runtime, ctx: Context<Value>, name: string)
    ensures Present(rt, ctx, name) ==> Shows(rt, ctx, name, GetText(rt, ctx, name))
    ensures Present(rt, ctx, name) <==> !ShowsNothing(rt, ctx, name)
    ensures forall text | Shows(rt, ctx, name, text) :: Present(rt, ctx, name) && text == GetText(rt, ctx, name)
  {
    TextIs(rt, ctx, name);
    if Present(rt, ctx, name) {
      assert Shows(rt, ctx, name, GetText(rt, ctx, name));
    }
  }

  lemma CoalesceRead(rt: Runtime, p: Parameter, names: seq<string>, ctx: Context<Value>)
    requires names != [] && forall n | n in names :: ':' !in n
    requires p.derivedExpression == Some("coalesce:" + Join(names, ':'))
    ensures Evaluate(rt, p, ctx) == Ok(FirstPresent(rt, names, ctx))
    ensures Dependencies(rt, p) == Recorded(names)
  {
    var expr := "coalesce:" + Join(names, ':');
    assert expr[..9] == "coalesce:" && expr[0] == 'c';
    assert expr == "coalesce" + [':'] + Join(names, ':');
    SplitCut("coalesce", Join(names, ':'), ':');
    SplitJoin(names, ':');
    assert Split(expr, ':')[1..] == names;
  }

  lemma FirstShown(rt: Runtime, names: seq<string>, ctx: Context<Value>, i: nat, text: string)
    requires i < |names| && Shows(rt, ctx, names[i], text) && forall j | 0 <= j < i :: ShowsNothing(rt, ctx, names[j])
    ensures FirstPresent(rt, names, ctx) == text
  {
    ShownIsPresent(rt, ctx, names[i]);
    forall j | 0 <= j < i ensures !Present(rt, ctx, names[j]) {
      ShownIsPresent(rt, ctx, names[j]);
    }
    assert FirstPresentAt(rt, names, ctx, i);
  }

  lemma NoneShown(rt: Runtime, names: seq<string>, ctx: Context<Value>)
    requires forall n | n in names :: ShowsNothing(rt, ctx, n)
    ensures FirstPresent(rt, names, ctx) == ""
  {
    forall n | n in names ensures !Present(rt, ctx, n) {
      ShownIsPresent(rt, ctx, n);
    }
  }

  /** `coalesce:a:b:...`: the text of the first of the names that shows any, else nothing. */
  lemma CoalesceMeans(rt: Runtime, p: Parameter, names: seq<string>, ctx: Context<Value>, i: nat, text: string)
    requires names != [] && forall n | n in names :: ':' !in n
    requires p.derivedExpression == Some("coalesce:" + Join(names, ':'))
    ensures i < |names| && Shows(rt, ctx, names[i], text)
            && (forall j | 0 <= j < i :: ShowsNothing(rt, ctx, names[j])) ==>
              Evaluate(rt, p, ctx) == Ok(text)
    ensures (forall n | n in names :: ShowsNothing(rt, ctx, n)) ==> Evaluate(rt, p, ctx) == Ok("")
    ensures Dependencies(rt, p) == Recorded(names)
  {
    CoalesceRead(rt, p, names, ctx);
    if i < |names| && Shows(rt, ctx, names[i], text) && forall j | 0 <= j < i :: ShowsNothing(rt, ctx, names[j]) {
      FirstShown(rt, names, ctx, i, text);
    }
    if forall n | n in names :: ShowsNothing(rt, ctx, n) {
      NoneShown(rt, names, ctx);
    }
  }

  /** With one name: its text if it has any. */
  lemma CoalesceOne(rt: Runtime, p: Parameter, name: string, ctx: Context<Value>)
    requires ':' !in name && p.derivedExpression == Some("coalesce:" + name)
    ensures Evaluate(rt, p, ctx) == Ok(if Present(rt, ctx, name) then ValueText(rt, ctx.m[name]) else "")
    ensures Dependencies(rt, p) == Recorded([name])
  {
    CoalesceRead(rt, p, [name], ctx);
  }

  lemma TransformParts(name: string, rest: string)
    requires ':' !in name
    ensures SplitMax("transform:" + name + ":" + rest, ':', 2) == ["transform", name, rest]
    ensures ExpressionType("transform:" + name + ":" + rest) == TransformKind
  {
    var expr := "transform:" + name + ":" + rest;
    assert expr[..10] == "transform:" && expr[0] == 't';
    assert expr == "transform" + [':'] + (name + [':'] + rest);
    SplitMaxCut("transform", name + [':'] + rest, ':', 2);
    SplitMaxCut(name, rest, ':', 1);
  }

  lemma TransformRead(rt: Runtime, p: Parameter, name: string, ops: seq<string>, ctx: Context<Value>)
    requires ':' !in name && ops != [] && forall op | op in ops :: '|' !in op
    requires p.derivedExpression == Some("transform:" + name + ":" + Join(ops, '|'))
    ensures Evaluate(rt, p, ctx) == Ok(TransformAll(rt, ops, GetText(rt, ctx, name)))
    ensures Dependencies(rt, p) == Recorded([name])
  {
    TransformParts(name, Join(ops, '|'));
    SplitJoin(ops, '|');
  }

  /** What one operation, as it is written, makes of a text. */
  ghost predicate Makes(rt: Runtime, raw: string, text: string, result: string) {
    var op := rt.strip(raw);
    && (op == "upper" ==> result == rt.upper(text))
    && (op == "lower" ==> result == rt.lower(text))
    && (op == "strip" ==> result == rt.strip(text))
    && (op == "title" ==> result == rt.title(text))
    && (forall from, to | IsReplace(op, from, to) :: result == rt.replace(text, from, to))
    && (op !in {"upper", "lower", "strip", "title"} && NoReplace(op) ==> result == text)
  }

  /** `replace:from:to`; `to` may hold further colons. */
  ghost predicate IsReplace(op: string, from: string, to: string) {
    ':' !in from && op == "replace:" + from + ":" + to
  }

  ghost predicate NoReplace(op: string) {
    forall from, to :: !IsReplace(op, from, to)
  }

  /** `transform:name:op|op|...`: each operation is applied to what the one before it makes,
      the first one to the text of `name`. */
  lemma TransformMeans(rt: Runtime, p: Parameter, name: string, ops: seq<string>, text: string, ctx: Context<Value>)
    returns (texts: seq<string>)
    requires ':' !in name && ops != [] && (forall op | op in ops :: '|' !in op) && HasText(rt, ctx, name, text)
    requires p.derivedExpression == Some("transform:" + name + ":" + Join(ops, '|'))
    ensures |texts| == |ops| + 1 && texts[0] == text && Evaluate(rt, p, ctx) == Ok(texts[|ops|])
    ensures forall k | 0 <= k < |ops| :: Makes(rt, ops[k], texts[k], texts[k + 1])
    ensures Dependencies(rt, p) == Recorded([name])
  {
    TransformRead(rt, p, name, ops, ctx);
    TextIs(rt, ctx, name);
    texts := Stages(rt, ops, text);
  }

  /** A single operation answers what it makes of the text of `name`. */
  lemma TransformOne(rt: Runtime, p: Parameter, name: string, raw: string, text: string, ctx: Context<Value>)
    requires ':' !in name && '|' !in raw && HasText(rt, ctx, name, text)
    requires p.derivedExpression == Some("transform:" + name + ":" + raw)
    ensures Evaluate(rt, p, ctx).Ok? && Makes(rt, raw, text, Evaluate(rt, p, ctx).value)
  {
    assert Join([raw], '|') == raw;
    var texts := TransformMeans(rt, p, name, [raw], text, ctx);
  }

  lemma {:induction false} Stages(rt: Runtime, ops: seq<string>, text: string) returns (texts: seq<string>)
    ensures |texts| == |ops| + 1 && texts[0] == text && texts[|ops|] == TransformAll(rt, ops, text)
    ensures forall k | 0 <= k < |ops| :: Makes(rt, ops[k], texts[k], texts[k + 1])
  {
    if ops == [] {
      texts := [text];
    } else {
      var n := |ops| - 1;
      var before := Stages(rt, ops[..n], text);
      texts := before + [TransformAll(rt, ops, text)];
      StepMakes(rt, ops[n], before[n]);
      forall k | 0 <= k < n ensures Makes(rt, ops[k], texts[k], texts[k + 1]) {
        assert Makes(rt, ops[..n][k], before[k], before[k + 1]);
      }
    }
  }

  lemma StepMakes(rt: Runtime, raw: string, text: string)
    ensures Makes(rt, raw, text, TransformStep(rt, raw, text))
  {
    var op := rt.strip(raw);
    forall from, to | IsReplace(op, from, to) ensures TransformStep(rt, raw, text) == rt.replace(text, from, to) {
      ReplaceParts(op, from, to);
    }
    if StartsWith(op, "replace:") {
      ReplaceOrNot(op);
    }
  }

  lemma ReplaceParts(op: string, from: string, to: string)
    requires IsReplace(op, from, to)
    ensures StartsWith(op, "replace:") && SplitMax(op, ':', 2) == ["replace", from, to]
    ensures op !in {"upper", "lower", "strip", "title"}
  {
    assert op[..8] == "replace:" && op[0] == 'r';
    assert op == "replace" + [':'] + (from + [':'] + to);
    SplitMaxCut("replace", from + [':'] + to, ':', 2);
    SplitMaxCut(from, to, ':', 1);
  }

  /** Three parts are a complete `replace`. */
  lemma ReplaceOrNot(op: string)
    requires StartsWith(op, "replace:")
    ensures |SplitMax(op, ':', 2)| == 3 ==> !NoReplace(op)
  {
    var rest := op[8..];
    assert op == "replace" + [':'] + rest;
    SplitMaxCut("replace", rest, ':', 2);
    if ':' in rest {
      var from, to := FirstCut(rest, ':');
      assert IsReplace(op, from, to);
    } else {
      SplitMaxOne(rest, ':', 1);
    }
  }

  lemma {:induction false} FirstCut(s: string, c: char) returns (a: string, b: string)
    requires c in s
    ensures s == a + [c] + b && c !in a
  {
    if s[0] == c {
      a, b := "", s[1..];
    } else {
      var rest;
      rest, b := FirstCut(s[1..], c);
      a := [s[0]] + rest;
      assert s == [s[0]] + s[1..];
    }
  }

  /** Without operations it is malformed: always empty, though still recorded to read the name. */
  lemma TransformWithoutOps(rt: Runtime, p: Parameter, name: string, ctx: Context<Value>)
    requires ':' !in name && p.derivedExpression == Some("transform:" + name)
    ensures Evaluate(rt, p, ctx) == Ok("")
    ensures Dependencies(rt, p) == Recorded([name])
  {
    var expr := "transform:" + name;
    assert expr[..10] == "transform:" && expr[0] == 't';
    assert expr == "transform" + [':'] + name;
    SplitMaxCut("transform", name, ':', 2);
    SplitMaxOne(name, ':', 1);
  }

  /** Anything else is a formula, recorded to read the references in it. */
  lemma FormulaElse(rt: Runtime, p: Parameter, expr: string, ctx: Context<Value>)
    requires p.derivedExpression == Some(expr)
    requires !("lookup:" <= expr) && !("transform:" <= expr) && !("coalesce:" <= expr)
    ensures Evaluate(rt, p, ctx) == EvaluateFormula(rt, expr, ctx)
    ensures rt.parse(expr) == None ==> Dependencies(rt, p) == {}
    ensures rt.parse(expr).Some? ==>
              forall name :: name in Dependencies(rt, p) <==> name in OccurrencesAll(rt.parse(expr).value)
  {
  }
}
