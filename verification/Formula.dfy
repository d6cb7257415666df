/** Jinja2 formulas: their syntax trees, the references the dependency extraction
    collects from them, and their evaluation in a nested context. */
module Formula {
  import opened PyData
  import opened Nesting

  datatype Value = VNone | VBool(b: bool) | VInt(n: int) | VFloat(text: string) | VStr(s: string)

  /** `Apply` is any other node: an operator, a filter, a call, a subscript. */
  datatype Expr =
    | Const(value: Value)
    | Name(id: string)
    | Getattr(base: Expr, attr: string)
    | Apply(op: string, args: seq<Expr>)
    | Cond(test: Expr, thn: Expr, els: Expr)

  /** What an expression evaluates to. `Other` stands for bound methods and the like. */
  datatype Obj = Undefined | Val(v: Value) | Mapping(kids: map<string, Tree<Value>>) | Other(id: int)

  /** Python and Jinja2 as the formulas see them; every theorem holds for all choices. */
  datatype Runtime = Runtime(
    parse: string -> Option<seq<Expr>>,
    globals: map<string, Obj>,
    dictAttrs: set<string>,
    attr: (Obj, string) -> Outcome<Obj>,
    apply: (string, seq<Obj>) -> Outcome<Obj>,
    truthy: Obj -> bool,
    text: Obj -> string,
    isDigit: char -> bool,
    parseInt: string -> Option<int>,
    parseFloat: string -> Option<string>,
    strip: string -> string,
    upper: string -> string,
    lower: string -> string,
    title: string -> string,
    replace: (string, string, string) -> string)

  // ----- references -----

  function ChainParts(e: Expr): (parts: Option<seq<string>>)
    ensures parts.Some? ==> |parts.value| > 0
  {
    match e
    case Name(id) => Some([id])
    case Getattr(base, attr) =>
      (match ChainParts(base) case None => None case Some(parts) => Some(parts + [attr]))
    case _ => None
  }

  /** The recursive path builder of the template-variable scanner. */
  function NodeToPath(e: Expr): Option<string> {
    match e
    case Name(id) => Some(id)
    case Getattr(base, attr) =>
      (match NodeToPath(base) case None => None case Some(parent) => Some(parent + "." + attr))
    case _ => None
  }

  function DotsAfter(parts: seq<string>): string {
    if parts == [] then "" else "." + parts[|parts| - 1] + DotsAfter(parts[..|parts| - 1])
  }

  lemma {:induction false} JoinReversed(parts: seq<string>, name: string)
    ensures Join([name] + Reverse(parts), '.') == name + DotsAfter(parts)
  {
    if parts != [] {
      var n := |parts| - 1;
      JoinReversed(parts[..n], parts[n]);
      assert ([name] + Reverse(parts))[1..] == [parts[n]] + Reverse(parts[..n]);
    }
  }

  /** The looped path builder of the resolver finds the same paths. */
  method DottedNameFromNode(node: Expr) returns (name: Option<string>)
    ensures name == NodeToPath(node)
  {
    var parts, current := [], node;
    while current.Getattr?
      invariant NodeToPath(node).Some? <==> NodeToPath(current).Some?
      invariant NodeToPath(node).Some? ==>
                  NodeToPath(node).value == NodeToPath(current).value + DotsAfter(parts)
      decreases current
    {
      ghost var before := parts;
      parts := parts + [current.attr];
      assert parts[..|parts| - 1] == before;
      current := current.base;
    }
    if current.Name? {
      JoinReversed(parts, current.id);
      ghost var before := parts;
      parts := parts + [current.id];
      assert parts[..|parts| - 1] == before;
      name := Some(Join(Reverse(parts), '.'));
    } else {
      name := None;
    }
  }

  lemma {:induction false} PathJoinsParts(e: Expr)
    ensures NodeToPath(e) == match ChainParts(e) case None => None case Some(parts) => Some(Join(parts, '.'))
  {
    if e.Getattr? {
      PathJoinsParts(e.base);
      if ChainParts(e.base).Some? {
        JoinSnoc(ChainParts(e.base).value, e.attr);
      }
    }
  }

  lemma {:induction false} JoinSnoc(parts: seq<string>, last: string)
    requires parts != []
    ensures Join(parts + [last], '.') == Join(parts, '.') + "." + last
  {
    if |parts| > 1 {
      JoinSnoc(parts[1..], last);
      assert (parts + [last])[1..] == parts[1..] + [last];
    }
  }

  function Children(e: Expr): (cs: seq<Expr>)
    ensures forall c :: c in cs ==> c < e
  {
    match e
    case Const(_) => []
    case Name(_) => []
    case Getattr(base, _) => [base]
    case Apply(_, args) => args
    case Cond(test, thn, els) => [test, thn, els]
  }

  /** Every reference in the expression, left to right; nothing below a `Getattr`. */
  function Occurrences(e: Expr): seq<string>
    decreases e, 0
  {
    match e
    case Const(_) => []
    case Name(id) => [id]
    case Getattr(_, _) => (match NodeToPath(e) case None => [] case Some(p) => [p])
    case Apply(_, args) => OccurrencesAll(args)
    case Cond(test, thn, els) => Occurrences(test) + Occurrences(thn) + Occurrences(els)
  }

  function OccurrencesAll(es: seq<Expr>): seq<string>
    decreases es, 0
  {
    if es == [] then [] else OccurrencesAll(es[..|es| - 1]) + Occurrences(es[|es| - 1])
  }

  function Refs(es: seq<Expr>): set<string> {
    set r | r in OccurrencesAll(es)
  }

  /** The proper prefixes of an attribute chain, as names. */
  function Receivers(p: Path): set<string> {
    set k | 0 < k < |p| :: Join(p[..k], '.')
  }

  /** What an expression may read although no reference to it is collected: the value whose
      attribute is taken, and all that stands below an attribute of anything but a name. */
  function Hidden(e: Expr): set<string>
    decreases e, 0
  {
    match e
    case Const(_) => {}
    case Name(_) => {}
    case Getattr(base, _) =>
      (match ChainParts(e)
       case Some(p) => Receivers(p)
       case None => Hidden(base) + set r | r in Occurrences(base))
    case Apply(_, args) => HiddenAll(args)
    case Cond(test, thn, els) => Hidden(test) + Hidden(thn) + Hidden(els)
  }

  function HiddenAll(es: seq<Expr>): set<string>
    decreases es, 0
  {
    if es == [] then {} else Hidden(es[0]) + HiddenAll(es[1..])
  }

  lemma ChildrenOccurrences(e: Expr)
    requires !e.Getattr? && !e.Name?
    ensures OccurrencesAll(Children(e)) == Occurrences(e)
  {
    if e.Cond? {
      ThreeOccurrences(e.test, e.thn, e.els);
    }
  }

  lemma ThreeOccurrences(a: Expr, b: Expr, c: Expr)
    ensures OccurrencesAll([a, b, c]) == Occurrences(a) + Occurrences(b) + Occurrences(c)
  {
    var one, two, three := [a], [a, b], [a, b, c];
    assert three[..2] == two && two[..1] == one && one[..0] == [];
    assert OccurrencesAll(one) == Occurrences(a) by { assert OccurrencesAll(one[..0]) == []; }
    assert OccurrencesAll(two) == OccurrencesAll(two[..1]) + Occurrences(b);
    assert OccurrencesAll(three) == OccurrencesAll(three[..2]) + Occurrences(c);
  }

  /** The resolver's collector: grows the shared set by exactly the references. */
  method WalkForRefs(node: Expr, before: set<string>) returns (refs: set<string>)
    ensures refs == before + Refs([node])
    decreases node
  {
    assert OccurrencesAll([node]) == Occurrences(node) by { assert [node][..0] == []; }
    refs := before;
    if node.Getattr? {
      var name := DottedNameFromNode(node);
      if name.Some? && name.value != "" {
        refs := refs + {name.value};
      }
    } else if node.Name? {
      refs := refs + {node.id};
    } else {
      var children := Children(node);
      ChildrenOccurrences(node);
      for i := 0 to |children|
        invariant refs == before + set r | r in OccurrencesAll(children[..i])
      {
        assert children[i] in children;
        OccurrencesPrefix(children, i);
        refs := WalkForRefs(children[i], refs);
        assert OccurrencesAll([children[i]]) == Occurrences(children[i]) by { assert [children[i]][..0] == []; }
      }
      assert children[..|children|] == children;
    }
  }

  lemma {:induction false} OccurrencesPrefix(es: seq<Expr>, i: nat)
    requires i < |es|
    ensures OccurrencesAll(es[..i + 1]) == OccurrencesAll(es[..i]) + Occurrences(es[i])
    ensures OccurrencesAll(es[..i + 1]) <= OccurrencesAll(es)
    decreases |es| - i
  {
    assert es[..i + 1][..i] == es[..i];
    if i + 1 < |es| {
      OccurrencesPrefix(es, i + 1);
    } else {
      assert es[..i + 1] == es;
    }
  }

  // ----- the scanner's listing -----

  /** Append what is new, in order. */
  function AddUnseen(seen: seq<string>, xs: seq<string>): seq<string> {
    if xs == [] then seen
    else
      var before := AddUnseen(seen, xs[..|xs| - 1]);
      var x := xs[|xs| - 1];
      if x == "" || x in before then before else before + [x]
  }

  lemma {:induction false} AddUnseenTwice(seen: seq<string>, xs: seq<string>, ys: seq<string>)
    ensures AddUnseen(seen, xs + ys) == AddUnseen(AddUnseen(seen, xs), ys)
  {
    if ys == [] {
      assert xs + ys == xs;
    } else {
      AddUnseenTwice(seen, xs, ys[..|ys| - 1]);
      assert (xs + ys)[..|xs + ys| - 1] == xs + ys[..|ys| - 1];
    }
  }

  method WalkVariables(node: Expr, before: seq<string>) returns (seen: seq<string>)
    ensures seen == AddUnseen(before, Occurrences(node))
    decreases node
  {
    seen := before;
    if node.Name? || node.Getattr? {
      var path := NodeToPath(node);
      if path.Some? && path.value != "" && path.value !in seen {
        seen := seen + [path.value];
      }
    } else {
      var children := Children(node);
      ChildrenOccurrences(node);
      for i := 0 to |children|
        invariant seen == AddUnseen(before, OccurrencesAll(children[..i]))
      {
        assert children[i] in children;
        OccurrencesPrefix(children, i);
        AddUnseenTwice(before, OccurrencesAll(children[..i]), Occurrences(children[i]));
        seen := WalkVariables(children[i], seen);
      }
      assert children[..|children|] == children;
    }
  }

  ghost predicate FirstAt(xs: seq<string>, x: string, i: nat) {
    i < |xs| && xs[i] == x && forall t | 0 <= t < i :: xs[t] != x
  }

  /** The listing names every reference once, in the order of first occurrence. */
  lemma {:induction false} ListingIsFirstSeen(xs: seq<string>)
    ensures var l := AddUnseen([], xs);
            && NoDup(l)
            && (forall x :: x in l <==> x in xs && x != "")
            && (forall a, b, i, j | 0 <= a < b < |l| && FirstAt(xs, l[a], i) && FirstAt(xs, l[b], j) :: i < j)
  {
    if xs != [] {
      var n := |xs| - 1;
      var init := xs[..n];
      ListingIsFirstSeen(init);
      var l := AddUnseen([], xs);
      forall a, b, i: nat, j: nat | 0 <= a < b < |l| && FirstAt(xs, l[a], i) && FirstAt(xs, l[b], j)
        ensures i < j
      {
        assert l[a] in init;
        var k :| 0 <= k < n && init[k] == l[a];
        assert xs[k] == l[a];
        assert FirstAt(init, l[a], i);
        if j < n {
          assert init[j] == l[b];
          assert FirstAt(init, l[b], j);
        }
      }
    }
  }

  /** The scanner lists, once each, exactly what the resolver's collector finds; only an empty
      name, which no template has, would be collected and not listed. */
  lemma ListingIsCollected(e: Expr)
    ensures var l := AddUnseen([], Occurrences(e)); NoDup(l) && forall x :: x in l <==> x in Refs([e]) && x != ""
  {
    ListingIsFirstSeen(Occurrences(e));
    assert OccurrencesAll([e]) == Occurrences(e) by { assert [e][..0] == []; }
  }

  // ----- evaluation -----

  function Coerce(rt: Runtime, v: Value): Value {
    match v
    case VStr(s) =>
      if |s| > 1 && s[0] == '0' && rt.isDigit(s[1]) then v
      else if rt.parseInt(s).Some? then VInt(rt.parseInt(s).value)
      else if rt.parseFloat(s).Some? then VFloat(rt.parseFloat(s).value)
      else v
    case _ => v
  }

  function CoerceAll(rt: Runtime, ctx: Context<Value>): (d: Context<Value>)
    ensures d.order == ctx.order && d.m.Keys == ctx.m.Keys
  {
    Dict(ctx.order, map k | k in ctx.m :: Coerce(rt, ctx.m[k]))
  }

  function FromTree(t: Tree<Value>): Obj {
    match t case Leaf(v) => Val(v) case Node(kids) => Mapping(kids)
  }

  function Fetch(rt: Runtime, kids: map<string, Tree<Value>>, id: string): Obj {
    if id in kids then FromTree(kids[id]) else if id in rt.globals then rt.globals[id] else Undefined
  }

  /** Attribute access: a missing attribute is undefined and stays so along the chain. */
  function GetAttr(rt: Runtime, o: Obj, attr: string): Outcome<Obj> {
    match o
    case Undefined => Ok(Undefined)
    case Mapping(kids) =>
      if attr in rt.dictAttrs then rt.attr(o, attr)
      else if attr in kids then Ok(FromTree(kids[attr]))
      else Ok(Undefined)
    case _ => rt.attr(o, attr)
  }

  function Eval(rt: Runtime, kids: map<string, Tree<Value>>, e: Expr): Outcome<Obj>
    decreases e, 0
  {
    match e
    case Const(v) => Ok(Val(v))
    case Name(id) => Ok(Fetch(rt, kids, id))
    case Getattr(base, attr) =>
      (match Eval(rt, kids, base) case Ok(o) => GetAttr(rt, o, attr) case Raise(err) => Raise(err))
    case Apply(op, args) =>
      (match EvalAll(rt, kids, args) case Ok(os) => rt.apply(op, os) case Raise(err) => Raise(err))
    case Cond(test, thn, els) =>
      (match Eval(rt, kids, test)
       case Raise(err) => Raise(err)
       case Ok(o) => if rt.truthy(o) then Eval(rt, kids, thn) else Eval(rt, kids, els))
  }

  function EvalAll(rt: Runtime, kids: map<string, Tree<Value>>, es: seq<Expr>): (r: Outcome<seq<Obj>>)
    ensures r.Ok? ==> |r.value| == |es|
    decreases es, 0
  {
    if es == [] then Ok([])
    else match Eval(rt, kids, es[0])
      case Raise(err) => Raise(err)
      case Ok(o) =>
        match EvalAll(rt, kids, es[1..])
        case Raise(err) => Raise(err)
        case Ok(os) => Ok([o] + os)
  }

  function Concat(rt: Runtime, os: seq<Obj>): string {
    if os == [] then "" else rt.text(os[0]) + Concat(rt, os[1..])
  }

  function EvaluateFormula(rt: Runtime, expression: string, ctx: Context<Value>): Outcome<string>
  {
    match rt.parse(expression)
    case None => Raise("TemplateSyntaxError")
    case Some(es) =>
      match EvalAll(rt, Nested(Entries(CoerceAll(rt, ctx))), es)
      case Raise(err) => Raise(err)
      case Ok(os) => Ok(rt.strip(Concat(rt, os)))
  }

  // ----- the footprint of a formula -----

  ghost predicate Identifier(s: string) {
    s != "" && '.' !in s
  }

  /** Reading at `p` may depend on the value named `n`, although `n` is not `p`. */
  ghost predicate Conflict(rt: Runtime, p: Path, n: Path)
    requires |p| > 0 && |n| > 0
  {
    n != p && (Related(p, n) || (p[0] in rt.globals && n[0] == p[0]))
  }

  ghost predicate Clear(rt: Runtime, p: Path, names: set<string>)
    requires |p| > 0
  {
    && (forall i | 0 <= i < |p| :: Identifier(p[i]))
    && (forall i | 1 <= i < |p| :: p[i] !in rt.dictAttrs)
    && (forall n | n in names :: !Conflict(rt, p, PathOf(n)))
  }

  /** The chain reads one parameter, and then at most attributes of its value. */
  ghost predicate ClearWithin(rt: Runtime, p: Path, names: set<string>) {
    exists k :: 0 < k <= |p| && Clear(rt, p[..k], names)
  }

  /** Every name and attribute chain reads at most one parameter. */
  ghost predicate Clean(rt: Runtime, e: Expr, names: set<string>)
    decreases e, 0
  {
    match e
    case Const(_) => true
    case Name(_) => Clear(rt, ChainParts(e).value, names)
    case Getattr(base, _) =>
      (match ChainParts(e) case Some(p) => ClearWithin(rt, p, names) case None => Clean(rt, base, names))
    case Apply(_, args) => CleanAll(rt, args, names)
    case Cond(test, thn, els) => Clean(rt, test, names) && Clean(rt, thn, names) && Clean(rt, els, names)
  }

  ghost predicate CleanAll(rt: Runtime, es: seq<Expr>, names: set<string>)
    decreases es, 0
  {
    es == [] || (Clean(rt, es[0], names) && CleanAll(rt, es[1..], names))
  }

  function Walk(rt: Runtime, kids: map<string, Tree<Value>>, p: Path): Outcome<Obj>
    requires |p| > 0
  {
    if |p| == 1 then Ok(Fetch(rt, kids, p[0]))
    else match Walk(rt, kids, p[..|p| - 1])
      case Raise(err) => Raise(err)
      case Ok(o) => GetAttr(rt, o, p[|p| - 1])
  }

  lemma {:induction false} EvalIsWalk(rt: Runtime, kids: map<string, Tree<Value>>, e: Expr)
    requires ChainParts(e).Some?
    ensures Eval(rt, kids, e) == Walk(rt, kids, ChainParts(e).value)
  {
    if e.Getattr? {
      EvalIsWalk(rt, kids, e.base);
      var p := ChainParts(e).value;
      assert p[..|p| - 1] == ChainParts(e.base).value;
    }
  }

  lemma {:induction false} LookupSnoc(kids: map<string, Tree<Value>>, p: Path)
    requires |p| > 1
    ensures Lookup(kids, p) ==
            match Lookup(kids, p[..|p| - 1])
            case Some(Node(sub)) => if p[|p| - 1] in sub then Some(sub[p[|p| - 1]]) else None
            case _ => None
    decreases |p|
  {
    if |p| > 2 && p[0] in kids && kids[p[0]].Node? {
      LookupSnoc(kids[p[0]].kids, p[1..]);
      assert p[1..][..|p[1..]| - 1] == p[..|p| - 1][1..];
    }
  }

  lemma {:induction false} WalkPresent(rt: Runtime, kids: map<string, Tree<Value>>, p: Path)
    requires |p| > 0 && Lookup(kids, p).Some?
    requires forall i | 1 <= i < |p| :: p[i] !in rt.dictAttrs
    ensures Walk(rt, kids, p) == Ok(FromTree(Lookup(kids, p).value))
  {
    if |p| > 1 {
      LookupSnoc(kids, p);
      WalkPresent(rt, kids, p[..|p| - 1]);
    }
  }

  /** Nothing at the path and no value on the way to it: as if the context were empty. */
  lemma {:induction false} WalkAbsent(rt: Runtime, kids: map<string, Tree<Value>>, p: Path)
    requires |p| > 0 && Lookup(kids, p) == None
    requires forall n | 0 < n < |p| :: !LeafAt(kids, p[..n])
    requires forall i | 1 <= i < |p| :: p[i] !in rt.dictAttrs
    requires p[0] in rt.globals ==> p[0] !in kids
    ensures Walk(rt, kids, p) == Walk(rt, map[], p)
    ensures p[0] !in rt.globals ==> Walk(rt, map[], p) == Ok(Undefined)
  {
    if |p| > 1 {
      var q := p[..|p| - 1];
      assert forall n | 0 < n < |q| :: q[..n] == p[..n];
      LookupSnoc(kids, p);
      assert !LeafAt(kids, q);
      if Lookup(kids, q) == None {
        WalkAbsent(rt, kids, q);
      } else {
        WalkPresent(rt, kids, q);
        RootPresent(kids, q);
        WalkNowhere(rt, q);
      }
    }
  }

  lemma RootPresent(kids: map<string, Tree<Value>>, p: Path)
    requires |p| > 0 && Lookup(kids, p).Some?
    ensures p[0] in kids
  {
  }

  lemma {:induction false} WalkNowhere(rt: Runtime, p: Path)
    requires |p| > 0 && p[0] !in rt.globals
    ensures Walk(rt, map[], p) == Ok(Undefined)
  {
    if |p| > 1 {
      WalkNowhere(rt, p[..|p| - 1]);
    }
  }

  lemma {:induction false} RootsAreEntries(es: seq<Entry<Value>>, root: string)
    requires Proper(es) && root in Nested(es)
    ensures exists i :: 0 <= i < |es| && es[i].path[0] == root
  {
    var n := |es| - 1;
    if es[n].path[0] != root {
      RootsAreEntries(es[..n], root);
      var i :| 0 <= i < n && es[..n][i].path[0] == root;
      assert es[i].path[0] == root;
    }
  }

  /** A clear reference reads its own parameter, or nothing of the context at all. */
  lemma WalkClear(rt: Runtime, ctx: Context<Value>, p: Path)
    requires |p| > 0 && Clear(rt, p, ctx.m.Keys)
    ensures Walk(rt, Nested(Entries(ctx)), p) ==
            if Join(p, '.') in ctx.m then Ok(Val(ctx.m[Join(p, '.')])) else Walk(rt, map[], p)
  {
    var es, key := Entries(ctx), Join(p, '.');
    var kids := Nested(es);
    SplitJoin(p, '.');
    forall i | 0 <= i < |es|
      ensures es[i].path == p <==> ctx.order[i] == key
      ensures es[i].path == p || !Conflict(rt, p, es[i].path)
    {
      PathsIdentifyKeys(ctx.order[i], key);
      assert ctx.order[i] in ctx.m.Keys;
    }
    LookupAligned(es, p);
    if key in ctx.m {
      var i :| 0 <= i < |ctx.order| && ctx.order[i] == key;
      assert es[i].path == p;
      WalkPresent(rt, kids, p);
    } else {
      forall n | 0 < n < |p| ensures !LeafAt(kids, p[..n]) {
        if LeafAt(kids, p[..n]) {
          LeavesAreEntries(es, p[..n]);
          var i :| 0 <= i < |es| && es[i].path == p[..n];
          assert ProperPrefix(es[i].path, p);
        }
      }
      if p[0] in kids {
        RootsAreEntries(es, p[0]);
      }
      WalkAbsent(rt, kids, p);
    }
  }

  /** Attributes of one value are the same in both contexts. */
  lemma {:induction false} WalkOn(rt: Runtime, kids1: map<string, Tree<Value>>, kids2: map<string, Tree<Value>>,
                                  p: Path, k: nat)
    requires 0 < k <= |p| && Walk(rt, kids1, p[..k]) == Walk(rt, kids2, p[..k])
    ensures Walk(rt, kids1, p) == Walk(rt, kids2, p)
    decreases |p|
  {
    if k == |p| {
      assert p[..k] == p;
    } else {
      var init := p[..|p| - 1];
      assert init[..k] == p[..k];
      WalkOn(rt, kids1, kids2, init, k);
    }
  }

  lemma ClearShrinks(rt: Runtime, p: Path, small: set<string>, large: set<string>)
    requires |p| > 0 && small <= large && Clear(rt, p, large)
    ensures Clear(rt, p, small)
  {
  }

  /** Two contexts with the same parameter at the one place that a chain reads. */
  lemma ChainSame(rt: Runtime, c1: Context<Value>, c2: Context<Value>, p: Path, k: nat, names: set<string>)
    requires 0 < k <= |p| && Clear(rt, p[..k], names) && c1.m.Keys <= names && c2.m.Keys <= names
    requires SameAt(c1, c2, Join(p[..k], '.'))
    ensures Walk(rt, Nested(Entries(c1)), p) == Walk(rt, Nested(Entries(c2)), p)
  {
    ClearShrinks(rt, p[..k], c1.m.Keys, names);
    ClearShrinks(rt, p[..k], c2.m.Keys, names);
    WalkClear(rt, c1, p[..k]);
    WalkClear(rt, c2, p[..k]);
    WalkOn(rt, Nested(Entries(c1)), Nested(Entries(c2)), p, k);
  }

  /** Contexts that agree on the collected references and on what is read besides give a clean
      expression the same result. */
  lemma {:induction false} EvalSame(rt: Runtime, c1: Context<Value>, c2: Context<Value>, names: set<string>, e: Expr)
    requires c1.m.Keys <= names && c2.m.Keys <= names && Clean(rt, e, names)
    requires forall r | r in Occurrences(e) || r in Hidden(e) :: SameAt(c1, c2, r)
    ensures Eval(rt, Nested(Entries(c1)), e) == Eval(rt, Nested(Entries(c2)), e)
    decreases e, 0
  {
    match e
    case Const(_) =>
    case Apply(_, args) => EvalAllSame(rt, c1, c2, names, args);
    case Cond(test, thn, els) =>
      EvalSame(rt, c1, c2, names, test);
      EvalSame(rt, c1, c2, names, thn);
      EvalSame(rt, c1, c2, names, els);
    case Name(_) => ChainEvalSame(rt, c1, c2, names, e, ChainParts(e).value);
    case Getattr(base, _) =>
      if ChainParts(e) == None {
        EvalSame(rt, c1, c2, names, base);
      } else {
        ChainEvalSame(rt, c1, c2, names, e, ChainParts(e).value);
      }
  }

  lemma ChainEvalSame(rt: Runtime, c1: Context<Value>, c2: Context<Value>, names: set<string>, e: Expr, p: Path)
    requires c1.m.Keys <= names && c2.m.Keys <= names && Clean(rt, e, names) && ChainParts(e) == Some(p)
    requires forall r | r in Occurrences(e) || r in Hidden(e) :: SameAt(c1, c2, r)
    ensures Eval(rt, Nested(Entries(c1)), e) == Eval(rt, Nested(Entries(c2)), e)
  {
    var k := ChainRead(rt, e, p, names);
    ChainSame(rt, c1, c2, p, k, names);
    EvalIsWalk(rt, Nested(Entries(c1)), e);
    EvalIsWalk(rt, Nested(Entries(c2)), e);
  }

  /** How far a clean chain reads the context; that name is collected or hidden. */
  lemma ChainRead(rt: Runtime, e: Expr, p: Path, names: set<string>) returns (k: nat)
    requires ChainParts(e) == Some(p) && Clean(rt, e, names)
    ensures 0 < k <= |p| && Clear(rt, p[..k], names)
    ensures Join(p[..k], '.') in Occurrences(e) || Join(p[..k], '.') in Hidden(e)
  {
    PathJoinsParts(e);
    if e.Name? {
      k := 1;
    } else {
      k :| 0 < k <= |p| && Clear(rt, p[..k], names);
    }
    assert k == |p| ==> p[..k] == p;
  }

  lemma {:induction false} EvalAllSame(rt: Runtime, c1: Context<Value>, c2: Context<Value>, names: set<string>,
                                       es: seq<Expr>)
    requires c1.m.Keys <= names && c2.m.Keys <= names && CleanAll(rt, es, names)
    requires forall r | r in OccurrencesAll(es) || r in HiddenAll(es) :: SameAt(c1, c2, r)
    ensures EvalAll(rt, Nested(Entries(c1)), es) == EvalAll(rt, Nested(Entries(c2)), es)
    decreases es, 0
  {
    if es != [] {
      OccurrencesCons(es);
      EvalSame(rt, c1, c2, names, es[0]);
      EvalAllSame(rt, c1, c2, names, es[1..]);
    }
  }

  lemma {:induction false} OccurrencesCons(es: seq<Expr>)
    requires es != []
    ensures OccurrencesAll(es) == Occurrences(es[0]) + OccurrencesAll(es[1..])
    decreases |es|
  {
    var n := |es| - 1;
    if n > 0 {
      OccurrencesCons(es[..n]);
      assert es[..n][1..] == es[1..][..n - 1];
    } else {
      assert es[..0] == [] && es[1..] == [];
    }
  }

  lemma FormulaSame(rt: Runtime, expression: string, c1: Context<Value>, c2: Context<Value>, names: set<string>)
    requires c1.m.Keys <= names && c2.m.Keys <= names
    requires rt.parse(expression).Some? ==>
               var es := rt.parse(expression).value;
               && CleanAll(rt, es, names)
               && forall r | r in Refs(es) || r in HiddenAll(es) :: SameAt(c1, c2, r)
    ensures EvaluateFormula(rt, expression, c1) == EvaluateFormula(rt, expression, c2)
  {
    if rt.parse(expression).Some? {
      var d1, d2 := CoerceAll(rt, c1), CoerceAll(rt, c2);
      var es := rt.parse(expression).value;
      forall r | r in OccurrencesAll(es) || r in HiddenAll(es) ensures SameAt(d1, d2, r) {
        assert r in Refs(es) || r in HiddenAll(es);
      }
      EvalAllSame(rt, d1, d2, names, es);
    }
  }

  // ----- what formulas are recorded to read -----

  /** `a.b.c` */
  ghost function Chain(parts: seq<string>): Expr
    requires parts != []
  {
    if |parts| == 1 then Name(parts[0]) else Getattr(Chain(parts[..|parts| - 1]), parts[|parts| - 1])
  }

  /** The expression itself, or a part of an operand or of a branch. */
  ghost predicate IsPart(e: Expr, sub: Expr) {
    e == sub
    || (e.Apply? && exists arg | arg in e.args :: IsPart(arg, sub))
    || (e.Cond? && (IsPart(e.test, sub) || IsPart(e.thn, sub) || IsPart(e.els, sub)))
  }

  ghost predicate Mentions(e: Expr, parts: seq<string>) {
    parts != [] && IsPart(e, Chain(parts))
  }

  lemma {:induction false} ChainOfParts(e: Expr, parts: seq<string>)
    requires parts != []
    ensures ChainParts(e) == Some(parts) <==> e == Chain(parts)
  {
    var n := |parts| - 1;
    assert parts == parts[..n] + [parts[n]];
    if e.Name? {
      assert [e.id] == parts <==> n == 0 && e.id == parts[0];
    } else if e.Getattr? && n > 0 {
      ChainOfParts(e.base, parts[..n]);
      if ChainParts(e.base).Some? {
        LastApart(ChainParts(e.base).value, e.attr, parts);
      }
    }
  }

  lemma LastApart(init: seq<string>, last: string, parts: seq<string>)
    requires parts != []
    ensures init + [last] == parts <==> init == parts[..|parts| - 1] && last == parts[|parts| - 1]
  {
    var n := |parts| - 1;
    assert parts == parts[..n] + [parts[n]];
    if init + [last] == parts {
      assert init == (init + [last])[..n] && last == (init + [last])[n];
    }
  }

  /** Exactly the attribute chains that an expression mentions are recorded, under their dotted
      names, and nothing for an attribute of anything else. */
  lemma {:induction false} RecordedExactly(e: Expr, name: string)
    ensures name in Occurrences(e) <==> exists parts :: Mentions(e, parts) && name == Join(parts, '.')
    decreases e
  {
    match e
    case Const(_) =>
      assert forall parts :: !Mentions(e, parts);
    case Name(_) => RecordedChain(e, name);
    case Getattr(_, _) => RecordedChain(e, name);
    case Apply(_, args) =>
      OccurrencesMember(args, name);
      forall arg | arg in args {
        RecordedExactly(arg, name);
      }
      PartsOfApply(e, name);
    case Cond(test, thn, els) =>
      RecordedExactly(test, name);
      RecordedExactly(thn, name);
      RecordedExactly(els, name);
      PartsOfCond(e, name);
  }

  lemma {:induction false} OccurrencesMember(es: seq<Expr>, name: string)
    ensures name in OccurrencesAll(es) <==> exists e :: e in es && name in Occurrences(e)
  {
    if es != [] {
      var n := |es| - 1;
      OccurrencesMember(es[..n], name);
      assert es[n] in es && forall e | e in es[..n] :: e in es;
      if e :| e in es && name in Occurrences(e) {
        assert e in es[..n] || e == es[n];
      }
    }
  }

  lemma RecordedChain(e: Expr, name: string)
    requires e.Name? || e.Getattr?
    ensures name in Occurrences(e) <==> exists parts :: Mentions(e, parts) && name == Join(parts, '.')
  {
    PathJoinsParts(e);
    if ChainParts(e).Some? {
      var parts := ChainParts(e).value;
      ChainOfParts(e, parts);
      assert Mentions(e, parts);
      forall other | Mentions(e, other) ensures other == parts {
        ChainOfParts(e, other);
      }
    } else {
      forall parts | parts != [] ensures !Mentions(e, parts) {
        ChainOfParts(e, parts);
      }
    }
  }

  lemma PartsOfApply(e: Expr, name: string)
    requires e.Apply?
    ensures (exists parts :: Mentions(e, parts) && name == Join(parts, '.'))
       <==> exists arg, parts :: arg in e.args && Mentions(arg, parts) && name == Join(parts, '.')
  {
    forall parts | parts != [] ensures Mentions(e, parts) <==> exists arg :: arg in e.args && Mentions(arg, parts) {
      assert Chain(parts) != e;
    }
  }

  lemma PartsOfCond(e: Expr, name: string)
    requires e.Cond?
    ensures (exists parts :: Mentions(e, parts) && name == Join(parts, '.')) <==>
            || (exists parts :: Mentions(e.test, parts) && name == Join(parts, '.'))
            || (exists parts :: Mentions(e.thn, parts) && name == Join(parts, '.'))
            || (exists parts :: Mentions(e.els, parts) && name == Join(parts, '.'))
  {
    forall parts | parts != []
      ensures Mentions(e, parts) <==> Mentions(e.test, parts) || Mentions(e.thn, parts) || Mentions(e.els, parts) {
      assert Chain(parts) != e;
    }
  }

  // ----- what formulas show -----

  /** A text that reads as a number becomes one, unless it is padded with zeros; an integer
      before a float; other values stay. */
  ghost predicate IsCoerced(rt: Runtime, v: Value, c: Value) {
    if !v.VStr? then c == v
    else
      var padded := |v.s| >= 2 && v.s[0] == '0' && rt.isDigit(v.s[1]);
      && (padded ==> c == v)
      && (!padded && rt.parseInt(v.s).Some? ==> c == VInt(rt.parseInt(v.s).value))
      && (!padded && rt.parseInt(v.s).None? && rt.parseFloat(v.s).Some? ==> c == VFloat(rt.parseFloat(v.s).value))
      && (!padded && rt.parseInt(v.s).None? && rt.parseFloat(v.s).None? ==> c == v)
  }

  lemma CoercedIs(rt: Runtime, v: Value)
    ensures IsCoerced(rt, v, Coerce(rt, v))
    ensures forall c :: IsCoerced(rt, v, c) ==> c == Coerce(rt, v)
  {
  }

  /** What a clear reference finds: the parameter's value, read as a number where it can be,
      or a missing value. */
  ghost predicate Finds(rt: Runtime, ctx: Context<Value>, name: string, o: Obj) {
    if name in ctx.m then o.Val? && IsCoerced(rt, ctx.m[name], o.v) else o == Undefined
  }

  /** `{{ a.b }}` shows the text of that parameter, without white space around it. */
  lemma ReferenceShows(rt: Runtime, expression: string, e: Expr, p: Path, ctx: Context<Value>, o: Obj)
    requires rt.parse(expression) == Some([e]) && ChainParts(e) == Some(p) && Clear(rt, p, ctx.m.Keys)
    requires p[0] !in rt.globals && Finds(rt, ctx, Join(p, '.'), o)
    ensures EvaluateFormula(rt, expression, ctx) == Ok(rt.strip(rt.text(o)))
  {
    var d, kids := CoerceAll(rt, ctx), Nested(Entries(CoerceAll(rt, ctx)));
    EvalIsWalk(rt, kids, e);
    WalkClear(rt, d, p);
    WalkNowhere(rt, p);
    if Join(p, '.') in ctx.m {
      CoercedIs(rt, ctx.m[Join(p, '.')]);
    }
    assert Eval(rt, kids, e) == Ok(o);
    PiecesInOrder(rt, expression, ctx, [e], [o], kids);
    assert [o][..0] == [];
    assert Texts(rt, [o]) == "" + rt.text(o) == rt.text(o);
  }

  /** The texts of the pieces, one after the other. */
  ghost function Texts(rt: Runtime, os: seq<Obj>): string {
    if os == [] then "" else Texts(rt, os[..|os| - 1]) + rt.text(os[|os| - 1])
  }

  lemma {:induction false} ConcatIsTexts(rt: Runtime, a: seq<Obj>, b: seq<Obj>)
    ensures Texts(rt, a + b) == Texts(rt, a) + Concat(rt, b)
    decreases |b|
  {
    if b == [] {
      assert a + b == a;
    } else {
      ConcatIsTexts(rt, a + [b[0]], b[1..]);
      assert a + b == a + [b[0]] + b[1..];
      assert (a + [b[0]])[..|a|] == a;
    }
  }

  lemma {:induction false} AllEvaluate(rt: Runtime, kids: map<string, Tree<Value>>, es: seq<Expr>, os: seq<Obj>)
    requires |os| == |es| && forall i | 0 <= i < |es| :: Eval(rt, kids, es[i]) == Ok(os[i])
    ensures EvalAll(rt, kids, es) == Ok(os)
  {
    if es != [] {
      AllEvaluate(rt, kids, es[1..], os[1..]);
      assert os == [os[0]] + os[1..];
    }
  }

  /** A template shows its pieces in order, stripped as a whole. */
  lemma PiecesInOrder(rt: Runtime, expression: string, ctx: Context<Value>, es: seq<Expr>, os: seq<Obj>,
                      kids: map<string, Tree<Value>>)
    requires rt.parse(expression) == Some(es) && kids == Nested(Entries(CoerceAll(rt, ctx))) && |os| == |es|
    requires forall i | 0 <= i < |es| :: Eval(rt, kids, es[i]) == Ok(os[i])
    ensures EvaluateFormula(rt, expression, ctx) == Ok(rt.strip(Texts(rt, os)))
  {
    AllEvaluate(rt, kids, es, os);
    ConcatIsTexts(rt, [], os);
    assert [] + os == os && "" + Concat(rt, os) == Concat(rt, os);
  }

  ghost predicate SomeRaises(rt: Runtime, kids: map<string, Tree<Value>>, es: seq<Expr>) {
    exists e :: e in es && Eval(rt, kids, e).Raise?
  }

  lemma {:induction false} AllFailExactly(rt: Runtime, kids: map<string, Tree<Value>>, es: seq<Expr>)
    ensures EvalAll(rt, kids, es).Raise? <==> SomeRaises(rt, kids, es)
  {
    if es != [] {
      AllFailExactly(rt, kids, es[1..]);
      assert forall e :: e in es <==> e == es[0] || e in es[1..];
    }
  }

  /** A formula raises exactly when it does not parse or one of its pieces raises. */
  lemma FormulaRaisesExactly(rt: Runtime, expression: string, ctx: Context<Value>, kids: map<string, Tree<Value>>)
    requires kids == Nested(Entries(CoerceAll(rt, ctx)))
    ensures EvaluateFormula(rt, expression, ctx).Raise? <==>
            rt.parse(expression).Some? ==> SomeRaises(rt, kids, rt.parse(expression).value)
  {
    if rt.parse(expression).Some? {
      AllFailExactly(rt, kids, rt.parse(expression).value);
    }
  }

  /** An operator is applied to its operands in order. */
  lemma OperatorsMean(rt: Runtime, kids: map<string, Tree<Value>>, op: string, args: seq<Expr>, os: seq<Obj>)
    requires |os| == |args| && forall i | 0 <= i < |args| :: Eval(rt, kids, args[i]) == Ok(os[i])
    ensures Eval(rt, kids, Apply(op, args)) == rt.apply(op, os)
  {
    AllEvaluate(rt, kids, args, os);
  }

  /** A conditional evaluates the branch that its test chooses, and no other. */
  lemma ConditionalsMean(rt: Runtime, kids: map<string, Tree<Value>>, test: Expr, thn: Expr, els: Expr, o: Obj)
    requires Eval(rt, kids, test) == Ok(o)
    ensures rt.truthy(o) ==> Eval(rt, kids, Cond(test, thn, els)) == Eval(rt, kids, thn)
    ensures !rt.truthy(o) ==> Eval(rt, kids, Cond(test, thn, els)) == Eval(rt, kids, els)
  {
  }

  /** Constants are themselves, names fall back to the globals, and attributes of values are
      the runtime's. */
  lemma AtomsMean(rt: Runtime, kids: map<string, Tree<Value>>, v: Value, id: string, e: Expr, attr: string, o: Obj)
    requires id !in kids && Eval(rt, kids, e) == Ok(o)
    ensures Eval(rt, kids, Const(v)) == Ok(Val(v))
    ensures Eval(rt, kids, Name(id)) == Ok(if id in rt.globals then rt.globals[id] else Undefined)
    ensures o.Val? || o.Other? ==> Eval(rt, kids, Getattr(e, attr)) == rt.attr(o, attr)
    ensures o.Mapping? && attr in rt.dictAttrs ==> Eval(rt, kids, Getattr(e, attr)) == rt.attr(o, attr)
    ensures o == Undefined ==> Eval(rt, kids, Getattr(e, attr)) == Ok(Undefined)
  {
  }
}
