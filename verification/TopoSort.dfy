/** The dependency order of the derived parameters: a three-colour depth-first search. */
module TopoSort {
  import opened PyData

  type Graph = map<string, set<string>>

  ghost predicate Closed(deps: Graph) {
    forall n | n in deps :: deps[n] <= deps.Keys
  }

  /** Each name stands on the stack because the one before it depends on it. */
  ghost predicate IsPath(deps: Graph, p: seq<string>) {
    && (forall i | 0 <= i < |p| :: p[i] in deps)
    && (forall i | 0 <= i < |p| - 1 :: p[i + 1] in deps[p[i]])
  }

  ghost predicate IsCycle(deps: Graph, p: seq<string>) {
    |p| >= 2 && IsPath(deps, p) && p[0] == p[|p| - 1]
  }

  /** `b` is a dependency of `a`, or of one of its dependencies, and so on. */
  ghost predicate Leads(deps: Graph, a: string, b: string) {
    exists p :: |p| >= 2 && IsPath(deps, p) && p[0] == a && p[|p| - 1] == b
  }

  ghost predicate HasCycle(deps: Graph) {
    exists p :: IsCycle(deps, p)
  }

  /** A dependency path whose last name has occurred before. */
  ghost predicate ClosesCycle(deps: Graph, p: seq<string>) {
    |p| >= 2 && IsPath(deps, p) && p[|p| - 1] in p[..|p| - 1]
  }

  /** No name twice, and every dependency before its dependents. */
  ghost predicate Ordered(deps: Graph, order: seq<string>) {
    && NoDup(order)
    && (forall i | 0 <= i < |order| :: order[i] in deps)
    && (forall i, d | 0 <= i < |order| && d in deps[order[i]] :: exists j :: 0 <= j < i && order[j] == d)
  }

  ghost predicate CompleteOrder(deps: Graph, order: seq<string>) {
    Ordered(deps, order) && forall n | n in deps :: n in order
  }

  lemma ClosingPathIsCycle(deps: Graph, p: seq<string>)
    requires ClosesCycle(deps, p)
    ensures HasCycle(deps)
  {
    var i :| 0 <= i < |p| - 1 && p[..|p| - 1][i] == p[|p| - 1];
    assert IsCycle(deps, p[i..]);
  }

  lemma OrderedPrefix(deps: Graph, order: seq<string>, k: nat)
    requires Ordered(deps, order) && k <= |order|
    ensures Ordered(deps, order[..k])
  {
    var init := order[..k];
    forall i, d | 0 <= i < |init| && d in deps[init[i]] ensures exists j :: 0 <= j < i && init[j] == d {
      var j :| 0 <= j < i && order[j] == d;
      assert init[j] == d;
    }
  }

  /** Along a path the positions in the order only go down. */
  lemma {:induction false} PathDescends(deps: Graph, order: seq<string>, p: seq<string>, i: nat)
    requires Ordered(deps, order) && IsPath(deps, p) && |p| >= 2
    requires i < |order| && order[i] == p[0]
    ensures exists j :: 0 <= j < i && order[j] == p[|p| - 1]
  {
    assert p[1] in deps[order[i]];
    var j :| 0 <= j < i && order[j] == p[1];
    if |p| > 2 {
      PathDescends(deps, order, p[1..], j);
      assert p[1..][|p[1..]| - 1] == p[|p| - 1];
    }
  }

  /** What a name leads to stands before it. */
  lemma LeadsBefore(deps: Graph, order: seq<string>, i: nat, b: string)
    requires Ordered(deps, order) && i < |order| && Leads(deps, order[i], b)
    ensures exists j :: 0 <= j < i && order[j] == b
  {
    var p :| |p| >= 2 && IsPath(deps, p) && p[0] == order[i] && p[|p| - 1] == b;
    PathDescends(deps, order, p, i);
  }

  lemma OrderedHasNoCycle(deps: Graph, order: seq<string>)
    requires CompleteOrder(deps, order)
    ensures !HasCycle(deps)
  {
    if p :| IsCycle(deps, p) {
      assert p[0] in order;
      var i :| 0 <= i < |order| && order[i] == p[0];
      PathDescends(deps, order, p, i);
    }
  }

  lemma PathGrows(deps: Graph, p: seq<string>, d: string)
    requires Closed(deps) && p != [] && IsPath(deps, p) && d in deps[p[|p| - 1]]
    ensures IsPath(deps, p + [d])
  {
  }

  lemma RepeatCloses(deps: Graph, stack: seq<string>, name: string)
    requires IsPath(deps, stack + [name]) && name in stack
    ensures ClosesCycle(deps, stack + [name])
  {
    assert (stack + [name])[..|stack|] == stack;
  }

  ghost predicate Listed(names: set<string>, order: seq<string>) {
    forall n | n in names :: n in order
  }

  lemma ListedGrows(names: set<string>, todo: set<string>, name: string, before: seq<string>, after: seq<string>)
    requires Listed(names - todo, before) && before <= after && name in after
    ensures Listed(names - (todo - {name}), after)
  {
    forall n | n in names - (todo - {name}) ensures n in after {
      assert n != name ==> n in before;
    }
  }

  datatype Color = White | Gray | Black

  datatype SortResult = Sorted(order: seq<string>) | Cycle(stack: seq<string>)

  class Search {
    const deps: Graph
    var color: map<string, Color>
    var result: seq<string>

    constructor (deps: Graph)
      requires Closed(deps)
      ensures Valid() && fresh(this) && this.deps == deps
      ensures forall n | n in deps :: color[n] == White
    {
      this.deps := deps;
      color := map n | n in deps :: White;
      result := [];
    }

    /** The black names are the result so far. */
    ghost predicate Valid()
      reads this
    {
      && Closed(deps) && color.Keys == deps.Keys
      && Ordered(deps, result)
      && (forall n | n in color :: color[n] == Black <==> n in result)
    }

    ghost predicate GrayIs(stack: seq<string>)
      reads this
    {
      forall n | n in color :: color[n] == Gray <==> n in stack
    }

    ghost function Whites(): set<string>
      reads this
    {
      set n | n in color && color[n] == White
    }

    /** `Some` is the stack reported by the error. */
    method Visit(name: string, stack: seq<string>) returns (cycle: Option<seq<string>>)
      requires Valid() && name in deps && GrayIs(stack) && IsPath(deps, stack + [name])
      modifies this
      decreases Whites()
      ensures cycle == None ==> Valid() && GrayIs(stack) && color[name] == Black
      ensures cycle == None ==> old(result) <= result && Whites() <= old(Whites())
      ensures cycle.Some? ==> ClosesCycle(deps, cycle.value)
    {
      if color[name] == Black {
        return None;
      }
      if color[name] == Gray {
        RepeatCloses(deps, stack, name);
        return Some(stack + [name]);
      }
      Enter(name, stack);
      var inner := stack + [name];
      var todo := deps[name];
      while todo != {}
        invariant Valid() && GrayIs(inner) && todo <= deps[name]
        invariant Listed(deps[name] - todo, result)
        invariant old(result) <= result && Whites() < old(Whites())
        decreases todo
      {
        var dep :| dep in todo;
        ghost var before := result;
        PathGrows(deps, inner, dep);
        cycle := Visit(dep, inner);
        if cycle.Some? {
          return;
        }
        ListedGrows(deps[name], todo, dep, before, result);
        todo := todo - {dep};
      }
      assert deps[name] - todo == deps[name];
      Leave(name, stack);
      cycle := None;
    }

    method Enter(name: string, stack: seq<string>)
      requires Valid() && name in deps && color[name] == White && GrayIs(stack)
      modifies this`color
      ensures Valid() && GrayIs(stack + [name]) && Whites() == old(Whites()) - {name} && name in old(Whites())
    {
      color := color[name := Gray];
    }

    method Leave(name: string, stack: seq<string>)
      requires Valid() && name in deps && color[name] == Gray && GrayIs(stack + [name]) && name !in stack
      requires Listed(deps[name], result)
      modifies this
      ensures Valid() && GrayIs(stack) && result == old(result) + [name] && color == old(color)[name := Black]
      ensures Whites() == old(Whites())
    {
      color := color[name := Black];
      result := result + [name];
      OrderedExtends(deps, old(result), name);
    }
  }

  /** `names` lists the keys of the graph in the caller's order. */
  method TopologicalSort(deps: Graph, names: seq<string>) returns (r: SortResult)
    requires Closed(deps) && forall n :: n in names <==> n in deps
    ensures r.Sorted? ==> CompleteOrder(deps, r.order)
    ensures r.Cycle? ==> ClosesCycle(deps, r.stack)
    ensures r.Cycle? <==> HasCycle(deps)
  {
    var search := new Search(deps);
    for i := 0 to |names|
      invariant search.Valid() && search.deps == deps && search.GrayIs([])
      invariant forall j | 0 <= j < i :: search.color[names[j]] == Black
    {
      if search.color[names[i]] == White {
        ghost var before := search.result;
        assert IsPath(deps, [] + [names[i]]);
        var cycle := search.Visit(names[i], []);
        if cycle.Some? {
          ClosingPathIsCycle(deps, cycle.value);
          return Cycle(cycle.value);
        }
        forall j | 0 <= j < i ensures search.color[names[j]] == Black {
          assert names[j] in before;
          assert names[j] in search.result;
        }
      }
    }
    OrderedHasNoCycle(deps, search.result);
    return Sorted(search.result);
  }

  lemma {:induction false} NoDupFits(p: seq<string>, names: set<string>)
    requires NoDup(p) && forall n | n in p :: n in names
    ensures |p| <= |names|
  {
    if p != [] {
      NoDupFits(p[1..], names - {p[0]});
    }
  }

  /** Following dependencies inside a finite set without leaving it closes a cycle. */
  lemma LeafExists(deps: Graph, names: set<string>)
    requires !HasCycle(deps) && names <= deps.Keys && names != {}
    ensures exists n :: n in names && deps[n] * names == {}
  {
    var start :| start in names;
    var p := [start];
    while |p| <= |names| && deps[p[|p| - 1]] * names != {}
      invariant |p| > 0 && IsPath(deps, p) && forall n | n in p :: n in names
      decreases |names| - |p|
    {
      var d :| d in deps[p[|p| - 1]] * names;
      p := p + [d];
    }
    PathWithoutRepeats(deps, p);
    NoDupFits(p, names);
    assert p[|p| - 1] in names;
  }

  lemma PathWithoutRepeats(deps: Graph, p: seq<string>)
    requires !HasCycle(deps) && IsPath(deps, p)
    ensures NoDup(p)
  {
    forall i, j | 0 <= i < j < |p| ensures p[i] != p[j] {
      assert p[i] == p[j] ==> IsCycle(deps, p[i..j + 1]);
    }
  }

  /** Without a cycle there is an order. */
  lemma OrderExists(deps: Graph) returns (order: seq<string>)
    requires Closed(deps) && !HasCycle(deps)
    ensures CompleteOrder(deps, order)
  {
    order := [];
    var rest := deps.Keys;
    while rest != {}
      invariant rest <= deps.Keys && Ordered(deps, order)
      invariant forall n | n in deps :: n in order <==> n !in rest
      decreases rest
    {
      LeafExists(deps, rest);
      var n :| n in rest && deps[n] * rest == {};
      forall d | d in deps[n] ensures d in order {
        assert d !in deps[n] * rest;
      }
      OrderedExtends(deps, order, n);
      order, rest := order + [n], rest - {n};
    }
  }

  lemma OrderedExtends(deps: Graph, order: seq<string>, n: string)
    requires Ordered(deps, order) && n in deps && n !in order && forall d | d in deps[n] :: d in order
    ensures Ordered(deps, order + [n])
  {
    var longer := order + [n];
    forall i, d | 0 <= i < |longer| && d in deps[longer[i]] ensures exists j :: 0 <= j < i && longer[j] == d {
      if i < |order| {
        assert d in deps[order[i]];
        var j :| 0 <= j < i && order[j] == d;
        assert longer[j] == d;
      } else {
        var j :| 0 <= j < |order| && order[j] == d;
        assert longer[j] == d;
      }
    }
  }

  /** With distinct names the result is a permutation of the input. */
  lemma {:induction false} CompleteOrderIsPermutation(names: seq<string>, order: seq<string>)
    requires NoDup(names) && NoDup(order) && forall n :: n in names <==> n in order
    ensures multiset(names) == multiset(order)
  {
    forall n ensures multiset(names)[n] == multiset(order)[n] {
      NoDupCount(names, n);
      NoDupCount(order, n);
    }
  }

  lemma {:induction false} NoDupCount(s: seq<string>, x: string)
    requires NoDup(s)
    ensures multiset(s)[x] == if x in s then 1 else 0
  {
    if s != [] {
      var n := |s| - 1;
      NoDupCount(s[..n], x);
      assert s == s[..n] + [s[n]];
    }
  }

  // ----- which orders there are -----

  /** `x` and all that it leads to. */
  ghost function Below(deps: Graph, x: string): set<string> {
    set n | n in deps && (n == x || Leads(deps, x, n))
  }

  ghost function Among(order: seq<string>, names: set<string>): seq<string> {
    if order == [] then []
    else
      var last := order[|order| - 1];
      Among(order[..|order| - 1], names) + if last in names then [last] else []
  }

  lemma {:induction false} AmongMembers(order: seq<string>, names: set<string>)
    ensures forall n :: n in Among(order, names) <==> n in order && n in names
  {
    if order != [] {
      AmongMembers(order[..|order| - 1], names);
      assert order == order[..|order| - 1] + [order[|order| - 1]];
    }
  }

  lemma AmongLast(order: seq<string>, names: set<string>)
    requires order != []
    ensures var init, last := order[..|order| - 1], order[|order| - 1];
            Among(order, names) == if last in names then Among(init, names) + [last] else Among(init, names)
  {
  }

  lemma BelowClosed(deps: Graph, x: string, n: string, d: string)
    requires Closed(deps) && n in Below(deps, x) && d in deps[n]
    ensures d in Below(deps, x)
  {
    if n == x {
      LeadsBy(deps, [x, d]);
    } else {
      var p :| |p| >= 2 && IsPath(deps, p) && p[0] == x && p[|p| - 1] == n;
      PathGrows(deps, p, d);
      LeadsBy(deps, p + [d]);
    }
  }

  lemma LeadsBy(deps: Graph, p: seq<string>)
    requires |p| >= 2 && IsPath(deps, p)
    ensures Leads(deps, p[0], p[|p| - 1])
  {
  }

  lemma LastReady(deps: Graph, order: seq<string>)
    requires Ordered(deps, order) && order != []
    ensures var init, last := order[..|order| - 1], order[|order| - 1];
            Ordered(deps, init) && last in deps && last !in init && forall d | d in deps[last] :: d in init
  {
    OrderedPrefix(deps, order, |order| - 1);
  }

  lemma {:induction false} BelowOrdered(deps: Graph, order: seq<string>, x: string)
    requires Closed(deps) && Ordered(deps, order)
    ensures Ordered(deps, Among(order, Below(deps, x)))
  {
    if order != [] {
      var init, last := order[..|order| - 1], order[|order| - 1];
      LastReady(deps, order);
      BelowOrdered(deps, init, x);
      AmongMembers(init, Below(deps, x));
      AmongLast(order, Below(deps, x));
      if last in Below(deps, x) {
        forall d | d in deps[last] ensures d in Among(init, Below(deps, x)) {
          BelowClosed(deps, x, last, d);
        }
        OrderedExtends(deps, Among(init, Below(deps, x)), last);
      }
    }
  }

  lemma {:induction false} RestOrdered(deps: Graph, first: seq<string>, order: seq<string>, below: set<string>)
    requires Ordered(deps, first) && Ordered(deps, order)
    requires forall n | n in first :: n in below
    requires forall n | n in order && n in below :: n in first
    ensures Ordered(deps, first + Among(order, deps.Keys - below))
  {
    var above := deps.Keys - below;
    if order == [] {
      assert first + [] == first;
    } else {
      var init, last := order[..|order| - 1], order[|order| - 1];
      LastReady(deps, order);
      assert forall n | n in init :: n in order;
      RestOrdered(deps, first, init, below);
      AmongMembers(init, above);
      var done := first + Among(init, above);
      if last in above {
        assert forall d | d in deps[last] :: d in deps && (d in first || d in Among(init, above));
        OrderedExtends(deps, done, last);
        assert first + Among(order, above) == done + [last];
      } else {
        assert Among(order, above) == Among(init, above);
      }
    }
  }

  /** Unless `x` leads to `r`, some complete order puts `x` first of the two. */
  lemma CanPrecede(deps: Graph, order: seq<string>, x: string, r: string) returns (other: seq<string>, i: nat)
    requires Closed(deps) && CompleteOrder(deps, order) && x in deps && !Leads(deps, x, r)
    ensures CompleteOrder(deps, other) && i < |other| && other[i] == x && r !in other[..i]
  {
    var below := Below(deps, x);
    var first, rest := Among(order, below), Among(order, deps.Keys - below);
    BelowOrdered(deps, order, x);
    AmongMembers(order, below);
    AmongMembers(order, deps.Keys - below);
    RestOrdered(deps, first, order, below);
    other := first + rest;
    assert x in first;
    i :| 0 <= i < |first| && first[i] == x;
    forall j | 0 <= j < i ensures other[j] != r {
      assert other[j] == first[j] && first[j] in first;
    }
  }
}
