/** Systems of equations over a context of named values, solved by one pass in
    dependency order. */
module Equation {
  import opened PyData
  import opened TopoSort

  /** `uses` names what each equation is recorded to read, `hidden` what it may read without
      its being recorded, `defined` which names have an equation. */
  datatype System<!V> = System(
    uses: map<string, set<string>>,
    defined: set<string>,
    hidden: map<string, set<string>>,
    eval: (string, Context<V>) -> Outcome<V>)

  /** The dependencies among the system's own names. */
  function DerivedGraph<V>(sys: System<V>): (deps: Graph)
    ensures Closed(deps) && deps.Keys == sys.uses.Keys
  {
    map n | n in sys.uses :: sys.uses[n] * sys.uses.Keys
  }

  /** All that the equation of `n` may read. */
  function Reads<V>(sys: System<V>, n: string): set<string> {
    (if n in sys.uses then sys.uses[n] else {}) + if n in sys.hidden then sys.hidden[n] else {}
  }

  /** What an equation reads without a record is not defined by the system, or the record
      leads to it all the same. */
  ghost predicate OrdersReads<V>(sys: System<V>) {
    forall n, h | n in sys.uses && n in sys.hidden && h in sys.hidden[n] && h in sys.uses ::
      Leads(DerivedGraph(sys), n, h)
  }

  ghost predicate AgreeOn<V(!new)>(names: set<string>, c1: Context<V>, c2: Context<V>) {
    forall d | d in names :: SameAt(c1, c2, d)
  }

  ghost predicate Within<V>(sys: System<V>, base: Context<V>, c: Context<V>) {
    c.m.Keys <= base.m.Keys + sys.uses.Keys
  }

  /** Over the names of `base` and the system, an equation reads what it is said to read. */
  ghost predicate Framed<V(!new)>(sys: System<V>, base: Context<V>) {
    && sys.defined <= sys.uses.Keys && OrdersReads(sys)
    && forall n {:trigger FramedAt(sys, base, n)} | n in sys.uses :: FramedAt(sys, base, n)
  }

  ghost predicate FramedAt<V(!new)>(sys: System<V>, base: Context<V>, n: string)
    requires n in sys.uses
  {
    forall c1: Context<V>, c2: Context<V> {:trigger sys.eval(n, c1), sys.eval(n, c2)} |
      Within(sys, base, c1) && Within(sys, base, c2) && AgreeOn(Reads(sys, n), c1, c2)
      :: sys.eval(n, c1) == sys.eval(n, c2)
  }

  lemma EvalAgrees<V(!new)>(sys: System<V>, base: Context<V>, n: string, c1: Context<V>, c2: Context<V>)
    requires Framed(sys, base) && n in sys.uses && Within(sys, base, c1) && Within(sys, base, c2)
    requires AgreeOn(Reads(sys, n), c1, c2)
    ensures sys.eval(n, c1) == sys.eval(n, c2)
  {
    assert FramedAt(sys, base, n);
  }

  /** `s` solves the equations of `names` over `base`: nothing else differs, and each
      value is its equation evaluated in `s` itself. */
  ghost predicate SolvesFor<V>(sys: System<V>, names: set<string>, base: Context<V>, s: Context<V>) {
    && s.m.Keys == base.m.Keys + names
    && (forall k | k in base.m && k !in names :: s.m[k] == base.m[k])
    && (forall n | n in names :: sys.eval(n, s) == Ok(s.m[n]))
  }

  ghost predicate Solves<V>(sys: System<V>, base: Context<V>, s: Context<V>) {
    SolvesFor(sys, sys.defined, base, s)
  }

  /** One pass over `order`, evaluating into the growing context. */
  function Pass<V>(sys: System<V>, order: seq<string>, base: Context<V>): Outcome<Context<V>> {
    if order == [] then Ok(base)
    else
      var last := order[|order| - 1];
      match Pass(sys, order[..|order| - 1], base)
      case Raise(err) => Raise(err)
      case Ok(done) =>
        if last !in sys.defined then Ok(done)
        else match sys.eval(last, done)
          case Raise(err) => Raise(err)
          case Ok(value) => Ok(done.Set(last, value))
  }

  /** The loop that makes the pass; names without an equation are skipped. */
  method RunPass<V>(sys: System<V>, order: seq<string>, base: Context<V>) returns (r: Outcome<Context<V>>)
    ensures r == Pass(sys, order, base)
  {
    var result := base;
    for i := 0 to |order|
      invariant Pass(sys, order[..i], base) == Ok(result)
    {
      assert order[..i + 1][..i] == order[..i];
      if order[i] in sys.defined {
        var value := sys.eval(order[i], result);
        if value.Raise? {
          PassRaises(sys, order, i + 1, base);
          return Raise(value.error);
        }
        result := result.Set(order[i], value.value);
      }
    }
    assert order[..|order|] == order;
    return Ok(result);
  }

  lemma {:induction false} PassRaises<V>(sys: System<V>, order: seq<string>, k: nat, base: Context<V>)
    requires k <= |order| && Pass(sys, order[..k], base).Raise?
    ensures Pass(sys, order, base) == Pass(sys, order[..k], base)
    decreases |order| - k
  {
    if k < |order| {
      assert order[..k + 1][..k] == order[..k];
      PassRaises(sys, order, k + 1, base);
    } else {
      assert order[..k] == order;
    }
  }

  ghost function Covered<V>(sys: System<V>, order: seq<string>): set<string> {
    set n | n in sys.defined && n in order
  }

  lemma ReadsBefore<V>(sys: System<V>, order: seq<string>, i: nat, d: string)
    requires OrdersReads(sys) && Ordered(DerivedGraph(sys), order) && i < |order|
    requires d in Reads(sys, order[i]) && d in sys.uses
    ensures exists j :: 0 <= j < i && order[j] == d
  {
    var n := order[i];
    if d in sys.uses[n] {
      assert d in DerivedGraph(sys)[n];
    } else {
      LeadsBefore(DerivedGraph(sys), order, i, d);
    }
  }

  lemma OrderedLast<V>(sys: System<V>, order: seq<string>)
    requires OrdersReads(sys) && Ordered(DerivedGraph(sys), order) && order != []
    ensures var last, init := order[|order| - 1], order[..|order| - 1];
            && Ordered(DerivedGraph(sys), init) && last !in init && last in sys.uses
            && (forall n | n in order :: n in sys.uses && last !in Reads(sys, n))
            && (forall d | d in Reads(sys, last) && d in sys.uses :: d in init)
            && Covered(sys, order) == Covered(sys, init) + (if last in sys.defined then {last} else {})
  {
    var k := |order| - 1;
    var init, deps := order[..k], DerivedGraph(sys);
    assert order == init + [order[k]];
    OrderedPrefix(deps, order, k);
    forall i, d | 0 <= i < |order| && d in Reads(sys, order[i]) && d in sys.uses ensures d in init {
      ReadsBefore(sys, order, i, d);
      var j :| 0 <= j < i && order[j] == d;
      assert init[j] == d;
    }
    assert order[k] !in init;
    forall n | n in order ensures n in sys.uses && order[k] !in Reads(sys, n) {
      var i :| 0 <= i < |order| && order[i] == n;
    }
  }

  /** A pass that succeeds has solved the equations it covers. */
  lemma {:induction false} PassSolves<V(!new)>(sys: System<V>, order: seq<string>, base: Context<V>)
    requires Framed(sys, base) && Ordered(DerivedGraph(sys), order) && Pass(sys, order, base).Ok?
    ensures SolvesFor(sys, Covered(sys, order), base, Pass(sys, order, base).value)
  {
    if order != [] {
      var init, last := order[..|order| - 1], order[|order| - 1];
      OrderedLast(sys, order);
      PassSolves(sys, init, base);
      var before, after := Pass(sys, init, base).value, Pass(sys, order, base).value;
      if last in sys.defined {
        PassLast(sys, order, base);
        forall n | n in Covered(sys, order) ensures sys.eval(n, after) == Ok(after.m[n]) {
          EvalKept(sys, base, last, before, after, n);
        }
      }
    }
  }

  lemma PassLast<V>(sys: System<V>, order: seq<string>, base: Context<V>)
    requires order != [] && order[|order| - 1] in sys.defined && Pass(sys, order, base).Ok?
    ensures var last, before := order[|order| - 1], Pass(sys, order[..|order| - 1], base);
            && before.Ok? && sys.eval(last, before.value).Ok?
            && Pass(sys, order, base).value.m == before.value.m[last := sys.eval(last, before.value).value]
  {
  }

  /** Giving `last` a value does not change what reads other names only. */
  lemma EvalKept<V(!new)>(sys: System<V>, base: Context<V>, last: string, before: Context<V>, after: Context<V>,
                          n: string)
    requires Framed(sys, base) && n in sys.uses && last in sys.uses && last !in Reads(sys, n)
    requires Within(sys, base, before) && Within(sys, base, after)
    requires last in after.m && after.m == before.m[last := after.m[last]]
    ensures sys.eval(n, before) == sys.eval(n, after)
  {
    EvalAgrees(sys, base, n, before, after);
  }

  /** Whatever solves the system is what the pass computes. */
  lemma {:induction false} PassFollows<V(!new)>(sys: System<V>, order: seq<string>, base: Context<V>, s: Context<V>)
    requires Framed(sys, base) && Ordered(DerivedGraph(sys), order) && Solves(sys, base, s)
    ensures Pass(sys, order, base).Ok?
    ensures var done := Pass(sys, order, base).value;
            && done.m.Keys == base.m.Keys + Covered(sys, order)
            && forall n | n in done.m && (n in order || n !in sys.defined) :: done.m[n] == s.m[n]
  {
    if order != [] {
      var init, last := order[..|order| - 1], order[|order| - 1];
      OrderedLast(sys, order);
      PassFollows(sys, init, base, s);
      var before := Pass(sys, init, base).value;
      if last in sys.defined {
        forall d | d in Reads(sys, last) ensures SameAt(before, s, d) {
          if d in sys.uses {
            assert d in init;
          }
        }
        EvalAgrees(sys, base, last, before, s);
      }
    }
  }

  /** A pass adds the names that it covers, and no others. */
  lemma {:induction false} PassKeys<V>(sys: System<V>, order: seq<string>, base: Context<V>)
    requires Pass(sys, order, base).Ok?
    ensures Pass(sys, order, base).value.m.Keys == base.m.Keys + Covered(sys, order)
  {
    if order != [] {
      var init, last := order[..|order| - 1], order[|order| - 1];
      PassKeys(sys, init, base);
      CoveredLast(sys, order);
      if last in sys.defined {
        PassLast(sys, order, base);
      }
    }
  }

  lemma CoveredLast<V>(sys: System<V>, order: seq<string>)
    requires order != []
    ensures var init, last := order[..|order| - 1], order[|order| - 1];
            Covered(sys, order) == Covered(sys, init) + if last in sys.defined then {last} else {}
  {
    var init, last := order[..|order| - 1], order[|order| - 1];
    assert order == init + [last];
  }

  /** Where an equation fails without a certain name, an order that has not come to the name
      before the equation fails. */
  lemma FailsWithout<V(!new)>(sys: System<V>, order: seq<string>, i: nat, base: Context<V>, r: string)
    requires i < |order| && order[i] in sys.defined && r !in base.m && r !in order[..i]
    requires forall c: Context<V> | c.m.Keys <= base.m.Keys + sys.uses.Keys && r !in c.m :: sys.eval(order[i], c).Raise?
    requires sys.defined <= sys.uses.Keys
    ensures Pass(sys, order, base).Raise?
  {
    if Pass(sys, order[..i], base).Ok? {
      PassKeys(sys, order[..i], base);
    }
    assert order[..i + 1][..i] == order[..i];
    PassRaises(sys, order, i + 1, base);
  }

  /** Under records that order all reads, one complete order succeeds if any other does. */
  lemma AllSucceed<V(!new)>(sys: System<V>, order: seq<string>, other: seq<string>, base: Context<V>)
    requires Framed(sys, base) && CompleteOrder(DerivedGraph(sys), order) && CompleteOrder(DerivedGraph(sys), other)
    requires Pass(sys, order, base).Ok?
    ensures Pass(sys, other, base).Ok? && Pass(sys, other, base).value.m == Pass(sys, order, base).value.m
  {
    CompletePassSolves(sys, order, base);
    PassIsSolution(sys, other, base, Pass(sys, order, base).value);
  }

  lemma CompletePassSolves<V(!new)>(sys: System<V>, order: seq<string>, base: Context<V>)
    requires Framed(sys, base) && CompleteOrder(DerivedGraph(sys), order) && Pass(sys, order, base).Ok?
    ensures Solves(sys, base, Pass(sys, order, base).value)
  {
    assert Covered(sys, order) == sys.defined;
    PassSolves(sys, order, base);
  }

  /** A pass raises only when the system has no solution. */
  lemma PassFailsRightly<V(!new)>(sys: System<V>, order: seq<string>, base: Context<V>)
    requires Framed(sys, base) && Ordered(DerivedGraph(sys), order) && Pass(sys, order, base).Raise?
    ensures forall s :: !Solves(sys, base, s)
  {
    forall s | Solves(sys, base, s) ensures false {
      PassFollows(sys, order, base, s);
    }
  }

  /** The solution is unique, whatever the two contexts hold under the derived names. */
  lemma SolutionUnique<V(!new)>(sys: System<V>, base1: Context<V>, base2: Context<V>, s1: Context<V>, s2: Context<V>)
    requires Framed(sys, base1) && !HasCycle(DerivedGraph(sys))
    requires forall k | k !in sys.defined :: SameAt(base1, base2, k)
    requires Solves(sys, base1, s1) && Solves(sys, base2, s2)
    ensures s1.m == s2.m
  {
    var order := OrderExists(DerivedGraph(sys));
    SolvesOverEither(sys, base1, base2, s2);
    PassIsSolution(sys, order, base1, s1);
    PassIsSolution(sys, order, base1, s2);
  }

  lemma PassIsSolution<V(!new)>(sys: System<V>, order: seq<string>, base: Context<V>, s: Context<V>)
    requires Framed(sys, base) && CompleteOrder(DerivedGraph(sys), order) && Solves(sys, base, s)
    ensures Pass(sys, order, base).Ok? && Pass(sys, order, base).value.m == s.m
  {
    PassFollows(sys, order, base, s);
    assert Covered(sys, order) == sys.defined;
  }

  /** The stale values of the derived names do not matter. */
  lemma SolvesOverEither<V>(sys: System<V>, base1: Context<V>, base2: Context<V>, s: Context<V>)
    requires forall k | k !in sys.defined :: SameAt(base1, base2, k)
    requires Solves(sys, base2, s)
    ensures Solves(sys, base1, s)
  {
    forall k ensures k in base1.m.Keys + sys.defined <==> k in base2.m.Keys + sys.defined {
      assert k !in sys.defined ==> SameAt(base1, base2, k);
    }
    assert base1.m.Keys + sys.defined == base2.m.Keys + sys.defined;
    forall k | k in base1.m && k !in sys.defined ensures s.m[k] == base1.m[k] {
      assert SameAt(base1, base2, k);
    }
  }

  /** A solution solves the system over itself, so a second pass changes nothing. */
  lemma SecondPassIdle<V(!new)>(sys: System<V>, base: Context<V>, s: Context<V>, s2: Context<V>)
    requires Framed(sys, base) && !HasCycle(DerivedGraph(sys)) && Solves(sys, base, s) && Solves(sys, s, s2)
    ensures s2.m == s.m
  {
    SolvesOverEither(sys, base, s, s2);
    SolutionUnique(sys, base, base, s, s2);
  }

  /** The two contexts hold the same under every name that an equation reads and none defines. */
  ghost predicate SameInputs<V(!new)>(sys: System<V>, base1: Context<V>, base2: Context<V>) {
    forall n, d | n in sys.defined && n in sys.uses && d in Reads(sys, n) && d !in sys.defined ::
      SameAt(base1, base2, d)
  }

  lemma {:induction false} InputsDecidePrefix<V(!new)>(sys: System<V>, base1: Context<V>, base2: Context<V>,
                                                       s1: Context<V>, s2: Context<V>, wide: Context<V>,
                                                       order: seq<string>)
    requires Framed(sys, wide) && base1.m.Keys <= wide.m.Keys && base2.m.Keys <= wide.m.Keys
    requires SameInputs(sys, base1, base2) && Solves(sys, base1, s1) && Solves(sys, base2, s2)
    requires Ordered(DerivedGraph(sys), order)
    ensures forall n | n in Covered(sys, order) :: s1.m[n] == s2.m[n]
  {
    if order != [] {
      var init, last := order[..|order| - 1], order[|order| - 1];
      OrderedLast(sys, order);
      InputsDecidePrefix(sys, base1, base2, s1, s2, wide, init);
      if last in sys.defined {
        forall d | d in Reads(sys, last) ensures SameAt(s1, s2, d) {
          if d in sys.defined {
            assert d in Covered(sys, init);
          } else {
            assert SameAt(base1, base2, d);
          }
        }
        EvalAgrees(sys, wide, last, s1, s2);
      }
    }
  }

  /** The derived values depend on the given ones only through the names that are read. */
  lemma InputsDecide<V(!new)>(sys: System<V>, base1: Context<V>, base2: Context<V>, s1: Context<V>, s2: Context<V>,
                              wide: Context<V>)
    requires Framed(sys, wide) && base1.m.Keys <= wide.m.Keys && base2.m.Keys <= wide.m.Keys
    requires !HasCycle(DerivedGraph(sys))
    requires SameInputs(sys, base1, base2) && Solves(sys, base1, s1) && Solves(sys, base2, s2)
    ensures forall n | n in sys.defined :: s1.m[n] == s2.m[n]
  {
    var order := OrderExists(DerivedGraph(sys));
    InputsDecidePrefix(sys, base1, base2, s1, s2, wide, order);
    assert Covered(sys, order) == sys.defined;
  }

  // ----- a part of a system -----

  ghost predicate PartOf<V(!new)>(part: System<V>, whole: System<V>) {
    && part.defined <= whole.uses.Keys
    && forall n, c: Context<V> | n in part.defined :: part.eval(n, c) == whole.eval(n, c)
  }

  lemma PartStep<V(!new)>(part: System<V>, whole: System<V>, base: Context<V>, current: Context<V>, s1: Context<V>,
                          s2: Context<V>, last: string)
    requires Framed(whole, base) && PartOf(part, whole) && last in part.defined
    requires s1.m.Keys <= base.m.Keys + whole.uses.Keys
    requires Solves(part, current, s1) && Solves(part, current, s2)
    requires forall d | d in Reads(whole, last) && d in part.defined :: s1.m[d] == s2.m[d]
    ensures s1.m[last] == s2.m[last]
  {
    forall d | d in Reads(whole, last) ensures SameAt(s1, s2, d) {
      assert d !in part.defined && d in current.m ==> s1.m[d] == current.m[d] == s2.m[d];
    }
    EvalAgrees(whole, base, last, s1, s2);
    assert part.eval(last, s1) == Ok(s1.m[last]) && part.eval(last, s2) == Ok(s2.m[last]);
  }

  lemma {:induction false} PartPrefix<V(!new)>(part: System<V>, whole: System<V>, base: Context<V>, current: Context<V>,
                                               s1: Context<V>, s2: Context<V>, order: seq<string>)
    requires Framed(whole, base) && PartOf(part, whole) && Ordered(DerivedGraph(whole), order)
    requires s1.m.Keys <= base.m.Keys + whole.uses.Keys
    requires Solves(part, current, s1) && Solves(part, current, s2)
    ensures forall n | n in order && n in part.defined :: s1.m[n] == s2.m[n]
  {
    if order != [] {
      var init, last := order[..|order| - 1], order[|order| - 1];
      OrderedLast(whole, order);
      PartPrefix(part, whole, base, current, s1, s2, init);
      assert order == init + [last];
      if last in part.defined {
        PartStep(part, whole, base, current, s1, s2, last);
      }
    }
  }

  /** A part of an acyclic system has at most one solution, whether or not its own records
      order what it reads. */
  lemma PartUnique<V(!new)>(part: System<V>, whole: System<V>, base: Context<V>, current: Context<V>, s1: Context<V>,
                            s2: Context<V>)
    requires Framed(whole, base) && PartOf(part, whole) && !HasCycle(DerivedGraph(whole))
    requires s1.m.Keys <= base.m.Keys + whole.uses.Keys
    requires Solves(part, current, s1) && Solves(part, current, s2)
    ensures s2.m == s1.m
  {
    var order := OrderExists(DerivedGraph(whole));
    PartPrefix(part, whole, base, current, s1, s2, order);
    forall k | k in s1.m ensures s2.m[k] == s1.m[k] {
      if k in part.defined {
        assert k in DerivedGraph(whole);
      }
    }
  }
}
