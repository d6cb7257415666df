/** The parameters of a form as they are listed when it is loaded: by scope, then by sort
    order and name. */
module FormFields {
  import opened PyData
  import opened Formula
  import opened TopoSort
  import opened Equation
  import opened Resolver
  import opened Expressions
  import opened Inheritance

  /** A parameter with the template that defines it, if it is a template's. */
  type Row = (Parameter, Option<string>)

  // ----- Python's stable sort by (sort order, name) -----

  predicate TextUpTo(a: string, b: string) {
    a == "" || (b != "" && (a[0] < b[0] || (a[0] == b[0] && TextUpTo(a[1..], b[1..]))))
  }

  predicate UpTo(a: Row, b: Row) {
    a.0.sortOrder < b.0.sortOrder || (a.0.sortOrder == b.0.sortOrder && TextUpTo(a.0.name, b.0.name))
  }

  predicate SameKey(a: Row, b: Row) {
    a.0.sortOrder == b.0.sortOrder && a.0.name == b.0.name
  }

  ghost predicate InOrder(rows: seq<Row>) {
    forall i, j | 0 <= i < j < |rows| :: UpTo(rows[i], rows[j])
  }

  function Insert(x: Row, rows: seq<Row>): seq<Row> {
    if rows == [] then [x]
    else if UpTo(rows[0], x) then [rows[0]] + Insert(x, rows[1..])
    else [x] + rows
  }

  function Sorted(rows: seq<Row>): seq<Row> {
    if rows == [] then [] else Insert(rows[|rows| - 1], Sorted(rows[..|rows| - 1]))
  }

  lemma {:induction false} TextTotal(a: string, b: string)
    ensures TextUpTo(a, b) || TextUpTo(b, a)
    ensures TextUpTo(a, b) && TextUpTo(b, a) <==> a == b
  {
    if a != "" && b != "" && a[0] == b[0] {
      TextTotal(a[1..], b[1..]);
      assert a == [a[0]] + a[1..] && b == [b[0]] + b[1..];
    }
  }

  lemma {:induction false} TextTransitive(a: string, b: string, c: string)
    requires TextUpTo(a, b) && TextUpTo(b, c)
    ensures TextUpTo(a, c)
  {
    if a != "" && a[0] == b[0] == c[0] {
      TextTransitive(a[1..], b[1..], c[1..]);
    }
  }

  lemma UpToOrders(a: Row, b: Row, c: Row)
    ensures UpTo(a, b) || UpTo(b, a)
    ensures UpTo(a, b) && UpTo(b, a) <==> SameKey(a, b)
    ensures UpTo(a, b) && UpTo(b, c) ==> UpTo(a, c)
  {
    TextTotal(a.0.name, b.0.name);
    if TextUpTo(a.0.name, b.0.name) && TextUpTo(b.0.name, c.0.name) {
      TextTransitive(a.0.name, b.0.name, c.0.name);
    }
  }

  lemma {:induction false} InsertMembers(x: Row, rows: seq<Row>)
    ensures multiset(Insert(x, rows)) == multiset(rows) + multiset{x}
  {
    if rows != [] {
      assert rows == [rows[0]] + rows[1..];
      if UpTo(rows[0], x) {
        InsertMembers(x, rows[1..]);
      }
    }
  }

  lemma InOrderCons(x: Row, rows: seq<Row>)
    ensures InOrder([x] + rows) <==> InOrder(rows) && forall r | r in rows :: UpTo(x, r)
  {
    var all := [x] + rows;
    if InOrder(all) {
      forall i, j | 0 <= i < j < |rows| ensures UpTo(rows[i], rows[j]) {
        assert all[i + 1] == rows[i] && all[j + 1] == rows[j];
      }
      forall r | r in rows ensures UpTo(x, r) {
        var j :| 0 <= j < |rows| && rows[j] == r;
        assert all[0] == x && all[j + 1] == r;
      }
    }
  }

  lemma {:induction false} InsertInOrder(x: Row, rows: seq<Row>)
    requires InOrder(rows)
    ensures InOrder(Insert(x, rows))
  {
    if rows == [] {
    } else {
      var y, rest := rows[0], rows[1..];
      assert rows == [y] + rest;
      InOrderCons(y, rest);
      if UpTo(y, x) {
        InsertInOrder(x, rest);
        InsertMembers(x, rest);
        forall r | r in Insert(x, rest) ensures UpTo(y, r) {
          assert r in multiset(Insert(x, rest));
          assert r in multiset(rest) || r == x;
        }
        InOrderCons(y, Insert(x, rest));
      } else {
        forall r | r in rows ensures UpTo(x, r) {
          UpToOrders(x, y, r);
        }
        InOrderCons(x, rows);
      }
    }
  }

  lemma {:induction false} SortedOrders(rows: seq<Row>)
    ensures InOrder(Sorted(rows)) && multiset(Sorted(rows)) == multiset(rows)
  {
    if rows != [] {
      var init, x := rows[..|rows| - 1], rows[|rows| - 1];
      SortedOrders(init);
      InsertInOrder(x, Sorted(init));
      InsertMembers(x, Sorted(init));
      assert rows == init + [x];
    }
  }

  /** The rows with the key of `x`, in their order. */
  ghost function Alike(rows: seq<Row>, x: Row): seq<Row> {
    if rows == [] then [] else (if SameKey(rows[0], x) then [rows[0]] else []) + Alike(rows[1..], x)
  }

  lemma {:induction false} AlikeNone(rows: seq<Row>, x: Row)
    requires forall r | r in rows :: !SameKey(r, x)
    ensures Alike(rows, x) == []
  {
    if rows != [] {
      AlikeNone(rows[1..], x);
    }
  }

  lemma {:induction false} AlikeSnoc(rows: seq<Row>, y: Row, x: Row)
    ensures Alike(rows + [y], x) == Alike(rows, x) + if SameKey(y, x) then [y] else []
  {
    if rows == [] {
      assert rows + [y] == [y];
    } else {
      AlikeSnoc(rows[1..], y, x);
      assert (rows + [y])[1..] == rows[1..] + [y];
    }
  }

  lemma AlikeLast(rows: seq<Row>, x: Row)
    requires rows != []
    ensures var n := |rows| - 1;
            Alike(rows, x) == Alike(rows[..n], x) + if SameKey(rows[n], x) then [rows[n]] else []
  {
    AlikeSnoc(rows[..|rows| - 1], rows[|rows| - 1], x);
    assert rows == rows[..|rows| - 1] + [rows[|rows| - 1]];
  }

  lemma {:induction false} InsertAlike(y: Row, rows: seq<Row>, x: Row)
    requires InOrder(rows)
    ensures Alike(Insert(y, rows), x) == Alike(rows, x) + if SameKey(y, x) then [y] else []
  {
    if rows != [] {
      var head, rest := rows[0], rows[1..];
      assert rows == [head] + rest;
      InOrderCons(head, rest);
      if UpTo(head, y) {
        InsertAlike(y, rest, x);
        assert Insert(y, rows)[1..] == Insert(y, rest);
      } else {
        assert Insert(y, rows)[1..] == rows;
        if SameKey(y, x) {
          forall r | r in rows ensures !SameKey(r, x) {
            UpToOrders(head, r, y);
            UpToOrders(r, y, y);
          }
          AlikeNone(rows, x);
        }
      }
    }
  }

  /** Rows with equal keys stay in their order. */
  lemma {:induction false} SortIsStable(rows: seq<Row>, x: Row)
    ensures Alike(Sorted(rows), x) == Alike(rows, x)
  {
    if rows != [] {
      var init, y := rows[..|rows| - 1], rows[|rows| - 1];
      SortIsStable(init, x);
      SortedOrders(init);
      InsertAlike(y, Sorted(init), x);
      AlikeLast(rows, x);
    }
  }

  lemma HeadFirst(rows: seq<Row>)
    requires rows != [] && InOrder(rows)
    ensures InOrder(rows[1..]) && multiset(rows[1..]) == multiset(rows) - multiset{rows[0]}
    ensures forall r | r in multiset(rows) :: UpTo(rows[0], r)
  {
    assert rows == [rows[0]] + rows[1..];
    InOrderCons(rows[0], rows[1..]);
    UpToOrders(rows[0], rows[0], rows[0]);
  }

  ghost predicate DistinctKeys(rows: seq<Row>) {
    forall x, y | x in rows && y in rows :: SameKey(x, y) ==> x == y
  }

  lemma SameHead(a: seq<Row>, b: seq<Row>)
    requires a != [] && b != [] && InOrder(a) && InOrder(b) && multiset(a) == multiset(b) && DistinctKeys(a)
    ensures a[0] == b[0]
  {
    HeadFirst(a);
    HeadFirst(b);
    assert a[0] in multiset(b) && b[0] in multiset(a);
    UpToOrders(a[0], b[0], a[0]);
  }

  /** Without equal keys the order of a form depends on the rows alone. */
  lemma {:induction false} FormOrderUnique(a: seq<Row>, b: seq<Row>)
    requires InOrder(a) && InOrder(b) && multiset(a) == multiset(b) && DistinctKeys(a)
    ensures a == b
  {
    assert |a| == |multiset(a)| == |multiset(b)| == |b|;
    if a != [] {
      SameHead(a, b);
      HeadFirst(a);
      HeadFirst(b);
      assert DistinctKeys(a[1..]) by { assert forall x | x in a[1..] :: x in a; }
      FormOrderUnique(a[1..], b[1..]);
      assert a == [a[0]] + a[1..] && b == [b[0]] + b[1..];
    }
  }

  // ----- the result -----

  /** What the form gets of one parameter: the row itself and, if it is derived, its value. */
  datatype Record = Record(row: Row, prefill: Option<string>)

  datatype Form = Form(parameters: seq<Record>, chainNames: seq<string>, glob: seq<Record>, proj: seq<Record>)

  datatype Loaded = Loaded(form: Form) | NotLoaded(why: Resolution)

  function Make(rt: Runtime, row: Row, ctx: Context<Value>): Record {
    Record(row, if row.0.isDerived && row.0.name in ctx.m then Some(ValueText(rt, ctx.m[row.0.name])) else None)
  }

  function MakeAll(rt: Runtime, rows: seq<Row>, ctx: Context<Value>): (records: seq<Record>)
    ensures |records| == |rows| && forall i | 0 <= i < |rows| :: records[i] == Make(rt, rows[i], ctx)
  {
    if rows == [] then [] else [Make(rt, rows[0], ctx)] + MakeAll(rt, rows[1..], ctx)
  }

  function Shared(params: seq<Parameter>): (rows: seq<Row>)
    ensures |rows| == |params| && forall i | 0 <= i < |params| :: rows[i] == (params[i], None)
  {
    if params == [] then [] else [(params[0], None)] + Shared(params[1..])
  }

  function Sourced(merged: Dict<string, Definition>): (rows: seq<Row>)
    requires merged.Valid()
    ensures |rows| == |merged.order|
    ensures forall i | 0 <= i < |rows| && merged.order[i] in merged.m ::
              rows[i] == (merged.m[merged.order[i]].0, Some(merged.m[merged.order[i]].1))
  {
    seq(|merged.order|, i requires 0 <= i < |merged.order| && merged.order[i] in merged.m =>
      (merged.m[merged.order[i]].0, Some(merged.m[merged.order[i]].1)))
  }

  function ChainNames(chain: seq<Template>): (names: seq<string>)
    ensures |names| == |chain| && forall i | 0 <= i < |chain| :: names[i] == chain[i].name
  {
    if chain == [] then [] else [chain[0].name] + ChainNames(chain[1..])
  }

  ghost predicate Made(rt: Runtime, records: seq<Record>, ctx: Context<Value>) {
    forall i | 0 <= i < |records| :: records[i] == Make(rt, records[i].row, ctx)
  }

  /** `records` list exactly these rows, in form order, each with its value in `ctx`. */
  ghost predicate Lists(rt: Runtime, records: seq<Record>, rows: seq<Row>, ctx: Context<Value>) {
    var order := RowsOf(records);
    && InOrder(order) && multiset(order) == multiset(rows)
    && (forall x: Row :: Alike(order, x) == Alike(rows, x))
    && Made(rt, records, ctx)
  }

  ghost function RowsOf(records: seq<Record>): (rows: seq<Row>)
    ensures |rows| == |records| && forall i | 0 <= i < |rows| :: rows[i] == records[i].row
  {
    seq(|records|, i requires 0 <= i < |records| => records[i].row)
  }

  lemma SortedShows(rt: Runtime, rows: seq<Row>, ctx: Context<Value>)
    ensures Lists(rt, MakeAll(rt, Sorted(rows), ctx), rows, ctx)
  {
    SortedOrders(rows);
    assert RowsOf(MakeAll(rt, Sorted(rows), ctx)) == Sorted(rows);
    forall x: Row ensures Alike(Sorted(rows), x) == Alike(rows, x) {
      SortIsStable(rows, x);
    }
  }

  /** Global parameters come first, then the project's, then the merged ones of the chain. */
  ghost predicate Presents(rt: Runtime, chain: seq<Template>, proj: seq<Parameter>, glob: seq<Parameter>,
                           merged: Dict<string, Definition>, ctx: Context<Value>, form: Form)
  {
    && merged.Valid() && form.chainNames == ChainNames(chain)
    && Lists(rt, form.glob, Shared(glob), ctx) && Lists(rt, form.proj, Shared(proj), ctx)
    && form.glob + form.proj <= form.parameters
    && Lists(rt, form.parameters[|form.glob| + |form.proj|..], Sourced(merged), ctx)
  }

  /** The form that the values `r` are shown in; without values there is none. */
  ghost predicate LoadsForm(rt: Runtime, chain: seq<Template>, proj: seq<Parameter>, glob: seq<Parameter>,
                            merged: Dict<string, Definition>, base: Context<Value>, values: FormValues, r: Loaded)
  {
    && LoadedFrom(rt, chain, proj, glob, merged, base, values)
    && match r
       case Loaded(form) => values.Values? && Presents(rt, chain, proj, glob, merged, values.ctx, form)
       case NotLoaded(why) => values == NoValues(why)
  }

  method BuildResolutionResult(rt: Runtime, chain: seq<Template>, proj: seq<Parameter>, glob: seq<Parameter>)
    returns (r: Loaded)
    ensures exists merged, base, values :: LoadsForm(rt, chain, proj, glob, merged, base, values, r)
    ensures r.Loaded? ==> Ascends(r.form)
  {
    var merged, values := LoadValues(rt, chain, proj, glob);
    ghost var base :| LoadedFrom(rt, chain, proj, glob, merged, base, values);
    if values.NoValues? {
      r := NotLoaded(values.why);
    } else {
      var resolvedGlob := MakeAll(rt, Sorted(Shared(glob)), values.ctx);
      var resolvedProj := MakeAll(rt, Sorted(Shared(proj)), values.ctx);
      var resolvedTmpl := MakeAll(rt, Sorted(Sourced(merged)), values.ctx);
      SortedShows(rt, Shared(glob), values.ctx);
      SortedShows(rt, Shared(proj), values.ctx);
      SortedShows(rt, Sourced(merged), values.ctx);
      var form := Form(resolvedGlob + resolvedProj + resolvedTmpl, ChainNames(chain), resolvedGlob, resolvedProj);
      assert form.parameters[|form.glob| + |form.proj|..] == resolvedTmpl;
      GroupsAscend(rt, form, Shared(glob), Shared(proj), Sourced(merged), values.ctx);
      r := Loaded(form);
    }
    assert LoadsForm(rt, chain, proj, glob, merged, base, values, r);
  }

  // ----- what the form lists -----

  ghost predicate ListedOnce(records: seq<Record>, row: Row) {
    exists i :: 0 <= i < |records| && records[i].row == row &&
                forall j | 0 <= j < |records| && j != i :: records[j].row.0.name != row.0.name
  }

  /** Of every name that the chain defines, the form lists the definition nearest the leaf and
      no other; it lists nothing else for the templates. */
  lemma TemplateFieldsAreNearest(rt: Runtime, chain: seq<Template>, proj: seq<Parameter>, glob: seq<Parameter>,
                                 merged: Dict<string, Definition>, base: Context<Value>, values: FormValues, form: Form,
                                 name: string)
    requires LoadsForm(rt, chain, proj, glob, merged, base, values, Loaded(form))
    ensures var tmpl := form.parameters[|form.glob| + |form.proj|..];
            match Nearest(chain, name)
            case Some((p, source)) => p.name == name && ListedOnce(tmpl, (p, Some(source)))
            case None => forall i | 0 <= i < |tmpl| :: tmpl[i].row.0.name != name
  {
    LoadShows(rt, chain, proj, glob, merged, base, values, form);
    ChainListed(rt, chain, merged, form.parameters[|form.glob| + |form.proj|..], values.ctx, name);
  }

  lemma LoadShows(rt: Runtime, chain: seq<Template>, proj: seq<Parameter>, glob: seq<Parameter>,
                  merged: Dict<string, Definition>, base: Context<Value>, values: FormValues, form: Form)
    requires LoadsForm(rt, chain, proj, glob, merged, base, values, Loaded(form))
    ensures values.Values? && MergedFrom(merged, chain)
    ensures Lists(rt, form.parameters[|form.glob| + |form.proj|..], Sourced(merged), values.ctx)
  {
  }

  lemma ChainListed(rt: Runtime, chain: seq<Template>, merged: Dict<string, Definition>, tmpl: seq<Record>,
                    ctx: Context<Value>, name: string)
    requires MergedFrom(merged, chain) && Lists(rt, tmpl, Sourced(merged), ctx)
    ensures match Nearest(chain, name)
            case Some((p, source)) => p.name == name && ListedOnce(tmpl, (p, Some(source)))
            case None => forall i | 0 <= i < |tmpl| :: tmpl[i].row.0.name != name
  {
    assert Holds(merged, name, Nearest(chain, name));
    SourcedNames(chain, merged);
    NamesListed(rt, tmpl, merged, ctx, name);
  }

  lemma NamesListed(rt: Runtime, records: seq<Record>, merged: Dict<string, Definition>, ctx: Context<Value>,
                    name: string)
    requires merged.Valid() && Lists(rt, records, Sourced(merged), ctx) && NamesOf(Sourced(merged)) == merged.order
    ensures name in merged.m
            ==> merged.m[name].0.name == name && ListedOnce(records, (merged.m[name].0, Some(merged.m[name].1)))
    ensures name !in merged.m ==> forall i | 0 <= i < |records| :: records[i].row.0.name != name
  {
    var rows := Sourced(merged);
    forall i | 0 <= i < |records| ensures records[i].row.0.name in merged.m {
      ShownMembers(rt, records, rows, ctx);
      var k :| 0 <= k < |rows| && rows[k] == records[i].row;
      assert NamesOf(rows)[k] in merged.order;
    }
    if name in merged.m {
      var k :| 0 <= k < |merged.order| && merged.order[k] == name;
      assert NamesOf(rows)[k] == name && rows[k] in rows;
      ShownOnce(rt, records, rows, ctx, rows[k]);
    }
  }

  lemma SourcedNames(chain: seq<Template>, merged: Dict<string, Definition>)
    requires MergedFrom(merged, chain)
    ensures NamesOf(Sourced(merged)) == merged.order
  {
    forall i | 0 <= i < |merged.order| ensures Sourced(merged)[i].0.name == merged.order[i] {
      var n := merged.order[i];
      assert n in merged.order && Holds(merged, n, Nearest(chain, n));
      NearestIsNamed(chain, n);
    }
  }

  ghost function NamesOf(rows: seq<Row>): seq<string> {
    seq(|rows|, i requires 0 <= i < |rows| => rows[i].0.name)
  }

  lemma ShownMembers(rt: Runtime, records: seq<Record>, rows: seq<Row>, ctx: Context<Value>)
    requires Lists(rt, records, rows, ctx)
    ensures forall i | 0 <= i < |records| :: records[i].row in rows
  {
    forall i | 0 <= i < |records| ensures records[i].row in rows {
      assert RowsOf(records)[i] in multiset(RowsOf(records));
    }
  }

  lemma {:induction false} MultisetApart(a: seq<Row>, i: nat, j: nat)
    requires i < j < |a|
    ensures multiset(a)[a[i]] >= if a[i] == a[j] then 2 else 1
  {
    assert a == a[..i] + [a[i]] + a[i + 1..j] + [a[j]] + a[j + 1..];
  }

  lemma {:induction false} OnceInMultiset(rows: seq<Row>, x: Row)
    requires NoDup(NamesOf(rows))
    ensures multiset(rows)[x] <= 1
  {
    if rows != [] {
      var rest := rows[1..];
      assert rows == [rows[0]] + rest;
      forall i, j | 0 <= i < j < |rest| ensures NamesOf(rest)[i] != NamesOf(rest)[j] {
        assert NamesOf(rows)[i + 1] != NamesOf(rows)[j + 1];
      }
      OnceInMultiset(rest, x);
      forall j | 0 <= j < |rest| ensures rest[j] != rows[0] {
        assert NamesOf(rows)[0] != NamesOf(rows)[j + 1];
      }
    }
  }

  lemma ShownOnce(rt: Runtime, records: seq<Record>, rows: seq<Row>, ctx: Context<Value>, row: Row)
    requires Lists(rt, records, rows, ctx) && NoDup(NamesOf(rows)) && row in rows
    ensures ListedOnce(records, row)
  {
    var order := RowsOf(records);
    assert row in multiset(rows);
    var i :| 0 <= i < |order| && order[i] == row;
    forall j | 0 <= j < |records| && j != i ensures records[j].row.0.name != row.0.name {
      MultisetApart(order, if i < j then i else j, if i < j then j else i);
      OnceInMultiset(rows, row);
      assert order[j] in multiset(order);
      SameNameSame(rows, order[j], row);
    }
  }

  lemma SameNameSame(rows: seq<Row>, a: Row, b: Row)
    requires NoDup(NamesOf(rows)) && a in rows && b in rows
    ensures a.0.name == b.0.name ==> a == b
  {
    var i :| 0 <= i < |rows| && rows[i] == a;
    var j :| 0 <= j < |rows| && rows[j] == b;
    assert NamesOf(rows)[i] == a.0.name && NamesOf(rows)[j] == b.0.name;
  }

  /** Every field shows its parameter's value in any solution of the equations of the load. */
  lemma FieldsShowSolution(rt: Runtime, chain: seq<Template>, proj: seq<Parameter>, glob: seq<Parameter>,
                           merged: Dict<string, Definition>, base: Context<Value>, values: FormValues, form: Form,
                           s: Context<Value>, i: nat)
    requires LoadsForm(rt, chain, proj, glob, merged, base, values, Loaded(form)) && i < |form.parameters|
    requires Sound(rt, OnLoadByName(merged, proj, glob), base) && Solves(OnLoad(rt, merged, proj, glob), base, s)
    ensures var p, prefill := form.parameters[i].row.0, form.parameters[i].prefill;
            && (prefill.Some? <==> p.isDerived && p.name in s.m)
            && (prefill.Some? ==> HasText(rt, s, p.name, prefill.value))
  {
    LoadMade(rt, chain, proj, glob, merged, base, values, form);
    EquationsFramed(rt, OnLoadByName(merged, proj, glob), base);
    SolutionUnique(OnLoad(rt, merged, proj, glob), base, base, values.ctx, s);
    MadeAlike(rt, form.parameters, values.ctx, s, i);
    TextIs(rt, s, form.parameters[i].row.0.name);
  }

  lemma MadeAlike(rt: Runtime, records: seq<Record>, ctx: Context<Value>, s: Context<Value>, i: nat)
    requires Made(rt, records, ctx) && ctx.m == s.m && i < |records|
    ensures records[i] == Make(rt, records[i].row, s)
  {
    assert records[i] == Make(rt, records[i].row, ctx);
  }

  lemma LoadMade(rt: Runtime, chain: seq<Template>, proj: seq<Parameter>, glob: seq<Parameter>,
                 merged: Dict<string, Definition>, base: Context<Value>, values: FormValues, form: Form)
    requires LoadsForm(rt, chain, proj, glob, merged, base, values, Loaded(form))
    requires Sound(rt, OnLoadByName(merged, proj, glob), base)
    ensures values.Values? && Made(rt, form.parameters, values.ctx)
    ensures Solves(OnLoad(rt, merged, proj, glob), base, values.ctx)
            && !HasCycle(DerivedGraph(OnLoad(rt, merged, proj, glob)))
  {
    MadeParts(rt, form.glob, form.proj, form.parameters, values.ctx);
  }

  lemma MadeParts(rt: Runtime, a: seq<Record>, b: seq<Record>, all: seq<Record>, ctx: Context<Value>)
    requires a + b <= all && Made(rt, a, ctx) && Made(rt, b, ctx) && Made(rt, all[|a| + |b|..], ctx)
    ensures Made(rt, all, ctx)
  {
    var c := all[|a| + |b|..];
    forall i | 0 <= i < |all| ensures all[i] == Make(rt, all[i].row, ctx) {
      assert all[i] == if i < |a| then a[i] else if i < |a| + |b| then b[i - |a|] else c[i - |a| - |b|];
    }
  }

  // ----- the order of the fields, spelled out -----

  /** Character by character: the first difference decides, and a beginning comes first. */
  ghost predicate Alphabetic(a: string, b: string) {
    a <= b || exists i :: 0 <= i < |a| && i < |b| && a[..i] == b[..i] && a[i] < b[i]
  }

  lemma {:induction false} TextUpToIs(a: string, b: string)
    ensures TextUpTo(a, b) <==> Alphabetic(a, b)
  {
    if a != "" && b != "" {
      if a[0] == b[0] {
        TextUpToIs(a[1..], b[1..]);
        AlphabeticTail(a, b);
      } else {
        assert a[..0] == b[..0];
        assert forall i | 0 < i < |a| && i < |b| :: a[..i][0] == a[0] && b[..i][0] == b[0];
      }
    }
  }

  lemma AlphabeticTail(a: string, b: string)
    requires a != "" && b != "" && a[0] == b[0]
    ensures Alphabetic(a, b) <==> Alphabetic(a[1..], b[1..])
  {
    assert a == [a[0]] + a[1..] && b == [b[0]] + b[1..];
    forall i: nat | i < |a[1..]| && i < |b[1..]| && a[1..][..i] == b[1..][..i] && a[1..][i] < b[1..][i]
      ensures Alphabetic(a, b)
    {
      assert a[..i + 1] == [a[0]] + a[1..][..i] && b[..i + 1] == [b[0]] + b[1..][..i];
    }
    forall i: nat | 0 < i < |a| && i < |b| && a[..i] == b[..i] && a[i] < b[i] ensures Alphabetic(a[1..], b[1..]) {
      assert a[1..][..i - 1] == a[..i][1..] && b[1..][..i - 1] == b[..i][1..];
      assert a[1..][i - 1] == a[i] && b[1..][i - 1] == b[i];
    }
  }

  /** Smaller sort orders come first, and among equal ones the names in alphabetic order. */
  ghost predicate Ascending(records: seq<Record>) {
    forall i, j | 0 <= i < j < |records| ::
      var p, q := records[i].row.0, records[j].row.0;
      p.sortOrder < q.sortOrder || (p.sortOrder == q.sortOrder && Alphabetic(p.name, q.name))
  }

  lemma ListsAscending(rt: Runtime, records: seq<Record>, rows: seq<Row>, ctx: Context<Value>)
    requires Lists(rt, records, rows, ctx)
    ensures Ascending(records)
  {
    var order := RowsOf(records);
    forall i, j | 0 <= i < j < |records|
      ensures var p, q := records[i].row.0, records[j].row.0;
              p.sortOrder < q.sortOrder || (p.sortOrder == q.sortOrder && Alphabetic(p.name, q.name))
    {
      assert UpTo(order[i], order[j]);
      TextUpToIs(records[i].row.0.name, records[j].row.0.name);
    }
  }

  /** The three groups follow one another, each in ascending order. */
  ghost predicate Ascends(form: Form) {
    var n := |form.glob| + |form.proj|;
    && n <= |form.parameters| && form.parameters[..n] == form.glob + form.proj
    && Ascending(form.glob) && Ascending(form.proj) && Ascending(form.parameters[n..])
  }

  lemma GroupsAscend(rt: Runtime, form: Form, glob: seq<Row>, proj: seq<Row>, tmpl: seq<Row>, ctx: Context<Value>)
    requires form.glob + form.proj <= form.parameters
    requires Lists(rt, form.glob, glob, ctx) && Lists(rt, form.proj, proj, ctx)
    requires Lists(rt, form.parameters[|form.glob| + |form.proj|..], tmpl, ctx)
    ensures Ascends(form)
  {
    ListsAscending(rt, form.glob, glob, ctx);
    ListsAscending(rt, form.proj, proj, ctx);
    ListsAscending(rt, form.parameters[|form.glob| + |form.proj|..], tmpl, ctx);
  }
}
