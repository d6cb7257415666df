/** Flat, dotted parameter names to nested dictionaries: the overwriting version of
    the derived-parameter resolver and the `setdefault` version that the datasource
    resolver and the template renderer share. */
module Nesting {
  import opened PyData

  type Path = seq<string>

  /** A nested value: a plain value or a dictionary. */
  datatype Tree<V> = Leaf(value: V) | Node(kids: map<string, Tree<V>>)

  /** One flat entry, its dotted name already split. */
  datatype Entry<V> = Entry(path: Path, value: V)

  function PathOf(key: string): (p: Path)
    ensures |p| >= 1
  {
    Split(key, '.')
  }

  function Entries<V>(flat: Context<V>): (es: seq<Entry<V>>)
    ensures |es| == |flat.order|
    ensures forall i | 0 <= i < |es| :: es[i] == Entry(PathOf(flat.order[i]), flat.m[flat.order[i]])
  {
    seq(|flat.order|, i requires 0 <= i < |flat.order| && flat.order[i] in flat.m =>
      Entry(PathOf(flat.order[i]), flat.m[flat.order[i]]))
  }

  ghost predicate ProperPrefix(p: Path, q: Path) {
    |p| < |q| && p == q[..|p|]
  }

  ghost predicate Related(p: Path, q: Path) {
    p == q || ProperPrefix(p, q) || ProperPrefix(q, p)
  }

  ghost predicate Proper<V>(es: seq<Entry<V>>) {
    forall i | 0 <= i < |es| :: es[i].path != []
  }

  ghost predicate PrefixFree<V>(es: seq<Entry<V>>) {
    forall i, j | 0 <= i < |es| && 0 <= j < |es| && i != j :: !Related(es[i].path, es[j].path)
  }

  /** What a chain of subscripts finds. */
  function Lookup<V>(kids: map<string, Tree<V>>, path: Path): Option<Tree<V>>
    requires |path| > 0
    decreases |path|
  {
    if path[0] !in kids then None
    else if |path| == 1 then Some(kids[path[0]])
    else match kids[path[0]]
      case Leaf(_) => None
      case Node(sub) => Lookup(sub, path[1..])
  }

  ghost predicate LeafAt<V>(kids: map<string, Tree<V>>, p: Path)
    requires |p| > 0
  {
    Lookup(kids, p).Some? && Lookup(kids, p).value.Leaf?
  }

  // ----- the overwriting version -----

  function Sub<V>(kids: map<string, Tree<V>>, part: string): map<string, Tree<V>> {
    if part in kids && kids[part].Node? then kids[part].kids else map[]
  }

  function Insert<V>(kids: map<string, Tree<V>>, path: Path, v: V): map<string, Tree<V>>
    requires |path| > 0
    decreases |path|
  {
    if |path| == 1 then kids[path[0] := Leaf(v)]
    else kids[path[0] := Node(Insert(Sub(kids, path[0]), path[1..], v))]
  }

  function Nested<V>(es: seq<Entry<V>>): map<string, Tree<V>>
    requires Proper(es)
  {
    if es == [] then map[]
    else
      var n := |es| - 1;
      Insert(Nested(es[..n]), es[n].path, es[n].value)
  }

  method ToNested<V>(flat: Context<V>) returns (result: map<string, Tree<V>>)
    ensures result == Nested(Entries(flat))
  {
    result := map[];
    ghost var es := Entries(flat);
    for i := 0 to |flat.order|
      invariant result == Nested(es[..i])
    {
      var key := flat.order[i];
      result := Insert(result, PathOf(key), flat.m[key]);
      assert es[..i + 1][..i] == es[..i];
    }
    assert es[..|flat.order|] == es;
  }

  // ----- the setdefault version -----

  /** `None` is the exception raised when the walk meets a value that is not a dictionary. */
  function InsertSetdefault<V>(kids: map<string, Tree<V>>, path: Path, v: V): Option<map<string, Tree<V>>>
    requires |path| > 0
    decreases |path|
  {
    if |path| == 1 then Some(kids[path[0] := Leaf(v)])
    else if path[0] in kids && kids[path[0]].Leaf? then None
    else match InsertSetdefault(Sub(kids, path[0]), path[1..], v)
      case None => None
      case Some(sub) => Some(kids[path[0] := Node(sub)])
  }

  function NestedSetdefault<V>(es: seq<Entry<V>>): Option<map<string, Tree<V>>>
    requires Proper(es)
  {
    if es == [] then Some(map[])
    else
      var n := |es| - 1;
      match NestedSetdefault(es[..n])
      case None => None
      case Some(kids) => InsertSetdefault(kids, es[n].path, es[n].value)
  }

  method FlattenToNested<V>(params: Context<V>) returns (result: Option<map<string, Tree<V>>>)
    ensures result == NestedSetdefault(Entries(params))
  {
    result := Some(map[]);
    ghost var es := Entries(params);
    for i := 0 to |params.order|
      invariant result == NestedSetdefault(es[..i])
    {
      var key := params.order[i];
      assert es[..i + 1][..i] == es[..i];
      if result.Some? {
        result := InsertSetdefault(result.value, PathOf(key), params.m[key]);
      }
    }
    assert es[..|params.order|] == es;
  }

  // ----- what an insertion changes -----

  lemma TailsRelated(k: Path, p: Path)
    requires |k| > 0 && |p| > 0 && k[0] == p[0]
    ensures ProperPrefix(k, p) <==> ProperPrefix(k[1..], p[1..])
    ensures ProperPrefix(p, k) <==> ProperPrefix(p[1..], k[1..])
    ensures Related(k, p) <==> Related(k[1..], p[1..])
  {
    assert k == [k[0]] + k[1..] && p == [p[0]] + p[1..];
    assert |k| <= |p| ==> (k == p[..|k|] <==> k[1..] == p[1..][..|k[1..]|]);
    assert |p| <= |k| ==> (p == k[..|p|] <==> p[1..] == k[1..][..|p[1..]|]);
  }

  /** The inserted path holds the value, along it only dictionaries remain, below it
      nothing does, and everything else is as before. */
  lemma {:induction false} LookupInserted<V>(kids: map<string, Tree<V>>, k: Path, v: V, p: Path)
    requires |k| > 0 && |p| > 0
    ensures var found := Lookup(Insert(kids, k, v), p);
            && (p == k ==> found == Some(Leaf(v)))
            && (ProperPrefix(p, k) ==> found.Some? && found.value.Node?)
            && (ProperPrefix(k, p) ==> found == None)
            && (!Related(k, p) ==> found == Lookup(kids, p))
    decreases |k|
  {
    if k[0] == p[0] {
      TailsRelated(k, p);
      if |k| > 1 && |p| > 1 {
        LookupInserted(Sub(kids, k[0]), k[1..], v, p[1..]);
      }
    }
  }

  /** Every value in the nested form sits at the path of one of the flat entries. */
  lemma {:induction false} LeavesAreEntries<V>(es: seq<Entry<V>>, p: Path)
    requires Proper(es) && |p| > 0 && LeafAt(Nested(es), p)
    ensures exists i :: 0 <= i < |es| && es[i].path == p
  {
    var n := |es| - 1;
    LookupInserted(Nested(es[..n]), es[n].path, es[n].value, p);
    if es[n].path != p {
      LeavesAreEntries(es[..n], p);
      var i :| 0 <= i < n && es[..n][i].path == p;
      assert es[i].path == p;
    }
  }

  /** A path that no other entry extends or is extended by holds its own entry's value,
      whatever conflicts the other entries have among themselves. */
  lemma {:induction false} LookupAligned<V>(es: seq<Entry<V>>, p: Path)
    requires Proper(es) && |p| > 0
    requires forall i | 0 <= i < |es| :: es[i].path == p || !Related(es[i].path, p)
    requires forall i, j | 0 <= i < j < |es| :: es[i].path == p ==> es[j].path != p
    ensures (forall i | 0 <= i < |es| :: es[i].path != p) ==> Lookup(Nested(es), p) == None
    ensures forall i | 0 <= i < |es| :: es[i].path == p ==> Lookup(Nested(es), p) == Some(Leaf(es[i].value))
  {
    if es != [] {
      var n := |es| - 1;
      var init := es[..n];
      assert forall i | 0 <= i < n :: init[i] == es[i];
      LookupAligned(init, p);
      LookupInserted(Nested(init), es[n].path, es[n].value, p);
    }
  }

  // ----- independence of the insertion order -----

  lemma {:induction false} InsertsCommute<V>(kids: map<string, Tree<V>>, k1: Path, v1: V, k2: Path, v2: V)
    requires |k1| > 0 && |k2| > 0 && !Related(k1, k2)
    ensures Insert(Insert(kids, k1, v1), k2, v2) == Insert(Insert(kids, k2, v2), k1, v1)
    decreases |k1|
  {
    if k1[0] != k2[0] {
      InsertsApart(kids, k1, v1, k2, v2);
    } else {
      TailsRelated(k1, k2);
      InsertsCommute(Sub(kids, k1[0]), k1[1..], v1, k2[1..], v2);
      InsertTwice(kids, k1, v1, k2, v2);
      InsertTwice(kids, k2, v2, k1, v1);
    }
  }

  lemma InsertsApart<V>(kids: map<string, Tree<V>>, k1: Path, v1: V, k2: Path, v2: V)
    requires |k1| > 0 && |k2| > 0 && k1[0] != k2[0]
    ensures Insert(Insert(kids, k1, v1), k2, v2) == Insert(Insert(kids, k2, v2), k1, v1)
  {
    var once := Insert(kids, k1, v1);
    assert Sub(once, k2[0]) == Sub(kids, k2[0]);
    assert Sub(Insert(kids, k2, v2), k1[0]) == Sub(kids, k1[0]);
  }

  lemma InsertTwice<V>(kids: map<string, Tree<V>>, k1: Path, v1: V, k2: Path, v2: V)
    requires |k1| > 1 && |k2| > 1 && k1[0] == k2[0]
    ensures Insert(Insert(kids, k1, v1), k2, v2)
         == kids[k1[0] := Node(Insert(Insert(Sub(kids, k1[0]), k1[1..], v1), k2[1..], v2))]
  {
    var sub := Insert(Sub(kids, k1[0]), k1[1..], v1);
    var once := Insert(kids, k1, v1);
    assert once == kids[k1[0] := Node(sub)] && Sub(once, k2[0]) == sub;
  }

  function Without<T>(s: seq<T>, i: nat): seq<T>
    requires i < |s|
  {
    s[..i] + s[i + 1..]
  }

  lemma WithoutKeeps<V>(es: seq<Entry<V>>, i: nat)
    requires i < |es| && Proper(es) && PrefixFree(es)
    ensures Proper(Without(es, i)) && PrefixFree(Without(es, i))
    ensures forall e :: e in Without(es, i) <==> e in es && e != es[i]
  {
    var rest := Without(es, i);
    assert forall j | 0 <= j < |rest| :: rest[j] == es[if j < i then j else j + 1];
    forall e | e in es && e != es[i] ensures e in rest {
      var j :| 0 <= j < |es| && es[j] == e;
      assert rest[if j < i then j else j - 1] == e;
    }
  }

  /** The entry at position `i` may as well have been inserted last. */
  lemma {:induction false} InsertLast<V>(es: seq<Entry<V>>, i: nat)
    requires i < |es| && Proper(es) && PrefixFree(es)
    ensures Proper(Without(es, i))
    ensures Nested(es) == Insert(Nested(Without(es, i)), es[i].path, es[i].value)
  {
    WithoutProper(es, i);
    var n := |es| - 1;
    if i == n {
      assert Without(es, i) == es[..n];
    } else {
      PrefixFreeInit(es);
      InsertLast(es[..n], i);
      MoveLast(es, i, n, es[i], es[n]);
    }
  }

  lemma MoveLast<V>(es: seq<Entry<V>>, i: nat, n: nat, a: Entry<V>, b: Entry<V>)
    requires i < n && |es| == n + 1 && Proper(es) && Proper(Without(es, i)) && Proper(Without(es[..n], i))
    requires es[i] == a && es[n] == b && a.path != [] && b.path != [] && !Related(a.path, b.path)
    requires Nested(es[..n]) == Insert(Nested(Without(es[..n], i)), a.path, a.value)
    ensures Nested(es) == Insert(Nested(Without(es, i)), a.path, a.value)
  {
    WithoutInit(es, i, n);
    LastTwoSwap(es, Without(es, i), Without(es[..n], i), a, b);
  }

  lemma WithoutProper<V>(es: seq<Entry<V>>, i: nat)
    requires i < |es| && Proper(es)
    ensures Proper(Without(es, i))
  {
  }

  lemma WithoutInit<T>(s: seq<T>, i: nat, n: nat)
    requires i < n && |s| == n + 1
    ensures |Without(s, i)| == n && Without(s, i)[..n - 1] == Without(s[..n], i) && Without(s, i)[n - 1] == s[n]
            && s[..n][i] == s[i]
  {
  }

  /** Of two unrelated entries that come last, either may be the last. */
  lemma LastTwoSwap<V>(es: seq<Entry<V>>, rest: seq<Entry<V>>, init: seq<Entry<V>>, a: Entry<V>, b: Entry<V>)
    requires es != [] && rest != [] && Proper(es) && Proper(rest) && Proper(init)
    requires a.path != [] && b.path != [] && !Related(a.path, b.path)
    requires es[|es| - 1] == b && Nested(es[..|es| - 1]) == Insert(Nested(init), a.path, a.value)
    requires rest[|rest| - 1] == b && rest[..|rest| - 1] == init
    ensures Nested(es) == Insert(Nested(rest), a.path, a.value)
  {
    NestedSnoc(es, |es| - 1);
    NestedSnoc(rest, |rest| - 1);
    InsertsCommute(Nested(init), a.path, a.value, b.path, b.value);
  }

  lemma NestedSnoc<V>(es: seq<Entry<V>>, n: nat)
    requires Proper(es) && |es| == n + 1
    ensures Nested(es) == Insert(Nested(es[..n]), es[n].path, es[n].value)
  {
  }

  lemma PrefixFreeInit<V>(es: seq<Entry<V>>)
    requires es != [] && PrefixFree(es)
    ensures PrefixFree(es[..|es| - 1])
  {
    var init := es[..|es| - 1];
    forall i, j | 0 <= i < |init| && 0 <= j < |init| && i != j ensures !Related(init[i].path, init[j].path) {
      assert init[i] == es[i] && init[j] == es[j];
    }
  }

  lemma SameElements<T>(s: seq<T>, t: seq<T>)
    requires forall e :: e in s <==> e in t
    ensures s == [] <==> t == []
  {
    if s != [] { assert s[0] in s; }
    if t != [] { assert t[0] in t; }
  }

  lemma {:induction false} OrderIrrelevant<V>(es1: seq<Entry<V>>, es2: seq<Entry<V>>)
    requires Proper(es1) && Proper(es2) && PrefixFree(es1) && PrefixFree(es2)
    requires forall e :: e in es1 <==> e in es2
    ensures Nested(es1) == Nested(es2)
    decreases |es1|
  {
    SameElements(es1, es2);
    if es1 != [] {
      var n := |es1| - 1;
      assert es1[n] in es2;
      var i :| 0 <= i < |es2| && es2[i] == es1[n];
      WithoutKeeps(es1, n);
      WithoutKeeps(es2, i);
      assert Without(es1, n) == es1[..n];
      OrderIrrelevant(es1[..n], Without(es2, i));
      InsertLast(es2, i);
    }
  }

  /** The keys in any other order: the nested form is the same. */
  lemma NestingOrderIrrelevant<V>(flat1: Context<V>, flat2: Context<V>)
    requires flat1.m == flat2.m
    requires PrefixFree(Entries(flat1))
    ensures Nested(Entries(flat1)) == Nested(Entries(flat2))
  {
    var es1, es2 := Entries(flat1), Entries(flat2);
    SameEntries(flat1, flat2);
    SameEntries(flat2, flat1);
    PrefixFreeElsewhere(flat1, flat2);
    OrderIrrelevant(es1, es2);
  }

  lemma SameEntries<V>(flat1: Context<V>, flat2: Context<V>)
    requires flat1.m == flat2.m
    ensures forall e | e in Entries(flat1) :: e in Entries(flat2)
  {
    var es1, es2 := Entries(flat1), Entries(flat2);
    forall e | e in es1 ensures e in es2 {
      var i :| 0 <= i < |es1| && es1[i] == e;
      assert flat1.order[i] in flat2.order;
      var j :| 0 <= j < |flat2.order| && flat2.order[j] == flat1.order[i];
      assert es2[j] == e;
    }
  }

  lemma PrefixFreeElsewhere<V>(flat1: Context<V>, flat2: Context<V>)
    requires flat1.m == flat2.m && PrefixFree(Entries(flat1))
    ensures PrefixFree(Entries(flat2))
  {
    var es1, es2 := Entries(flat1), Entries(flat2);
    forall i, j | 0 <= i < |es2| && 0 <= j < |es2| && i != j ensures !Related(es2[i].path, es2[j].path) {
      assert flat2.order[i] in flat1.order && flat2.order[j] in flat1.order;
      var k :| 0 <= k < |flat1.order| && flat1.order[k] == flat2.order[i];
      var l :| 0 <= l < |flat1.order| && flat1.order[l] == flat2.order[j];
      assert !Related(es1[k].path, es1[l].path);
    }
  }

  // ----- flattening back -----

  lemma PathsIdentifyKeys(k1: string, k2: string)
    ensures PathOf(k1) == PathOf(k2) <==> k1 == k2
  {
    JoinSplit(k1, '.');
    JoinSplit(k2, '.');
  }

  /** Flattening the nested form gives back exactly the flat entries. */
  lemma FlattenNested<V>(flat: Context<V>, key: string, v: V)
    requires PrefixFree(Entries(flat))
    ensures Lookup(Nested(Entries(flat)), PathOf(key)) == Some(Leaf(v)) <==> key in flat.m && flat.m[key] == v
  {
    var es := Entries(flat);
    forall i | 0 <= i < |es| ensures es[i].path == PathOf(key) <==> flat.order[i] == key {
      PathsIdentifyKeys(flat.order[i], key);
    }
    if key in flat.m {
      var i :| 0 <= i < |flat.order| && flat.order[i] == key;
      LookupAligned(es, PathOf(key));
      assert es[i].path == PathOf(key);
    } else if Lookup(Nested(es), PathOf(key)) == Some(Leaf(v)) {
      LeavesAreEntries(es, PathOf(key));
    }
  }

  // ----- when the setdefault version fails -----

  lemma {:induction false} SetdefaultStep<V>(kids: map<string, Tree<V>>, k: Path, v: V)
    requires |k| > 0
    ensures InsertSetdefault(kids, k, v) ==
            if exists n | 0 < n < |k| :: LeafAt(kids, k[..n]) then None else Some(Insert(kids, k, v))
    decreases |k|
  {
    if |k| > 1 {
      if k[0] in kids && kids[k[0]].Leaf? {
        assert LeafAt(kids, k[..1]);
      } else {
        var sub := Sub(kids, k[0]);
        SetdefaultStep(sub, k[1..], v);
        forall n | 0 < n < |k|
          ensures LeafAt(kids, k[..n]) <==> n > 1 && LeafAt(sub, k[1..][..n - 1])
        {
          assert k[..n][1..] == k[1..][..n - 1];
        }
        if n :| 0 < n < |k[1..]| && LeafAt(sub, k[1..][..n]) {
          assert LeafAt(kids, k[..n + 1]);
        }
      }
    }
  }

  /** An earlier name is a proper dotted prefix of a later one. */
  ghost predicate Blocked<V>(es: seq<Entry<V>>) {
    exists i, j | 0 <= i < j < |es| :: ProperPrefix(es[i].path, es[j].path)
  }

  lemma BlockedPrefix<V>(es: seq<Entry<V>>)
    requires es != []
    ensures Blocked(es) <==>
            Blocked(es[..|es| - 1]) || exists i | 0 <= i < |es| - 1 :: ProperPrefix(es[i].path, es[|es| - 1].path)
  {
    BlockedGrows(es);
    if Blocked(es) {
      var i, j :| 0 <= i < j < |es| && ProperPrefix(es[i].path, es[j].path);
      BlockedShrinks(es, i, j);
    }
  }

  lemma BlockedGrows<V>(es: seq<Entry<V>>)
    requires es != []
    ensures Blocked(es[..|es| - 1]) ==> Blocked(es)
  {
    var init := es[..|es| - 1];
    if Blocked(init) {
      var i, j :| 0 <= i < j < |init| && ProperPrefix(init[i].path, init[j].path);
      assert init[i] == es[i] && init[j] == es[j];
    }
  }

  lemma BlockedShrinks<V>(es: seq<Entry<V>>, i: nat, j: nat)
    requires i < j < |es| && ProperPrefix(es[i].path, es[j].path)
    ensures j < |es| - 1 ==> Blocked(es[..|es| - 1])
  {
    var init := es[..|es| - 1];
    assert j < |init| ==> init[i] == es[i] && init[j] == es[j];
  }

  /** A value stays reachable on the way to the path of every inserted entry. */
  lemma {:induction false} LeafRemains<V>(es: seq<Entry<V>>, i: nat)
    requires Proper(es) && i < |es| && !Blocked(es)
    ensures exists l :: 0 < l <= |es[i].path| && LeafAt(Nested(es), es[i].path[..l])
  {
    var n := |es| - 1;
    var q, k := es[i].path, es[n].path;
    var init := es[..n];
    if i == n {
      LookupInserted(Nested(init), k, es[n].value, k);
      assert q[..|q|] == q;
    } else {
      BlockedPrefix(es);
      LeafRemains(init, i);
      var l :| 0 < l <= |q| && LeafAt(Nested(init), q[..l]);
      LeavesAreEntries(init, q[..l]);
      var j :| 0 <= j < n && init[j].path == q[..l];
      assert !ProperPrefix(es[j].path, k);
      LeafSurvives(Nested(init), q, l, k, es[n].value);
    }
  }

  /** Inserting at a path that does not go on from a leaf leaves one on the way. */
  lemma LeafSurvives<V>(kids: map<string, Tree<V>>, q: Path, l: nat, k: Path, v: V)
    requires 0 < l <= |q| && k != [] && LeafAt(kids, q[..l]) && !ProperPrefix(q[..l], k)
    ensures exists m :: 0 < m <= |q| && LeafAt(Insert(kids, k, v), q[..m])
  {
    LookupInserted(kids, k, v, q[..l]);
    if Related(k, q[..l]) {
      assert |k| <= l && k == q[..|k|];
      LookupInserted(kids, k, v, k);
      assert LeafAt(Insert(kids, k, v), q[..|k|]);
    } else {
      assert LeafAt(Insert(kids, k, v), q[..l]);
    }
  }

  /** While no name is blocked the two versions build the same dictionaries; from the
      first blocked one on the `setdefault` version has failed. */
  lemma {:induction false} SetdefaultExactly<V>(es: seq<Entry<V>>)
    requires Proper(es)
    ensures NestedSetdefault(es) == if Blocked(es) then None else Some(Nested(es))
  {
    if es != [] {
      var n := |es| - 1;
      var init, k := es[..n], es[n].path;
      BlockedPrefix(es);
      SetdefaultExactly(init);
      if !Blocked(init) {
        SetdefaultStep(Nested(init), k, es[n].value);
        if l :| 0 < l < |k| && LeafAt(Nested(init), k[..l]) {
          LeavesAreEntries(init, k[..l]);
          var i :| 0 <= i < n && init[i].path == k[..l];
          assert ProperPrefix(es[i].path, k);
        }
        if i :| 0 <= i < n && ProperPrefix(es[i].path, k) {
          LeafRemains(init, i);
          var l :| 0 < l <= |es[i].path| && LeafAt(Nested(init), es[i].path[..l]);
          assert es[i].path[..l] == k[..l];
        }
      }
    }
  }

  /** Prefix-free names: all versions agree. */
  lemma VersionsAgree<V>(es: seq<Entry<V>>)
    requires Proper(es) && PrefixFree(es)
    ensures NestedSetdefault(es) == Some(Nested(es))
  {
    SetdefaultExactly(es);
  }
}
