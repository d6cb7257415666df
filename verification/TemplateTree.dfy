/** Walking up and building down the template hierarchy; nothing keeps the parent links
    from being cyclic or dangling. */
module TemplateTree {
  import opened PyData

  datatype Row = Row(id: string, parent: Option<string>, displayName: string)

  /** A table of rows under their ids. */
  ghost predicate Table(rows: map<string, Row>) {
    forall id | id in rows :: rows[id].id == id
  }

  /** The id met after `n` steps up; a missing row ends the walk. */
  ghost function Ancestor(rows: map<string, Row>, id: string, n: nat): Option<string> {
    if n == 0 then Some(id)
    else match Ancestor(rows, id, n - 1)
      case None => None
      case Some(a) => if a in rows then rows[a].parent else None
  }

  ghost predicate Revisits(rows: map<string, Row>, id: string) {
    exists i: nat, j: nat :: i < j && Ancestor(rows, id, i) == Ancestor(rows, id, j) && Ancestor(rows, id, j).Some?
  }

  ghost predicate IsWalk(rows: map<string, Row>, id: string, c: seq<Row>) {
    && (forall i | 0 <= i < |c| :: c[i].id in rows && rows[c[i].id] == c[i] && Ancestor(rows, id, i) == Some(c[i].id))
    && (forall i, j | 0 <= i < j < |c| :: c[i].id != c[j].id)
  }

  /** The longest walk from `id` without repetition. */
  ghost predicate IsChain(rows: map<string, Row>, id: string, c: seq<Row>) {
    && IsWalk(rows, id, c)
    && var next := Ancestor(rows, id, |c|);
       next == None || next.value !in rows || exists i :: 0 <= i < |c| && c[i].id == next.value
  }

  ghost function Ids(c: seq<Row>): set<string> {
    set r | r in c :: r.id
  }

  lemma IdsUnique(rows: map<string, Row>, id: string, c: seq<Row>)
    requires IsWalk(rows, id, c)
    ensures |c| == |Ids(c)| && Ids(c) <= rows.Keys
  {
    if c != [] {
      var n := |c| - 1;
      IdsUnique(rows, id, c[..n]);
      assert c == c[..n] + [c[n]];
      assert Ids(c) == Ids(c[..n]) + {c[n].id};
      assert c[n].id !in Ids(c[..n]);
    }
  }

  lemma IdsFit(rows: map<string, Row>, id: string, c: seq<Row>)
    requires IsWalk(rows, id, c)
    ensures |c| <= |rows|
  {
    IdsUnique(rows, id, c);
    SubsetSize(Ids(c), rows.Keys);
    assert |rows.Keys| == |rows|;
  }

  lemma {:induction false} SubsetSize<T>(a: set<T>, b: set<T>)
    requires a <= b
    ensures |a| <= |b|
  {
    if a != {} {
      var x :| x in a;
      SubsetSize(a - {x}, b - {x});
    }
  }

  lemma {:induction false} GoneStaysGone(rows: map<string, Row>, id: string, n: nat, m: nat)
    requires Ancestor(rows, id, n) == None && n <= m
    ensures Ancestor(rows, id, m) == None
    decreases m
  {
    if n < m {
      GoneStaysGone(rows, id, n, m - 1);
    }
  }

  /** The walk revisits a template exactly when its longest prefix stops at one of its own. */
  lemma RevisitsExactly(rows: map<string, Row>, id: string, c: seq<Row>)
    requires IsChain(rows, id, c)
    ensures Revisits(rows, id) <==> exists i :: 0 <= i < |c| && Ancestor(rows, id, |c|) == Some(c[i].id)
  {
    if !(exists i :: 0 <= i < |c| && Ancestor(rows, id, |c|) == Some(c[i].id)) {
      assert Ancestor(rows, id, |c| + 1) == None;
      forall i: nat, j: nat | i < j
        ensures Ancestor(rows, id, i) == Ancestor(rows, id, j) ==> Ancestor(rows, id, j) == None
      {
        if j > |c| {
          GoneStaysGone(rows, id, |c| + 1, j);
        } else {
          assert Ancestor(rows, id, i) == Some(c[i].id);
          assert j < |c| ==> Ancestor(rows, id, j) == Some(c[j].id);
        }
      }
    }
  }

  /** All walkers find the same chain. */
  lemma ChainUnique(rows: map<string, Row>, id: string, c1: seq<Row>, c2: seq<Row>)
    requires IsChain(rows, id, c1) && IsChain(rows, id, c2)
    ensures c1 == c2
  {
    if |c1| < |c2| {
      ShorterIsNoChain(rows, id, c1, c2);
    } else if |c2| < |c1| {
      ShorterIsNoChain(rows, id, c2, c1);
    } else {
      forall i | 0 <= i < |c1| ensures c1[i] == c2[i] {
        assert Ancestor(rows, id, i) == Some(c1[i].id) == Some(c2[i].id);
      }
    }
  }

  lemma ShorterIsNoChain(rows: map<string, Row>, id: string, c1: seq<Row>, c2: seq<Row>)
    requires IsWalk(rows, id, c1) && IsWalk(rows, id, c2) && |c1| < |c2|
    ensures !IsChain(rows, id, c1)
  {
    forall i | 0 <= i < |c1| ensures c1[i].id == c2[i].id {
      assert Ancestor(rows, id, i) == Some(c1[i].id);
    }
    assert Ancestor(rows, id, |c1|) == Some(c2[|c1|].id);
  }

  lemma WalkStep(rows: map<string, Row>, id: string, c: seq<Row>, next: Row)
    requires Table(rows) && IsWalk(rows, id, c) && Ancestor(rows, id, |c|) == Some(next.id)
    requires next.id in rows && rows[next.id] == next && next.id !in Ids(c)
    ensures var longer := c + [next];
            && IsWalk(rows, id, longer) && Ids(longer) == Ids(c) + {next.id}
            && Ancestor(rows, id, |longer|) == next.parent && |longer| <= |rows|
  {
    var longer := c + [next];
    forall i | 0 <= i < |c| ensures c[i].id != next.id {
      assert c[i] in c;
    }
    assert forall r :: r in longer <==> r in c || r == next;
    IdsFit(rows, id, longer);
  }

  // ----- the walkers -----

  /** The resolver's walk refuses a circular path. */
  method LoadInheritanceChain(rows: map<string, Row>, templateId: string) returns (r: Outcome<seq<Row>>)
    requires Table(rows)
    ensures r.Raise? <==> Revisits(rows, templateId)
    ensures r.Ok? ==> IsChain(rows, templateId, r.value)
  {
    var chain, currentId, visited := [], Some(templateId), {};
    while currentId.Some?
      invariant IsWalk(rows, templateId, chain) && currentId == Ancestor(rows, templateId, |chain|)
      invariant visited == Ids(chain)
      decreases |rows| - |chain|
    {
      if currentId.value in visited {
        RevisitsExactly(rows, templateId, chain);
        return Raise("Circular template inheritance detected");
      }
      visited := visited + {currentId.value};
      if currentId.value !in rows {
        break;
      }
      var template := rows[currentId.value];
      WalkStep(rows, templateId, chain, template);
      chain := chain + [template];
      currentId := template.parent;
    }
    RevisitsExactly(rows, templateId, chain);
    assert forall i | 0 <= i < |chain| :: chain[i] in chain;
    return Ok(chain);
  }

  /** The catalog's walk stops at the first repetition; an unknown template is an error. */
  method GetInheritanceChain(rows: map<string, Row>, templateId: string) returns (r: Outcome<seq<Row>>)
    requires Table(rows)
    ensures r.Raise? <==> templateId !in rows
    ensures r.Ok? ==> IsChain(rows, templateId, Reverse(r.value))
  {
    var chain, currentId, visited := [], Some(templateId), {};
    while currentId.Some?
      invariant IsWalk(rows, templateId, chain) && currentId == Ancestor(rows, templateId, |chain|)
      invariant visited == Ids(chain)
      invariant chain != [] ==> templateId in rows
      decreases |rows| - |chain|
    {
      if currentId.value in visited {
        break;
      }
      visited := visited + {currentId.value};
      if currentId.value !in rows {
        if currentId.value == templateId {
          return Raise("Template not found");
        }
        break;
      }
      var tmpl := rows[currentId.value];
      WalkStep(rows, templateId, chain, tmpl);
      chain := chain + [tmpl];
      currentId := tmpl.parent;
    }
    assert IsChain(rows, templateId, chain);
    assert Reverse(Reverse(chain)) == chain;
    return Ok(Reverse(chain));
  }

  function DisplayNames(c: seq<Row>): (names: seq<string>)
    ensures |names| == |c| && forall i | 0 <= i < |c| :: names[i] == c[i].displayName
  {
    seq(|c|, i requires 0 <= i < |c| => c[i].displayName)
  }

  ghost predicate IsBreadcrumb(byId: map<string, Row>, templateId: string, chain: seq<Row>, crumbs: seq<string>) {
    IsChain(byId, templateId, chain) && crumbs == DisplayNames(Reverse(chain))
  }

  method BuildBreadcrumb(templateId: string, byId: map<string, Row>) returns (crumbs: seq<string>)
    requires Table(byId)
    ensures exists chain :: IsBreadcrumb(byId, templateId, chain, crumbs)
  {
    ghost var chain: seq<Row> := [];
    crumbs := [];
    var currentId, visited := Some(templateId), {};
    while currentId.Some? && currentId.value !in visited
      invariant IsWalk(byId, templateId, chain) && currentId == Ancestor(byId, templateId, |chain|)
      invariant visited == Ids(chain)
      invariant |crumbs| == |chain| && forall i | 0 <= i < |chain| :: crumbs[i] == chain[i].displayName
      decreases |byId| - |chain|
    {
      visited := visited + {currentId.value};
      if currentId.value !in byId {
        break;
      }
      var tmpl := byId[currentId.value];
      WalkStep(byId, templateId, chain, tmpl);
      chain := chain + [tmpl];
      crumbs := crumbs + [tmpl.displayName];
      currentId := tmpl.parent;
    }
    crumbs := Reverse(crumbs);
    assert IsBreadcrumb(byId, templateId, chain, crumbs);
  }

  // ----- the tree -----

  datatype TreeNode = TreeNode(row: Row, children: seq<TreeNode>)

  function ChildrenOf(templates: seq<Row>, parent: Option<string>): (cs: seq<Row>)
    ensures forall t :: t in cs <==> t in templates && t.parent == parent
  {
    if templates == [] then []
    else
      var last := templates[|templates| - 1];
      ChildrenOf(templates[..|templates| - 1], parent) + if last.parent == parent then [last] else []
  }

  /** `children_map.get(parent, [])`. */
  function Get(index: map<Option<string>, seq<Row>>, parent: Option<string>): seq<Row> {
    if parent in index then index[parent] else []
  }

  ghost predicate Indexes(index: map<Option<string>, seq<Row>>, templates: seq<Row>) {
    forall p :: Get(index, p) == ChildrenOf(templates, p)
  }

  ghost predicate DistinctIds(templates: seq<Row>) {
    forall i, j | 0 <= i < j < |templates| :: templates[i].id != templates[j].id
  }

  /** A path of listed templates down from one without parent. */
  ghost predicate RootPath(templates: seq<Row>, p: seq<Row>) {
    && p != [] && p[0].parent == None
    && (forall i | 0 <= i < |p| :: p[i] in templates)
    && (forall i | 0 < i < |p| :: p[i].parent == Some(p[i - 1].id))
  }

  lemma SameRow(templates: seq<Row>, r1: Row, r2: Row)
    requires DistinctIds(templates) && r1 in templates && r2 in templates
    ensures r1.id == r2.id ==> r1 == r2
  {
  }

  lemma {:induction false} RootPathDistinct(templates: seq<Row>, p: seq<Row>, i: nat, j: nat)
    requires DistinctIds(templates) && RootPath(templates, p) && i < j < |p|
    ensures p[i] != p[j]
  {
    assert p[j].parent == Some(p[j - 1].id);
    if i == 0 {
      assert p[0].parent == None;
    } else {
      RootPathDistinct(templates, p, i - 1, j - 1);
      SameRow(templates, p[i - 1], p[j - 1]);
      assert p[i].parent == Some(p[i - 1].id);
    }
  }

  lemma {:induction false} DistinctFits<T>(p: seq<T>, q: seq<T>)
    requires NoDup(p) && forall x | x in p :: x in q
    ensures |p| <= |q|
  {
    if p != [] {
      assert p[0] in p;
      var i :| 0 <= i < |q| && q[i] == p[0];
      var rest := q[..i] + q[i + 1..];
      forall x | x in p[1..] ensures x in rest {
        assert x in p;
        var j :| 0 <= j < |q| && q[j] == x;
        assert rest[if j < i then j else j - 1] == x;
      }
      DistinctFits(p[1..], rest);
    }
  }

  lemma RootPathFits(templates: seq<Row>, p: seq<Row>)
    requires DistinctIds(templates) && RootPath(templates, p)
    ensures |p| <= |templates|
  {
    forall i, j | 0 <= i < j < |p| ensures p[i] != p[j] {
      RootPathDistinct(templates, p, i, j);
    }
    DistinctFits(p, templates);
  }

  /** Cyclic parent links cannot keep the recursion going: `above` is the path from a root. */
  function BuildNode(index: map<Option<string>, seq<Row>>, t: Row, ghost templates: seq<Row>,
                     ghost above: seq<Row>): TreeNode
    requires Indexes(index, templates) && DistinctIds(templates) && RootPath(templates, above + [t])
    decreases |templates| - |above|, 0
  {
    RootPathFits(templates, above + [t]);
    assert forall c | c in ChildrenOf(templates, Some(t.id)) :: RootPath(templates, above + [t] + [c]);
    TreeNode(t, BuildNodes(index, Get(index, Some(t.id)), templates, above + [t]))
  }

  function BuildNodes(index: map<Option<string>, seq<Row>>, ts: seq<Row>, ghost templates: seq<Row>,
                      ghost above: seq<Row>): seq<TreeNode>
    requires Indexes(index, templates) && DistinctIds(templates) && |above| <= |templates|
    requires forall t | t in ts :: RootPath(templates, above + [t])
    decreases |templates| - |above|, |ts| + 1
  {
    if ts == [] then []
    else [BuildNode(index, ts[0], templates, above)] + BuildNodes(index, ts[1..], templates, above)
  }

  method BuildTree(templates: seq<Row>) returns (forest: seq<TreeNode>)
    requires DistinctIds(templates)
    ensures forall p :: p in Paths(forest, []) <==> RootPath(templates, p)
    ensures NoDup(Paths(forest, []))
    ensures SiblingsInOrder(templates, forest)
  {
    var childrenMap: map<Option<string>, seq<Row>> := map[];
    for i := 0 to |templates|
      invariant Indexes(childrenMap, templates[..i])
    {
      var t := templates[i];
      assert templates[..i + 1][..i] == templates[..i];
      childrenMap := childrenMap[t.parent := Get(childrenMap, t.parent) + [t]];
    }
    assert templates[..|templates|] == templates;
    assert forall t | t in ChildrenOf(templates, None) :: RootPath(templates, [] + [t]);
    forest := BuildNodes(childrenMap, Get(childrenMap, None), templates, []);
    RootsDistinct(templates, None);
    NodesPaths(childrenMap, Get(childrenMap, None), templates, []);
    NodesInOrder(childrenMap, Get(childrenMap, None), templates, []);
    ChildrenInOrder(templates, None);
    LevelInOrder(templates, Get(childrenMap, None), forest);
    forall p: seq<Row> ensures p in Paths(forest, []) <==> RootPath(templates, p) {
      if RootPath(templates, p) {
        assert p[0] in ChildrenOf(templates, None);
      }
    }
  }

  /** Of two rows the first stands before the second. */
  ghost predicate StandsBefore(templates: seq<Row>, a: Row, b: Row) {
    exists i, j :: 0 <= i < j < |templates| && templates[i] == a && templates[j] == b
  }

  ghost predicate RowsInOrder(templates: seq<Row>, rows: seq<Row>) {
    forall i, j | 0 <= i < j < |rows| :: StandsBefore(templates, rows[i], rows[j])
  }

  /** At every level the siblings keep the order in which the templates are listed. */
  ghost predicate SiblingsInOrder(templates: seq<Row>, forest: seq<TreeNode>) {
    && (forall i, j | 0 <= i < j < |forest| :: StandsBefore(templates, forest[i].row, forest[j].row))
    && forall n | n in forest :: SiblingsInOrder(templates, n.children)
  }

  lemma {:induction false} ChildrenInOrder(templates: seq<Row>, parent: Option<string>)
    ensures RowsInOrder(templates, ChildrenOf(templates, parent))
  {
    if templates != [] {
      var n, kids := |templates| - 1, ChildrenOf(templates, parent);
      var before := ChildrenOf(templates[..n], parent);
      ChildrenInOrder(templates[..n], parent);
      forall i, j | 0 <= i < j < |kids| ensures StandsBefore(templates, kids[i], kids[j]) {
        if j < |before| {
          assert StandsBefore(templates[..n], before[i], before[j]);
        } else {
          assert before[i] in templates[..n] && kids[j] == templates[n];
        }
      }
    }
  }

  lemma {:induction false} NodeInOrder(index: map<Option<string>, seq<Row>>, t: Row, templates: seq<Row>,
                                       above: seq<Row>)
    requires Indexes(index, templates) && DistinctIds(templates) && RootPath(templates, above + [t])
    ensures var n := BuildNode(index, t, templates, above); n.row == t && SiblingsInOrder(templates, n.children)
    decreases |templates| - |above|, 0
  {
    RootPathFits(templates, above + [t]);
    var kids, here := ChildrenOf(templates, Some(t.id)), above + [t];
    assert Get(index, Some(t.id)) == kids;
    assert forall c | c in kids :: RootPath(templates, here + [c]);
    NodesInOrder(index, kids, templates, here);
    ChildrenInOrder(templates, Some(t.id));
    LevelInOrder(templates, kids, BuildNodes(index, kids, templates, here));
  }

  /** The nodes are those of the rows, and below each of them the siblings are in order. */
  ghost predicate NodesOf(templates: seq<Row>, ts: seq<Row>, nodes: seq<TreeNode>) {
    |nodes| == |ts| && forall i | 0 <= i < |ts| ::
      nodes[i].row == ts[i] && SiblingsInOrder(templates, nodes[i].children)
  }

  lemma LevelInOrder(templates: seq<Row>, ts: seq<Row>, nodes: seq<TreeNode>)
    requires NodesOf(templates, ts, nodes) && RowsInOrder(templates, ts)
    ensures SiblingsInOrder(templates, nodes)
  {
    forall i, j | 0 <= i < j < |nodes| ensures StandsBefore(templates, nodes[i].row, nodes[j].row) {
      assert StandsBefore(templates, ts[i], ts[j]);
    }
  }

  lemma {:induction false} NodesInOrder(index: map<Option<string>, seq<Row>>, ts: seq<Row>, templates: seq<Row>,
                                        above: seq<Row>)
    requires Indexes(index, templates) && DistinctIds(templates) && |above| <= |templates|
    requires forall t | t in ts :: RootPath(templates, above + [t])
    ensures NodesOf(templates, ts, BuildNodes(index, ts, templates, above))
    decreases |templates| - |above|, |ts| + 1
  {
    if ts != [] {
      NodeInOrder(index, ts[0], templates, above);
      NodesInOrder(index, ts[1..], templates, above);
      NodesOfCons(templates, ts, BuildNode(index, ts[0], templates, above),
                  BuildNodes(index, ts[1..], templates, above));
    }
  }

  lemma NodesOfCons(templates: seq<Row>, ts: seq<Row>, first: TreeNode, rest: seq<TreeNode>)
    requires ts != [] && NodesOf(templates, ts[1..], rest)
    requires first.row == ts[0] && SiblingsInOrder(templates, first.children)
    ensures NodesOf(templates, ts, [first] + rest)
  {
    forall i | 0 < i < |ts| ensures ([first] + rest)[i] == rest[i - 1] && ts[i] == ts[1..][i - 1] {
    }
  }

  /** Every node of the forest as the path that leads to it, in display order. */
  ghost function Paths(forest: seq<TreeNode>, above: seq<Row>): seq<seq<Row>> {
    if forest == [] then [] else NodePaths(forest[0], above) + Paths(forest[1..], above)
  }

  ghost function NodePaths(n: TreeNode, above: seq<Row>): seq<seq<Row>> {
    [above + [n.row]] + Paths(n.children, above + [n.row])
  }

  lemma {:induction false} RootsDistinct(templates: seq<Row>, parent: Option<string>)
    requires DistinctIds(templates)
    ensures NoDup(ChildrenOf(templates, parent))
  {
    if templates != [] {
      var n := |templates| - 1;
      RootsDistinct(templates[..n], parent);
      assert templates[n] !in templates[..n];
    }
  }

  lemma NoDupConcat<T>(a: seq<T>, b: seq<T>)
    requires NoDup(a) && NoDup(b) && forall x | x in b :: x !in a
    ensures NoDup(a + b) && forall x :: x in a + b <==> x in a || x in b
  {
    forall i, j | 0 <= i < j < |a + b| ensures (a + b)[i] != (a + b)[j] {
      if i < |a| <= j {
        assert (a + b)[j] == b[j - |a|] && b[j - |a|] in b;
      }
    }
  }

  ghost predicate Under(templates: seq<Row>, top: seq<Row>, p: seq<Row>) {
    RootPath(templates, p) && top <= p
  }

  ghost predicate UnderAny(templates: seq<Row>, above: seq<Row>, ts: seq<Row>, p: seq<Row>) {
    RootPath(templates, p) && above < p && p[|above|] in ts
  }

  lemma UnderSplits(templates: seq<Row>, top: seq<Row>, p: seq<Row>)
    requires top != []
    ensures Under(templates, top, p) && p != top ==>
              UnderAny(templates, top, ChildrenOf(templates, Some(top[|top| - 1].id)), p)
    ensures UnderAny(templates, top, ChildrenOf(templates, Some(top[|top| - 1].id)), p) ==>
              Under(templates, top, p) && p != top
  {
  }

  lemma {:induction false} NodePathsAre(index: map<Option<string>, seq<Row>>, t: Row, templates: seq<Row>,
                                        above: seq<Row>)
    requires Indexes(index, templates) && DistinctIds(templates) && RootPath(templates, above + [t])
    ensures var ps := NodePaths(BuildNode(index, t, templates, above), above);
            NoDup(ps) && forall p :: p in ps <==> Under(templates, above + [t], p)
    decreases |templates| - |above|, 0
  {
    RootPathFits(templates, above + [t]);
    var kids, here := ChildrenOf(templates, Some(t.id)), above + [t];
    assert Get(index, Some(t.id)) == kids;
    assert forall c | c in kids :: RootPath(templates, here + [c]);
    RootsDistinct(templates, Some(t.id));
    NodesPaths(index, kids, templates, here);
    var below := Paths(BuildNodes(index, kids, templates, here), here);
    NoDupConcat([here], below);
    forall p: seq<Row> ensures p in [here] + below <==> Under(templates, here, p) {
      UnderSplits(templates, here, p);
    }
  }

  lemma {:induction false} NodesPaths(index: map<Option<string>, seq<Row>>, ts: seq<Row>, templates: seq<Row>,
                                      above: seq<Row>)
    requires Indexes(index, templates) && DistinctIds(templates) && |above| <= |templates| && NoDup(ts)
    requires forall t | t in ts :: RootPath(templates, above + [t])
    ensures var ps := Paths(BuildNodes(index, ts, templates, above), above);
            NoDup(ps) && forall p :: p in ps <==> UnderAny(templates, above, ts, p)
    decreases |templates| - |above|, |ts| + 1
  {
    if ts != [] {
      NodePathsAre(index, ts[0], templates, above);
      NodesPaths(index, ts[1..], templates, above);
      var first := NodePaths(BuildNode(index, ts[0], templates, above), above);
      var rest := Paths(BuildNodes(index, ts[1..], templates, above), above);
      FirstAndRest(templates, above, ts, first, rest);
    }
  }

  lemma FirstAndRest(templates: seq<Row>, above: seq<Row>, ts: seq<Row>, first: seq<seq<Row>>, rest: seq<seq<Row>>)
    requires ts != [] && NoDup(ts) && NoDup(first) && NoDup(rest)
    requires forall p :: p in first <==> Under(templates, above + [ts[0]], p)
    requires forall p :: p in rest <==> UnderAny(templates, above, ts[1..], p)
    ensures NoDup(first + rest) && forall p :: p in first + rest <==> UnderAny(templates, above, ts, p)
  {
    forall p | p in rest ensures p !in first {
      UnderTop(templates, above, ts[0], p);
      assert ts[0] !in ts[1..];
    }
    NoDupConcat(first, rest);
    forall p: seq<Row> ensures p in first + rest <==> UnderAny(templates, above, ts, p) {
      UnderFirstOrRest(templates, above, ts, p);
    }
  }

  lemma UnderTop(templates: seq<Row>, above: seq<Row>, t: Row, p: seq<Row>)
    ensures Under(templates, above + [t], p) ==> |above| < |p| && p[|above|] == t
  {
    assert (above + [t])[|above|] == t;
  }

  lemma UnderFirstOrRest(templates: seq<Row>, above: seq<Row>, ts: seq<Row>, p: seq<Row>)
    requires ts != []
    ensures UnderAny(templates, above, ts, p) <==>
            Under(templates, above + [ts[0]], p) || UnderAny(templates, above, ts[1..], p)
  {
    assert forall t :: t in ts <==> t == ts[0] || t in ts[1..];
    if above < p {
      assert above + [p[|above|]] <= p;
    }
  }

  // ----- the tree against the walkers -----

  ghost predicate IsTableOf(byId: map<string, Row>, templates: seq<Row>) {
    Table(byId) && forall r :: r in templates <==> r.id in byId && byId[r.id] == r
  }

  lemma {:induction false} PathAncestor(templates: seq<Row>, byId: map<string, Row>, p: seq<Row>, n: nat)
    requires IsTableOf(byId, templates) && RootPath(templates, p) && n <= |p|
    ensures Ancestor(byId, p[|p| - 1].id, n) == if n < |p| then Some(p[|p| - 1 - n].id) else None
  {
    if n > 0 {
      PathAncestor(templates, byId, p, n - 1);
      assert p[|p| - n] in templates;
    }
  }

  /** The path of a template in the tree is its walk upwards, read backwards; so its
      display names are its breadcrumb. */
  lemma PathIsChain(templates: seq<Row>, byId: map<string, Row>, p: seq<Row>)
    requires DistinctIds(templates) && IsTableOf(byId, templates) && RootPath(templates, p)
    ensures IsChain(byId, p[|p| - 1].id, Reverse(p))
  {
    PathIsWalk(templates, byId, p, p[|p| - 1].id, Reverse(p));
    PathAncestor(templates, byId, p, |p|);
  }

  lemma PathIsWalk(templates: seq<Row>, byId: map<string, Row>, p: seq<Row>, id: string, c: seq<Row>)
    requires DistinctIds(templates) && IsTableOf(byId, templates) && RootPath(templates, p)
    requires |c| == |p| && (forall i | 0 <= i < |c| :: c[i] == p[|p| - 1 - i]) && id == p[|p| - 1].id
    ensures IsWalk(byId, id, c)
  {
    forall i | 0 <= i < |c| ensures c[i].id in byId && byId[c[i].id] == c[i] && Ancestor(byId, id, i) == Some(c[i].id) {
      PathRow(templates, byId, p, i, c[i]);
    }
    forall i, j | 0 <= i < j < |c| ensures c[i].id != c[j].id {
      PathIdsDistinct(templates, p, |p| - 1 - j, |p| - 1 - i);
    }
  }

  lemma PathRow(templates: seq<Row>, byId: map<string, Row>, p: seq<Row>, n: nat, r: Row)
    requires IsTableOf(byId, templates) && RootPath(templates, p) && n < |p| && r == p[|p| - 1 - n]
    ensures r.id in byId && byId[r.id] == r && Ancestor(byId, p[|p| - 1].id, n) == Some(r.id)
  {
    PathAncestor(templates, byId, p, n);
    assert r in templates;
  }

  lemma PathIdsDistinct(templates: seq<Row>, p: seq<Row>, i: nat, j: nat)
    requires DistinctIds(templates) && RootPath(templates, p) && i < j < |p|
    ensures p[i].id != p[j].id
  {
    RootPathDistinct(templates, p, i, j);
    SameRow(templates, p[i], p[j]);
  }

  /** The breadcrumb of a template shows the display names along its path in the tree. */
  lemma BreadcrumbIsPath(templates: seq<Row>, byId: map<string, Row>, p: seq<Row>, chain: seq<Row>, crumbs: seq<string>)
    requires DistinctIds(templates) && IsTableOf(byId, templates) && RootPath(templates, p)
    requires IsBreadcrumb(byId, p[|p| - 1].id, chain, crumbs)
    ensures crumbs == DisplayNames(p)
  {
    PathIsChain(templates, byId, p);
    ChainUnique(byId, p[|p| - 1].id, chain, Reverse(p));
    assert Reverse(Reverse(p)) == p;
  }

  /** A template is in the tree exactly when its walk upwards ends at a parentless one. */
  lemma InTreeExactly(templates: seq<Row>, byId: map<string, Row>, t: Row, c: seq<Row>)
    requires DistinctIds(templates) && IsTableOf(byId, templates) && t in templates && IsChain(byId, t.id, c)
    ensures (exists p :: RootPath(templates, p) && p[|p| - 1] == t) <==> c[|c| - 1].parent == None
  {
    assert Ancestor(byId, t.id, 0) == Some(t.id);
    if p :| RootPath(templates, p) && p[|p| - 1] == t {
      PathIsChain(templates, byId, p);
      ChainUnique(byId, t.id, c, Reverse(p));
    }
    if c[|c| - 1].parent == None {
      var p := Reverse(c);
      forall i | 0 < i < |p| ensures p[i].parent == Some(p[i - 1].id) {
        assert Ancestor(byId, t.id, |c| - i) == byId[c[|c| - 1 - i].id].parent;
      }
      forall i | 0 <= i < |p| ensures p[i] in templates {
        assert p[i] == c[|c| - 1 - i];
      }
      assert RootPath(templates, p) && p[|p| - 1] == c[0] == t;
    }
  }

  lemma LastParent(templates: seq<Row>, p: seq<Row>)
    requires RootPath(templates, p)
    ensures |p| == 1 <==> p[|p| - 1].parent == None
  {
    var n := |p| - 1;
    assert n > 0 ==> p[n].parent == Some(p[n - 1].id);
  }

  lemma {:induction false} RootPathUnique(templates: seq<Row>, p: seq<Row>, q: seq<Row>)
    requires DistinctIds(templates) && RootPath(templates, p) && RootPath(templates, q)
    requires p[|p| - 1] == q[|q| - 1]
    ensures p == q
  {
    var p', q' := p[..|p| - 1], q[..|q| - 1];
    assert p == p' + [p[|p| - 1]] && q == q' + [q[|q| - 1]];
    LastParent(templates, p);
    LastParent(templates, q);
    if |p| > 1 && |q| > 1 {
      SameRow(templates, p[|p| - 2], q[|q| - 2]);
      assert RootPath(templates, p') && RootPath(templates, q');
      RootPathUnique(templates, p', q');
    }
  }

  /** The templates of the forest in display order. */
  ghost function Listed(paths: seq<seq<Row>>): seq<Row>
    requires forall p | p in paths :: p != []
  {
    seq(|paths|, i requires 0 <= i < |paths| && paths[i] in paths => paths[i][|paths[i]| - 1])
  }

  /** No template is displayed twice. */
  lemma EachOnce(templates: seq<Row>, paths: seq<seq<Row>>)
    requires DistinctIds(templates) && NoDup(paths) && forall p | p in paths :: p != [] && RootPath(templates, p)
    ensures NoDup(Listed(paths))
  {
    forall i, j | 0 <= i < j < |paths| ensures Listed(paths)[i] != Listed(paths)[j] {
      assert paths[i] in paths && paths[j] in paths;
      if Listed(paths)[i] == Listed(paths)[j] {
        RootPathUnique(templates, paths[i], paths[j]);
      }
    }
  }
}
