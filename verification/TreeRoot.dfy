/**
 Tracking the root of every node in a forest that is built in any order and pruned at its
 roots (trinity/_utils/tree_root.py).

 The source answers "which root, how deep" through shared, mutable TreeRoot objects that carry
 a depth offset or a link to the root they were extended by. The specification is the plain walk
 up the parents, `Climb`.
 */
module TreeRoots {
  import opened Collections

  /** Only equality of node ids is ever used. */
  type NodeId = int

  /** The present edges: every present node is a key, its (possibly absent) parent the value. */
  type Edges = map<NodeId, NodeId>

  // -------------------------------------------------------------------------------------------
  // The plain walk up the parents
  // -------------------------------------------------------------------------------------------

  /** The node k parent steps above n, provided every node on the way is present. */
  function Climb(edges: Edges, n: NodeId, k: nat): Option<NodeId>
    decreases k
  {
    if n !in edges then None
    else if k == 0 then Some(n)
    else Climb(edges, edges[n], k - 1)
  }

  /** `r` is the topmost present ancestor of `n`, `d` parent steps up. */
  predicate IsRoot(edges: Edges, n: NodeId, r: NodeId, d: int)
  {
    0 <= d && Climb(edges, n, d) == Some(r) && r in edges && edges[r] !in edges
  }

  /** A rank that falls from every present node to its parent. */
  ghost predicate Acyclic(edges: Edges, rank: NodeId -> nat)
  {
    forall n :: n in edges ==> rank(edges[n]) < rank(n)
  }

  /** The walk ends: a root exists for every present node of an acyclic forest. */
  lemma {:induction false} RootExists(edges: Edges, rank: NodeId -> nat, n: NodeId) returns (r: NodeId, d: nat)
    requires Acyclic(edges, rank) && n in edges
    ensures IsRoot(edges, n, r, d)
    decreases rank(n)
  {
    if edges[n] in edges {
      r, d := RootExists(edges, rank, edges[n]);
      d := d + 1;
    } else {
      r, d := n, 0;
    }
  }

  /** The walk is deterministic: the root and its distance depend on the present edges alone. */
  lemma {:induction false} RootUnique(edges: Edges, n: NodeId, r: NodeId, d: int, r': NodeId, d': int)
    requires IsRoot(edges, n, r, d) && IsRoot(edges, n, r', d')
    ensures r == r' && d == d'
    decreases d
  {
    assert d > 0 ==> Climb(edges, n, d) == Climb(edges, edges[n], d - 1);
    assert d' > 0 ==> Climb(edges, n, d') == Climb(edges, edges[n], d' - 1);
    if d > 0 && d' > 0 {
      RootUnique(edges, edges[n], r, d - 1, r', d' - 1);
    }
  }

  lemma RootStep(edges: Edges, n: NodeId, r: NodeId, d: int)
    requires n in edges && edges[n] in edges && IsRoot(edges, edges[n], r, d)
    ensures IsRoot(edges, n, r, d + 1)
  {
  }

  // -------------------------------------------------------------------------------------------
  // Tree
  // -------------------------------------------------------------------------------------------

  ghost function ChildrenIn(edges: Edges, n: NodeId): set<NodeId>
  {
    set c | c in edges && edges[c] == n
  }

  /** Why an operation was refused; `Inconsistent` stands for every internal consistency check. */
  datatype Outcome = Ok | DuplicateNode | MissingNode | NotATreeRoot | Inconsistent

  type ChildLists = map<NodeId, seq<NodeId>>

  function Listed(children: ChildLists, p: NodeId): seq<NodeId>
  {
    if p in children then children[p] else []
  }

  /** The list of p holds its present children, each once, and is only kept while there are some. */
  ghost predicate IndexedAt(children: ChildLists, edges: Edges, p: NodeId)
  {
    && (forall c :: c in Listed(children, p) <==> c in edges && edges[c] == p)
    && NoDuplicates(Listed(children, p))
    && (p in children ==> children[p] != [])
  }

  /** The child lists are the parent relation turned round. */
  ghost predicate Indexes(children: ChildLists, edges: Edges)
  {
    forall p :: IndexedAt(children, edges, p)
  }

  lemma IndexMore(children: ChildLists, edges: Edges, n: NodeId, parent: NodeId)
    requires Indexes(children, edges) && n !in edges
    ensures Indexes(children[parent := Listed(children, parent) + [n]], edges[n := parent])
  {
    var children', edges' := children[parent := Listed(children, parent) + [n]], edges[n := parent];
    forall p
      ensures IndexedAt(children', edges', p)
    {
      assert IndexedAt(children, edges, p);
      AppendElement(Listed(children, p), n);
    }
  }

  lemma IndexLess(children: ChildLists, edges: Edges, n: NodeId, left: ChildLists)
    requires Indexes(children, edges) && n in edges
    requires var p := edges[n];
             var remaining := Without(Listed(children, p), n);
             left == if remaining != [] then children[p := remaining] else children - {p}
    ensures Indexes(left, edges - {n})
  {
    forall p
      ensures IndexedAt(left, edges - {n}, p)
    {
      assert IndexedAt(children, edges, p);
      WithoutSpec(Listed(children, p), n);
    }
  }

  class Tree {
    var parents: Edges
    var children: ChildLists

    ghost predicate Valid()
      reads this
    {
      Indexes(children, parents)
    }

    constructor ()
      ensures Valid() && parents == map[]
    {
      parents := map[];
      children := map[];
    }

    predicate HasParent(n: NodeId)
      reads this
    {
      n in parents && parents[n] in parents
    }

    function ChildrenOf(n: NodeId): (s: seq<NodeId>)
      reads this
    {
      Listed(children, n)
    }

    lemma ChildrenAre(p: NodeId)
      requires Valid()
      ensures forall c :: c in ChildrenOf(p) <==> c in parents && parents[c] == p
      ensures ChildrenIn(parents, p) == Elements(ChildrenOf(p)) && NoDuplicates(ChildrenOf(p))
      ensures |ChildrenOf(p)| == 1 ==> ChildrenIn(parents, p) == {ChildrenOf(p)[0]}
    {
      assert IndexedAt(children, parents, p);
      var kids, present := Elements(ChildrenOf(p)), ChildrenIn(parents, p);
      assert forall c :: c in kids <==> c in present;
      if |ChildrenOf(p)| == 1 {
        assert ChildrenOf(p) == [ChildrenOf(p)[0]];
      }
    }

    /** Adds the edge to the parent, present or not; a present node is refused. */
    method Add(n: NodeId, parent: NodeId) returns (res: Outcome)
      requires Valid()
      modifies this
      ensures Valid()
      ensures res == if n in old(parents) then DuplicateNode else Ok
      ensures res == Ok ==> parents == old(parents)[n := parent]
      ensures res == Ok ==> ChildrenOf(parent) == old(ChildrenOf(parent)) + [n]
      ensures res == Ok ==> forall p :: p != parent ==> ChildrenOf(p) == old(ChildrenOf(p))
      ensures res != Ok ==> parents == old(parents) && children == old(children)
    {
      hide Indexes;
      if n in parents {
        return DuplicateNode;
      }
      IndexMore(children, parents, n, parent);
      parents := parents[n := parent];
      children := children[parent := ChildrenOf(parent) + [n]];
      return Ok;
    }

    /** Removes a present node that has no present parent. */
    method Prune(n: NodeId) returns (res: Outcome)
      requires Valid()
      modifies this
      ensures Valid()
      ensures res == if n !in old(parents) then MissingNode else if old(HasParent(n)) then NotATreeRoot else Ok
      ensures res == Ok ==> parents == old(parents) - {n}
      ensures res != Ok ==> parents == old(parents) && children == old(children)
    {
      hide Indexes, Without;
      if HasParent(n) {
        return NotATreeRoot;
      } else if n !in parents {
        return MissingNode;
      }
      var p := parents[n];
      parents := parents - {n};
      var remaining := Without(ChildrenOf(p), n);
      if remaining != [] {
        children := children[p := remaining];
      } else {
        children := children - {p};
      }
      IndexLess(old(children), old(parents), n, children);
      return Ok;
    }
  }

  // -------------------------------------------------------------------------------------------
  // TreeRoot
  // -------------------------------------------------------------------------------------------

  class TreeRoot {
    var rootId: NodeId
    var depthOffset: int
    var extendsRoot: TreeRoot?
    var depthExtension: int

    constructor (id: NodeId)
      ensures rootId == id && depthOffset == 0 && extendsRoot == null
    {
      rootId, depthOffset, extendsRoot, depthExtension := id, 0, null, 0;
    }

    /** Hangs this root under another one; an already extended root is refused. */
    method Extend(target: TreeRoot, moreDepth: int) returns (res: Outcome)
      modifies this`extendsRoot, this`depthExtension
      ensures res == if old(extendsRoot) != null then Inconsistent else Ok
      ensures res == Ok ==> extendsRoot == target && depthExtension == moreDepth
      ensures res != Ok ==> unchanged(this)
    {
      if extendsRoot != null {
        return Inconsistent;
      }
      depthExtension := moreDepth;
      extendsRoot := target;
      return Ok;
    }

    /** Follows one pruning of `fromNode` down to its child `toNode`. */
    method PruneOne(fromNode: NodeId, toNode: NodeId, oldOffset: int) returns (res: Outcome)
      modifies this
      ensures old(extendsRoot) != null ==>
                res == if old(extendsRoot.extendsRoot) != null || toNode != old(rootId) then Inconsistent else Ok
      ensures old(extendsRoot) == null ==>
                res == if fromNode != old(rootId) || oldOffset != old(depthOffset) then Inconsistent else Ok
      ensures res == Ok && old(extendsRoot) != null ==>
                extendsRoot == null && rootId == old(rootId) && depthOffset == oldOffset - 1 + depthExtension
      ensures res == Ok && old(extendsRoot) == null ==>
                extendsRoot == null && rootId == toNode && depthOffset == old(depthOffset) - 1
      ensures depthExtension == old(depthExtension)
      ensures res != Ok ==> unchanged(this)
    {
      if extendsRoot != null {
        if extendsRoot.extendsRoot != null || toNode != rootId {
          return Inconsistent;
        }
        extendsRoot := null;
        depthOffset := oldOffset - 1 + depthExtension;
      } else {
        if fromNode != rootId || oldOffset != depthOffset {
          return Inconsistent;
        }
        depthOffset := depthOffset - 1;
        rootId := toNode;
      }
      return Ok;
    }

    /** `chain` lists the roots from this one to the true root, link by link. */
    ghost predicate LeadsTo(chain: seq<TreeRoot>)
      reads chain
    {
      && chain != [] && chain[0] == this
      && (forall i :: 0 <= i < |chain| - 1 ==> chain[i].extendsRoot == chain[i + 1])
      && chain[|chain| - 1].extendsRoot == null
    }

    /** The walk to the true root; it returns the last link and the summed extensions. */
    method GetTrueRoot(ghost chain: seq<TreeRoot>) returns (root: TreeRoot, extended: int)
      requires LeadsTo(chain)
      ensures root == chain[|chain| - 1] && extended == Extensions(chain)
    {
      root, extended := this, 0;
      ghost var i := 0;
      while root.extendsRoot != null
        invariant 0 <= i < |chain| && root == chain[i]
        invariant extended + Extensions(chain[i..]) == Extensions(chain)
        decreases |chain| - i
      {
        extended := extended + root.depthExtension;
        assert chain[i..][1..] == chain[i + 1..];
        root := root.extendsRoot;
        i := i + 1;
      }
      assert i == |chain| - 1;
    }
  }

  /** The depth added by all links of a chain but its last element, which extends nothing. */
  ghost function Extensions(chain: seq<TreeRoot>): int
    reads chain
  {
    if |chain| <= 1 then 0 else chain[0].depthExtension + Extensions(chain[1..])
  }

  lemma PrependLink(r: TreeRoot, next: TreeRoot, chain: seq<TreeRoot>) returns (longer: seq<TreeRoot>)
    requires next.LeadsTo(chain) && r.extendsRoot == next
    ensures longer == [r] + chain && r.LeadsTo(longer)
    ensures longer[|longer| - 1] == chain[|chain| - 1]
    ensures Extensions(longer) == r.depthExtension + Extensions(chain)
  {
    longer := [r] + chain;
    assert longer[1..] == chain;
  }

  // -------------------------------------------------------------------------------------------
  // The forest the TreeRoot objects describe
  // -------------------------------------------------------------------------------------------

  /** What the tracker knows about one node: its original depth and the fields of its TreeRoot. */
  datatype Link = Link(obj: TreeRoot, head: NodeId, offset: int, target: TreeRoot?, extension: int, depth: int)

  type Links = map<NodeId, Link>

  ghost function Snapshot(roots: map<NodeId, TreeRoot>, depths: map<NodeId, int>, objects: set<TreeRoot>): Links
    requires roots.Keys <= depths.Keys
    requires forall n :: n in roots ==> roots[n] in objects
    reads objects
  {
    map n | n in roots :: LinkOf(roots[n], depths[n])
  }

  ghost function LinkOf(r: TreeRoot, depth: int): Link
    reads r
  {
    Link(r, r.rootId, r.depthOffset, r.extendsRoot, r.depthExtension, depth)
  }

  /** All nodes using object `x` see its new fields; nobody else notices. */
  ghost function Rewire(v: Links, x: TreeRoot, head: NodeId, offset: int, target: TreeRoot?, extension: int): Links
  {
    map n | n in v :: if v[n].obj == x then Link(x, head, offset, target, extension, v[n].depth) else v[n]
  }

  /** Changing one TreeRoot object rewires exactly the nodes that use it. */
  lemma OneObjectChanged(v: Links, roots: map<NodeId, TreeRoot>, depths: map<NodeId, int>, objects: set<TreeRoot>,
                         x: TreeRoot)
    requires roots.Keys <= depths.Keys && v.Keys == roots.Keys
    requires forall n :: n in roots ==> roots[n] in objects
    requires forall n :: n in roots ==> v[n].obj == roots[n] && v[n].depth == depths[n]
    requires forall n :: n in roots && roots[n] != x ==> v[n] == LinkOf(roots[n], depths[n])
    ensures Snapshot(roots, depths, objects)
         == Rewire(v, x, x.rootId, x.depthOffset, x.extendsRoot, x.depthExtension)
  {
    var v' := Snapshot(roots, depths, objects);
    var w := Rewire(v, x, x.rootId, x.depthOffset, x.extendsRoot, x.depthExtension);
    assert forall n :: n in roots ==> v'[n] == w[n];
  }

  /** A node that shares its parent's TreeRoot object. */
  ghost predicate Heir(v: Links, n: NodeId)
    requires n in v
  {
    v[n].head != n
  }

  /** A node whose TreeRoot says it has no present parent. */
  ghost predicate Orphan(v: Links, n: NodeId)
    requires n in v
  {
    v[n].head == n && v[n].target == null && v[n].depth + v[n].offset == 0
  }

  /** What the TreeRoot of a node must say when the node is the child of `p`, whose link is `up`. */
  ghost predicate ChildOf(v: Links, n: NodeId, up: Link)
    requires n in v
  {
    if Heir(v, n) then v[n].obj == up.obj && v[n].depth == up.depth + 1
    else v[n].target == up.obj && v[n].depth + v[n].extension == up.depth + 1
  }

  ghost predicate Linked(edges: Edges, v: Links, n: NodeId)
    requires n in v && v.Keys == edges.Keys
  {
    if edges[n] in v then ChildOf(v, n, v[edges[n]]) else Orphan(v, n)
  }

  ghost predicate WellShared(v: Links)
  {
    forall n, m | n in v && m in v && v[n].obj == v[m].obj ::
      && v[n].head == v[m].head && v[n].offset == v[m].offset
      && v[n].target == v[m].target && v[n].extension == v[m].extension
  }

  ghost predicate OneHeirEach(edges: Edges, v: Links)
    requires v.Keys == edges.Keys
  {
    forall n, m | n in v && m in v && Heir(v, n) && Heir(v, m) && edges[n] == edges[m] :: n == m
  }

  /**
   The links describe the forest, except that the nodes in `orphans` have a present parent their
   TreeRoots do not know about yet.
   */
  ghost predicate Forest(edges: Edges, v: Links, orphans: set<NodeId>)
  {
    && v.Keys == edges.Keys
    && WellShared(v) && OneHeirEach(edges, v)
    && (forall n :: n in v && n !in orphans ==> Linked(edges, v, n))
    && (forall n :: n in orphans ==> n in v && edges[n] in v && Orphan(v, n))
  }

  lemma OrphanFacts(edges: Edges, v: Links, orphans: set<NodeId>, c: NodeId)
    requires Forest(edges, v, orphans) && c in orphans
    ensures c in v && c in edges && edges[c] in v && Orphan(v, c)
  {
  }

  /** The head of a TreeRoot object is present, at or above every node that uses the object. */
  lemma {:induction false} HeadAbove(edges: Edges, v: Links, rank: NodeId -> nat, n: NodeId)
    requires Acyclic(edges, rank) && Forest(edges, v, {}) && n in v
    ensures v[n].head in v
    decreases rank(n)
  {
    if Heir(v, n) {
      assert Linked(edges, v, n);
      HeadAbove(edges, v, rank, edges[n]);
    }
  }

  /** Adding a node that heads its own object. */
  lemma AddHead(edges: Edges, v: Links, n: NodeId, p: NodeId, link: Link)
    requires Forest(edges, v, {}) && n !in edges && n != p
    requires forall m :: m in v ==> v[m].obj != link.obj
    requires link.head == n
    requires p in v ==> link.target == v[p].obj && link.depth + link.extension == v[p].depth + 1
    requires p !in v ==> link.target == null && link.depth + link.offset == 0
    ensures Forest(edges[n := p], v[n := link], ChildrenIn(edges, n))
  {
  }

  lemma SharesMore(v: Links, n: NodeId, p: NodeId, depth: int)
    requires WellShared(v) && n !in v && p in v
    ensures WellShared(v[n := v[p].(depth := depth)])
  {
  }

  lemma OneHeirMore(edges: Edges, v: Links, n: NodeId, p: NodeId, link: Link)
    requires v.Keys == edges.Keys && OneHeirEach(edges, v) && n !in edges
    requires forall m :: m in edges ==> edges[m] != p
    ensures OneHeirEach(edges[n := p], v[n := link])
  {
  }

  /** Adding a node that shares the object of its childless parent. */
  lemma AddHeir(edges: Edges, v: Links, rank: NodeId -> nat, n: NodeId, p: NodeId)
    requires Acyclic(edges, rank) && Forest(edges, v, {}) && n !in edges && p in edges
    requires forall m :: m in edges ==> edges[m] != p
    ensures Forest(edges[n := p], v[n := v[p].(depth := v[p].depth + 1)], ChildrenIn(edges, n))
  {
    hide WellShared, OneHeirEach, Linked, Orphan, Acyclic, Heir;
    var link := v[p].(depth := v[p].depth + 1);
    HeadAbove(edges, v, rank, p);
    SharesMore(v, n, p, link.depth);
    OneHeirMore(edges, v, n, p, link);
    HeirLinked(edges, v, n, p, link);
    forall m | m in v
      ensures edges[m] != n ==> Linked(edges[n := p], v[n := link], m)
      ensures edges[m] == n ==> Orphan(v[n := link], m)
    {
      LinkedMore(edges, v, n, p, link, m);
    }
  }

  lemma HeirLinked(edges: Edges, v: Links, n: NodeId, p: NodeId, link: Link)
    requires v.Keys == edges.Keys && n !in edges && p in edges && v[p].head in v
    requires link == v[p].(depth := v[p].depth + 1)
    ensures Linked(edges[n := p], v[n := link], n)
  {
  }

  /** A new node leaves the links of the others alone; its own children are still orphans. */
  lemma LinkedMore(edges: Edges, v: Links, n: NodeId, p: NodeId, link: Link, m: NodeId)
    requires v.Keys == edges.Keys && n !in edges && m in v && Linked(edges, v, m)
    ensures edges[m] != n ==> Linked(edges[n := p], v[n := link], m)
    ensures edges[m] == n ==> Orphan(v[n := link], m)
  {
  }

  /** Extending an orphan by the TreeRoot of its parent links it and all nodes sharing its object. */
  lemma LinkOrphan(edges: Edges, v: Links, orphans: set<NodeId>, c: NodeId)
    requires Forest(edges, v, orphans) && c in orphans && edges[c] !in orphans
    ensures var up := v[edges[c]];
            Forest(edges, Rewire(v, v[c].obj, c, v[c].offset, up.obj, up.depth + 1 - v[c].depth), orphans - {c})
  {
  }

  /**
   The forest while its root `n`, whose link was `up`, is being pruned: `n` is gone already and the
   children in `todo` still refer to it.
   */
  ghost predicate Pruning(edges: Edges, v: Links, n: NodeId, up: Link, todo: set<NodeId>)
  {
    && v.Keys == edges.Keys && n !in v
    && up.head == n && up.target == null && up.depth + up.offset == 0
    && WellShared(v) && OneHeirEach(edges, v)
    && (forall m :: m in v && m !in todo ==> Linked(edges, v, m))
    && (forall m :: m in todo ==> m in v && edges[m] == n && ChildOf(v, m, up))
    && (forall m :: m in todo && Heir(v, m) ==> v[m] == up.(depth := v[m].depth))
  }

  lemma BeginPrune(edges: Edges, v: Links, n: NodeId)
    requires Forest(edges, v, {}) && n in edges && edges[n] !in edges
    ensures Pruning(edges - {n}, v - {n}, n, v[n], ChildrenIn(edges, n))
  {
  }

  /** The heir takes over the pruned node's object; every node sharing it moves along. */
  lemma PruneToHeir(edges: Edges, v: Links, n: NodeId, up: Link, todo: set<NodeId>, c: NodeId)
    requires Pruning(edges, v, n, up, todo) && c in todo && Heir(v, c)
    ensures Pruning(edges, Rewire(v, up.obj, c, up.offset - 1, null, v[c].extension), n, up, todo - {c})
  {
  }

  /** A child that heads its own object stops extending the pruned node's. */
  lemma PruneToHead(edges: Edges, v: Links, n: NodeId, up: Link, todo: set<NodeId>, c: NodeId)
    requires Pruning(edges, v, n, up, todo) && c in todo && !Heir(v, c)
    ensures Pruning(edges, Rewire(v, v[c].obj, c, up.offset - 1 + v[c].extension, null, v[c].extension), n, up,
                    todo - {c})
  {
  }

  lemma PruningFacts(edges: Edges, v: Links, n: NodeId, up: Link, todo: set<NodeId>, c: NodeId)
    requires Pruning(edges, v, n, up, todo) && c in todo
    ensures c in v && ChildOf(v, c, up)
    ensures Heir(v, c) ==> v[c].head == n && v[c].target == null && v[c].offset == up.offset
  {
  }

  lemma EndPrune(edges: Edges, v: Links, n: NodeId, up: Link)
    requires Pruning(edges, v, n, up, {})
    ensures Forest(edges, v, {})
  {
  }

  lemma SharedAgree(v: Links, a: NodeId, b: NodeId)
    requires WellShared(v) && a in v && b in v && v[a].obj == v[b].obj
    ensures v[a] == v[b].(depth := v[a].depth)
  {
  }

  lemma RootLink(edges: Edges, v: Links, n: NodeId)
    requires Forest(edges, v, {}) && n in v
    ensures n in edges && v.Keys == edges.Keys && Linked(edges, v, n)
    ensures edges[n] in v && Heir(v, n) ==> v[n] == v[edges[n]].(depth := v[n].depth)
  {
    if edges[n] in v && Heir(v, n) {
      SharedAgree(v, n, edges[n]);
    }
  }

  /** Reading the chain of TreeRoots above a node gives the plain walk. */
  lemma {:induction false} ChainOf(edges: Edges, roots: map<NodeId, TreeRoot>, depths: map<NodeId, int>,
                                   objects: set<TreeRoot>, rank: NodeId -> nat, n: NodeId)
    returns (chain: seq<TreeRoot>)
    requires roots.Keys == depths.Keys && Acyclic(edges, rank)
    requires forall n :: n in roots ==> roots[n] in objects
    requires Forest(edges, Snapshot(roots, depths, objects), {}) && n in roots
    ensures roots[n].LeadsTo(chain)
    ensures var last := chain[|chain| - 1];
            IsRoot(edges, n, last.rootId, depths[n] + last.depthOffset + Extensions(chain))
    decreases rank(n)
  {
    var v := Snapshot(roots, depths, objects);
    assert Linked(edges, v, n);
    var p := edges[n];
    if p !in v {
      chain := [roots[n]];
    } else {
      chain := ChainOf(edges, roots, depths, objects, rank, p);
      var last := chain[|chain| - 1];
      RootStep(edges, n, last.rootId, depths[p] + last.depthOffset + Extensions(chain));
      if !Heir(v, n) {
        chain := PrependLink(roots[n], roots[p], chain);
      }
    }
  }

  // -------------------------------------------------------------------------------------------
  // RootTracker
  // -------------------------------------------------------------------------------------------

  class RootTracker {
    const tree: Tree
    var roots: map<NodeId, TreeRoot>
    var originalDepth: map<NodeId, int>
    var cache: map<NodeId, (NodeId, int)>
    ghost const rank: NodeId -> nat
    /** The TreeRoot objects the tracker may change. */
    ghost var objects: set<TreeRoot>

    ghost predicate Valid()
      reads this, tree, objects
    {
      && tree.Valid() && Acyclic(tree.parents, rank)
      && (forall n :: n in roots ==> roots[n] in objects)
      && roots.Keys == originalDepth.Keys == tree.parents.Keys
      && Forest(tree.parents, Snapshot(roots, originalDepth, objects), {})
      && (forall n :: n in cache ==> IsRoot(tree.parents, n, cache[n].0, cache[n].1))
    }

    constructor (ghost rank: NodeId -> nat)
      ensures Valid() && tree.parents == map[] && this.rank == rank
      ensures fresh(tree) && objects == {}
    {
      tree := new Tree();
      roots, originalDepth, cache := map[], map[], map[];
      this.rank, objects := rank, {};
    }

    /** The topmost present ancestor and the distance to it, from the cache when it has an entry. */
    method GetRoot(n: NodeId) returns (res: Outcome, root: NodeId, depth: int)
      requires Valid()
      modifies this`cache
      ensures Valid()
      ensures res == if n in tree.parents then Ok else MissingNode
      ensures res == Ok ==> IsRoot(tree.parents, n, root, depth)
    {
      hide Forest, Tree.Valid, Snapshot, Acyclic;
      root, depth := n, 0;
      if n !in roots {
        return MissingNode, root, depth;
      } else if n in cache {
        root, depth := cache[n].0, cache[n].1;
        if tree.HasParent(root) {
          return Inconsistent, root, depth;
        }
        return Ok, root, depth;
      } else {
        ghost var chain := ChainOf(tree.parents, roots, originalDepth, objects, rank, n);
        var trueRoot, extension := roots[n].GetTrueRoot(chain);
        root, depth := trueRoot.rootId, originalDepth[n] + trueRoot.depthOffset + extension;
        if tree.HasParent(root) {
          return Inconsistent, root, depth;
        }
        cache := cache[n := (root, depth)];
        return Ok, root, depth;
      }
    }

    /** Adds a node and the edge to its parent, whether or not the parent is present. */
    method Add(n: NodeId, parent: NodeId) returns (res: Outcome)
      requires Valid()
      requires rank(parent) < rank(n)
      modifies this, tree, objects
      ensures Valid() && fresh(objects - old(objects))
      ensures res == if n in old(tree.parents) then DuplicateNode else Ok
      ensures res == Ok ==> tree.parents == old(tree.parents)[n := parent]
      ensures res == Ok ==> tree.ChildrenOf(parent) == old(tree.ChildrenOf(parent)) + [n]
      ensures res == Ok ==> forall p :: p != parent ==> tree.ChildrenOf(p) == old(tree.ChildrenOf(p))
      ensures res != Ok ==> tree.parents == old(tree.parents) && tree.children == old(tree.children)
    {
      hide Forest, Indexes, Snapshot, Listed;
      cache := map[];
      res := tree.Add(n, parent);
      if res == Ok {
        assert tree.parents - {n} == old(tree.parents);
        res := Place(n, parent);
      }
    }

    /** Gives a new node its TreeRoot and links the children that came before it. */
    method Place(n: NodeId, parent: NodeId) returns (res: Outcome)
      requires tree.Valid() && Acyclic(tree.parents, rank)
      requires forall m :: m in roots ==> roots[m] in objects
      requires n in tree.parents && tree.parents[n] == parent
      requires roots.Keys == originalDepth.Keys == tree.parents.Keys - {n}
      requires Forest(tree.parents - {n}, Snapshot(roots, originalDepth, objects), {})
      modifies this`roots, this`originalDepth, this`objects, objects
      ensures res == Ok && fresh(objects - old(objects))
      ensures forall m :: m in roots ==> roots[m] in objects
      ensures roots.Keys == originalDepth.Keys == tree.parents.Keys
      ensures Forest(tree.parents, Snapshot(roots, originalDepth, objects), {})
    {
      hide Forest, Indexes, Snapshot;
      var nodeRoot, depth := NewRoot(n, parent);
      Install(n, nodeRoot, depth);
      res := LinkChildren(n);
    }

    /** The TreeRoot of a new node: the parent's, an extension of the parent's, or a fresh one. */
    method NewRoot(n: NodeId, parent: NodeId) returns (nodeRoot: TreeRoot, depth: int)
      requires tree.Valid() && Acyclic(tree.parents, rank)
      requires forall m :: m in roots ==> roots[m] in objects
      requires n in tree.parents && tree.parents[n] == parent
      requires roots.Keys == originalDepth.Keys == tree.parents.Keys - {n}
      requires Forest(tree.parents - {n}, Snapshot(roots, originalDepth, objects), {})
      ensures nodeRoot in objects || fresh(nodeRoot)
      ensures Forest(tree.parents, Snapshot(roots, originalDepth, objects)[n := LinkOf(nodeRoot, depth)],
                     ChildrenIn(tree.parents, n))
    {
      hide Forest, Tree.Valid;
      ghost var edges, v := tree.parents - {n}, Snapshot(roots, originalDepth, objects);
      assert edges[n := parent] == tree.parents;
      assert ChildrenIn(edges, n) == ChildrenIn(tree.parents, n);
      tree.ChildrenAre(parent);
      if parent in roots {
        depth := originalDepth[parent] + 1;
        if |tree.ChildrenOf(parent)| > 1 {
          nodeRoot := new TreeRoot(n);
          var _ := nodeRoot.Extend(roots[parent], 0);
          AddHead(edges, v, n, parent, LinkOf(nodeRoot, depth));
        } else {
          nodeRoot := roots[parent];
          assert n in tree.ChildrenOf(parent);
          assert ChildrenIn(tree.parents, parent) == {n};
          AddHeir(edges, v, rank, n, parent);
        }
      } else {
        depth := 0;
        nodeRoot := new TreeRoot(n);
        AddHead(edges, v, n, parent, LinkOf(nodeRoot, depth));
      }
      assert Snapshot(roots, originalDepth, objects) == v;
    }

    method Install(n: NodeId, nodeRoot: TreeRoot, depth: int)
      requires forall m :: m in roots ==> roots[m] in objects
      requires roots.Keys == originalDepth.Keys && n !in roots
      modifies this`roots, this`originalDepth, this`objects
      ensures roots.Keys == originalDepth.Keys == old(roots.Keys) + {n}
      ensures forall m :: m in roots ==> roots[m] in objects
      ensures objects == old(objects) + {nodeRoot}
      ensures Snapshot(roots, originalDepth, objects)
              == old(Snapshot(roots, originalDepth, objects))[n := LinkOf(nodeRoot, depth)]
    {
      roots := roots[n := nodeRoot];
      originalDepth := originalDepth[n := depth];
      objects := objects + {nodeRoot};
    }

    /** Hangs the orphaned children of a new node under its TreeRoot. */
    method LinkChildren(n: NodeId) returns (res: Outcome)
      requires tree.Valid() && Acyclic(tree.parents, rank) && n in tree.parents
      requires forall m :: m in roots ==> roots[m] in objects
      requires roots.Keys == originalDepth.Keys == tree.parents.Keys
      requires Forest(tree.parents, Snapshot(roots, originalDepth, objects), ChildrenIn(tree.parents, n))
      modifies objects
      ensures res == Ok
      ensures Forest(tree.parents, Snapshot(roots, originalDepth, objects), {})
    {
      hide Forest, Tree.Valid;
      var kids := tree.ChildrenOf(n);
      tree.ChildrenAre(n);
      assert kids[0..] == kids;
      for i := 0 to |kids|
        invariant Forest(tree.parents, Snapshot(roots, originalDepth, objects), Elements(kids[i..]))
      {
        DropElement(kids, i);
        res := LinkChild(n, kids[i], Elements(kids[i..]));
        if res != Ok {
          return;
        }
      }
      assert Elements(kids[|kids|..]) == {};
      return Ok;
    }

    method LinkChild(n: NodeId, child: NodeId, ghost orphans: set<NodeId>) returns (res: Outcome)
      requires roots.Keys == originalDepth.Keys == tree.parents.Keys
      requires forall m :: m in roots ==> roots[m] in objects
      requires Forest(tree.parents, Snapshot(roots, originalDepth, objects), orphans)
      requires child in orphans && child in roots && tree.parents[child] == n && n !in orphans
      modifies roots[child]
      ensures res == Ok
      ensures Forest(tree.parents, Snapshot(roots, originalDepth, objects), orphans - {child})
    {
      hide Forest;
      var childRoot := roots[child];
      ghost var v := Snapshot(roots, originalDepth, objects);
      OrphanFacts(tree.parents, v, orphans, child);
      LinkOrphan(tree.parents, v, orphans, child);
      ghost var chain := [childRoot];
      var trueRoot, extension := childRoot.GetTrueRoot(chain);
      if trueRoot.depthOffset + extension + originalDepth[child] != 0 {
        return Inconsistent;
      }
      res := childRoot.Extend(roots[n], originalDepth[n] + 1 - originalDepth[child]);
      OneObjectChanged(v, roots, originalDepth, objects, childRoot);
    }

    /** Removes the root of a tree; each of its children becomes a root of its own. */
    method Prune(n: NodeId) returns (res: Outcome)
      requires Valid()
      modifies this, tree, objects
      ensures Valid() && objects == old(objects)
      ensures res == if n !in old(tree.parents) then MissingNode
                     else if old(tree.HasParent(n)) then NotATreeRoot else Ok
      ensures res == Ok ==> tree.parents == old(tree.parents) - {n}
      ensures res == Ok ==> forall c :: c in old(tree.ChildrenOf(n)) ==> IsRoot(tree.parents, c, c, 0)
      ensures res != Ok ==> tree.parents == old(tree.parents)
    {
      hide Forest, Tree.Valid, Snapshot, Acyclic;
      if n !in originalDepth || n !in roots {
        return MissingNode;
      }
      cache := map[];
      ghost var chain := ChainOf(tree.parents, roots, originalDepth, objects, rank, n);
      var trueRoot, ext := roots[n].GetTrueRoot(chain);
      if trueRoot.rootId != n || tree.HasParent(n) {
        if !tree.HasParent(n) {
          RootUnique(tree.parents, n, trueRoot.rootId, originalDepth[n] + trueRoot.depthOffset + ext, n, 0);
        }
        return NotATreeRoot;
      }
      tree.ChildrenAre(n);
      var kids := tree.ChildrenOf(n);
      res := PruneTo(n, kids);
      if res != Ok {
        return;
      }
      res := CheckSelfRooted(kids);
      if res != Ok {
        return;
      }
      RemoveRoot(n);
    }

    /** The check that every child of a pruned node now points to itself. */
    method CheckSelfRooted(kids: seq<NodeId>) returns (res: Outcome)
      requires forall c :: c in kids ==> c in roots && roots[c].extendsRoot == null
      ensures res == if forall c :: c in kids ==> roots[c].rootId == c then Ok else Inconsistent
    {
      for i := 0 to |kids|
        invariant forall c :: c in kids[..i] ==> c in kids && roots[c].rootId == c
      {
        var c := kids[i];
        assert c in kids;
        assert kids[..i + 1] == kids[..i] + [c];
        ghost var chain := [roots[c]];
        var trueRoot, _ := roots[c].GetTrueRoot(chain);
        if trueRoot.rootId != c {
          return Inconsistent;
        }
      }
      assert kids[..|kids|] == kids;
      return Ok;
    }

    method RemoveRoot(n: NodeId)
      requires forall m :: m in roots ==> roots[m] in objects
      requires tree.Valid() && Acyclic(tree.parents, rank) && cache == map[]
      requires roots.Keys == originalDepth.Keys == tree.parents.Keys
      requires n in tree.parents && !tree.HasParent(n)
      requires Forest(tree.parents - {n}, Snapshot(roots - {n}, originalDepth - {n}, objects), {})
      modifies tree, this`roots, this`originalDepth
      ensures Valid() && tree.parents == old(tree.parents) - {n}
    {
      hide Forest, Tree.Valid;
      var _ := tree.Prune(n);
      roots := roots - {n};
      originalDepth := originalDepth - {n};
    }

    /** Moves the TreeRoots of all children of the root `n` away from it. */
    method PruneTo(n: NodeId, kids: seq<NodeId>) returns (res: Outcome)
      requires forall m :: m in roots ==> roots[m] in objects
      requires tree.Valid() && roots.Keys == originalDepth.Keys == tree.parents.Keys
      requires Forest(tree.parents, Snapshot(roots, originalDepth, objects), {})
      requires n in tree.parents && tree.parents[n] !in tree.parents
      requires kids == tree.ChildrenOf(n) && forall c :: c in kids ==> c in roots
      modifies objects
      ensures res == Ok
      ensures Forest(tree.parents - {n}, Snapshot(roots - {n}, originalDepth - {n}, objects), {})
      ensures forall c :: c in kids ==> roots[c].rootId == c && roots[c].extendsRoot == null
    {
      hide Forest, Tree.Valid, Pruning;
      var root := roots[n];
      ghost var edges, up := tree.parents - {n}, LinkOf(root, originalDepth[n]);
      ghost var v := Snapshot(roots, originalDepth, objects);
      BeginPrune(tree.parents, v, n);
      assert Snapshot(roots - {n}, originalDepth, objects) == v - {n};
      tree.ChildrenAre(n);
      RootLink(tree.parents, v, n);
      if root.extendsRoot != null {
        return Inconsistent;
      }
      res := CheckChildRoots(n, kids, root);
      if res != Ok {
        return;
      }
      var oldOffset := root.depthOffset;
      assert kids[0..] == kids;
      for i := 0 to |kids|
        invariant Pruning(edges, Snapshot(roots - {n}, originalDepth, objects), n, up, Elements(kids[i..]))
        invariant root.extendsRoot == null
      {
        DropElement(kids, i);
        res := PruneChild(n, kids[i], root, oldOffset, edges, up, Elements(kids[i..]));
        if res != Ok {
          return;
        }
      }
      assert Elements(kids[|kids|..]) == {};
      EndPrune(edges, Snapshot(roots - {n}, originalDepth, objects), n, up);
      v := Snapshot(roots - {n}, originalDepth - {n}, objects);
      assert Snapshot(roots - {n}, originalDepth, objects) == v;
      forall c | c in kids
        ensures roots[c].rootId == c && roots[c].extendsRoot == null
      {
        RootLink(edges, v, c);
      }
      return Ok;
    }

    /** Every child of a root shares its TreeRoot or heads one that extends it. */
    method CheckChildRoots(n: NodeId, kids: seq<NodeId>, root: TreeRoot) returns (res: Outcome)
      requires forall m :: m in roots ==> roots[m] in objects
      requires roots.Keys == originalDepth.Keys == tree.parents.Keys
      requires Forest(tree.parents, Snapshot(roots, originalDepth, objects), {})
      requires n in roots && root == roots[n] && root.extendsRoot == null
      requires forall c :: c in kids ==> c in tree.parents && tree.parents[c] == n
      ensures res == Ok
    {
      hide Forest;
      ghost var v := Snapshot(roots, originalDepth, objects);
      for i := 0 to |kids|
      {
        var child := kids[i];
        assert child in kids;
        var childRoot := roots[child];
        RootLink(tree.parents, v, child);
        if childRoot.extendsRoot != null {
          if child != childRoot.rootId || childRoot.extendsRoot != root {
            return Inconsistent;
          }
        } else if childRoot != root {
          return Inconsistent;
        }
      }
      return Ok;
    }

    /** Moves one child off the root being pruned. */
    method PruneChild(n: NodeId, child: NodeId, root: TreeRoot, oldOffset: int,
                      ghost edges: Edges, ghost up: Link, ghost todo: set<NodeId>) returns (res: Outcome)
      requires forall m :: m in roots ==> roots[m] in objects
      requires roots.Keys == originalDepth.Keys && child in roots && child != n
      requires Pruning(edges, Snapshot(roots - {n}, originalDepth, objects), n, up, todo) && child in todo
      requires up.obj == root && up.offset == oldOffset && root.extendsRoot == null
      modifies roots[child]
      ensures res == Ok
      ensures Pruning(edges, Snapshot(roots - {n}, originalDepth, objects), n, up, todo - {child})
      ensures root.extendsRoot == null
    {
      hide Pruning;
      var childRoot := roots[child];
      ghost var v := Snapshot(roots - {n}, originalDepth, objects);
      PruningFacts(edges, v, n, up, todo, child);
      if Heir(v, child) {
        PruneToHeir(edges, v, n, up, todo, child);
      } else {
        PruneToHead(edges, v, n, up, todo, child);
      }
      res := childRoot.PruneOne(n, child, oldOffset);
      OneObjectChanged(v, roots - {n}, originalDepth, objects, childRoot);
    }

    /** Runs any script of calls, refused ones included; only the present edges matter in the end. */
    method Replay(script: seq<Op>)
      requires Valid()
      requires forall i :: 0 <= i < |script| && script[i].AddNode? ==> rank(script[i].parent) < rank(script[i].n)
      modifies this, tree, objects
      ensures Valid() && fresh(objects - old(objects))
      ensures tree.parents == EdgesAfter(old(tree.parents), script)
    {
      hide Forest, Tree.Valid, Snapshot, Acyclic;
      assert script[..0] == [];
      for i := 0 to |script|
        invariant Valid() && fresh(objects - old(objects))
        invariant tree.parents == EdgesAfter(old(tree.parents), script[..i])
      {
        EdgesAfterAppend(old(tree.parents), script[..i], script[i]);
        assert script[..i] + [script[i]] == script[..i + 1];
        match script[i]
        case AddNode(n, parent) => var _ := Add(n, parent);
        case PruneNode(n) => var _ := Prune(n);
        case AskRoot(n) => var _, _, _ := GetRoot(n);
      }
      assert script[..|script|] == script;
    }
  }

  /** One call on a tracker. */
  datatype Op = AddNode(n: NodeId, parent: NodeId) | PruneNode(n: NodeId) | AskRoot(n: NodeId)

  function EdgesAfterOne(edges: Edges, op: Op): Edges
  {
    match op
    case AddNode(n, parent) => if n in edges then edges else edges[n := parent]
    case PruneNode(n) => if n in edges && edges[n] !in edges then edges - {n} else edges
    case AskRoot(_) => edges
  }

  function EdgesAfter(edges: Edges, script: seq<Op>): Edges
    decreases |script|
  {
    if script == [] then edges else EdgesAfter(EdgesAfterOne(edges, script[0]), script[1..])
  }

  lemma {:induction false} EdgesAfterAppend(edges: Edges, script: seq<Op>, op: Op)
    ensures EdgesAfter(edges, script + [op]) == EdgesAfterOne(EdgesAfter(edges, script), op)
    decreases |script|
  {
    if script == [] {
      assert script + [op] == [op];
    } else {
      EdgesAfterAppend(EdgesAfterOne(edges, script[0]), script[1..], op);
      assert (script + [op])[1..] == script[1..] + [op];
    }
  }
}
