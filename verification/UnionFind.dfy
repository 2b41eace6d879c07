/** The in-place parent map with path halving and smaller-identifier roots. */
module UnionFind {
  import opened Connectivity

  type Parents = map<FileId, FileId>

  /** The parent of an element is known and no larger than the element. */
  predicate StepsDown(parent: Parents, x: FileId) {
    x in parent && parent[x] in parent && parent[x] <= x
  }

  predicate Descending(parent: Parents) {
    forall x {:trigger StepsDown(parent, x)} | x in parent :: StepsDown(parent, x)
  }

  /** The root of an element: follow parents until one is its own parent. */
  ghost function Root(parent: Parents, x: FileId): (r: FileId)
    requires Descending(parent) && x in parent
    ensures r in parent && parent[r] == r && r <= x
    decreases x
  {
    assert StepsDown(parent, x);
    if parent[x] == x then x else Root(parent, parent[x])
  }

  /** Two parent maps that describe the same classes with the same roots. */
  ghost predicate SameRoots(parent: Parents, other: Parents) {
    && parent.Keys == other.Keys && Descending(parent) && Descending(other)
    && forall y | y in parent :: Root(parent, y) == Root(other, y)
  }

  function Halved(parent: Parents, x: FileId): Parents
    requires Descending(parent) && x in parent
  {
    assert StepsDown(parent, x) && StepsDown(parent, parent[x]);
    parent[x := parent[parent[x]]]
  }

  lemma HalvedDescends(parent: Parents, x: FileId)
    requires Descending(parent) && x in parent
    ensures Descending(Halved(parent, x)) && Halved(parent, x).Keys == parent.Keys
  {
    assert StepsDown(parent, x) && StepsDown(parent, parent[x]);
    forall y | y in Halved(parent, x) ensures StepsDown(Halved(parent, x), y) {
      assert StepsDown(parent, y);
    }
  }

  /** Pointing an element at its grandparent moves no root. */
  lemma {:induction false} HalvingKeepsRoot(parent: Parents, x: FileId, y: FileId)
    requires Descending(parent) && x in parent && y in parent
    ensures Descending(Halved(parent, x)) && y in Halved(parent, x)
    ensures Root(Halved(parent, x), y) == Root(parent, y)
    decreases y
  {
    HalvedDescends(parent, x);
    var halved := Halved(parent, x);
    assert StepsDown(halved, y) && StepsDown(parent, y) && StepsDown(parent, parent[y]);
    if halved[y] != y {
      HalvingKeepsRoot(parent, x, halved[y]);
    }
  }

  lemma HalvingKeepsRoots(parent: Parents, x: FileId)
    requires Descending(parent) && x in parent
    ensures SameRoots(parent, Halved(parent, x))
  {
    HalvedDescends(parent, x);
    forall y | y in parent ensures Root(Halved(parent, x), y) == Root(parent, y) {
      HalvingKeepsRoot(parent, x, y);
    }
  }

  /** Hangs one root below another. */
  function Linked(parent: Parents, low: FileId, high: FileId): Parents {
    parent[high := low]
  }

  /** Hanging a root below a smaller one redirects exactly the elements of that root. */
  lemma {:induction false} LinkMovesOneClass(parent: Parents, low: FileId, high: FileId, y: FileId)
    requires Descending(parent) && low in parent && high in parent && y in parent
    requires parent[low] == low && parent[high] == high && low <= high
    ensures Descending(Linked(parent, low, high)) && Linked(parent, low, high).Keys == parent.Keys
    ensures Root(Linked(parent, low, high), y) == if Root(parent, y) == high then low else Root(parent, y)
    decreases y
  {
    var linked := Linked(parent, low, high);
    forall z | z in linked ensures StepsDown(linked, z) {
      assert StepsDown(parent, z);
    }
    assert StepsDown(parent, y) && StepsDown(linked, y);
    if y == high {
      assert Root(linked, low) == low;
    } else if parent[y] != y {
      LinkMovesOneClass(parent, low, high, parent[y]);
    }
  }

  /** The classes of the parent map are the connected components of the edges united so far. */
  ghost predicate Represents(parent: Parents, edges: Edges) {
    && Descending(parent)
    && (forall e | e in edges :: e.0 in parent && e.1 in parent && Root(parent, e.0) == Root(parent, e.1))
    && (forall x | x in parent :: Connected(edges, x, Root(parent, x)))
  }

  lemma SameRootsRepresent(parent: Parents, other: Parents, edges: Edges)
    requires Represents(parent, edges) && SameRoots(parent, other)
    ensures Represents(other, edges)
  {
  }

  lemma SameRootIffConnected(parent: Parents, edges: Edges, x: FileId, y: FileId)
    requires Represents(parent, edges) && x in parent && y in parent
    ensures Root(parent, x) == Root(parent, y) <==> Connected(edges, x, y)
  {
    if Root(parent, x) == Root(parent, y) {
      ConnectedSymmetric(edges, y, Root(parent, y));
      ConnectedTransitive(edges, x, Root(parent, x), y);
    }
    if Connected(edges, x, y) {
      var path :| Chain(edges, path) && path[0] == x && path[|path| - 1] == y;
      LabelConstantOnChain(edges, map z | z in parent :: Root(parent, z), path);
    }
  }

  /** The root of a class is the smallest identifier of the component. */
  lemma RootIsSmallest(parent: Parents, edges: Edges, x: FileId, y: FileId)
    requires Represents(parent, edges) && x in parent && y in parent && Connected(edges, x, y)
    ensures Root(parent, x) <= y && Connected(edges, x, Root(parent, x))
  {
    SameRootIffConnected(parent, edges, x, y);
  }

  /** Through the new edge every element of the redirected class reaches the surviving root. */
  lemma RedirectedStaysConnected(edges: Edges, near: FileId, far: FileId, low: FileId, high: FileId, y: FileId)
    requires Connected(edges, near, high) && Connected(edges, far, low) && Connected(edges, y, high)
    requires Adjacent(edges, near, far)
    ensures Connected(edges, y, low)
  {
    EdgeConnects(edges, near, far);
    ConnectedSymmetric(edges, near, high);
    ConnectedTransitive(edges, y, high, near);
    ConnectedTransitive(edges, y, near, far);
    ConnectedTransitive(edges, y, far, low);
  }

  lemma UniteRepresents(parent: Parents, edges: Edges, a: FileId, b: FileId, edge: (FileId, FileId), low: FileId, high: FileId)
    requires edge == (a, b) || edge == (b, a)
    requires Represents(parent, edges) && a in parent && b in parent && low <= high
    requires (low == Root(parent, a) && high == Root(parent, b)) || (low == Root(parent, b) && high == Root(parent, a))
    ensures Represents(Linked(parent, low, high), edges + {edge})
    ensures low == high ==> Linked(parent, low, high) == parent
  {
    var more := edges + {edge};
    var linked := Linked(parent, low, high);
    forall y | y in parent
      ensures Descending(linked) && Root(linked, y) == if Root(parent, y) == high then low else Root(parent, y)
    {
      LinkMovesOneClass(parent, low, high, y);
    }
    forall x | x in parent ensures Connected(more, x, Root(parent, x)) {
      ConnectedMonotone(edges, more, x, Root(parent, x));
    }
    forall y | y in linked ensures Connected(more, y, Root(linked, y)) {
      if Root(parent, y) == high {
        if high == Root(parent, a) {
          RedirectedStaysConnected(more, a, b, low, high, y);
        } else {
          RedirectedStaysConnected(more, b, a, low, high, y);
        }
      }
    }
  }

  class DisjointSets {
    var parent: Parents

    constructor (ids: set<FileId>)
      ensures parent.Keys == ids && Represents(parent, {})
    {
      parent := map x | x in ids :: x;
      new;
      assert forall x | x in parent :: StepsDown(parent, x);
      forall x | x in parent ensures Connected({}, x, Root(parent, x)) {
        ConnectedReflexive({}, x);
      }
    }

    /** Finds the root and halves the path on the way. */
    method Find(item: FileId) returns (root: FileId)
      requires Descending(parent) && item in parent
      modifies this
      ensures SameRoots(old(parent), parent)
      ensures root == Root(old(parent), item)
    {
      root := item;
      while parent[root] != root
        invariant SameRoots(old(parent), parent) && root in parent
        invariant Root(parent, root) == Root(old(parent), item)
        decreases root
      {
        assert StepsDown(parent, root) && StepsDown(parent, parent[root]);
        HalvingKeepsRoots(parent, root);
        parent := parent[root := parent[parent[root]]];
        root := parent[root];
      }
    }

    /** Merges two classes below the smaller of their roots. */
    method Union(left: FileId, right: FileId, ghost edges: Edges, ghost edge: (FileId, FileId))
      requires edge == (left, right) || edge == (right, left)
      requires Represents(parent, edges) && left in parent && right in parent
      modifies this
      ensures parent.Keys == old(parent).Keys
      ensures Represents(parent, edges + {edge})
    {
      var leftRoot := Find(left);
      SameRootsRepresent(old(parent), parent, edges);
      label found:
      var rightRoot := Find(right);
      SameRootsRepresent(old@found(parent), parent, edges);
      var first, second := leftRoot, rightRoot;
      if rightRoot < leftRoot {
        first, second := rightRoot, leftRoot;
      }
      UniteRepresents(parent, edges, left, right, edge, first, second);
      if leftRoot == rightRoot {
        return;
      }
      parent := parent[second := first];
    }
  }
}
