/** Connected components of a finite undirected graph on file identifiers. */
module Connectivity {

  /** Identifiers stand for the position of the file's string identifier in string order. */
  type FileId = nat

  type Edges = set<(FileId, FileId)>

  predicate Adjacent(edges: Edges, a: FileId, b: FileId) {
    (a, b) in edges || (b, a) in edges
  }

  ghost predicate Chain(edges: Edges, path: seq<FileId>) {
    |path| > 0 && forall i | 0 <= i < |path| - 1 :: Adjacent(edges, path[i], path[i + 1])
  }

  /** A chain of edges leads from `a` to `b`. */
  ghost predicate Connected(edges: Edges, a: FileId, b: FileId) {
    exists path :: Chain(edges, path) && path[0] == a && path[|path| - 1] == b
  }

  lemma ConnectedReflexive(edges: Edges, a: FileId)
    ensures Connected(edges, a, a)
  {
    assert Chain(edges, [a]);
  }

  lemma EdgeConnects(edges: Edges, a: FileId, b: FileId)
    requires Adjacent(edges, a, b)
    ensures Connected(edges, a, b)
  {
    var path := [a, b];
    assert Chain(edges, path) && path[0] == a && path[|path| - 1] == b;
  }

  lemma ConnectedSymmetric(edges: Edges, a: FileId, b: FileId)
    requires Connected(edges, a, b)
    ensures Connected(edges, b, a)
  {
    var path :| Chain(edges, path) && path[0] == a && path[|path| - 1] == b;
    var back := seq(|path|, i requires 0 <= i < |path| => path[|path| - 1 - i]);
    assert Chain(edges, back) by {
      forall i | 0 <= i < |back| - 1 ensures Adjacent(edges, back[i], back[i + 1]) {
        var k := |path| - 2 - i;
        assert Adjacent(edges, path[k], path[k + 1]);
      }
    }
    assert back[0] == b && back[|back| - 1] == a;
  }

  lemma ConnectedTransitive(edges: Edges, a: FileId, b: FileId, c: FileId)
    requires Connected(edges, a, b) && Connected(edges, b, c)
    ensures Connected(edges, a, c)
  {
    var p :| Chain(edges, p) && p[0] == a && p[|p| - 1] == b;
    var q :| Chain(edges, q) && q[0] == b && q[|q| - 1] == c;
    var path := p + q[1..];
    assert forall i | |p| - 1 <= i < |path| :: path[i] == q[i - (|p| - 1)];
    assert Chain(edges, path) by {
      forall i | 0 <= i < |path| - 1 ensures Adjacent(edges, path[i], path[i + 1]) {
        if i < |p| - 1 {
          assert path[i] == p[i] && path[i + 1] == p[i + 1];
        } else {
          var k := i - (|p| - 1);
          assert path[i] == q[k] && path[i + 1] == q[k + 1];
        }
      }
    }
    assert path[0] == a && path[|path| - 1] == c;
  }

  lemma ConnectedMonotone(edges: Edges, more: Edges, a: FileId, b: FileId)
    requires edges <= more && Connected(edges, a, b)
    ensures Connected(more, a, b)
  {
    var path :| Chain(edges, path) && path[0] == a && path[|path| - 1] == b;
    assert Chain(more, path) by {
      forall i | 0 <= i < |path| - 1 ensures Adjacent(more, path[i], path[i + 1]) {
        assert Adjacent(edges, path[i], path[i + 1]);
      }
    }
  }

  /** A labelling that is constant along every edge is constant on components. */
  lemma {:induction false} LabelConstantOnChain(edges: Edges, mark: map<FileId, FileId>, path: seq<FileId>)
    requires forall e <- edges :: e.0 in mark && e.1 in mark && mark[e.0] == mark[e.1]
    requires Chain(edges, path) && path[0] in mark
    ensures path[|path| - 1] in mark && mark[path[|path| - 1]] == mark[path[0]]
    decreases |path|
  {
    if |path| > 1 {
      assert Adjacent(edges, path[0], path[1]);
      var rest := path[1..];
      assert Chain(edges, rest) by {
        forall i | 0 <= i < |rest| - 1 ensures Adjacent(edges, rest[i], rest[i + 1]) {
          assert Adjacent(edges, path[i + 1], path[i + 2]);
        }
      }
      LabelConstantOnChain(edges, mark, rest);
    }
  }
}
