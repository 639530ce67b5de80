/**
 The heads of a migration graph: each revision file names its parents, and a head is a revision no
 file names as a parent.
 */
module Heads {
  import opened Options

  type Id = string

  /** What the patterns find in one file: its revision id, if any, and its down revisions. */
  datatype File = File(revision: Option<Id>, downs: seq<Id>)

  type Graph = map<Id, seq<Id>>

  /** `child` names `parent` among its down revisions. */
  predicate Edge(g: Graph, child: Id, parent: Id) {
    child in g && parent in g[child]
  }

  /** A walk from a revision down to an ancestor. */
  predicate IsPath(g: Graph, path: seq<Id>) {
    path != [] && forall i :: 0 <= i < |path| - 1 ==> Edge(g, path[i], path[i + 1])
  }

  ghost predicate Reaches(g: Graph, lo: Id, hi: Id) {
    exists path :: IsPath(g, path) && path[0] == hi && path[|path| - 1] == lo
  }

  /** No revision is its own proper ancestor. */
  ghost predicate Acyclic(g: Graph) {
    forall path :: IsPath(g, path) && |path| > 1 ==> path[0] != path[|path| - 1]
  }

  predicate IsHead(g: Graph, r: Id) {
    r in g && forall c :: c in g ==> r !in g[c]
  }

  function HeadsOf(g: Graph): (heads: set<Id>)
    ensures forall r :: r in heads <==> IsHead(g, r)
  {
    set r | r in g && IsHead(g, r)
  }

  /** The dictionary after the first n files: a later file with the same id replaces an earlier one. */
  function GraphOf(files: seq<File>): Graph {
    if files == [] then map[]
    else
      var g := GraphOf(files[..|files| - 1]);
      match files[|files| - 1].revision
      case None => g
      case Some(id) => g[id := files[|files| - 1].downs]
  }

  /** The n-th file is the last one with this id. */
  predicate LastFile(files: seq<File>, n: nat, id: Id) {
    && n < |files| && files[n].revision == Some(id)
    && forall m :: n < m < |files| ==> files[m].revision != Some(id)
  }

  /** A revision's parents are those of the last file with its id. */
  lemma {:induction false} GraphOfExactly(files: seq<File>, id: Id, downs: seq<Id>)
    ensures id in GraphOf(files) && GraphOf(files)[id] == downs <==>
            exists n: nat :: LastFile(files, n, id) && files[n].downs == downs
  {
    if files != [] {
      var last := |files| - 1;
      GraphOfExactly(files[..last], id, downs);
      if files[last].revision == Some(id) {
        assert LastFile(files, last, id);
      } else {
        forall n: nat
          ensures LastFile(files, n, id) <==> LastFile(files[..last], n, id)
        {}
      }
    }
  }

  /** The script: fill `revs`, collect `pointed`, subtract. */
  method FindHeads(files: seq<File>) returns (revs: Graph, heads: set<Id>)
    ensures revs == GraphOf(files) && heads == HeadsOf(revs)
  {
    revs := map[];
    for n := 0 to |files|
      invariant revs == GraphOf(files[..n])
    {
      assert files[..n + 1][..n] == files[..n];
      match files[n].revision
      case None =>
      case Some(id) => revs := revs[id := files[n].downs];
    }
    assert files[..|files|] == files;
    var pointed: set<Id> := {};
    var left := revs.Keys;
    while left != {}
      invariant left <= revs.Keys
      invariant forall p :: p in pointed <==> exists c :: c in revs.Keys - left && p in revs[c]
    {
      var c :| c in left;
      pointed := pointed + set p | p in revs[c];
      left := left - {c};
    }
    heads := revs.Keys - pointed;
  }

  // ---------------------------------------------------------------- heads cover an acyclic graph

  lemma Extend(g: Graph, child: Id, path: seq<Id>)
    requires IsPath(g, path) && Edge(g, child, path[0])
    ensures IsPath(g, [child] + path)
  {}

  /** Climbing from hi: `seen` are revisions strictly below it that were passed on the way up. */
  lemma {:induction false} Climb(g: Graph, r: Id, hi: Id, seen: set<Id>) returns (head: Id)
    requires Acyclic(g) && hi in g && Reaches(g, r, hi)
    requires hi !in seen && seen <= g.Keys && forall v :: v in seen ==> Reaches(g, v, hi)
    ensures IsHead(g, head) && Reaches(g, r, head)
    decreases g.Keys - seen
  {
    if IsHead(g, hi) {
      head := hi;
    } else {
      var child :| child in g && hi in g[child];
      assert Edge(g, child, hi);
      Itself(g, hi);
      forall v | v in seen + {hi, r}
        ensures Reaches(g, v, child) && v != child
      {
        assert Reaches(g, v, hi);
        var path :| IsPath(g, path) && path[0] == hi && path[|path| - 1] == v;
        Extend(g, child, path);
        assert ([child] + path)[0] == child;
      }
      head := Climb(g, r, child, seen + {hi});
    }
  }

  lemma Itself(g: Graph, r: Id)
    ensures Reaches(g, r, r)
  {
    assert IsPath(g, [r]);
  }

  ghost predicate Covers(g: Graph, tops: set<Id>) {
    forall r :: r in g ==> exists h :: h in tops && Reaches(g, r, h)
  }

  lemma LastEdge(g: Graph, path: seq<Id>)
    requires IsPath(g, path) && |path| > 1
    ensures Edge(g, path[|path| - 2], path[|path| - 1])
  {
    assert Edge(g, path[|path| - 2], path[|path| - 2 + 1]);
  }

  /** A head is reached from nothing but itself. */
  lemma HeadOnlyFromItself(g: Graph, h: Id, top: Id)
    requires IsHead(g, h) && Reaches(g, h, top)
    ensures top == h
  {
    var path :| IsPath(g, path) && path[0] == top && path[|path| - 1] == h;
    if |path| > 1 {
      LastEdge(g, path);
    }
  }

  lemma HeadsCover(g: Graph)
    requires Acyclic(g)
    ensures Covers(g, HeadsOf(g))
  {
    hide Reaches, Acyclic, IsHead;
    forall r | r in g
      ensures exists h :: h in HeadsOf(g) && Reaches(g, r, h)
    {
      Itself(g, r);
      var h := Climb(g, r, r, {});
      assert h in HeadsOf(g);
    }
  }

  /** In an acyclic graph the heads cover every revision, there are heads as soon as there are
      revisions, and every covering set contains them: no proper subset of the heads covers. */
  lemma HeadsAreTheLeastCover(g: Graph, tops: set<Id>)
    requires Acyclic(g)
    ensures Covers(g, HeadsOf(g))
    ensures Covers(g, tops) ==> HeadsOf(g) <= tops
    ensures g.Keys != {} ==> HeadsOf(g) != {}
  {
    hide Reaches, Acyclic, IsHead, IsPath;
    HeadsCover(g);
    if Covers(g, tops) {
      forall h | h in HeadsOf(g)
        ensures h in tops
      {
        HeadInEveryCover(g, tops, h);
      }
    }
    if g.Keys != {} {
      var r :| r in g.Keys;
      var h :| h in HeadsOf(g) && Reaches(g, r, h);
    }
  }

  lemma HeadInEveryCover(g: Graph, tops: set<Id>, h: Id)
    requires Covers(g, tops) && h in HeadsOf(g)
    ensures h in tops
  {
    hide Reaches, IsHead, IsPath;
    assert IsHead(g, h);
    HeadInGraph(g, h);
    var t :| t in tops && Reaches(g, h, t);
    HeadOnlyFromItself(g, h, t);
  }

  lemma HeadInGraph(g: Graph, h: Id)
    requires IsHead(g, h)
    ensures h in g
  {}
}
