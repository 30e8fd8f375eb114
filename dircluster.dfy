/**
 * Directory clustering of the package tree: every package is filed under a tree of
 * clusters, one level per `/`-separated component of its import path (after the
 * common base package is stripped), and the children of every cluster end up sorted
 * by name.
 */
module DirTree {
  import opened Strings

  /** A package of the package tree; clustering only looks at its graph node's ID. */
  datatype Package = Package(id: string)

  /** The package tree that clustering walks: repos hold modules and packages of their own. */
  datatype Module = Module(pkgs: seq<Package>)
  datatype Repo = Repo(modules: seq<Module>, pkgs: seq<Package>)
  datatype Tree = Tree(repos: seq<Repo>)

  /** The path `GetOrCreateChild` gives a child called `name`. */
  function ChildPath(parentPath: string, name: string): string
  {
    if parentPath == "" then name else parentPath + "/" + name
  }

  /** The path of the cluster reached from the root through the children named in `route`. */
  function RoutePath(route: seq<string>): string
  {
    if route == [] then "" else ChildPath(RoutePath(route[..|route| - 1]), route[|route| - 1])
  }

  class DirCluster {
    const path: string
    const parent: DirCluster?
    var children: seq<DirCluster>
    var packages: seq<Package>
    const depth: int
    var sortedChildren: seq<string>
    var childrenMap: map<string, DirCluster>
    /**
     * The child names leading from the root to this cluster. Two clusters can share a
     * path (the IDs `x` and `/x` both lead to one), so the route is what identifies one.
     */
    ghost const route: seq<string>

    /** The three views of the children agree: one entry per name, in the same order. */
    ghost predicate Consistent()
      reads this`children, this`sortedChildren, this`childrenMap
    {
      && |children| == |sortedChildren|
      && Distinct(sortedChildren)
      && (forall name :: name in childrenMap <==> name in sortedChildren)
      && (forall i :: 0 <= i < |sortedChildren| ==>
            sortedChildren[i] in childrenMap && children[i] == childrenMap[sortedChildren[i]])
    }

    /** `NewDirCluster`: a cluster with no children and no packages. */
    constructor (path: string, parent: DirCluster?, depth: int, ghost route: seq<string>)
      ensures this.path == path && this.parent == parent && this.depth == depth && this.route == route
      ensures children == [] && packages == [] && sortedChildren == [] && childrenMap == map[]
      ensures Consistent()
    {
      this.path := path;
      this.parent := parent;
      this.depth := depth;
      this.route := route;
      children := [];
      packages := [];
      sortedChildren := [];
      childrenMap := map[];
    }

    method AddPackage(pkg: Package)
      modifies this`packages
      ensures packages == old(packages) + [pkg]
    {
      packages := packages + [pkg];
    }

    /**
     * Returns the child called `name`, creating it (with the given depth) and appending it
     * to all three views of the children when there is none yet.
     */
    method GetOrCreateChild(name: string, depth: int) returns (child: DirCluster)
      requires Consistent()
      modifies this`children, this`sortedChildren, this`childrenMap
      ensures Consistent()
      ensures name in childrenMap && child == childrenMap[name]
      ensures |childrenMap| == |sortedChildren| == |children|
      ensures name in old(childrenMap) ==> child == old(childrenMap[name]) && unchanged(this)
      ensures name !in old(childrenMap) ==>
        && fresh(child)
        && child.path == ChildPath(path, name)
        && child.parent == this
        && child.depth == depth
        && child.route == route + [name]
        && child.children == [] && child.packages == []
        && child.sortedChildren == [] && child.childrenMap == map[]
        && childrenMap == old(childrenMap)[name := child]
        && sortedChildren == old(sortedChildren) + [name]
        && children == old(children) + [child]
    {
      if name in childrenMap {
        child := childrenMap[name];
        MapSize(childrenMap, sortedChildren);
        return;
      }
      var childPath := name;
      if path != "" {
        childPath := path + "/" + name;
      }
      child := new DirCluster(childPath, this, depth, route + [name]);
      childrenMap := childrenMap[name := child];
      sortedChildren := sortedChildren + [name];
      children := children + [child];
      MapSize(childrenMap, sortedChildren);
    }

    /**
     * The first half of `Sort`: sorts the names of the children and rebuilds `children`
     * in that order by looking each name up in `childrenMap`.
     */
    method SortOwnChildren()
      requires Consistent()
      modifies this`children, this`sortedChildren
      ensures Consistent()
      ensures SortedFrom(this, old(sortedChildren), old(children))
    {
      ghost var names0 := sortedChildren;
      ghost var children0 := children;
      sortedChildren := SortStrings(sortedChildren);
      Relookup(childrenMap, names0, sortedChildren);
      var sorted := LookUpSorted();
      children := sorted;
      ChildrenPermuted(childrenMap, names0, children0, sortedChildren, children);
    }

    /** The loop in `Sort` that collects the children in the order of `sortedChildren`. */
    method LookUpSorted() returns (sorted: seq<DirCluster>)
      requires forall k :: 0 <= k < |sortedChildren| ==> sortedChildren[k] in childrenMap
      ensures |sorted| == |sortedChildren|
      ensures forall k :: 0 <= k < |sorted| ==> sorted[k] == childrenMap[sortedChildren[k]]
    {
      sorted := [];
      for i := 0 to |sortedChildren|
        invariant |sorted| == i
        invariant forall k :: 0 <= k < i ==> sorted[k] == childrenMap[sortedChildren[k]]
      {
        sorted := sorted + [childrenMap[sortedChildren[i]]];
      }
    }

    /**
     * `Sort`: orders the children of this cluster by name, then sorts every child's
     * subtree the same way. Clusters outside this subtree are untouched.
     */
    method Sort(ghost nodes: set<DirCluster>)
      requires this in nodes && Shape(nodes) && AllConsistent(nodes)
      modifies nodes`children, nodes`sortedChildren
      ensures Shape(nodes) && AllConsistent(nodes)
      ensures forall n :: n in nodes && route <= n.route ==> SortedFrom(n, old(n.sortedChildren), old(n.children))
      ensures forall n :: n in nodes && !(route <= n.route) ==>
        n.children == old(n.children) && n.sortedChildren == old(n.sortedChildren)
      decreases Subtree(this, nodes), 2
    {
      ghost var names0 := NamesSnapshot(nodes);
      ghost var children0 := ChildrenSnapshot(nodes);
      SortChildren(nodes, names0, children0);
      SortDone(this, nodes, names0, children0);
    }

    /** The body of `Sort`: orders the names of the children, then sorts each child in turn. */
    method SortChildren(ghost nodes: set<DirCluster>,
                        ghost names0: map<DirCluster, seq<string>>, ghost children0: map<DirCluster, seq<DirCluster>>)
      requires this in nodes && Shape(nodes) && AllConsistent(nodes)
      requires forall n :: n in nodes ==>
        n in names0 && n in children0 && n.sortedChildren == names0[n] && n.children == children0[n]
      modifies nodes`children, nodes`sortedChildren
      ensures Shape(nodes) && AllConsistent(nodes)
      ensures SortedFrom(this, names0[this], children0[this])
      ensures Progress(nodes, this, |sortedChildren|, names0, children0)
      decreases Subtree(this, nodes), 1
    {
      SortOwnChildren();
      ProgressStart(nodes, this, names0, children0);
      var kids := children;
      for i := 0 to |kids|
        invariant Shape(nodes) && AllConsistent(nodes)
        invariant children == kids && SortedFrom(this, names0[this], children0[this])
        invariant Progress(nodes, this, i, names0, children0)
      {
        SortChild(nodes, i as nat, names0, children0);
      }
    }

    /** One round of the loop in `Sort`: sorts the subtree of the `i`-th child. */
    method SortChild(ghost nodes: set<DirCluster>, i: nat,
                     ghost names0: map<DirCluster, seq<string>>, ghost children0: map<DirCluster, seq<DirCluster>>)
      requires this in nodes && Shape(nodes) && AllConsistent(nodes) && i < |children|
      requires Progress(nodes, this, i, names0, children0)
      modifies nodes`children, nodes`sortedChildren
      ensures Shape(nodes) && AllConsistent(nodes)
      ensures children == old(children) && sortedChildren == old(sortedChildren)
      ensures Progress(nodes, this, i + 1, names0, children0)
      decreases Subtree(this, nodes), 0
    {
      var kid := children[i];
      ghost var name := sortedChildren[i];
      assert kid in nodes && kid.route == route + [name] by {
        assert LinkedDown(this, nodes);
      }
      TakenStep(sortedChildren, i);
      SubtreeShrinks(this, kid, name, nodes);
      kid.Sort(nodes);
      assert !(kid.route <= route);
      forall n | n in nodes && n in names0 && n in children0
        ensures ProgressAt(n, route, Taken(sortedChildren, i + 1), names0[n], children0[n])
      {
        assert old(ProgressAt(n, route, Taken(sortedChildren, i), names0[n], children0[n]));
        if route < n.route {
          PrefixStep(route, name, n.route);
        }
      }
    }
  }

  /**
   * How far `Sort` has got below `c` once its first `i` children are done: the subtrees of
   * those children are sorted, every other cluster apart from `c` still holds its children
   * as at the start (`names0`, `children0`).
   */
  ghost predicate Progress(nodes: set<DirCluster>, c: DirCluster, i: nat,
                           names0: map<DirCluster, seq<string>>, children0: map<DirCluster, seq<DirCluster>>)
    reads c`sortedChildren, nodes`children, nodes`sortedChildren
  {
    && i <= |c.sortedChildren|
    && forall n :: n in nodes && n in names0 && n in children0 ==>
         ProgressAt(n, c.route, Taken(c.sortedChildren, i), names0[n], children0[n])
  }

  ghost predicate ProgressAt(n: DirCluster, route: seq<string>, done: set<string>,
                             names0: seq<string>, children0: seq<DirCluster>)
    reads n`children, n`sortedChildren
  {
    if route < n.route && n.route[|route|] in done then SortedFrom(n, names0, children0)
    else route != n.route ==> n.sortedChildren == names0 && n.children == children0
  }

  /** Before any child is done, only `c` itself may have changed. */
  lemma ProgressStart(nodes: set<DirCluster>, c: DirCluster,
                      names0: map<DirCluster, seq<string>>, children0: map<DirCluster, seq<DirCluster>>)
    requires c in nodes && Shape(nodes)
    requires forall n :: n in nodes && n != c ==>
      n in names0 && n in children0 && n.sortedChildren == names0[n] && n.children == children0[n]
    ensures Progress(nodes, c, 0, names0, children0)
  {
  }

  /** Once every child of `c` is done, each cluster at or below `c` is sorted, the rest unchanged. */
  lemma SortDone(c: DirCluster, nodes: set<DirCluster>,
                 names0: map<DirCluster, seq<string>>, children0: map<DirCluster, seq<DirCluster>>)
    requires c in nodes && Shape(nodes) && c.Consistent()
    requires forall n :: n in nodes ==> n in names0 && n in children0
    requires SortedFrom(c, names0[c], children0[c])
    requires Progress(nodes, c, |c.sortedChildren|, names0, children0)
    ensures forall n :: n in nodes && c.route <= n.route ==> SortedFrom(n, names0[n], children0[n])
    ensures forall n :: n in nodes && !(c.route <= n.route) ==> n.sortedChildren == names0[n] && n.children == children0[n]
  {
    AllBranchesTaken(c, nodes);
    forall n | n in nodes && c.route <= n.route
      ensures SortedFrom(n, names0[n], children0[n])
    {
      if n.route == c.route {
        assert n == c;
      } else {
        assert ProgressAt(n, c.route, Taken(c.sortedChildren, |c.sortedChildren|), names0[n], children0[n]);
      }
    }
    forall n | n in nodes && !(c.route <= n.route)
      ensures n.sortedChildren == names0[n] && n.children == children0[n]
    {
      assert ProgressAt(n, c.route, Taken(c.sortedChildren, |c.sortedChildren|), names0[n], children0[n]);
    }
  }

  /** The names of children of every cluster in `nodes`, as they are now. */
  ghost function NamesSnapshot(nodes: set<DirCluster>): (m: map<DirCluster, seq<string>>)
    reads nodes`sortedChildren
    ensures forall n :: n in nodes ==> n in m && m[n] == n.sortedChildren
  {
    map n | n in nodes :: n.sortedChildren
  }

  /** The children of every cluster in `nodes`, as they are now. */
  ghost function ChildrenSnapshot(nodes: set<DirCluster>): (m: map<DirCluster, seq<DirCluster>>)
    reads nodes`children
    ensures forall n :: n in nodes ==> n in m && m[n] == n.children
  {
    map n | n in nodes :: n.children
  }

  /** The names among the first `i` of `s`. */
  ghost function Taken(s: seq<string>, i: nat): set<string>
    requires i <= |s|
  {
    set k | 0 <= k < i :: s[k]
  }

  lemma TakenStep(s: seq<string>, i: nat)
    requires i < |s| && Distinct(s)
    ensures s[i] !in Taken(s, i)
    ensures Taken(s, i + 1) == Taken(s, i) + {s[i]}
  {
  }

  /** Every cluster strictly below `c` lies under one of its children. */
  lemma AllBranchesTaken(c: DirCluster, nodes: set<DirCluster>)
    requires c in nodes && Shape(nodes) && c.Consistent()
    ensures forall n :: n in nodes && c.route < n.route ==> n.route[|c.route|] in Taken(c.sortedChildren, |c.sortedChildren|)
  {
    forall n | n in nodes && c.route < n.route
      ensures n.route[|c.route|] in Taken(c.sortedChildren, |c.sortedChildren|)
    {
      ChildOnRoute(c, n, nodes);
      assert c.Consistent();
      var k :| 0 <= k < |c.sortedChildren| && c.sortedChildren[k] == n.route[|c.route|];
    }
  }

  lemma PrefixStep(route: seq<string>, name: string, r: seq<string>)
    requires route < r
    ensures route + [name] <= r <==> r[|route|] == name
  {
    if r[|route|] == name {
      assert r[..|route| + 1] == route + [name];
    }
  }

  /** Children sorted by name, and the same children, under the same names, as before. */
  ghost predicate SortedFrom(n: DirCluster, names0: seq<string>, children0: seq<DirCluster>)
    reads n`sortedChildren, n`children
  {
    Reordered(n.sortedChildren, n.children, names0, children0)
  }

  /** `names` is `names0` in ascending order and `children` a reordering of `children0`. */
  ghost predicate Reordered(names: seq<string>, children: seq<DirCluster>, names0: seq<string>, children0: seq<DirCluster>)
  {
    && Ascending(names)
    && multiset(names) == multiset(names0)
    && multiset(children) == multiset(children0)
  }

  /** The names of a reordering of `names0` are the keys of `m` exactly when those of `names0` are. */
  lemma Relookup(m: map<string, DirCluster>, names0: seq<string>, names: seq<string>)
    requires Distinct(names0) && multiset(names) == multiset(names0)
    requires forall name :: name in m <==> name in names0
    ensures Distinct(names)
    ensures forall name :: name in m <==> name in names
    ensures forall k :: 0 <= k < |names| ==> names[k] in m
  {
    DistinctPermutation(names0, names);
    forall name ensures name in names0 <==> name in names {
      assert name in names <==> name in multiset(names);
      assert name in names0 <==> name in multiset(names0);
    }
  }

  /** Looking up a reordering of the names gives a reordering of the clusters. */
  lemma ChildrenPermuted(m: map<string, DirCluster>, names0: seq<string>, children0: seq<DirCluster>,
                         names: seq<string>, children: seq<DirCluster>)
    requires multiset(names) == multiset(names0)
    requires |children0| == |names0| && forall k :: 0 <= k < |names0| ==> names0[k] in m && children0[k] == m[names0[k]]
    requires |children| == |names| && forall k :: 0 <= k < |names| ==> names[k] in m && children[k] == m[names[k]]
    ensures multiset(children) == multiset(children0)
  {
    assert children0 == Image(m, names0);
    assert children == Image(m, names);
    ImagePermutation(m, names0, names);
  }

  /** The clusters named by `names`, in order. */
  function Image(m: map<string, DirCluster>, names: seq<string>): (r: seq<DirCluster>)
    requires forall k :: 0 <= k < |names| ==> names[k] in m
    ensures |r| == |names| && forall k :: 0 <= k < |names| ==> r[k] == m[names[k]]
  {
    seq(|names|, k requires 0 <= k < |names| => m[names[k]])
  }

  /** Looking up a permutation of the names gives a permutation of the clusters. */
  lemma {:induction false} ImagePermutation(m: map<string, DirCluster>, a: seq<string>, b: seq<string>)
    requires forall k :: 0 <= k < |a| ==> a[k] in m
    requires multiset(a) == multiset(b)
    ensures forall k :: 0 <= k < |b| ==> b[k] in m
    ensures multiset(Image(m, a)) == multiset(Image(m, b))
    decreases |a|
  {
    forall k | 0 <= k < |b| ensures b[k] in m {
      assert b[k] in multiset(a);
    }
    if a != [] {
      var x := a[0];
      assert x in multiset(b);
      var j :| 0 <= j < |b| && b[j] == x;
      var left, right := b[..j], b[j + 1..];
      RemoveOne(a, b, j);
      ImagePermutation(m, a[1..], left + right);
      ImageSplit(m, a, b, j);
    }
  }

  /** The image of `a` and of `b` with `b[j] == a[0]` removed from each. */
  lemma ImageSplit(m: map<string, DirCluster>, a: seq<string>, b: seq<string>, j: nat)
    requires a != [] && j < |b| && b[j] == a[0]
    requires forall k :: 0 <= k < |a| ==> a[k] in m
    requires forall k :: 0 <= k < |b| ==> b[k] in m
    requires multiset(Image(m, a[1..])) == multiset(Image(m, b[..j] + b[j + 1..]))
    ensures multiset(Image(m, a)) == multiset(Image(m, b))
  {
    ImageCons(m, a);
    ImageMid(m, b, j);
    MultisetMid(Image(m, b[..j]), m[a[0]], Image(m, b[j + 1..]));
  }

  lemma ImageCons(m: map<string, DirCluster>, a: seq<string>)
    requires a != [] && forall k :: 0 <= k < |a| ==> a[k] in m
    ensures Image(m, a) == [m[a[0]]] + Image(m, a[1..])
  {
  }

  lemma ImageMid(m: map<string, DirCluster>, b: seq<string>, j: nat)
    requires j < |b| && forall k :: 0 <= k < |b| ==> b[k] in m
    ensures Image(m, b) == Image(m, b[..j]) + [m[b[j]]] + Image(m, b[j + 1..])
    ensures Image(m, b[..j] + b[j + 1..]) == Image(m, b[..j]) + Image(m, b[j + 1..])
  {
    ImageAround(m, b, j);
    ImageWithout(m, b, j);
  }

  lemma ImageAround(m: map<string, DirCluster>, b: seq<string>, j: nat)
    requires j < |b| && forall k :: 0 <= k < |b| ==> b[k] in m
    ensures Image(m, b) == Image(m, b[..j]) + [m[b[j]]] + Image(m, b[j + 1..])
  {
    var l, r := Image(m, b[..j]), Image(m, b[j + 1..]);
    var whole := l + [m[b[j]]] + r;
    assert |whole| == |b|;
    forall k | 0 <= k < |b| ensures whole[k] == m[b[k]] {
      if k < j {
        assert whole[k] == l[k] == m[b[..j][k]];
      } else if k > j {
        assert whole[k] == r[k - j - 1] == m[b[j + 1..][k - j - 1]];
      }
    }
  }

  lemma ImageWithout(m: map<string, DirCluster>, b: seq<string>, j: nat)
    requires j < |b| && forall k :: 0 <= k < |b| ==> b[k] in m
    ensures Image(m, b[..j] + b[j + 1..]) == Image(m, b[..j]) + Image(m, b[j + 1..])
  {
    var c := b[..j] + b[j + 1..];
    forall k | 0 <= k < |c| ensures c[k] in m {
      if k < j {
        assert c[k] == b[k];
      } else {
        assert c[k] == b[k + 1];
      }
    }
    var l, r := Image(m, b[..j]), Image(m, b[j + 1..]);
    var both := l + r;
    assert |both| == |c|;
    forall k | 0 <= k < |c| ensures both[k] == m[c[k]] {
      if k < j {
        assert both[k] == l[k] == m[b[..j][k]];
      } else {
        assert both[k] == r[k - j] == m[b[j + 1..][k - j]];
      }
    }
  }

  lemma MultisetMid<T>(l: seq<T>, y: T, r: seq<T>)
    ensures multiset(l + [y] + r) == multiset{y} + multiset(l + r)
  {
  }

  lemma RemoveOne(a: seq<string>, b: seq<string>, j: nat)
    requires a != [] && j < |b| && b[j] == a[0] && multiset(a) == multiset(b)
    ensures multiset(a[1..]) == multiset(b[..j] + b[j + 1..])
  {
    assert a == [a[0]] + a[1..];
    assert b == b[..j] + [b[j]] + b[j + 1..];
    assert multiset(b) == multiset(b[..j]) + multiset{b[j]} + multiset(b[j + 1..]);
    assert multiset(a[1..]) == multiset(a) - multiset{a[0]};
  }

  /** No element occurs twice in `s` exactly when every element occurs at most once in its multiset. */
  lemma {:induction false} DistinctCounts<T>(s: seq<T>)
    ensures Distinct(s) <==> forall x :: multiset(s)[x] <= 1
  {
    if s != [] {
      DistinctCounts(s[1..]);
      assert s == [s[0]] + s[1..];
      if Distinct(s) {
        forall j | 0 <= j < |s[1..]| ensures s[1..][j] != s[0] {
          assert s[1..][j] == s[j + 1];
        }
        assert s[0] !in s[1..];
        assert Distinct(s[1..]) by {
          forall i, j | 0 <= i < j < |s[1..]| ensures s[1..][i] != s[1..][j] {
            assert s[1..][i] == s[i + 1] && s[1..][j] == s[j + 1];
          }
        }
      }
      if forall x :: multiset(s)[x] <= 1 {
        assert forall x :: multiset(s[1..])[x] <= 1 by {
          forall x ensures multiset(s[1..])[x] <= 1 {
            assert multiset(s)[x] == multiset(s[1..])[x] + (if x == s[0] then 1 else 0);
          }
        }
        assert multiset(s)[s[0]] == multiset(s[1..])[s[0]] + 1;
        forall i, j | 0 <= i < j < |s| ensures s[i] != s[j] {
          if i == 0 {
            assert s[j] == s[1..][j - 1];
            assert s[j] in multiset(s[1..]);
          } else {
            assert s[i] == s[1..][i - 1] && s[j] == s[1..][j - 1];
          }
        }
      }
    }
  }

  lemma DistinctPermutation<T>(a: seq<T>, b: seq<T>)
    requires Distinct(a) && multiset(a) == multiset(b)
    ensures Distinct(b)
  {
    DistinctCounts(a);
    DistinctCounts(b);
  }

  /** A map whose keys are exactly a sequence of distinct names has one entry per name. */
  lemma MapSize(m: map<string, DirCluster>, names: seq<string>)
    requires Distinct(names)
    requires forall name :: name in m <==> name in names
    ensures |m| == |names|
  {
    assert m.Keys == ToSet(names);
    DistinctCard(names);
  }

  ghost function ToSet<T>(s: seq<T>): set<T>
  {
    set x | x in s
  }

  lemma {:induction false} DistinctCard<T>(s: seq<T>)
    requires Distinct(s)
    ensures |ToSet(s)| == |s|
  {
    if s != [] {
      var init, last := s[..|s| - 1], s[|s| - 1];
      assert s == init + [last];
      assert Distinct(init) by {
        forall i, j | 0 <= i < j < |init| ensures init[i] != init[j] {
          assert init[i] == s[i] && init[j] == s[j];
        }
      }
      assert last !in init by {
        forall k | 0 <= k < |init| ensures init[k] != last {
          assert init[k] == s[k];
        }
      }
      assert ToSet(s) == ToSet(init) + {last};
      DistinctCard(init);
    }
  }

  /**
   * The links a cluster keeps itself: its path and depth follow from its route, its
   * parent (except for the root) is one level up, and each child names it as parent
   * and extends its route by the child's name.
   */
  ghost predicate Linked(n: DirCluster, nodes: set<DirCluster>)
    requires n in nodes
    reads n`childrenMap
  {
    Anchored(n, nodes) && LinkedDown(n, nodes)
  }

  /** The part of `Linked` that the fields of `n` never change. */
  ghost predicate Anchored(n: DirCluster, nodes: set<DirCluster>)
  {
    && n.depth == |n.route|
    && n.path == RoutePath(n.route)
    && (n.route == [] ==> n.parent == null)
    && (n.route != [] ==>
          && n.parent != null && n.parent in nodes
          && n.parent.route + [n.route[|n.route| - 1]] == n.route)
  }

  ghost predicate LinkedDown(n: DirCluster, nodes: set<DirCluster>)
    requires n in nodes
    reads n`childrenMap
  {
    forall name :: name in n.childrenMap ==>
      && n.childrenMap[name] in nodes
      && n.childrenMap[name].parent == n
      && n.childrenMap[name].route == n.route + [name]
  }

  /** The parent of `n`, when it is one of `nodes`. */
  ghost function Up(n: DirCluster, nodes: set<DirCluster>): set<DirCluster>
  {
    if n.parent != null && n.parent in nodes then {n.parent} else {}
  }

  /** The parent of a cluster lists it under the last name of its route. */
  ghost predicate Listed(n: DirCluster, nodes: set<DirCluster>)
    reads Up(n, nodes)`childrenMap
  {
    n.route != [] && n.parent != null && n.parent in nodes ==>
      && n.route[|n.route| - 1] in n.parent.childrenMap
      && n.parent.childrenMap[n.route[|n.route| - 1]] == n
  }

  /** The links of all clusters, and no two clusters on the same route. Sorting does not touch it. */
  ghost predicate Shape(nodes: set<DirCluster>)
    reads nodes`childrenMap
  {
    && (forall n :: n in nodes ==> Linked(n, nodes))
    && (forall n :: n in nodes ==> Listed(n, nodes))
    && UniqueRoutes(nodes)
  }

  /** No two clusters on the same route. */
  ghost predicate UniqueRoutes(nodes: set<DirCluster>)
  {
    forall m, n :: m in nodes && n in nodes && m.route == n.route ==> m == n
  }

  /** The invariant of a cluster tree: its shape, and consistent children everywhere. */
  ghost predicate WellFormed(nodes: set<DirCluster>)
    reads nodes`childrenMap, nodes`children, nodes`sortedChildren
  {
    Shape(nodes) && AllConsistent(nodes)
  }

  /** Every cluster's three views of its children agree. */
  ghost predicate AllConsistent(nodes: set<DirCluster>)
    reads nodes`childrenMap, nodes`children, nodes`sortedChildren
  {
    forall n :: n in nodes ==> n.Consistent()
  }

  /** The clusters at or below `c`. */
  ghost function Subtree(c: DirCluster, nodes: set<DirCluster>): set<DirCluster>
  {
    set n | n in nodes && c.route <= n.route
  }

  lemma SubtreeShrinks(c: DirCluster, kid: DirCluster, name: string, nodes: set<DirCluster>)
    requires c in nodes && kid.route == c.route + [name]
    ensures Subtree(kid, nodes) < Subtree(c, nodes)
  {
    assert c !in Subtree(kid, nodes);
    forall n | n in Subtree(kid, nodes) ensures n in Subtree(c, nodes) {
      assert c.route <= kid.route;
    }
  }

  /** The `i`-th child of a cluster of a well-formed tree is a cluster of the tree, one level down. */
  lemma KidAt(c: DirCluster, i: nat, nodes: set<DirCluster>)
    requires c in nodes && WellFormed(nodes) && i < |c.children|
    ensures c.children[i] in nodes
    ensures c.children[i].route == c.route + [c.sortedChildren[i]]
    ensures c.children[i].depth == c.depth + 1
    ensures |Subtree(c.children[i], nodes)| < |Subtree(c, nodes)|
  {
    assert c.Consistent() && Linked(c, nodes);
    var kid := c.children[i];
    assert kid in nodes && Linked(kid, nodes);
    SubtreeShrinks(c, kid, c.sortedChildren[i], nodes);
    StrictSubsetCard(Subtree(kid, nodes), Subtree(c, nodes));
  }

  lemma {:induction false} SubsetCard<T>(a: set<T>, b: set<T>)
    requires a <= b
    ensures |a| <= |b|
    decreases a
  {
    if a != {} {
      var x :| x in a;
      SubsetCard(a - {x}, b - {x});
    }
  }

  lemma StrictSubsetCard<T>(a: set<T>, b: set<T>)
    requires a < b
    ensures |a| < |b|
  {
    var x :| x in b && x !in a;
    SubsetCard(a, b - {x});
  }

  /** A cluster strictly below `c` is reached through the child of `c` named next on its route. */
  lemma {:induction false} ChildOnRoute(c: DirCluster, n: DirCluster, nodes: set<DirCluster>)
    requires Shape(nodes) && c in nodes && n in nodes && c.route < n.route
    ensures n.route[|c.route|] in c.childrenMap
    decreases |n.route|
  {
    ParentOf(n, nodes);
    var p := n.parent;
    if |c.route| == |n.route| - 1 {
      assert p.route == c.route;
      assert p == c;
    } else {
      assert c.route < p.route;
      ChildOnRoute(c, p, nodes);
    }
  }

  /** A cluster below the root hangs under its parent, one name shorter on the route. */
  lemma ParentOf(n: DirCluster, nodes: set<DirCluster>)
    requires Shape(nodes) && n in nodes && n.route != []
    ensures n.parent != null && n.parent in nodes
    ensures n.parent.route == n.route[..|n.route| - 1]
    ensures n.route[|n.route| - 1] in n.parent.childrenMap
  {
    assert Linked(n, nodes) && Listed(n, nodes);
    assert Anchored(n, nodes);
    assert n.parent.route + [n.route[|n.route| - 1]] == n.route;
  }

  // ---------------------------------------------------------------------------
  // Where a package goes: addPackageToCluster's placement rule.

  /** `basePackage != "" && strings.HasPrefix(pkgPath, basePackage+"/")`. */
  predicate UnderBase(id: string, base: string)
  {
    base != "" && base + "/" <= id
  }

  /**
   * The relative path addPackageToCluster splits: the ID with the base and its slash
   * stripped, except that an empty (or unchanged) remainder falls back to the full ID.
   */
  function RelativePath(id: string, base: string): (r: string)
    ensures UnderBase(id, base) && id != base + "/" ==> base + "/" + r == id
    ensures !UnderBase(id, base) || id == base + "/" ==> r == id
  {
    if UnderBase(id, base) then
      if id[|base| + 1..] == "" || id[|base| + 1..] == id then id else id[|base| + 1..]
    else id
  }

  /** The depth limit: at most `maxDepth` parts when `maxDepth` is positive. */
  function Truncate(parts: seq<string>, maxDepth: int): (r: seq<string>)
    ensures r <= parts
    ensures maxDepth > 0 ==> |r| == if |parts| > maxDepth then maxDepth else |parts|
    ensures maxDepth <= 0 ==> r == parts
  {
    if maxDepth > 0 && |parts| > maxDepth then parts[..maxDepth] else parts
  }

  /** The route of the cluster a package with this ID is filed under. */
  function Placement(id: string, base: string, maxDepth: int): seq<string>
  {
    if !UnderBase(id, base) && id == base then []
    else Truncate(Split(RelativePath(id, base), '/'), maxDepth)
  }

  /** Only the base package itself lands in the root cluster. */
  lemma PlacementAtRoot(id: string, base: string, maxDepth: int)
    ensures Placement(id, base, maxDepth) == [] <==> id == base
  {
    if id == base {
      assert !(base + "/" <= id);
    }
  }

  /**
   * Any other package lands one to `maxDepth` levels down, on clusters named by the
   * slash-free components of its relative path; without truncation the components
   * join back to that path.
   */
  lemma PlacementShape(id: string, base: string, maxDepth: int)
    requires id != base
    ensures var route := Placement(id, base, maxDepth);
      && 1 <= |route|
      && (maxDepth > 0 ==> |route| <= maxDepth)
      && (forall k :: 0 <= k < |route| ==> '/' !in route[k])
      && route <= Split(RelativePath(id, base), '/')
      && (route == Split(RelativePath(id, base), '/') ==> Join(route, "/") == RelativePath(id, base))
  {
    PlacementAtRoot(id, base, maxDepth);
    JoinSplit(RelativePath(id, base), '/');
  }

  /** The packages of `ps`, in order, that are filed at `route`. */
  function PackagesAt(ps: seq<Package>, base: string, maxDepth: int, route: seq<string>): (r: seq<Package>)
    ensures |r| <= |ps|
  {
    if ps == [] then []
    else
      PackagesAt(ps[..|ps| - 1], base, maxDepth, route)
        + (if Placement(ps[|ps| - 1].id, base, maxDepth) == route then [ps[|ps| - 1]] else [])
  }

  lemma PackagesAtSnoc(ps: seq<Package>, p: Package, base: string, maxDepth: int, route: seq<string>)
    ensures PackagesAt(ps + [p], base, maxDepth, route)
      == PackagesAt(ps, base, maxDepth, route) + (if Placement(p.id, base, maxDepth) == route then [p] else [])
  {
    assert (ps + [p])[..|ps|] == ps;
  }

  /** A package is filed at `route` exactly when it is one of `ps` and its placement is `route`. */
  lemma {:induction false} PackagesAtMember(ps: seq<Package>, p: Package, base: string, maxDepth: int, route: seq<string>)
    ensures p in PackagesAt(ps, base, maxDepth, route) <==> p in ps && Placement(p.id, base, maxDepth) == route
  {
    if ps != [] {
      var init := ps[..|ps| - 1];
      PackagesAtMember(init, p, base, maxDepth, route);
      assert ps == init + [ps[|ps| - 1]];
    }
  }

  /** The routes of the clusters in `nodes`. */
  ghost function Routes(nodes: set<DirCluster>): set<seq<string>>
  {
    set n | n in nodes :: n.route
  }

  /** Every prefix of `r`, from the empty route to `r` itself: the clusters on the way to `r`. */
  ghost function Prefixes(r: seq<string>): set<seq<string>>
  {
    if r == [] then {[]} else Prefixes(r[..|r| - 1]) + {r}
  }

  /** The prefixes of `r` are exactly the sequences `r` starts with. */
  lemma {:induction false} PrefixesMember(r: seq<string>, q: seq<string>)
    ensures q in Prefixes(r) <==> q <= r
  {
    if r != [] {
      var init := r[..|r| - 1];
      PrefixesMember(init, q);
      if q <= r && q != r {
        assert q <= init by {
          assert |q| < |r|;
          assert forall k :: 0 <= k < |q| ==> q[k] == init[k];
        }
      }
    }
  }

  /** The routes the placements of `ps` pass through, in the order the packages are filed. */
  ghost function RoutesFor(ps: seq<Package>, base: string, maxDepth: int): set<seq<string>>
  {
    if ps == [] then {}
    else RoutesFor(ps[..|ps| - 1], base, maxDepth) + Prefixes(Placement(ps[|ps| - 1].id, base, maxDepth))
  }

  /** A route is passed through by the placements of `ps` iff it is a prefix of one of them. */
  lemma RoutesForMember(ps: seq<Package>, base: string, maxDepth: int, r: seq<string>)
    ensures r in RoutesFor(ps, base, maxDepth)
      <==> exists k :: 0 <= k < |ps| && r in Prefixes(Placement(ps[k].id, base, maxDepth))
  {
    if r in RoutesFor(ps, base, maxDepth) {
      RoutesForSome(ps, base, maxDepth, r);
    }
    if exists k :: 0 <= k < |ps| && r in Prefixes(Placement(ps[k].id, base, maxDepth)) {
      var k :| 0 <= k < |ps| && r in Prefixes(Placement(ps[k].id, base, maxDepth));
      RoutesForHas(ps, base, maxDepth, k);
    }
  }

  lemma {:induction false} RoutesForSome(ps: seq<Package>, base: string, maxDepth: int, r: seq<string>)
    requires r in RoutesFor(ps, base, maxDepth)
    ensures exists k :: 0 <= k < |ps| && r in Prefixes(Placement(ps[k].id, base, maxDepth))
  {
    var init := ps[..|ps| - 1];
    if r in RoutesFor(init, base, maxDepth) {
      RoutesForSome(init, base, maxDepth, r);
      var k :| 0 <= k < |init| && r in Prefixes(Placement(init[k].id, base, maxDepth));
      assert ps[k] == init[k];
    } else {
      assert r in Prefixes(Placement(ps[|ps| - 1].id, base, maxDepth));
    }
  }

  lemma {:induction false} RoutesForHas(ps: seq<Package>, base: string, maxDepth: int, k: nat)
    requires k < |ps|
    ensures Prefixes(Placement(ps[k].id, base, maxDepth)) <= RoutesFor(ps, base, maxDepth)
    decreases |ps|
  {
    var init := ps[..|ps| - 1];
    if k < |init| {
      RoutesForHas(init, base, maxDepth, k);
      assert init[k] == ps[k];
    }
  }

  /** Filing `a` and then `b` passes through the routes of both. */
  lemma {:induction false} RoutesForAppend(a: seq<Package>, b: seq<Package>, base: string, maxDepth: int)
    ensures RoutesFor(a + b, base, maxDepth) == RoutesFor(a, base, maxDepth) + RoutesFor(b, base, maxDepth)
  {
    if b == [] {
      assert a + b == a;
    } else {
      var init := b[..|b| - 1];
      RoutesForAppend(a, init, base, maxDepth);
      assert (a + b)[..|a + b| - 1] == a + init;
      assert (a + b)[|a + b| - 1] == b[|b| - 1];
    }
  }

  /** The routes of the first `k + 1` packages: those of the first `k`, and the prefixes of the next placement. */
  lemma RoutesForStep(ps: seq<Package>, k: nat, base: string, maxDepth: int)
    requires k < |ps|
    ensures RoutesFor(ps[..k + 1], base, maxDepth)
      == RoutesFor(ps[..k], base, maxDepth) + Prefixes(Placement(ps[k].id, base, maxDepth))
  {
    assert ps[..k + 1][..k] == ps[..k];
  }

  /** The prefixes of one more component: the old ones and the longer route. */
  lemma PrefixesSnoc(r: seq<string>, i: nat)
    requires i < |r|
    ensures Prefixes(r[..i + 1]) == Prefixes(r[..i]) + {r[..i + 1]}
  {
    assert r[..i + 1][..i] == r[..i];
  }

  /** A cluster already in the set adds no route. */
  lemma RoutesHas(nodes: set<DirCluster>, c: DirCluster)
    requires c in nodes
    ensures Routes(nodes) == Routes(nodes) + {c.route}
  {
  }

  /** A cluster joining the set adds its route. */
  lemma RoutesAdd(nodes: set<DirCluster>, child: DirCluster)
    ensures Routes(nodes + {child}) == Routes(nodes) + {child.route}
  {
    assert child in nodes + {child};
  }

  /**
   * The packages of `placed` are filed in `nodes`: every cluster holds, in order, the
   * packages placed at its route, and every placement has a cluster.
   */
  ghost predicate Placed(nodes: set<DirCluster>, placed: seq<Package>, base: string, maxDepth: int)
    reads nodes`packages
  {
    && (forall n :: n in nodes ==> n.packages == PackagesAt(placed, base, maxDepth, n.route))
    && (forall k :: 0 <= k < |placed| ==> Placement(placed[k].id, base, maxDepth) in Routes(nodes))
  }

  /** No package is filed at a route none of them is placed at. */
  lemma {:induction false} PackagesAtNone(ps: seq<Package>, base: string, maxDepth: int, route: seq<string>)
    requires forall k :: 0 <= k < |ps| ==> Placement(ps[k].id, base, maxDepth) != route
    ensures PackagesAt(ps, base, maxDepth, route) == []
  {
    if ps != [] {
      PackagesAtNone(ps[..|ps| - 1], base, maxDepth, route);
    }
  }

  /** Before a child called `name` is created below `c`, no cluster has its route. */
  lemma NoRouteYet(nodes: set<DirCluster>, c: DirCluster, name: string)
    requires Shape(nodes) && c in nodes && name !in c.childrenMap
    ensures c.route + [name] !in Routes(nodes)
  {
    forall m | m in nodes && c.route < m.route ensures m.route[|c.route|] in c.childrenMap {
      ChildOnRoute(c, m, nodes);
    }
    assert (c.route + [name])[|c.route|] == name;
  }

  /** A cluster on a new route keeps the routes unique. */
  lemma UniqueGrow(nodes: set<DirCluster>, child: DirCluster)
    requires UniqueRoutes(nodes) && child.route !in Routes(nodes)
    ensures UniqueRoutes(nodes + {child})
  {
    forall m, n | m in nodes + {child} && n in nodes + {child} && m.route == n.route ensures m == n {
      assert m in nodes ==> m.route in Routes(nodes);
      assert n in nodes ==> n.route in Routes(nodes);
    }
  }

  lemma RoutesGrow(nodes: set<DirCluster>, more: set<DirCluster>)
    requires nodes <= more
    ensures Routes(nodes) <= Routes(more)
  {
  }

  /** Adding `pkg` to the cluster at its placement files one more package. */
  lemma FileAt(nodes: set<DirCluster>, target: DirCluster, placed: seq<Package>, pkg: Package,
               base: string, maxDepth: int)
    requires UniqueRoutes(nodes) && target in nodes && Placement(pkg.id, base, maxDepth) == target.route
    requires forall n :: n in nodes && n != target ==> n.packages == PackagesAt(placed, base, maxDepth, n.route)
    requires target.packages == PackagesAt(placed, base, maxDepth, target.route) + [pkg]
    requires forall k :: 0 <= k < |placed| ==> Placement(placed[k].id, base, maxDepth) in Routes(nodes)
    ensures Placed(nodes, placed + [pkg], base, maxDepth)
  {
    FiledHere(nodes, target, placed, pkg, base, maxDepth);
    assert target.route in Routes(nodes);
  }

  lemma FiledHere(nodes: set<DirCluster>, target: DirCluster, placed: seq<Package>, pkg: Package,
                  base: string, maxDepth: int)
    requires UniqueRoutes(nodes) && target in nodes && Placement(pkg.id, base, maxDepth) == target.route
    requires forall n :: n in nodes && n != target ==> n.packages == PackagesAt(placed, base, maxDepth, n.route)
    requires target.packages == PackagesAt(placed, base, maxDepth, target.route) + [pkg]
    ensures forall n :: n in nodes ==> n.packages == PackagesAt(placed + [pkg], base, maxDepth, n.route)
  {
    forall n | n in nodes ensures n.packages == PackagesAt(placed + [pkg], base, maxDepth, n.route) {
      PackagesAtSnoc(placed, pkg, base, maxDepth, n.route);
    }
  }

  // ---------------------------------------------------------------------------
  // Building the tree.

  /** A well-formed cluster tree holding exactly the packages of `placed`, each at its placement. */
  ghost predicate Filed(nodes: set<DirCluster>, placed: seq<Package>, base: string, maxDepth: int)
    reads nodes`childrenMap, nodes`children, nodes`sortedChildren, nodes`packages
  {
    WellFormed(nodes) && Placed(nodes, placed, base, maxDepth)
  }

  /**
   * One round of the loop in `AddPackageToCluster`: steps from `current` to its child
   * called `name`, creating it at `depth` when it does not exist yet.
   */
  method Descend(current: DirCluster, name: string, depth: int, ghost nodes: set<DirCluster>,
                 ghost placed: seq<Package>, ghost base: string, ghost maxDepth: int)
    returns (child: DirCluster, ghost nodes': set<DirCluster>)
    requires current in nodes && Filed(nodes, placed, base, maxDepth)
    requires depth == |current.route| + 1
    modifies current`children, current`sortedChildren, current`childrenMap
    ensures child in nodes' && child.route == current.route + [name]
    ensures Filed(nodes', placed, base, maxDepth)
    ensures nodes' == nodes || (fresh(child) && nodes' == nodes + {child})
    ensures Routes(nodes') == Routes(nodes) + {current.route + [name]}
  {
    if name in current.childrenMap {
      child, nodes' := Revisit(current, name, depth, nodes, placed, base, maxDepth);
      RoutesHas(nodes, child);
    } else {
      Prepare(nodes, current, name, placed, base, maxDepth);
      child, nodes' := Grow(current, name, depth, nodes, placed, base, maxDepth);
      RoutesAdd(nodes, child);
    }
  }

  /** `Descend` when `current` already has a child called `name`: nothing changes. */
  method Revisit(current: DirCluster, name: string, depth: int, ghost nodes: set<DirCluster>,
                 ghost placed: seq<Package>, ghost base: string, ghost maxDepth: int)
    returns (child: DirCluster, ghost nodes': set<DirCluster>)
    requires current in nodes && Filed(nodes, placed, base, maxDepth)
    requires name in current.childrenMap
    modifies current`children, current`sortedChildren, current`childrenMap
    ensures child in nodes' && child.route == current.route + [name]
    ensures Filed(nodes', placed, base, maxDepth)
    ensures nodes' == nodes
  {
    Revisited(nodes, current, name, placed, base, maxDepth);
    child := current.GetOrCreateChild(name, depth);
    nodes' := nodes;
    assert unchanged(nodes);
  }

  lemma Revisited(nodes: set<DirCluster>, c: DirCluster, name: string,
                  placed: seq<Package>, base: string, maxDepth: int)
    requires c in nodes && Filed(nodes, placed, base, maxDepth) && name in c.childrenMap
    ensures c.childrenMap[name] in nodes && c.childrenMap[name].route == c.route + [name]
  {
    assert LinkedDown(c, nodes);
  }

  /** A well-formed tree, split into what `c`'s own fields carry and what the rest carry. */
  lemma Split3(nodes: set<DirCluster>, c: DirCluster, placed: seq<Package>, base: string, maxDepth: int)
    requires c in nodes && Filed(nodes, placed, base, maxDepth)
    ensures LinkedExcept(nodes, c) && ListedExcept(nodes, c) && ConsistentExcept(nodes, c)
    ensures Placed(nodes, placed, base, maxDepth) && c.Consistent()
    ensures KidsOf(nodes, c, c.childrenMap) && Anchored(c, nodes) && UniqueRoutes(nodes)
  {
    assert Linked(c, nodes);
    forall n | n in nodes && n.parent == c
      ensures n.route != [] && n.route[|n.route| - 1] in c.childrenMap && c.childrenMap[n.route[|n.route| - 1]] == n
    {
      assert Linked(n, nodes) && Listed(n, nodes);
    }
  }

  /** The converse of `Split3`. */
  lemma Rejoin(nodes: set<DirCluster>, c: DirCluster, placed: seq<Package>, base: string, maxDepth: int)
    requires c in nodes
    requires LinkedExcept(nodes, c) && ListedExcept(nodes, c) && ConsistentExcept(nodes, c)
    requires Placed(nodes, placed, base, maxDepth) && c.Consistent()
    requires KidsOf(nodes, c, c.childrenMap) && Anchored(c, nodes) && UniqueRoutes(nodes)
    ensures Filed(nodes, placed, base, maxDepth)
  {
    assert Linked(c, nodes);
    assert forall n :: n in nodes ==> Linked(n, nodes);
    forall n | n in nodes ensures Listed(n, nodes) {
    }
    assert AllConsistent(nodes);
  }

  /** `Descend` when `current` has no child called `name` yet: the tree gains one cluster. */
  method Grow(current: DirCluster, name: string, depth: int, ghost nodes: set<DirCluster>,
              ghost placed: seq<Package>, ghost base: string, ghost maxDepth: int)
    returns (child: DirCluster, ghost nodes': set<DirCluster>)
    requires current in nodes && name !in current.childrenMap && depth == |current.route| + 1
    requires LinkedExcept(nodes, current) && ListedExcept(nodes, current) && ConsistentExcept(nodes, current)
    requires Placed(nodes, placed, base, maxDepth) && current.Consistent()
    requires KidsOf(nodes, current, current.childrenMap) && Anchored(current, nodes) && UniqueRoutes(nodes)
    requires current.route + [name] !in Routes(nodes)
    modifies current`children, current`sortedChildren, current`childrenMap
    ensures child in nodes' && child.route == current.route + [name]
    ensures Filed(nodes', placed, base, maxDepth)
    ensures fresh(child) && nodes' == nodes + {child}
  {
    ghost var kids := current.childrenMap;
    child := current.GetOrCreateChild(name, depth);
    nodes' := nodes + {child};
    assert unchanged(nodes - {current}) && unchanged(nodes`packages);
    assert forall n :: n in nodes ==> n.parent != child;
    ChildPathIsRoutePath(current, name);
    Attach(nodes, current, child, name, kids, placed, base, maxDepth);
  }

  lemma ChildPathIsRoutePath(c: DirCluster, name: string)
    requires c.path == RoutePath(c.route)
    ensures ChildPath(c.path, name) == RoutePath(c.route + [name])
  {
    assert (c.route + [name])[..|c.route|] == c.route;
  }

  /** The links of every cluster but `c`; they read no map of `c`'s. */
  ghost predicate LinkedExcept(nodes: set<DirCluster>, c: DirCluster)
    reads (nodes - {c})`childrenMap
  {
    forall n :: n in nodes && n != c ==> Linked(n, nodes)
  }

  /** Every cluster whose parent is not `c` is listed by its parent. */
  ghost predicate ListedExcept(nodes: set<DirCluster>, c: DirCluster)
    reads (nodes - {c})`childrenMap
  {
    forall n :: n in nodes && n.parent != c ==> Listed(n, nodes)
  }

  ghost predicate ConsistentExcept(nodes: set<DirCluster>, c: DirCluster)
    reads (nodes - {c})`children, (nodes - {c})`sortedChildren, (nodes - {c})`childrenMap
  {
    forall n :: n in nodes && n != c ==> n.Consistent()
  }

  /** `kids` are exactly the children of `c` among `nodes`, each under the last name of its route. */
  ghost predicate KidsOf(nodes: set<DirCluster>, c: DirCluster, kids: map<string, DirCluster>)
  {
    && (forall k :: k in kids ==> kids[k] in nodes && kids[k].parent == c && kids[k].route == c.route + [k])
    && (forall n :: n in nodes && n.parent == c ==>
          n.route != [] && n.route[|n.route| - 1] in kids && kids[n.route[|n.route| - 1]] == n)
  }

  /**
   * What `Descend` needs to know about the tree before `c` gains a child called `name`,
   * split into the parts that the new child leaves alone and the old children of `c`.
   */
  lemma Prepare(nodes: set<DirCluster>, c: DirCluster, name: string,
                placed: seq<Package>, base: string, maxDepth: int)
    requires c in nodes && Filed(nodes, placed, base, maxDepth) && name !in c.childrenMap
    ensures LinkedExcept(nodes, c) && ListedExcept(nodes, c) && ConsistentExcept(nodes, c)
    ensures Placed(nodes, placed, base, maxDepth) && c.Consistent()
    ensures KidsOf(nodes, c, c.childrenMap) && Anchored(c, nodes) && UniqueRoutes(nodes)
    ensures c.route + [name] !in Routes(nodes)
  {
    NoRouteYet(nodes, c, name);
    Split3(nodes, c, placed, base, maxDepth);
  }

  /** The tree once `c`, whose children were `kids`, has gained `child` under the new name `name`. */
  lemma Attach(nodes: set<DirCluster>, c: DirCluster, child: DirCluster, name: string,
               kids: map<string, DirCluster>, placed: seq<Package>, base: string, maxDepth: int)
    requires c in nodes && child !in nodes && name !in kids && c.childrenMap == kids[name := child]
    requires KidsOf(nodes, c, kids) && Anchored(c, nodes) && UniqueRoutes(nodes)
    requires child.parent == c && child.route == c.route + [name] && child.depth == |child.route|
    requires child.path == RoutePath(child.route)
    requires child.childrenMap == map[] && child.children == [] && child.sortedChildren == []
    requires child.packages == []
    requires forall n :: n in nodes ==> n.parent != child
    requires LinkedExcept(nodes, c) && ListedExcept(nodes, c) && ConsistentExcept(nodes, c)
    requires c.Consistent() && Placed(nodes, placed, base, maxDepth)
    requires child.route !in Routes(nodes)
    ensures Filed(nodes + {child}, placed, base, maxDepth)
  {
    UniqueGrow(nodes, child);
    LinkedAttach(nodes, c, child, name, kids);
    ListedAttach(nodes, c, child, name, kids);
    ConsistentAttach(nodes, c, child);
    PlacedGrow(nodes, child, placed, base, maxDepth);
  }

  lemma ConsistentAttach(nodes: set<DirCluster>, c: DirCluster, child: DirCluster)
    requires ConsistentExcept(nodes, c) && c.Consistent()
    requires child.childrenMap == map[] && child.children == [] && child.sortedChildren == []
    ensures AllConsistent(nodes + {child})
  {
    forall n | n in nodes + {child} ensures n.Consistent() {
      if n != c && n != child {
        assert n in nodes;
      }
    }
  }

  /** After `c` gains `child` under a new name, every cluster still keeps its own links. */
  lemma LinkedAttach(nodes: set<DirCluster>, c: DirCluster, child: DirCluster, name: string,
                     kids: map<string, DirCluster>)
    requires c in nodes && c.childrenMap == kids[name := child]
    requires KidsOf(nodes, c, kids) && Anchored(c, nodes)
    requires child.parent == c && child.route == c.route + [name] && child.childrenMap == map[]
    requires child.depth == |child.route| && child.path == RoutePath(child.route)
    requires LinkedExcept(nodes, c)
    ensures forall n :: n in nodes + {child} ==> Linked(n, nodes + {child})
  {
    var all := nodes + {child};
    LinkedAttachParent(nodes, c, child, name, kids);
    LinkedAttachChild(nodes, c, child, name);
    forall n | n in nodes && n != c ensures Linked(n, all) {
      LinkedGrow(nodes, n, child);
    }
  }

  /** The cluster that gains the child still links down to all its children. */
  lemma LinkedAttachParent(nodes: set<DirCluster>, c: DirCluster, child: DirCluster, name: string,
                           kids: map<string, DirCluster>)
    requires c in nodes && c.childrenMap == kids[name := child]
    requires KidsOf(nodes, c, kids) && Anchored(c, nodes)
    requires child.parent == c && child.route == c.route + [name]
    ensures Linked(c, nodes + {child})
  {
    assert LinkedDown(c, nodes + {child});
  }

  /** The new child, with no children of its own, is linked. */
  lemma LinkedAttachChild(nodes: set<DirCluster>, c: DirCluster, child: DirCluster, name: string)
    requires c in nodes && child.parent == c && child.route == c.route + [name]
    requires child.childrenMap == map[]
    requires child.depth == |child.route| && child.path == RoutePath(child.route)
    ensures Linked(child, nodes + {child})
  {
    assert child.route[..|c.route|] == c.route;
    assert child.parent.route + [child.route[|child.route| - 1]] == child.route;
  }

  /** A linked cluster stays linked when another cluster joins the set. */
  lemma LinkedGrow(nodes: set<DirCluster>, n: DirCluster, child: DirCluster)
    requires n in nodes && Linked(n, nodes)
    ensures Linked(n, nodes + {child})
  {
  }

  /** After `c` gains `child` under a new name, every cluster is still listed by its parent. */
  lemma ListedAttach(nodes: set<DirCluster>, c: DirCluster, child: DirCluster, name: string,
                     kids: map<string, DirCluster>)
    requires c in nodes && name !in kids && c.childrenMap == kids[name := child]
    requires KidsOf(nodes, c, kids)
    requires child.parent == c && child.route == c.route + [name]
    requires forall n :: n in nodes ==> n.parent != child
    requires ListedExcept(nodes, c)
    ensures forall n :: n in nodes + {child} ==> Listed(n, nodes + {child})
  {
    var all := nodes + {child};
    forall n | n in nodes && n.parent != c ensures Listed(n, all) {
      assert Listed(n, nodes);
    }
  }

  /** A new cluster on a route no package is placed at holds no packages. */
  lemma PlacedGrow(nodes: set<DirCluster>, child: DirCluster, placed: seq<Package>, base: string, maxDepth: int)
    requires Placed(nodes, placed, base, maxDepth)
    requires child.packages == [] && child.route !in Routes(nodes)
    ensures Placed(nodes + {child}, placed, base, maxDepth)
  {
    PackagesAtNone(placed, base, maxDepth, child.route);
    RoutesGrow(nodes, nodes + {child});
  }

  lemma PrefixSnoc<T>(s: seq<T>, i: nat)
    requires i < |s|
    ensures s[..i + 1] == s[..i] + [s[i]]
  {
  }

  /**
   * The start of `addPackageToCluster`: the package's path relative to the base, or
   * `isBase` when the package is the base package itself.
   */
  method RelativeTo(pkgPath: string, basePackage: string) returns (relativePath: string, isBase: bool)
    ensures isBase <==> pkgPath == basePackage
    ensures !isBase ==> relativePath == RelativePath(pkgPath, basePackage)
  {
    relativePath := pkgPath;
    isBase := false;
    if basePackage != "" && basePackage + "/" <= pkgPath {
      relativePath := pkgPath[|basePackage| + 1..];
    } else if pkgPath == basePackage {
      isBase := true;
      return;
    }
    if relativePath == "" || relativePath == pkgPath {
      relativePath := pkgPath;
    }
  }

  /** `addPackageToCluster`: files `pkg` under the cluster at its placement, creating clusters on the way. */
  method AddPackageToCluster(root: DirCluster, pkg: Package, basePackage: string, maxDepth: int,
                             ghost nodes: set<DirCluster>, ghost placed: seq<Package>)
    returns (ghost nodes': set<DirCluster>)
    requires root in nodes && root.route == [] && Filed(nodes, placed, basePackage, maxDepth)
    modifies nodes`children, nodes`sortedChildren, nodes`childrenMap, nodes`packages
    ensures nodes <= nodes' && fresh(nodes' - nodes)
    ensures Filed(nodes', placed + [pkg], basePackage, maxDepth)
    ensures Routes(nodes') == Routes(nodes) + Prefixes(Placement(pkg.id, basePackage, maxDepth))
  {
    var relativePath, isBase := RelativeTo(pkg.id, basePackage);
    if isBase {
      PlacementAtRoot(pkg.id, basePackage, maxDepth);
      File(root, pkg, nodes, placed, basePackage, maxDepth);
      nodes' := nodes;
      RoutesHas(nodes, root);
      return;
    }
    var parts := Split(relativePath, '/');
    if maxDepth > 0 && |parts| > maxDepth {
      parts := parts[..maxDepth];
    }
    assert parts == Placement(pkg.id, basePackage, maxDepth);
    var current;
    current, nodes' := Walk(root, parts, maxDepth, nodes, placed, basePackage);
    File(current, pkg, nodes', placed, basePackage, maxDepth);
  }

  /**
   * The loop of `addPackageToCluster`: from the root down through the clusters named by
   * `parts`, creating the missing ones, each at its depth. The loop stops early when the
   * depth passes a positive `maxDepth`; `parts` was already cut to that length.
   */
  method Walk(root: DirCluster, parts: seq<string>, maxDepth: int,
              ghost nodes: set<DirCluster>, ghost placed: seq<Package>, ghost base: string)
    returns (current: DirCluster, ghost nodes': set<DirCluster>)
    requires root in nodes && root.route == [] && Filed(nodes, placed, base, maxDepth)
    requires maxDepth > 0 ==> |parts| <= maxDepth
    modifies nodes`children, nodes`sortedChildren, nodes`childrenMap
    ensures nodes <= nodes' && fresh(nodes' - nodes)
    ensures Filed(nodes', placed, base, maxDepth)
    ensures current in nodes' && current.route == parts
    ensures Routes(nodes') == Routes(nodes) + Prefixes(parts)
  {
    current := root;
    nodes' := nodes;
    var i := 0;
    while i < |parts|
      invariant 0 <= i <= |parts|
      invariant nodes <= nodes'
      invariant fresh(nodes' - nodes)
      invariant Filed(nodes', placed, base, maxDepth)
      invariant current in nodes'
      invariant current.route == parts[..i]
      invariant OnPath(nodes, nodes', parts)
    {
      var depth := i + 1;
      if maxDepth > 0 && depth > maxDepth {
        break;
      }
      ghost var before := nodes';
      current, nodes' := WalkStep(current, parts, i, nodes, nodes', placed, base, maxDepth);
      FreshStep(nodes, before, nodes', current);
      i := i + 1;
    }
    WalkRoutes(nodes, nodes', current, parts, i);
  }

  /** One turn of the loop of `Walk`: down to the child named `parts[i]`. */
  method WalkStep(current: DirCluster, parts: seq<string>, i: nat, ghost start: set<DirCluster>,
                  ghost nodes: set<DirCluster>, ghost placed: seq<Package>, ghost base: string, ghost maxDepth: int)
    returns (child: DirCluster, ghost nodes': set<DirCluster>)
    requires i < |parts| && current in nodes && current.route == parts[..i]
    requires Filed(nodes, placed, base, maxDepth) && OnPath(start, nodes, parts)
    modifies current`children, current`sortedChildren, current`childrenMap
    ensures child in nodes' && child.route == parts[..i + 1]
    ensures Filed(nodes', placed, base, maxDepth) && OnPath(start, nodes', parts)
    ensures nodes' == nodes || (fresh(child) && nodes' == nodes + {child})
  {
    PrefixSnoc(parts, i);
    child, nodes' := Descend(current, parts[i], i + 1, nodes, placed, base, maxDepth);
    PathStep(start, nodes, nodes', child, parts, i);
  }

  /** Clusters created since the start stay the only new ones when one more is created. */
  twostate lemma FreshStep(nodes: set<DirCluster>, new before: set<DirCluster>, new after: set<DirCluster>,
                           new child: DirCluster)
    requires fresh(before - nodes)
    requires after == before || (fresh(child) && after == before + {child})
    ensures fresh(after - nodes)
  {
  }

  /** Every cluster of `nodes'` that is not one of `nodes` lies on the way to `route`. */
  ghost predicate OnPath(nodes: set<DirCluster>, nodes': set<DirCluster>, route: seq<string>)
  {
    forall n {:trigger RouteBelow(n, route)} :: n in nodes' - nodes ==> RouteBelow(n, route)
  }

  /** The route of `n` is a prefix of `route`. */
  ghost predicate RouteBelow(n: DirCluster, route: seq<string>)
  {
    n.route <= route
  }

  /** A step of the walk adds at most the cluster at the next prefix. */
  lemma PathStep(nodes: set<DirCluster>, before: set<DirCluster>, after: set<DirCluster>, child: DirCluster,
                 parts: seq<string>, i: nat)
    requires i < |parts| && OnPath(nodes, before, parts)
    requires after == before || after == before + {child}
    requires child.route == parts[..i] + [parts[i]]
    ensures OnPath(nodes, after, parts)
  {
    PrefixSnoc(parts, i);
    forall n | n in after - nodes ensures RouteBelow(n, parts) {
      if n != child {
        assert RouteBelow(n, parts);
      }
    }
  }

  /** Every cluster of `nodes` hangs under its parent in `nodes`. */
  ghost predicate AllAnchored(nodes: set<DirCluster>)
  {
    forall n :: n in nodes ==> Anchored(n, nodes)
  }

  lemma ShapeAnchored(nodes: set<DirCluster>)
    requires Shape(nodes)
    ensures AllAnchored(nodes)
  {
    forall n | n in nodes ensures Anchored(n, nodes) {
      assert Linked(n, nodes);
    }
  }

  /** Every prefix of the route of a cluster is the route of one of its ancestors. */
  lemma {:induction false} AncestorAt(nodes: set<DirCluster>, c: DirCluster, k: nat)
    requires AllAnchored(nodes) && c in nodes && k <= |c.route|
    ensures c.route[..k] in Routes(nodes)
    decreases |c.route| - k
  {
    assert Anchored(c, nodes);
    if k == |c.route| {
      assert c.route[..k] == c.route;
    } else {
      var p := c.parent;
      assert p.route == c.route[..|c.route| - 1];
      AncestorAt(nodes, p, k);
      assert p.route[..k] == c.route[..k];
    }
  }

  /**
   * The routes after the walk: the old ones and every prefix of `parts`, since the new
   * clusters lie on the way and the clusters on the way all exist.
   */
  lemma WalkRoutes(nodes: set<DirCluster>, nodes': set<DirCluster>, current: DirCluster, parts: seq<string>, i: nat)
    requires nodes <= nodes' && OnPath(nodes, nodes', parts)
    requires current in nodes' && i == |parts| && current.route == parts[..i] && Shape(nodes')
    ensures current.route == parts
    ensures Routes(nodes') == Routes(nodes) + Prefixes(parts)
  {
    assert parts[..i] == parts;
    ShapeAnchored(nodes');
    RoutesWithin(nodes, nodes', parts);
    RoutesReach(nodes', current);
    RoutesGrow(nodes, nodes');
  }

  /** The routes of clusters created on the way to `parts` are prefixes of `parts`. */
  lemma RoutesWithin(nodes: set<DirCluster>, nodes': set<DirCluster>, parts: seq<string>)
    requires OnPath(nodes, nodes', parts)
    ensures Routes(nodes') <= Routes(nodes) + Prefixes(parts)
  {
    forall r | r in Routes(nodes') ensures r in Routes(nodes) + Prefixes(parts) {
      var n :| n in nodes' && n.route == r;
      if n !in nodes {
        assert RouteBelow(n, parts);
        PrefixesMember(parts, r);
      }
    }
  }

  /** Every prefix of the route of a cluster is the route of a cluster. */
  lemma RoutesReach(nodes: set<DirCluster>, c: DirCluster)
    requires AllAnchored(nodes) && c in nodes
    ensures Prefixes(c.route) <= Routes(nodes)
  {
    forall r | r in Prefixes(c.route) ensures r in Routes(nodes) {
      PrefixesMember(c.route, r);
      AncestorAt(nodes, c, |r|);
      assert r == c.route[..|r|];
    }
  }


  /** `current.AddPackage(pkg)` at the end of `addPackageToCluster`, on the cluster at the package's placement. */
  method File(target: DirCluster, pkg: Package, ghost nodes: set<DirCluster>,
              ghost placed: seq<Package>, ghost base: string, ghost maxDepth: int)
    requires target in nodes && Filed(nodes, placed, base, maxDepth)
    requires target.route == Placement(pkg.id, base, maxDepth)
    modifies target`packages
    ensures Filed(nodes, placed + [pkg], base, maxDepth)
  {
    target.AddPackage(pkg);
    FileAt(nodes, target, placed, pkg, base, maxDepth);
  }

  // ---------------------------------------------------------------------------
  // ClusterByDirectory: every package of the tree, in the order the loops visit them.

  /** The packages of the modules, module by module. */
  function ModulesPackages(mods: seq<Module>): seq<Package>
  {
    if mods == [] then [] else ModulesPackages(mods[..|mods| - 1]) + mods[|mods| - 1].pkgs
  }

  /** A repo's packages: those of its modules first, then its own. */
  function RepoPackages(repo: Repo): seq<Package>
  {
    ModulesPackages(repo.modules) + repo.pkgs
  }

  /** The packages of the repos, repo by repo. */
  function ReposPackages(repos: seq<Repo>): seq<Package>
  {
    if repos == [] then [] else ReposPackages(repos[..|repos| - 1]) + RepoPackages(repos[|repos| - 1])
  }

  /** Every package of the tree, in the order `ClusterByDirectory` files them. */
  function AllPackages(t: Tree): seq<Package>
  {
    ReposPackages(t.repos)
  }

  /**
   * `ClusterByDirectory`: files every package of the tree under a fresh root cluster,
   * then sorts the children of every cluster by name. The lookup table the source
   * builds is never used and is not modelled.
   */
  method ClusterByDirectory(t: Tree, basePackage: string, maxDepth: int)
    returns (root: DirCluster, ghost nodes: set<DirCluster>)
    ensures fresh(nodes) && root in nodes
    ensures root.route == [] && root.path == "" && root.parent == null && root.depth == 0
    ensures Filed(nodes, AllPackages(t), basePackage, maxDepth)
    ensures Routes(nodes) == {[]} + RoutesFor(AllPackages(t), basePackage, maxDepth)
    ensures forall n :: n in nodes ==> Ascending(n.sortedChildren)
  {
    root, nodes := NewRoot(basePackage, maxDepth);
    nodes := AddRepos(root, t.repos, basePackage, maxDepth, nodes);
    SortAll(root, nodes, AllPackages(t), basePackage, maxDepth);
  }

  /** `NewDirCluster("", nil, 0)`: a lone root holds no packages, which is how a filed tree starts. */
  method NewRoot(ghost base: string, ghost maxDepth: int) returns (root: DirCluster, ghost nodes: set<DirCluster>)
    ensures fresh(nodes) && nodes == {root}
    ensures root.route == [] && root.path == "" && root.parent == null && root.depth == 0
    ensures Filed(nodes, [], base, maxDepth)
    ensures Routes(nodes) == {[]}
  {
    root := new DirCluster("", null, 0, []);
    nodes := {root};
    assert Linked(root, nodes) && Listed(root, nodes);
    assert root in nodes;
  }

  /** The loop over the repos of the tree. */
  method AddRepos(root: DirCluster, repos: seq<Repo>, basePackage: string, maxDepth: int,
                  ghost nodes: set<DirCluster>)
    returns (ghost nodes': set<DirCluster>)
    requires root in nodes && root.route == [] && Filed(nodes, [], basePackage, maxDepth)
    modifies nodes`children, nodes`sortedChildren, nodes`childrenMap, nodes`packages
    ensures nodes <= nodes' && fresh(nodes' - nodes)
    ensures Filed(nodes', ReposPackages(repos), basePackage, maxDepth)
    ensures Routes(nodes') == Routes(nodes) + RoutesFor(ReposPackages(repos), basePackage, maxDepth)
  {
    nodes' := nodes;
    assert repos[..0] == [];
    for r := 0 to |repos|
      invariant nodes <= nodes' && fresh(nodes' - nodes)
      invariant Filed(nodes', ReposPackages(repos[..r]), basePackage, maxDepth)
      invariant Routes(nodes') == Routes(nodes) + RoutesFor(ReposPackages(repos[..r]), basePackage, maxDepth)
    {
      ghost var before := nodes';
      nodes' := AddRepo(root, repos, r, basePackage, maxDepth, nodes');
      ReposRoutesStep(Routes(nodes), Routes(before), Routes(nodes'), repos, r, basePackage, maxDepth);
    }
    AllRepos(repos);
  }

  /** One round of the loop over the repos: the packages of each module, then the repo's own. */
  method AddRepo(root: DirCluster, repos: seq<Repo>, r: nat, basePackage: string, maxDepth: int,
                 ghost nodes: set<DirCluster>)
    returns (ghost nodes': set<DirCluster>)
    requires r < |repos|
    requires root in nodes && root.route == [] && Filed(nodes, ReposPackages(repos[..r]), basePackage, maxDepth)
    modifies nodes`children, nodes`sortedChildren, nodes`childrenMap, nodes`packages
    ensures nodes <= nodes' && fresh(nodes' - nodes)
    ensures Filed(nodes', ReposPackages(repos[..r + 1]), basePackage, maxDepth)
    ensures Routes(nodes') == Routes(nodes) + RoutesFor(RepoPackages(repos[r]), basePackage, maxDepth)
  {
    var repo := repos[r];
    ghost var placed := ReposPackages(repos[..r]);
    ReposStep(repos, r);
    ghost var mid := AddModules(root, repo.modules, basePackage, maxDepth, nodes, placed);
    nodes' := AddPackages(root, repo.pkgs, basePackage, maxDepth, mid, placed + ModulesPackages(repo.modules));
    RepoRoutes(Routes(nodes), Routes(mid), Routes(nodes'), repo, basePackage, maxDepth);
  }

  /** The routes after a repo: those before, and the routes of its modules' packages and of its own. */
  lemma RepoRoutes(start: set<seq<string>>, mid: set<seq<string>>, after: set<seq<string>>,
                   repo: Repo, base: string, maxDepth: int)
    requires mid == start + RoutesFor(ModulesPackages(repo.modules), base, maxDepth)
    requires after == mid + RoutesFor(repo.pkgs, base, maxDepth)
    ensures after == start + RoutesFor(RepoPackages(repo), base, maxDepth)
  {
    RoutesForAppend(ModulesPackages(repo.modules), repo.pkgs, base, maxDepth);
  }

  lemma ReposStep(repos: seq<Repo>, r: nat)
    requires r < |repos|
    ensures ReposPackages(repos[..r + 1])
      == ReposPackages(repos[..r]) + ModulesPackages(repos[r].modules) + repos[r].pkgs
  {
    assert repos[..r + 1][..r] == repos[..r];
  }

  /** The routes after one more repo: those before, and the routes of the repo's packages. */
  lemma ReposRoutesStep(start: set<seq<string>>, before: set<seq<string>>, after: set<seq<string>>,
                        repos: seq<Repo>, r: nat, base: string, maxDepth: int)
    requires r < |repos|
    requires before == start + RoutesFor(ReposPackages(repos[..r]), base, maxDepth)
    requires after == before + RoutesFor(RepoPackages(repos[r]), base, maxDepth)
    ensures after == start + RoutesFor(ReposPackages(repos[..r + 1]), base, maxDepth)
  {
    assert repos[..r + 1][..r] == repos[..r];
    RoutesForAppend(ReposPackages(repos[..r]), RepoPackages(repos[r]), base, maxDepth);
  }

  lemma AllRepos(repos: seq<Repo>)
    ensures ReposPackages(repos[..|repos|]) == ReposPackages(repos)
  {
    assert repos[..|repos|] == repos;
  }

  /** `root.Sort()` at the end of `ClusterByDirectory`: the tree stays filed, now sorted. */
  method SortAll(root: DirCluster, ghost nodes: set<DirCluster>,
                 ghost placed: seq<Package>, ghost base: string, ghost maxDepth: int)
    requires root in nodes && root.route == [] && Filed(nodes, placed, base, maxDepth)
    modifies nodes`children, nodes`sortedChildren
    ensures Filed(nodes, placed, base, maxDepth)
    ensures forall n :: n in nodes ==> Ascending(n.sortedChildren)
  {
    assert Shape(nodes) && Placed(nodes, placed, base, maxDepth);
    root.Sort(nodes);
    assert Placed(nodes, placed, base, maxDepth);
    forall n | n in nodes ensures Ascending(n.sortedChildren) {
      assert root.route <= n.route;
    }
  }

  /** The loop over a repo's modules, and within it over each module's packages. */
  method AddModules(root: DirCluster, mods: seq<Module>, basePackage: string, maxDepth: int,
                    ghost nodes: set<DirCluster>, ghost placed: seq<Package>)
    returns (ghost nodes': set<DirCluster>)
    requires root in nodes && root.route == [] && Filed(nodes, placed, basePackage, maxDepth)
    modifies nodes`children, nodes`sortedChildren, nodes`childrenMap, nodes`packages
    ensures nodes <= nodes' && fresh(nodes' - nodes)
    ensures Filed(nodes', placed + ModulesPackages(mods), basePackage, maxDepth)
    ensures Routes(nodes') == Routes(nodes) + RoutesFor(ModulesPackages(mods), basePackage, maxDepth)
  {
    nodes' := nodes;
    ghost var done := placed;
    ModulesStart(placed, mods);
    for m := 0 to |mods|
      invariant nodes <= nodes' && fresh(nodes' - nodes)
      invariant done == placed + ModulesPackages(mods[..m])
      invariant Filed(nodes', done, basePackage, maxDepth)
      invariant Routes(nodes') == Routes(nodes) + RoutesFor(ModulesPackages(mods[..m]), basePackage, maxDepth)
    {
      ModulesStep(placed, mods, m);
      ghost var before := nodes';
      nodes' := AddPackages(root, mods[m].pkgs, basePackage, maxDepth, nodes', done);
      ModulesRoutesStep(Routes(nodes), Routes(before), Routes(nodes'), mods, m, basePackage, maxDepth);
      done := done + mods[m].pkgs;
    }
    ModulesAll(placed, mods);
  }

  /** The routes after one more module: those before, and the routes of the module's packages. */
  lemma ModulesRoutesStep(start: set<seq<string>>, before: set<seq<string>>, after: set<seq<string>>,
                          mods: seq<Module>, m: nat, base: string, maxDepth: int)
    requires m < |mods|
    requires before == start + RoutesFor(ModulesPackages(mods[..m]), base, maxDepth)
    requires after == before + RoutesFor(mods[m].pkgs, base, maxDepth)
    ensures after == start + RoutesFor(ModulesPackages(mods[..m + 1]), base, maxDepth)
  {
    assert mods[..m + 1][..m] == mods[..m];
    RoutesForAppend(ModulesPackages(mods[..m]), mods[m].pkgs, base, maxDepth);
  }

  lemma ModulesStart(placed: seq<Package>, mods: seq<Module>)
    ensures mods[..0] == []
    ensures placed == placed + ModulesPackages(mods[..0])
  {
    assert mods[..0] == [];
  }

  lemma ModulesStep(placed: seq<Package>, mods: seq<Module>, m: nat)
    requires m < |mods|
    ensures placed + ModulesPackages(mods[..m + 1]) == placed + ModulesPackages(mods[..m]) + mods[m].pkgs
  {
    assert mods[..m + 1][..m] == mods[..m];
  }

  lemma ModulesAll(placed: seq<Package>, mods: seq<Module>)
    ensures mods[..|mods|] == mods
    ensures placed + ModulesPackages(mods[..|mods|]) == placed + ModulesPackages(mods)
  {
    assert mods[..|mods|] == mods;
  }

  /** A loop `for _, pkg := range pkgs { addPackageToCluster(root, pkg, ...) }`. */
  method AddPackages(root: DirCluster, pkgs: seq<Package>, basePackage: string, maxDepth: int,
                     ghost nodes: set<DirCluster>, ghost placed: seq<Package>)
    returns (ghost nodes': set<DirCluster>)
    requires root in nodes && root.route == [] && Filed(nodes, placed, basePackage, maxDepth)
    modifies nodes`children, nodes`sortedChildren, nodes`childrenMap, nodes`packages
    ensures nodes <= nodes' && fresh(nodes' - nodes)
    ensures Filed(nodes', placed + pkgs, basePackage, maxDepth)
    ensures Routes(nodes') == Routes(nodes) + RoutesFor(pkgs, basePackage, maxDepth)
  {
    nodes' := nodes;
    AppendPrefix(placed, pkgs, 0);
    for k := 0 to |pkgs|
      invariant nodes <= nodes' && fresh(nodes' - nodes)
      invariant Filed(nodes', placed + pkgs[..k], basePackage, maxDepth)
      invariant Routes(nodes') == Routes(nodes) + RoutesFor(pkgs[..k], basePackage, maxDepth)
    {
      ghost var before := nodes';
      nodes' := AddNext(root, pkgs, k, basePackage, maxDepth, nodes', placed);
      PackagesRoutesStep(Routes(nodes), Routes(before), Routes(nodes'), pkgs, k, basePackage, maxDepth);
    }
    AppendPrefix(placed, pkgs, |pkgs|);
  }

  /** The routes after one more package: those before, and the prefixes of its placement. */
  lemma PackagesRoutesStep(start: set<seq<string>>, before: set<seq<string>>, after: set<seq<string>>,
                           pkgs: seq<Package>, k: nat, base: string, maxDepth: int)
    requires k < |pkgs|
    requires before == start + RoutesFor(pkgs[..k], base, maxDepth)
    requires after == before + Prefixes(Placement(pkgs[k].id, base, maxDepth))
    ensures after == start + RoutesFor(pkgs[..k + 1], base, maxDepth)
  {
    RoutesForStep(pkgs, k, base, maxDepth);
  }

  /** One round of `AddPackages`: files `pkgs[k]`. */
  method AddNext(root: DirCluster, pkgs: seq<Package>, k: nat, basePackage: string, maxDepth: int,
                 ghost nodes: set<DirCluster>, ghost placed: seq<Package>)
    returns (ghost nodes': set<DirCluster>)
    requires k < |pkgs|
    requires root in nodes && root.route == [] && Filed(nodes, placed + pkgs[..k], basePackage, maxDepth)
    modifies nodes`children, nodes`sortedChildren, nodes`childrenMap, nodes`packages
    ensures nodes <= nodes' && fresh(nodes' - nodes)
    ensures Filed(nodes', placed + pkgs[..k + 1], basePackage, maxDepth)
    ensures Routes(nodes') == Routes(nodes) + Prefixes(Placement(pkgs[k].id, basePackage, maxDepth))
  {
    AppendPrefix(placed, pkgs, k);
    nodes' := AddPackageToCluster(root, pkgs[k], basePackage, maxDepth, nodes, placed + pkgs[..k]);
  }

  lemma AppendPrefix<T>(a: seq<T>, s: seq<T>, k: nat)
    requires k <= |s|
    ensures k == 0 ==> s[..k] == [] && a + s[..k] == a
    ensures k == |s| ==> s[..k] == s && a + s[..k] == a + s
    ensures k < |s| ==> a + s[..k + 1] == a + s[..k] + [s[k]]
  {
    if k < |s| {
      assert s[..k + 1] == s[..k] + [s[k]];
    }
  }

  /**
   * In a filed tree every package sits in exactly one cluster, the one whose route is
   * its placement, and no cluster holds anything else.
   */
  lemma {:induction false} FiledOnce(nodes: set<DirCluster>, placed: seq<Package>, base: string, maxDepth: int, p: Package)
    requires Filed(nodes, placed, base, maxDepth)
    ensures forall n :: n in nodes ==> (p in n.packages <==> p in placed && n.route == Placement(p.id, base, maxDepth))
    ensures p in placed ==> exists n :: n in nodes && p in n.packages
    ensures forall m, n :: m in nodes && n in nodes && p in m.packages && p in n.packages ==> m == n
  {
    forall n | n in nodes
      ensures p in n.packages <==> p in placed && n.route == Placement(p.id, base, maxDepth)
    {
      PackagesAtMember(placed, p, base, maxDepth, n.route);
    }
    if p in placed {
      var k :| 0 <= k < |placed| && placed[k] == p;
      var n :| n in nodes && n.route == Placement(p.id, base, maxDepth);
      assert p in n.packages;
    }
  }

  /** Two calls of `GetOrCreateChild` with one name: the second returns the first's child and changes nothing. */
  method GetOrCreateTwice(c: DirCluster, name: string, depth: int) returns (first: DirCluster, second: DirCluster)
    requires c.Consistent()
    modifies c`children, c`sortedChildren, c`childrenMap
    ensures first == second
    ensures name in old(c.childrenMap) ==> unchanged(c)
    ensures name !in old(c.childrenMap) ==>
      && c.childrenMap == old(c.childrenMap)[name := first]
      && c.sortedChildren == old(c.sortedChildren) + [name]
      && c.children == old(c.children) + [first]
  {
    first := c.GetOrCreateChild(name, depth);
    second := c.GetOrCreateChild(name, depth);
  }

  // ---------------------------------------------------------------------------
  // GetBasePackage and longestCommonPrefix.

  /**
   * The longest common prefix of `a` and `b`: a prefix of both that either uses up one
   * of them or stops where they differ.
   */
  function Lcp(a: string, b: string): (r: string)
    ensures r <= a && r <= b
    ensures |r| == |a| || |r| == |b| || a[|r|] != b[|r|]
  {
    if a == [] || b == [] || a[0] != b[0] then [] else [a[0]] + Lcp(a[1..], b[1..])
  }

  /** Every common prefix of `a` and `b` is a prefix of `Lcp(a, b)`. */
  lemma {:induction false} LcpGreatest(a: string, b: string, p: string)
    requires p <= a && p <= b
    ensures p <= Lcp(a, b)
  {
    if p != [] {
      assert a[0] == p[0] == b[0];
      LcpGreatest(a[1..], b[1..], p[1..]);
    }
  }

  /** A prefix of both that stops where they differ (or one ends) is `Lcp(a, b)`. */
  lemma {:induction false} LcpAt(a: string, b: string, i: nat)
    requires i <= |a| && i <= |b| && a[..i] == b[..i]
    requires i == |a| || i == |b| || a[i] != b[i]
    ensures Lcp(a, b) == a[..i]
  {
    if i > 0 {
      assert a[0] == a[..i][0] == b[0];
      assert a[1..][..i - 1] == a[1..i] && b[1..][..i - 1] == b[1..i];
      assert a[1..i] == a[..i][1..] && b[1..i] == b[..i][1..];
      LcpAt(a[1..], b[1..], i - 1);
      assert a[..i] == [a[0]] + a[1..i];
    }
  }

  /** `longestCommonPrefix`: compares position by position up to the shorter length. */
  method LongestCommonPrefix(a: string, b: string) returns (r: string)
    ensures r == Lcp(a, b)
  {
    var minLen := |a|;
    if |b| < minLen {
      minLen := |b|;
    }
    for i := 0 to minLen
      invariant a[..i] == b[..i]
    {
      if a[i] != b[i] {
        LcpAt(a, b, i);
        return a[..i];
      }
      assert a[..i + 1] == a[..i] + [a[i]] && b[..i + 1] == b[..i] + [b[i]];
    }
    LcpAt(a, b, minLen);
    return a[..minLen];
  }

  /** The first of the shortest IDs, as the first loop of `GetBasePackage` picks it. */
  function Shortest(ids: seq<string>): (r: string)
    requires ids != []
    ensures r in ids
    ensures forall k :: 0 <= k < |ids| ==> |r| <= |ids[k]|
  {
    if |ids| == 1 then ids[0]
    else Shorter(Shortest(ids[..|ids| - 1]), ids[|ids| - 1])
  }

  /** The loop step: a strictly shorter ID replaces the one found so far. */
  function Shorter(best: string, id: string): string
  {
    if |id| < |best| then id else best
  }

  /** Every ID before the one `Shortest` picks is strictly longer. */
  lemma {:induction false} ShortestFirst(ids: seq<string>)
    requires ids != []
    ensures exists k :: 0 <= k < |ids| && ids[k] == Shortest(ids) && forall j :: 0 <= j < k ==> |ids[j]| > |ids[k]|
  {
    if |ids| == 1 {
      assert ids[0] == Shortest(ids);
    } else {
      var init := ids[..|ids| - 1];
      var last := |ids| - 1;
      assert Shortest(ids) == Shorter(Shortest(init), ids[last]);
      ShortestFirst(init);
      var k :| 0 <= k < |init| && init[k] == Shortest(init) && forall j :: 0 <= j < k ==> |init[j]| > |init[k]|;
      if |ids[last]| < |Shortest(init)| {
        ShorterThanAll(ids, last);
      } else {
        assert ids[k] == init[k];
        forall j | 0 <= j < k ensures |ids[j]| > |ids[k]| {
          assert ids[j] == init[j];
        }
      }
    }
  }

  /** The last ID, strictly shorter than the shortest before it, is shorter than every one of them. */
  lemma ShorterThanAll(ids: seq<string>, last: nat)
    requires last == |ids| - 1 && last > 0
    requires |ids[last]| < |Shortest(ids[..last])|
    ensures Shortest(ids) == ids[last]
    ensures forall j :: 0 <= j < last ==> |ids[j]| > |ids[last]|
  {
    var init := ids[..last];
    assert Shortest(ids) == Shorter(Shortest(init), ids[last]);
    forall j | 0 <= j < last ensures |ids[j]| > |ids[last]| {
      assert ids[j] == init[j];
    }
  }

  /** The common prefix of `p` and every one of `ids`, folded left to right. */
  function CommonPrefix(p: string, ids: seq<string>): (r: string)
    ensures r <= p
    ensures forall k :: 0 <= k < |ids| ==> r <= ids[k]
  {
    if ids == [] then p
    else
      var r := Lcp(CommonPrefix(p, ids[..|ids| - 1]), ids[|ids| - 1]);
      PrefixTrans(r, CommonPrefix(p, ids[..|ids| - 1]), p);
      assert forall k :: 0 <= k < |ids| - 1 ==> ids[k] == ids[..|ids| - 1][k];
      forall k | 0 <= k < |ids| - 1 ensures r <= ids[k] {
        PrefixTrans(r, CommonPrefix(p, ids[..|ids| - 1]), ids[k]);
      }
      r
  }

  lemma PrefixTrans(a: string, b: string, c: string)
    requires a <= b && b <= c
    ensures a <= c
  {
  }

  /** `CommonPrefix` is the longest string that is a prefix of `p` and of every ID. */
  lemma {:induction false} CommonPrefixGreatest(p: string, ids: seq<string>, q: string)
    requires q <= p && forall k :: 0 <= k < |ids| ==> q <= ids[k]
    ensures q <= CommonPrefix(p, ids)
  {
    if ids != [] {
      var init := ids[..|ids| - 1];
      assert forall k :: 0 <= k < |init| ==> init[k] == ids[k];
      CommonPrefixGreatest(p, init, q);
      LcpGreatest(CommonPrefix(p, init), ids[|ids| - 1], q);
    }
  }

  /** Once the common prefix is empty it stays empty: the loop may stop there. */
  lemma {:induction false} CommonPrefixStaysEmpty(p: string, ids: seq<string>, i: nat)
    requires i <= |ids| && CommonPrefix(p, ids[..i]) == ""
    ensures CommonPrefix(p, ids) == ""
  {
    var c := CommonPrefix(p, ids);
    forall k | 0 <= k < |ids[..i]| ensures c <= ids[..i][k] {
      assert ids[..i][k] == ids[k];
    }
    CommonPrefixGreatest(p, ids[..i], c);
  }

  /** `s` has a `/` somewhere after its first character. */
  predicate HasInnerSlash(s: string)
  {
    exists i :: 0 < i < |s| && s[i] == '/'
  }

  /** "Trim to last complete path component": cut at the last `/` when it is not the first character. */
  function TrimToComponent(cp: string): (r: string)
    ensures r <= cp
    ensures r == cp <==> !HasInnerSlash(cp)
    ensures r != cp ==> r != "" && r + "/" <= cp && '/' !in cp[|r| + 1..]
  {
    var idx := LastIndexOf(cp, '/');
    if idx > 0 then
      assert cp[..idx] + "/" == cp[..idx + 1];
      assert HasInnerSlash(cp);
      cp[..idx]
    else
      assert forall i :: 0 < i < |cp| ==> cp[i] in cp;
      cp
  }

  /** What `GetBasePackage` returns for the IDs of the graph's sorted nodes. */
  function BasePackageOf(ids: seq<string>): string
  {
    if ids == [] then ""
    else if |ids| == 1 then Shortest(ids)
    else if TrimToComponent(CommonPrefix(Shortest(ids), ids[1..])) != "" then
      TrimToComponent(CommonPrefix(Shortest(ids), ids[1..]))
    else Shortest(ids)
  }

  /**
   * The base package is the shortest ID, or else a non-empty prefix of the shortest ID
   * that is a prefix of every ID after the first: the common prefix cut just before its
   * last `/` when that `/` is not its first character, and the whole common prefix otherwise.
   */
  lemma BasePackageBounds(ids: seq<string>)
    requires ids != []
    ensures var b := BasePackageOf(ids);
      || b == Shortest(ids)
      || (&& b != ""
          && b <= Shortest(ids)
          && (forall k :: 1 <= k < |ids| ==> b <= ids[k])
          && (HasInnerSlash(CommonPrefix(Shortest(ids), ids[1..])) ==>
                b + "/" <= CommonPrefix(Shortest(ids), ids[1..])
                && '/' !in CommonPrefix(Shortest(ids), ids[1..])[|b| + 1..])
          && (!HasInnerSlash(CommonPrefix(Shortest(ids), ids[1..])) ==>
                b == CommonPrefix(Shortest(ids), ids[1..])))
  {
    if |ids| > 1 {
      var rest := ids[1..];
      var cp := CommonPrefix(Shortest(ids), rest);
      var b := TrimToComponent(cp);
      if b != "" {
        forall k | 1 <= k < |ids| ensures b <= ids[k] {
          assert rest[k - 1] == ids[k];
          PrefixTrans(b, cp, ids[k]);
        }
        PrefixTrans(b, cp, Shortest(ids));
      }
    }
  }

  /** When the first ID is a shortest one, every ID starts with the base package unless that is the shortest ID. */
  lemma BasePackageCommon(ids: seq<string>)
    requires ids != [] && |ids[0]| <= |Shortest(ids)|
    ensures Shortest(ids) == ids[0]
    ensures BasePackageOf(ids) == ids[0] || forall k :: 0 <= k < |ids| ==> BasePackageOf(ids) <= ids[k]
  {
    ShortestFirst(ids);
    var k :| 0 <= k < |ids| && ids[k] == Shortest(ids) && forall j :: 0 <= j < k ==> |ids[j]| > |ids[k]|;
    assert k == 0;
    BasePackageBounds(ids);
  }

  /** The first ID is only compared by length: here the base package is not a prefix of it. */
  lemma FirstIdSkipped()
    ensures BasePackageOf(["a/zzzz", "b/c", "b/c/d"]) == "b"
    ensures !("b" <= "a/zzzz")
  {
    var ids := ["a/zzzz", "b/c", "b/c/d"];
    assert Shortest(ids[..2]) == "b/c";
    assert Shortest(ids) == "b/c";
    assert ids[1..] == ["b/c", "b/c/d"];
    assert Lcp("b/c", "b/c") == "b/c";
    assert Lcp("b/c", "b/c/d") == "b/c";
    assert CommonPrefix("b/c", ["b/c"]) == "b/c";
    assert CommonPrefix("b/c", ["b/c", "b/c/d"]) == "b/c";
    assert LastIndexOf("b/c", '/') == 1;
  }

  /**
   * `GetBasePackage`: the shortest ID, replaced by the common prefix of it and the IDs
   * after the first (cut at its last `/`) when that is not empty.
   */
  method GetBasePackage(ids: seq<string>) returns (basePackage: string)
    ensures basePackage == BasePackageOf(ids)
  {
    if |ids| == 0 {
      return "";
    }
    basePackage := ShortestId(ids);
    if |ids| > 1 {
      var commonPrefix := CommonPrefixOf(basePackage, ids[1..]);
      ghost var folded := commonPrefix;
      var idx := LastIndexOf(commonPrefix, '/');
      if idx > 0 {
        commonPrefix := commonPrefix[..idx];
      }
      assert commonPrefix == TrimToComponent(folded);
      if commonPrefix != "" {
        basePackage := commonPrefix;
      }
    }
  }

  /** The first loop of `GetBasePackage`. */
  method ShortestId(ids: seq<string>) returns (best: string)
    requires ids != []
    ensures best == Shortest(ids)
  {
    best := ids[0];
    for i := 0 to |ids|
      invariant best == if i == 0 then ids[0] else Shortest(ids[..i])
    {
      assert ids[..i + 1][..i] == ids[..i];
      if |ids[i]| < |best| {
        best := ids[i];
      }
    }
    assert ids[..|ids|] == ids;
  }

  /** The second loop of `GetBasePackage`, which stops once the prefix is empty. */
  method CommonPrefixOf(p: string, ids: seq<string>) returns (commonPrefix: string)
    ensures commonPrefix == CommonPrefix(p, ids)
  {
    commonPrefix := p;
    for i := 0 to |ids|
      invariant commonPrefix == CommonPrefix(p, ids[..i])
    {
      assert ids[..i + 1][..i] == ids[..i];
      commonPrefix := LongestCommonPrefix(commonPrefix, ids[i]);
      if commonPrefix == "" {
        CommonPrefixStaysEmpty(p, ids, i + 1);
        return;
      }
    }
    assert ids[..|ids|] == ids;
  }
}
