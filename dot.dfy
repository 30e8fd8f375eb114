/**
 * The Graphviz writer's directory-cluster output: the label and colour rules, the
 * choice of layout, and the nested `subgraph` blocks written for a clustered tree.
 * The output is a sequence of lines; `Fprintf` calls that end in `\n` append one line,
 * `"%s}\n\n"` appends the closing line and an empty one.
 */
module Dot {
  import opened Wrappers
  import opened Strings
  import opened DirTree

  // ---------------------------------------------------------------------------
  // Options and opaque renderers.

  /** The fields of `Dot` that the directory-cluster writer consults. */
  datatype Options = Options(
    clusters: bool,
    clusterByDir: bool,
    clusterDepth: int,
    clusterColors: bool,
    nocolor: bool)

  /**
   * Text the writer takes from code outside this model, per graph node ID: `pkgID`,
   * the template label, the `href=...` attribute and `colorOf`.
   */
  datatype Render = Render(
    idOf: string -> string,
    labelOf: string -> string,
    refOf: string -> string,
    colorOf: string -> string)

  /** A node of the package graph: its ID and the IDs it imports. */
  datatype GraphNode = GraphNode(id: string, imports: seq<string>)

  /** The IDs of `graph.Sorted`, in order. */
  function Ids(graph: seq<GraphNode>): (r: seq<string>)
    ensures |r| == |graph|
    ensures forall k :: 0 <= k < |graph| ==> r[k] == graph[k].id
  {
    if graph == [] then [] else [graph[0].id] + Ids(graph[1..])
  }

  // ---------------------------------------------------------------------------
  // The `Write` dispatch.

  datatype Layout = DirectoryClusters | ModuleClusters | Regular

  /** `Write`: directory clusters, module clusters or the plain graph. */
  function LayoutOf(opts: Options): (l: Layout)
    ensures l == DirectoryClusters <==> opts.clusters && opts.clusterByDir
    ensures l == ModuleClusters <==> opts.clusters && !opts.clusterByDir
    ensures l == Regular <==> !opts.clusters
  {
    if opts.clusters then
      if opts.clusterByDir then DirectoryClusters else ModuleClusters
    else Regular
  }

  // ---------------------------------------------------------------------------
  // ModuleLabel.

  /** A module version: a path and a possibly empty version. */
  datatype ModVersion = ModVersion(path: string, version: string)

  /** A module of the package tree: its version, whether it is local, and its replacement. */
  datatype TreeModule = TreeModule(mod: ModVersion, local: bool, replace: Option<ModVersion>)

  /** `"@" + version`, or nothing for an empty version. */
  function AtVersion(version: string): (r: string)
    ensures version == "" ==> r == ""
    ensures version != "" ==> |r| == |version| + 1 && r[0] == '@' && r[1..] == version
  {
    if version == "" then "" else "@" + version
  }

  /**
   * The label of a module: its path, its version, a local marker, and the replacement
   * after `=>` and a Graphviz line break (a backslash and an `n`).
   */
  function ModuleLabelOf(m: TreeModule): (r: string)
    ensures m.mod.path <= r
    ensures |r| == |m.mod.path| + |AtVersion(m.mod.version)| + (if m.local then 8 else 0)
      + (if m.replace.Some? then 5 + |m.replace.value.path| + |AtVersion(m.replace.value.version)| else 0)
  {
    m.mod.path + AtVersion(m.mod.version)
      + (if m.local then " (local)" else "")
      + (match m.replace
         case None => ""
         case Some(rep) => " =>\\n" + rep.path + AtVersion(rep.version))
  }

  /** A module with no version, not local and not replaced is labelled by its path alone. */
  lemma ModuleLabelPlain(m: TreeModule)
    requires m.mod.version == "" && !m.local && m.replace == None
    ensures ModuleLabelOf(m) == m.mod.path
  {
  }

  /** `ModuleLabel`: the label built up by successive appends. */
  method ModuleLabel(m: TreeModule) returns (lbl: string)
    ensures lbl == ModuleLabelOf(m)
  {
    lbl := m.mod.path;
    if m.mod.version != "" {
      lbl := lbl + "@" + m.mod.version;
    }
    assert lbl == m.mod.path + AtVersion(m.mod.version);
    if m.local {
      lbl := lbl + " (local)";
    }
    ghost var front := lbl;
    if m.replace.Some? {
      var rep := m.replace.value;
      lbl := lbl + " =>\\n" + rep.path;
      if rep.version != "" {
        lbl := lbl + "@" + rep.version;
      }
      assert lbl == front + (" =>\\n" + rep.path + AtVersion(rep.version));
    }
  }

  // ---------------------------------------------------------------------------
  // Cluster colours.

  const BgColors: seq<string> :=
    ["#E8F4F8", "#D4E6F1", "#AED6F1", "#85C1E9", "#5DADE2", "#3498DB", "#2E86C1", "#2874A6"]

  const BorderColors: seq<string> :=
    ["#5DADE2", "#3498DB", "#2E86C1", "#1F618D", "#154360"]

  /** Go's `%` for a positive divisor: truncates toward zero, so the remainder has the sign of `a`. */
  function GoRem(a: int, n: int): (r: int)
    requires n > 0
    ensures -n < r < n
    ensures a >= 0 ==> r == a % n
    ensures a < 0 ==> r <= 0 && -r == (-a) % n
  {
    if a >= 0 then a % n else -((-a) % n)
  }

  /** Whether the palettes are consulted at all. */
  predicate ColorsOn(opts: Options)
  {
    opts.clusterColors && !opts.nocolor
  }

  /** Both palette indices are in bounds (Go panics on a negative one). */
  predicate ColorsInBounds(opts: Options, depth: int)
  {
    ColorsOn(opts) ==> GoRem(depth, |BgColors|) >= 0 && GoRem(depth, |BorderColors|) >= 0
  }

  /**
   * `getClusterColorsForDepth`: no colours when cluster colours are off or colour is
   * disabled, otherwise the palette entries at the depth modulo each palette's length.
   */
  function ClusterColors(opts: Options, depth: int): (r: (string, string))
    requires ColorsInBounds(opts, depth)
    ensures !ColorsOn(opts) ==> r == ("", "")
    ensures ColorsOn(opts) ==> r.0 == BgColors[GoRem(depth, 8)] && r.1 == BorderColors[GoRem(depth, 5)]
    ensures r.0 != "" <==> ColorsOn(opts)
    ensures r.1 != "" <==> ColorsOn(opts)
  {
    if !ColorsOn(opts) then ("", "")
    else (BgColors[GoRem(depth, |BgColors|)], BorderColors[GoRem(depth, |BorderColors|)])
  }

  /** Every depth from zero on has colours in bounds, and they repeat every 40 levels. */
  lemma ColorsPeriodic(opts: Options, depth: int)
    requires depth >= 0
    ensures ColorsInBounds(opts, depth) && ColorsInBounds(opts, depth + 40)
    ensures ClusterColors(opts, depth + 40) == ClusterColors(opts, depth)
    ensures ColorsOn(opts) ==> ClusterColors(opts, depth) == (BgColors[depth % 8], BorderColors[depth % 5])
  {
    assert (depth + 40) % 8 == depth % 8;
    assert (depth + 40) % 5 == depth % 5;
  }

  // ---------------------------------------------------------------------------
  // The naming rules of writeDirCluster.

  /** The subgraph name: `cluster_` and the path with every `/` and `.` turned into `_`. */
  function ClusterName(path: string): (r: string)
    ensures |r| == |path| + 8 && r[..8] == "cluster_"
    ensures '/' !in r && '.' !in r
    ensures forall k :: 0 <= k < |path| ==> r[k + 8] == if path[k] == '/' || path[k] == '.' then '_' else path[k]
  {
    var r := "cluster_" + ReplaceChar(ReplaceChar(path, '/', '_'), '.', '_');
    assert forall k :: 0 <= k < |r| ==> r[k] != '/' && r[k] != '.' by {
      forall k | 0 <= k < |r| ensures r[k] != '/' && r[k] != '.' {
        if k >= 8 {
          assert r[k] == ReplaceChar(ReplaceChar(path, '/', '_'), '.', '_')[k - 8];
        }
      }
    }
    r
  }

  /** The label: the path after its last `/`, or the whole path when it has none. */
  function DisplayName(path: string): (r: string)
    ensures '/' !in r
    ensures '/' !in path ==> r == path
    ensures '/' in path ==> exists i :: 0 <= i < |path| && path[i] == '/' && path[i + 1..] == r
  {
    var idx := LastIndexOf(path, '/');
    if idx >= 0 then path[idx + 1..] else path
  }

  /** `max(8, 14 - depth)`. */
  function FontSize(depth: int): (r: int)
    ensures r >= 8 && r >= 14 - depth
    ensures r == 8 || r == 14 - depth
    ensures depth >= 0 ==> r <= 14
  {
    if 14 - depth < 8 then 8 else 14 - depth
  }

  // ---------------------------------------------------------------------------
  // The lines of a directory cluster.

  /** The line `writeDirCluster` and `WriteDirectoryClusters` write for a package. */
  function NodeLine(render: Render, indent: string, id: string): (r: string)
    ensures indent + "    " <= r
    ensures |r| >= 2 && r[|r| - 2..] == "];"
  {
    indent + "    " + render.idOf(id) + " [label=\"" + render.labelOf(id) + "\" "
      + render.refOf(id) + " " + render.colorOf(id) + "];"
  }

  /** One node line per package, in order. */
  function PackageLines(render: Render, indent: string, pkgs: seq<Package>): (r: seq<string>)
    ensures |r| == |pkgs|
    ensures forall k :: 0 <= k < |pkgs| ==> r[k] == NodeLine(render, indent, pkgs[k].id)
  {
    if pkgs == [] then [] else PackageLines(render, indent, pkgs[..|pkgs| - 1]) + [NodeLine(render, indent, pkgs[|pkgs| - 1].id)]
  }

  /** The line that opens a cluster's subgraph. */
  function OpenLine(indent: string, path: string): string
  {
    indent + "subgraph " + Quote(ClusterName(path)) + " {"
  }

  /**
   * The attributes `writeDirCluster` sets for a cluster, in order, each written on a line
   * of its own at four more spaces and followed by `;`: the label, the fill style, the
   * colours when there are any and the pen width, then the font, the default node style
   * unless colour is off, and a margin when the cluster has children.
   */
  function Attributes(opts: Options, path: string, depth: int, hasChildren: bool): seq<string>
    requires ColorsInBounds(opts, depth - 1)
  {
    StyleAttributes(opts, path, depth) + FontAttributes(opts, depth, hasChildren)
  }

  function StyleAttributes(opts: Options, path: string, depth: int): seq<string>
    requires ColorsInBounds(opts, depth - 1)
  {
    var colors := ClusterColors(opts, depth - 1);
    ["label=\"" + DisplayName(path) + "\"", "style=filled"]
    + (if colors.0 != "" then ["fillcolor=\"" + colors.0 + "\""] else [])
    + (if colors.1 != "" then ["color=\"" + colors.1 + "\""] else [])
    + ["penwidth=2"]
  }

  function FontAttributes(opts: Options, depth: int, hasChildren: bool): seq<string>
  {
    ["fontsize=" + NatToString(FontSize(depth)), "fontname=\"Helvetica-Bold\""]
    + (if !opts.nocolor then ["node [style=filled,fillcolor=white]"] else [])
    + (if hasChildren then ["margin=20"] else [])
  }

  /** One attribute line per attribute, at `indent` plus four spaces. */
  function AttributeLines(indent: string, attrs: seq<string>): seq<string>
  {
    seq(|attrs|, k requires 0 <= k < |attrs| => indent + "    " + attrs[k] + ";")
  }

  /** The opening line and the attribute lines of a cluster, up to the empty line after them. */
  function HeaderLines(indent: string, path: string, attrs: seq<string>): seq<string>
  {
    [OpenLine(indent, path)] + AttributeLines(indent, attrs) + [""]
  }

  /**
   * A cluster as `writeDirCluster` sees it, with the tree below it: its path, depth,
   * packages and the children in their sorted order.
   */
  datatype Block = Block(path: string, depth: Level, packages: seq<Package>, kids: seq<Block>)

  /** The depth of a cluster below the root. */
  type Level = d: int | d >= 1 witness 1

  /**
   * Everything `writeDirCluster` writes for a cluster at `indent`: the header, the packages,
   * an empty line between packages and children when there are both, the children at
   * four more spaces, and the closing brace followed by an empty line.
   */
  function BlockLines(opts: Options, render: Render, b: Block, indent: string): seq<string>
    decreases b, 1
  {
    HeadLines(opts, render, b, indent) + KidsLines(opts, render, b.kids, indent + "    ") + [indent + "}", ""]
  }

  /** What `writeDirCluster` writes before the children: header, packages and separator. */
  function HeadLines(opts: Options, render: Render, b: Block, indent: string): seq<string>
  {
    HeaderLines(indent, b.path, Attributes(opts, b.path, b.depth, |b.kids| > 0))
    + PackageLines(render, indent, b.packages)
    + (if |b.packages| > 0 && |b.kids| > 0 then [""] else [])
  }

  /** The lines of several clusters written one after the other at `indent`. */
  function KidsLines(opts: Options, render: Render, kids: seq<Block>, indent: string): seq<string>
    decreases kids, 0
  {
    if kids == [] then []
    else KidsLines(opts, render, kids[..|kids| - 1], indent) + BlockLines(opts, render, kids[|kids| - 1], indent)
  }

  /** The tree below `dc` as a value. */
  ghost function Snap(dc: DirCluster, nodes: set<DirCluster>): (b: Block)
    requires dc in nodes && WellFormed(nodes) && dc.depth >= 1
    reads nodes
    ensures b.path == dc.path && b.depth == dc.depth && b.packages == dc.packages
    ensures |b.kids| == |dc.children|
    decreases |Subtree(dc, nodes)|, 1
  {
    Block(dc.path, dc.depth, dc.packages,
          seq(|dc.children|, i requires 0 <= i < |dc.children| && dc in nodes && WellFormed(nodes) && dc.depth >= 1
                                reads nodes =>
            KidSnap(dc, i, nodes)))
  }

  /** The snapshot of the `i`-th child of `dc`. */
  ghost function KidSnap(dc: DirCluster, i: nat, nodes: set<DirCluster>): Block
    requires dc in nodes && WellFormed(nodes) && dc.depth >= 0 && i < |dc.children|
    reads nodes
    decreases |Subtree(dc, nodes)|, 0
  {
    Snap(Kid(dc, i, nodes), nodes)
  }

  /**
   * `b` has the shape of the tree below `dc`: the same path, depth and packages at every
   * cluster, and the children in the same order.
   */
  ghost predicate Mirror(b: Block, dc: DirCluster, nodes: set<DirCluster>)
    requires dc in nodes
    reads nodes
    decreases b
  {
    && b.path == dc.path && b.depth == dc.depth && b.packages == dc.packages
    && |b.kids| == |dc.children|
    && forall i :: 0 <= i < |b.kids| ==> dc.children[i] in nodes && Mirror(b.kids[i], dc.children[i], nodes)
  }

  /** Each block of `kids` has the shape of the tree below the cluster at its position in `dcs`. */
  ghost predicate Mirrors(kids: seq<Block>, dcs: seq<DirCluster>, nodes: set<DirCluster>)
    reads nodes
  {
    |kids| == |dcs| && forall i :: 0 <= i < |kids| ==> dcs[i] in nodes && Mirror(kids[i], dcs[i], nodes)
  }

  /** The snapshot has the shape of the tree. */
  lemma {:induction false} SnapMirror(dc: DirCluster, nodes: set<DirCluster>)
    requires dc in nodes && WellFormed(nodes) && dc.depth >= 1
    ensures Mirror(Snap(dc, nodes), dc, nodes)
    decreases |Subtree(dc, nodes)|
  {
    var b := Snap(dc, nodes);
    forall i | 0 <= i < |b.kids| ensures dc.children[i] in nodes && Mirror(b.kids[i], dc.children[i], nodes) {
      var kid := Kid(dc, i, nodes);
      assert b.kids[i] == KidSnap(dc, i, nodes) == Snap(kid, nodes);
      SnapMirror(kid, nodes);
    }
  }

  /** The snapshots of the children of `dc`, a cluster at the root or below it. */
  ghost function KidsSnap(dc: DirCluster, nodes: set<DirCluster>): (kids: seq<Block>)
    requires dc in nodes && WellFormed(nodes) && dc.depth >= 0
    reads nodes
    ensures Mirrors(kids, dc.children, nodes)
  {
    var kids := seq(|dc.children|, i requires 0 <= i < |dc.children| && dc in nodes && WellFormed(nodes) && dc.depth >= 0
                                      reads nodes =>
                      Snap(Kid(dc, i, nodes), nodes));
    SnapsMirror(dc, nodes, kids);
    kids
  }

  lemma SnapsMirror(dc: DirCluster, nodes: set<DirCluster>, kids: seq<Block>)
    requires dc in nodes && WellFormed(nodes) && dc.depth >= 0 && |kids| == |dc.children|
    requires forall i :: 0 <= i < |kids| ==> kids[i] == Snap(Kid(dc, i, nodes), nodes)
    ensures Mirrors(kids, dc.children, nodes)
  {
    forall i | 0 <= i < |kids| ensures dc.children[i] in nodes && Mirror(kids[i], dc.children[i], nodes) {
      SnapMirror(Kid(dc, i, nodes), nodes);
    }
  }

  /** Only one block has the shape of a given tree. */
  lemma {:induction false} MirrorUnique(b: Block, b': Block, dc: DirCluster, nodes: set<DirCluster>)
    requires dc in nodes && Mirror(b, dc, nodes) && Mirror(b', dc, nodes)
    ensures b == b'
    decreases b
  {
    forall i | 0 <= i < |b.kids| ensures b.kids[i] == b'.kids[i] {
      MirrorUnique(b.kids[i], b'.kids[i], dc.children[i], nodes);
    }
  }

  /** The `i`-th child of `dc`: a cluster of the tree one level down, with a smaller subtree. */
  ghost function Kid(dc: DirCluster, i: nat, nodes: set<DirCluster>): (kid: DirCluster)
    requires dc in nodes && WellFormed(nodes) && i < |dc.children|
    reads nodes
    ensures kid == dc.children[i] && kid in nodes && kid.depth == dc.depth + 1
    ensures |Subtree(kid, nodes)| < |Subtree(dc, nodes)|
  {
    KidAt(dc, i, nodes);
    dc.children[i]
  }

  /** A cluster below the root has colours in bounds. */
  lemma KidInBounds(opts: Options, depth: int)
    requires depth >= 1
    ensures ColorsInBounds(opts, depth - 1)
  {
  }

  // ---------------------------------------------------------------------------
  // Brace nesting of the output.

  /** +1 for a line ending in `{`, -1 for one ending in `}`, 0 otherwise. */
  function Weight(line: string): int
  {
    if line != "" && line[|line| - 1] == '{' then 1
    else if line != "" && line[|line| - 1] == '}' then -1
    else 0
  }

  /** Opened minus closed braces over `lines`. */
  function Balance(lines: seq<string>): int
  {
    if lines == [] then 0 else Balance(lines[..|lines| - 1]) + Weight(lines[|lines| - 1])
  }

  /** The braces of `lines` are properly nested: never more closed than opened, all closed at the end. */
  ghost predicate Nested(lines: seq<string>)
  {
    Balance(lines) == 0 && forall k :: 0 <= k <= |lines| ==> Balance(lines[..k]) >= 0
  }

  /** No line opens or closes a brace. */
  ghost predicate Flat(lines: seq<string>)
  {
    forall k :: 0 <= k < |lines| ==> Weight(lines[k]) == 0
  }

  /** Every line is empty or starts with `indent`. */
  ghost predicate Indented(lines: seq<string>, indent: string)
  {
    forall k :: 0 <= k < |lines| ==> lines[k] == "" || indent <= lines[k]
  }

  lemma {:induction false} BalanceAppend(a: seq<string>, b: seq<string>)
    ensures Balance(a + b) == Balance(a) + Balance(b)
    decreases |b|
  {
    if b != [] {
      var b0 := b[..|b| - 1];
      assert (a + b)[..|a + b| - 1] == a + b0;
      assert (a + b)[|a + b| - 1] == b[|b| - 1];
      BalanceAppend(a, b0);
    } else {
      assert a + b == a;
    }
  }

  lemma {:induction false} FlatBalance(lines: seq<string>)
    requires Flat(lines)
    ensures Balance(lines) == 0
  {
    if lines != [] {
      var init := lines[..|lines| - 1];
      assert forall k :: 0 <= k < |init| ==> init[k] == lines[k];
      FlatBalance(init);
    }
  }

  lemma FlatNested(lines: seq<string>)
    requires Flat(lines)
    ensures Nested(lines)
  {
    FlatBalance(lines);
    forall k | 0 <= k <= |lines| ensures Balance(lines[..k]) >= 0 {
      assert forall j :: 0 <= j < k ==> lines[..k][j] == lines[j];
      FlatBalance(lines[..k]);
    }
  }

  lemma NestedAppend(a: seq<string>, b: seq<string>)
    requires Nested(a) && Nested(b)
    ensures Nested(a + b)
  {
    BalanceAppend(a, b);
    forall k | 0 <= k <= |a + b| ensures Balance((a + b)[..k]) >= 0 {
      if k <= |a| {
        assert (a + b)[..k] == a[..k];
      } else {
        assert (a + b)[..k] == a + b[..k - |a|];
        BalanceAppend(a, b[..k - |a|]);
      }
    }
  }

  /** A nested block between an opening and a closing line is nested. */
  lemma Wrap(open: string, body: seq<string>, close: string)
    requires Weight(open) == 1 && Weight(close) == -1 && Nested(body)
    ensures Nested([open] + body + [close])
  {
    var w := [open] + body + [close];
    BalanceAppend([open], body);
    BalanceAppend([open] + body, [close]);
    assert Balance([open]) == 1 by { assert [open][..0] == []; }
    assert Balance([close]) == -1 by { assert [close][..0] == []; }
    forall k | 0 <= k <= |w| ensures Balance(w[..k]) >= 0 {
      if k == 0 {
        assert w[..k] == [];
      } else if k <= |body| + 1 {
        assert w[..k] == [open] + body[..k - 1];
        BalanceAppend([open], body[..k - 1]);
      } else {
        assert w[..k] == w;
      }
    }
  }

  lemma IndentedAppend(a: seq<string>, b: seq<string>, indent: string)
    requires Indented(a, indent) && Indented(b, indent)
    ensures Indented(a + b, indent)
  {
  }

  lemma FlatAppend(a: seq<string>, b: seq<string>)
    requires Flat(a) && Flat(b)
    ensures Flat(a + b)
  {
  }

  /** A longer indent implies the shorter one. */
  lemma IndentedDeeper(lines: seq<string>, indent: string)
    requires Indented(lines, indent + "    ")
    ensures Indented(lines, indent)
  {
    forall k | 0 <= k < |lines| ensures lines[k] == "" || indent <= lines[k] {
      if lines[k] != "" {
        assert indent <= indent + "    ";
      }
    }
  }

  /** A line ending in `;` neither opens nor closes a brace. */
  lemma SemicolonLine(indent: string, text: string)
    ensures Weight(indent + "    " + text + ";") == 0
    ensures indent <= indent + "    " + text + ";"
  {
    var line := indent + "    " + text + ";";
    assert line[|line| - 1] == ';';
  }

  lemma AttributeLinesShape(indent: string, attrs: seq<string>)
    ensures Flat(AttributeLines(indent, attrs)) && Indented(AttributeLines(indent, attrs), indent)
  {
    var r := AttributeLines(indent, attrs);
    forall k | 0 <= k < |r| ensures Weight(r[k]) == 0 && indent <= r[k] {
      SemicolonLine(indent, attrs[k]);
    }
  }

  lemma AttributeLinesSnoc(indent: string, attrs: seq<string>, text: string)
    ensures AttributeLines(indent, attrs + [text]) == AttributeLines(indent, attrs) + [indent + "    " + text + ";"]
  {
    var l := AttributeLines(indent, attrs + [text]);
    var r := AttributeLines(indent, attrs) + [indent + "    " + text + ";"];
    assert forall k :: 0 <= k < |attrs| ==> (attrs + [text])[k] == attrs[k];
    assert forall k :: 0 <= k < |l| ==> l[k] == r[k];
  }

  lemma AttributeLinesAppend(indent: string, a: seq<string>, b: seq<string>)
    ensures AttributeLines(indent, a + b) == AttributeLines(indent, a) + AttributeLines(indent, b)
  {
    var l := AttributeLines(indent, a + b);
    var r := AttributeLines(indent, a) + AttributeLines(indent, b);
    assert forall k :: 0 <= k < |l| ==> l[k] == r[k];
  }

  /** Writing the style and then the font attributes writes the attributes of a cluster. */
  lemma HeaderSplit(before: seq<string>, indent: string, path: string, style: seq<string>, font: seq<string>)
    ensures before + [OpenLine(indent, path)] + AttributeLines(indent, style) + AttributeLines(indent, font) + [""]
      == before + HeaderLines(indent, path, style + font)
  {
    AttributeLinesAppend(indent, style, font);
  }

  /** The header opens one brace on its first line, at `indent`; the rest is flat. */
  lemma HeaderShape(indent: string, path: string, attrs: seq<string>)
    ensures var h := HeaderLines(indent, path, attrs);
      && h != [] && h[0] == OpenLine(indent, path) && Weight(h[0]) == 1
      && Flat(h[1..]) && Indented(h, indent)
  {
    var a := AttributeLines(indent, attrs);
    AttributeLinesShape(indent, attrs);
    var h := HeaderLines(indent, path, attrs);
    assert h[1..] == a + [""];
    var o := OpenLine(indent, path);
    assert o[|o| - 1] == '{';
  }

  /** The margin attribute is set exactly when the cluster has children. */
  lemma MarginIffChildren(opts: Options, path: string, depth: int, hasChildren: bool)
    requires ColorsInBounds(opts, depth - 1)
    ensures "margin=20" in Attributes(opts, path, depth, hasChildren) <==> hasChildren
  {
    var a := Attributes(opts, path, depth, hasChildren);
    if !hasChildren {
      forall k | 0 <= k < |a| ensures a[k][0] != 'm' {
      }
    }
  }

  lemma PackageLinesShape(render: Render, indent: string, pkgs: seq<Package>)
    ensures Flat(PackageLines(render, indent, pkgs))
    ensures Indented(PackageLines(render, indent, pkgs), indent + "    ")
  {
    var p := PackageLines(render, indent, pkgs);
    forall k | 0 <= k < |p| ensures Weight(p[k]) == 0 {
      assert p[k][|p[k]| - 1] == p[k][|p[k]| - 2..][1];
    }
  }

  /** The head of a cluster opens one brace on its first line; the rest of it is flat. */
  lemma HeadShape(opts: Options, render: Render, b: Block, indent: string)
    ensures var h := HeadLines(opts, render, b, indent);
      && h != [] && h[0] == OpenLine(indent, b.path) && Weight(h[0]) == 1
      && Flat(h[1..]) && Indented(h, indent)
  {
    var sep: seq<string> := if |b.packages| > 0 && |b.kids| > 0 then [""] else [];
    HeadPartsShape(indent, b.path, Attributes(opts, b.path, b.depth, |b.kids| > 0), render, b.packages, sep);
  }

  /** A header, package lines and a separator of empty lines make a head. */
  lemma HeadPartsShape(indent: string, path: string, attrs: seq<string>, render: Render, pkgs: seq<Package>,
                       sep: seq<string>)
    requires forall k :: 0 <= k < |sep| ==> sep[k] == ""
    ensures var h := HeaderLines(indent, path, attrs) + PackageLines(render, indent, pkgs) + sep;
      && h != [] && h[0] == OpenLine(indent, path) && Weight(h[0]) == 1
      && Flat(h[1..]) && Indented(h, indent)
  {
    var h := HeaderLines(indent, path, attrs);
    var p := PackageLines(render, indent, pkgs);
    HeaderShape(indent, path, attrs);
    PackageLinesShape(render, indent, pkgs);
    IndentedDeeper(p, indent);
    assert Flat(sep) && Indented(sep, indent);
    HeadAppend(h, p, sep, indent);
  }

  lemma HeadAppend(h: seq<string>, p: seq<string>, sep: seq<string>, indent: string)
    requires h != [] && Flat(h[1..]) && Indented(h, indent)
    requires Flat(p) && Indented(p, indent) && Flat(sep) && Indented(sep, indent)
    ensures var x := h + p + sep; x != [] && x[0] == h[0] && Flat(x[1..]) && Indented(x, indent)
  {
    FlatAppend(h[1..], p);
    FlatAppend(h[1..] + p, sep);
    IndentedAppend(h, p, indent);
    IndentedAppend(h + p, sep, indent);
    assert (h + p + sep)[1..] == h[1..] + p + sep;
  }

  /**
   * A head that opens one brace and is otherwise flat, nested children and a closing
   * brace make a nested block that keeps to the head's indent.
   */
  lemma Assemble(h: seq<string>, c: seq<string>, indent: string)
    requires h != [] && Weight(h[0]) == 1 && Flat(h[1..]) && Indented(h, indent)
    requires Nested(c) && Indented(c, indent)
    ensures var lines := h + c + [indent + "}", ""];
      && Nested(lines) && Indented(lines, indent) && |lines| >= 3
      && lines[0] == h[0] && lines[|lines| - 2] == indent + "}" && lines[|lines| - 1] == ""
  {
    var close := indent + "}";
    var lines := h + c + [close, ""];
    FlatNested(h[1..]);
    NestedAppend(h[1..], c);
    assert close[|close| - 1] == '}';
    Wrap(h[0], h[1..] + c, close);
    assert lines == ([h[0]] + (h[1..] + c) + [close]) + [""];
    FlatNested([""]);
    NestedAppend([h[0]] + (h[1..] + c) + [close], [""]);
    IndentedAppend(h, c, indent);
    assert Indented([close, ""], indent);
    IndentedAppend(h + c, [close, ""], indent);
  }

  /**
   * `writeDirCluster`'s output is brace-nested, opens with the `subgraph` line at
   * `indent`, closes with `}` at the same indent, and has no line indented less.
   */
  lemma {:induction false} BlockShape(opts: Options, render: Render, b: Block, indent: string)
    ensures var lines := BlockLines(opts, render, b, indent);
      && Nested(lines) && Indented(lines, indent)
      && |lines| >= 3
      && lines[0] == OpenLine(indent, b.path)
      && lines[|lines| - 2] == indent + "}" && lines[|lines| - 1] == ""
    decreases b, 1
  {
    var h := HeadLines(opts, render, b, indent);
    HeadShape(opts, render, b, indent);
    var c := KidsLines(opts, render, b.kids, indent + "    ");
    KidsShape(opts, render, b.kids, indent + "    ");
    IndentedDeeper(c, indent);
    Assemble(h, c, indent);
  }

  lemma {:induction false} KidsShape(opts: Options, render: Render, kids: seq<Block>, indent: string)
    ensures Nested(KidsLines(opts, render, kids, indent))
    ensures Indented(KidsLines(opts, render, kids, indent), indent)
    decreases kids, 0
  {
    if kids == [] {
      FlatNested([]);
    } else {
      var init := kids[..|kids| - 1];
      var last := kids[|kids| - 1];
      KidsShape(opts, render, init, indent);
      BlockShape(opts, render, last, indent);
      NestedAppend(KidsLines(opts, render, init, indent), BlockLines(opts, render, last, indent));
      IndentedAppend(KidsLines(opts, render, init, indent), BlockLines(opts, render, last, indent), indent);
    }
  }

  // ---------------------------------------------------------------------------
  // The whole directory-cluster document.

  /** `writeGraphProperties`: the graph-wide defaults, with or without pen widths. */
  function PropertyLines(nocolor: bool): seq<string>
  {
    (if nocolor then ["    node [fontsize=10 shape=rectangle target=\"_graphviz\"];", "    edge [tailport=e];"]
     else ["    node [penwidth=2 fontsize=10 shape=rectangle target=\"_graphviz\"];", "    edge [tailport=e penwidth=2];"])
    + ["    compound=true;", "    rankdir=LR;", "    newrank=true;", "    ranksep=\"1.5\";", "    quantum=\"0.5\";"]
  }

  /** The root's own packages under a comment, followed by an empty line, or nothing when it has none. */
  function RootLines(render: Render, pkgs: seq<Package>): seq<string>
  {
    if pkgs == [] then [] else ["    // Root packages"] + PackageLines(render, "", pkgs) + [""]
  }

  /** The edge line from `src` to the imported `dst`. */
  function EdgeLine(render: Render, src: string, dst: string): string
  {
    "    " + render.idOf(src) + " -> " + render.idOf(dst) + " [tooltip=\"" + src + " -> " + dst + "\" "
      + render.colorOf(dst) + "];"
  }

  /** The edges out of one node, in import order. */
  function ImportLines(render: Render, src: string, imports: seq<string>): (r: seq<string>)
    ensures |r| == |imports|
    ensures forall k :: 0 <= k < |imports| ==> r[k] == EdgeLine(render, src, imports[k])
  {
    if imports == [] then []
    else ImportLines(render, src, imports[..|imports| - 1]) + [EdgeLine(render, src, imports[|imports| - 1])]
  }

  /** Every edge of the graph: the nodes in `Sorted` order, each with its imports in order. */
  function EdgeLines(render: Render, graph: seq<GraphNode>): seq<string>
  {
    if graph == [] then []
    else EdgeLines(render, graph[..|graph| - 1]) + ImportLines(render, graph[|graph| - 1].id, graph[|graph| - 1].imports)
  }

  /**
   * `WriteDirectoryClusters` for a clustered tree whose root holds `rootPkgs` and has the
   * top-level clusters `kids`: the `digraph` line, the graph properties, the root's
   * packages, every top-level cluster at four spaces, the edges, and the closing brace
   * that the deferred write adds.
   */
  function DocumentLines(opts: Options, render: Render, graph: seq<GraphNode>, rootPkgs: seq<Package>,
                         kids: seq<Block>): seq<string>
  {
    ["digraph G {"] + PropertyLines(opts.nocolor) + RootLines(render, rootPkgs)
    + KidsLines(opts, render, kids, "    ")
    + ["    // Edges"] + EdgeLines(render, graph) + ["}"]
  }

  /** A line ending in `;` or `s` opens and closes nothing. */
  lemma EndsFlat(line: string)
    requires line != [] && (line[|line| - 1] == ';' || line[|line| - 1] == 's')
    ensures Weight(line) == 0
  {
  }

  lemma PropertyLinesFlat(nocolor: bool)
    ensures Flat(PropertyLines(nocolor))
  {
    var p := PropertyLines(nocolor);
    forall k | 0 <= k < |p| ensures Weight(p[k]) == 0 {
      EndsFlat(p[k]);
    }
  }

  lemma RootLinesFlat(render: Render, pkgs: seq<Package>)
    ensures Flat(RootLines(render, pkgs))
  {
    PackageLinesShape(render, "", pkgs);
    if pkgs != [] {
      var c := "    // Root packages";
      assert c[|c| - 1] == 's';
      FlatAppend([c], PackageLines(render, "", pkgs));
      FlatAppend([c] + PackageLines(render, "", pkgs), [""]);
    }
  }

  lemma {:induction false} EdgeLinesFlat(render: Render, graph: seq<GraphNode>)
    ensures Flat(EdgeLines(render, graph))
    decreases |graph|
  {
    if graph != [] {
      var last := graph[|graph| - 1];
      EdgeLinesFlat(render, graph[..|graph| - 1]);
      var e := ImportLines(render, last.id, last.imports);
      forall k | 0 <= k < |e| ensures Weight(e[k]) == 0 {
        assert e[k][|e[k]| - 1] == ';';
      }
      FlatAppend(EdgeLines(render, graph[..|graph| - 1]), e);
    }
  }

  /**
   * The document's braces are properly nested: the `digraph` line opens the only brace
   * left open by its lines, and the final `}` closes it.
   */
  lemma DocumentNested(opts: Options, render: Render, graph: seq<GraphNode>, rootPkgs: seq<Package>, kids: seq<Block>)
    ensures var d := DocumentLines(opts, render, graph, rootPkgs, kids);
      && Nested(d) && d[0] == "digraph G {" && d[|d| - 1] == "}"
  {
    var props := PropertyLines(opts.nocolor);
    var rl := RootLines(render, rootPkgs);
    var kl := KidsLines(opts, render, kids, "    ");
    var el := EdgeLines(render, graph);
    PropertyLinesFlat(opts.nocolor);
    RootLinesFlat(render, rootPkgs);
    KidsShape(opts, render, kids, "    ");
    EdgeLinesFlat(render, graph);
    DocumentAssemble(props, rl, kl, el);
  }

  lemma DocumentAssemble(props: seq<string>, rl: seq<string>, kl: seq<string>, el: seq<string>)
    requires Flat(props) && Flat(rl) && Nested(kl) && Flat(el)
    ensures var d := ["digraph G {"] + props + rl + kl + ["    // Edges"] + el + ["}"];
      && Nested(d) && d[0] == "digraph G {" && d[|d| - 1] == "}"
  {
    var c := "    // Edges";
    assert c[|c| - 1] == 's';
    FlatAppend([c], el);
    var tail := [c] + el;
    FlatAppend(props, rl);
    FlatNested(props + rl);
    FlatNested(tail);
    NestedAppend(props + rl, kl);
    NestedAppend(props + rl + kl, tail);
    var o := "digraph G {";
    assert o[|o| - 1] == '{';
    Wrap(o, props + rl + kl + tail, "}");
    DocumentRegroup(o, props, rl, kl, c, el, "}");
  }

  /** The document's pieces regrouped as the opening line, the body and the closing line. */
  lemma DocumentRegroup<T>(o: T, a: seq<T>, b: seq<T>, k: seq<T>, c: T, e: seq<T>, z: T)
    ensures [o] + a + b + k + [c] + e + [z] == [o] + (a + b + k + ([c] + e)) + [z]
  {
  }

  /** The document written piece by piece is the document. */
  lemma DocumentSplit(o: seq<string>, props: seq<string>, rl: seq<string>, kl: seq<string>, el: seq<string>)
    ensures o + ["digraph G {"] + props + rl + kl + ["    // Edges"] + el + ["}"]
      == o + (["digraph G {"] + props + rl + kl + ["    // Edges"] + el + ["}"])
  {
  }

  /** Appending three pieces one after another appends their concatenation. */
  lemma AppendAssoc(a: seq<string>, b: seq<string>, c: seq<string>, d: seq<string>)
    ensures a + b + c + d == a + (b + c + d)
  {
  }

  lemma AppendAssoc3(a: seq<string>, b: seq<string>, c: seq<string>)
    ensures a + b + c == a + (b + c)
  {
  }

  /** Writing the lines of the first `i` clusters and then the next one writes those of the first `i + 1`. */
  lemma KidsStep(before: seq<string>, opts: Options, render: Render, kids: seq<Block>, i: nat, indent: string)
    requires i < |kids|
    ensures before + KidsLines(opts, render, kids[..i], indent) + BlockLines(opts, render, kids[i], indent)
      == before + KidsLines(opts, render, kids[..i + 1], indent)
  {
    assert kids[..i + 1][..i] == kids[..i];
    AppendAssoc3(before, KidsLines(opts, render, kids[..i], indent), BlockLines(opts, render, kids[i], indent));
  }

  lemma KidsDone(opts: Options, render: Render, kids: seq<Block>, indent: string)
    ensures KidsLines(opts, render, kids[..|kids|], indent) == KidsLines(opts, render, kids, indent)
  {
    assert kids[..|kids|] == kids;
  }

  // ---------------------------------------------------------------------------
  // The writer.

  /** `Dot` as the directory-cluster writer uses it: its options, renderers and output. */
  class DotWriter {
    /** The lines written so far. */
    var out: seq<string>
    const opts: Options
    const render: Render

    constructor (opts: Options, render: Render)
      ensures this.opts == opts && this.render == render && out == []
    {
      this.opts := opts;
      this.render := render;
      out := [];
    }

    /** Appends one attribute line and records the attribute. */
    method Attr(indent: string, text: string, ghost base: seq<string>, ghost attrs: seq<string>)
      returns (ghost attrs': seq<string>)
      requires out == base + AttributeLines(indent, attrs)
      modifies this`out
      ensures attrs' == attrs + [text] && out == base + AttributeLines(indent, attrs')
    {
      out := out + [indent + "    " + text + ";"];
      attrs' := attrs + [text];
      AttributeLinesSnoc(indent, attrs, text);
    }

    /** The opening `subgraph` line and the attribute lines of a cluster, then an empty line. */
    method WriteHeader(path: string, depth: int, hasChildren: bool, indent: string)
      requires depth >= 1
      modifies this`out
      ensures out == old(out) + HeaderLines(indent, path, Attributes(opts, path, depth, hasChildren))
    {
      KidInBounds(opts, depth);
      ghost var style := StyleAttributes(opts, path, depth);
      ghost var font := FontAttributes(opts, depth, hasChildren);
      var clusterName := ClusterName(path);
      out := out + [indent + "subgraph " + Quote(clusterName) + " {"];
      WriteStyle(path, depth, indent);
      WriteFont(depth, hasChildren, indent);
      out := out + [""];
      HeaderSplit(old(out), indent, path, style, font);
    }

    /** The label, fill style, colours and pen width of a cluster. */
    method WriteStyle(path: string, depth: int, indent: string)
      requires depth >= 1
      modifies this`out
      ensures out == old(out) + AttributeLines(indent, StyleAttributes(opts, path, depth))
    {
      var colors := ClusterColors(opts, depth - 1);
      var displayName := DisplayName(path);
      ghost var attrs: seq<string> := [];
      attrs := Attr(indent, "label=\"" + displayName + "\"", old(out), attrs);
      attrs := Attr(indent, "style=filled", old(out), attrs);
      if colors.0 != "" {
        attrs := Attr(indent, "fillcolor=\"" + colors.0 + "\"", old(out), attrs);
      }
      if colors.1 != "" {
        attrs := Attr(indent, "color=\"" + colors.1 + "\"", old(out), attrs);
      }
      attrs := Attr(indent, "penwidth=2", old(out), attrs);
      assert attrs == StyleAttributes(opts, path, depth);
    }

    /** The font, the node defaults unless colour is off, and the margin when there are children. */
    method WriteFont(depth: int, hasChildren: bool, indent: string)
      modifies this`out
      ensures out == old(out) + AttributeLines(indent, FontAttributes(opts, depth, hasChildren))
    {
      var fontSize := FontSize(depth);
      ghost var attrs: seq<string> := [];
      attrs := Attr(indent, "fontsize=" + NatToString(fontSize), old(out), attrs);
      attrs := Attr(indent, "fontname=\"Helvetica-Bold\"", old(out), attrs);
      if !opts.nocolor {
        attrs := Attr(indent, "node [style=filled,fillcolor=white]", old(out), attrs);
      }
      if hasChildren {
        attrs := Attr(indent, "margin=20", old(out), attrs);
      }
      assert attrs == FontAttributes(opts, depth, hasChildren);
    }

    /** One node line per package, in order. */
    method WritePackages(indent: string, pkgs: seq<Package>)
      modifies this`out
      ensures out == old(out) + PackageLines(render, indent, pkgs)
    {
      for k := 0 to |pkgs|
        invariant out == old(out) + PackageLines(render, indent, pkgs[..k])
      {
        out := out + [NodeLine(render, indent, pkgs[k].id)];
        assert pkgs[..k + 1][..k] == pkgs[..k];
      }
      assert pkgs[..|pkgs|] == pkgs;
    }

    /**
     * The part of `writeDirCluster` before the children: the header, the cluster's own
     * packages, and an empty line when there are both packages and children.
     */
    method WriteHead(path: string, depth: int, packages: seq<Package>, hasChildren: bool, indent: string,
                     ghost b: Block)
      requires b.path == path && b.depth == depth && b.packages == packages && (|b.kids| > 0 <==> hasChildren)
      requires depth >= 1
      modifies this`out
      ensures out == old(out) + HeadLines(opts, render, b, indent)
    {
      ghost var header := HeaderLines(indent, path, Attributes(opts, path, depth, hasChildren));
      WriteHeader(path, depth, hasChildren, indent);
      ghost var mid := out;
      if |packages| > 0 {
        WritePackages(indent, packages);
        if hasChildren {
          out := out + [""];
        }
      }
      ghost var sep: seq<string> := if |packages| > 0 && hasChildren then [""] else [];
      assert out == mid + PackageLines(render, indent, packages) + sep;
      assert HeadLines(opts, render, b, indent) == header + PackageLines(render, indent, packages) + sep;
      AppendAssoc(old(out), header, PackageLines(render, indent, packages), sep);
    }

    /**
     * `writeDirCluster`: the header, this cluster's packages, an empty line when
     * children follow them, every child at four more spaces in `Children` order, and
     * the closing brace.
     */
    method WriteDirCluster(dc: DirCluster, indent: string, ghost nodes: set<DirCluster>, ghost b: Block)
      requires dc in nodes && Mirror(b, dc, nodes)
      modifies this`out
      ensures out == old(out) + BlockLines(opts, render, b, indent)
      decreases b
    {
      WriteHead(dc.path, dc.depth, dc.packages, |dc.children| > 0, indent, b);
      assert unchanged(nodes);
      ghost var head := out;
      WriteChildren(dc.children, indent + "    ", nodes, b.kids);
      out := out + [indent + "}", ""];
      AppendAssoc(old(out), HeadLines(opts, render, b, indent), KidsLines(opts, render, b.kids, indent + "    "),
                  [indent + "}", ""]);
    }

    /**
     * The loop over a cluster's children in `writeDirCluster`, and over the root's
     * children in `WriteDirectoryClusters`: every cluster written at `indent`, in order.
     */
    method WriteChildren(children: seq<DirCluster>, indent: string, ghost nodes: set<DirCluster>,
                         ghost kids: seq<Block>)
      requires Mirrors(kids, children, nodes)
      modifies this`out
      ensures out == old(out) + KidsLines(opts, render, kids, indent)
      decreases kids
    {
      ghost var before := out;
      for i := 0 to |children|
        invariant out == before + KidsLines(opts, render, kids[..i], indent)
      {
        WriteDirCluster(children[i], indent, nodes, kids[i]);
        KidsStep(before, opts, render, kids, i, indent);
      }
      KidsDone(opts, render, kids, indent);
    }

    /** The root's own packages under a comment, then an empty line; nothing when it has none. */
    method WriteRootPackages(pkgs: seq<Package>)
      modifies this`out
      ensures out == old(out) + RootLines(render, pkgs)
    {
      if |pkgs| > 0 {
        out := out + ["    // Root packages"];
        WritePackages("", pkgs);
        out := out + [""];
        AppendAssoc(old(out), ["    // Root packages"], PackageLines(render, "", pkgs), [""]);
      }
    }

    /** Every edge: for each node of `graph.Sorted`, its imports in order. */
    method WriteEdges(graph: seq<GraphNode>)
      modifies this`out
      ensures out == old(out) + EdgeLines(render, graph)
    {
      for k := 0 to |graph|
        invariant out == old(out) + EdgeLines(render, graph[..k])
      {
        WriteImports(graph[k].id, graph[k].imports);
        assert graph[..k + 1][..k] == graph[..k];
        AppendAssoc3(old(out), EdgeLines(render, graph[..k]), ImportLines(render, graph[k].id, graph[k].imports));
      }
      assert graph[..|graph|] == graph;
    }

    /** One edge line from `src` per imported node, in order. */
    method WriteImports(src: string, imports: seq<string>)
      modifies this`out
      ensures out == old(out) + ImportLines(render, src, imports)
    {
      for j := 0 to |imports|
        invariant out == old(out) + ImportLines(render, src, imports[..j])
      {
        out := out + [EdgeLine(render, src, imports[j])];
        assert imports[..j + 1][..j] == imports[..j];
      }
      assert imports[..|imports|] == imports;
    }

    /**
     * `WriteDirectoryClusters`: nothing is written when the package tree cannot be built;
     * otherwise the packages of the tree are clustered by directory under the base
     * package of the graph's IDs, and the whole document is written.
     */
    method WriteDirectoryClusters(graph: seq<GraphNode>, from: Option<Tree>)
      returns (ok: bool, ghost root: DirCluster?, ghost nodes: set<DirCluster>, ghost kids: seq<Block>)
      modifies this`out
      ensures ok <==> from.Some?
      ensures !ok ==> out == old(out)
      ensures ok ==> root != null && fresh(nodes) && root in nodes && root.path == "" && root.depth == 0
      ensures ok ==> Filed(nodes, AllPackages(from.value), BasePackageOf(Ids(graph)), opts.clusterDepth)
      ensures ok ==> Routes(nodes) == {[]} + RoutesFor(AllPackages(from.value), BasePackageOf(Ids(graph)), opts.clusterDepth)
      ensures ok ==> forall n :: n in nodes ==> Ascending(n.sortedChildren)
      ensures ok ==> Mirrors(kids, root.children, nodes)
      ensures ok ==> out == old(out) + DocumentLines(opts, render, graph, root.packages, kids)
    {
      if from.None? {
        return false, null, {}, [];
      }
      var basePackage := GetBasePackage(Ids(graph));
      var dirRoot;
      dirRoot, nodes := ClusterByDirectory(from.value, basePackage, opts.clusterDepth);
      root := dirRoot;
      kids := KidsSnap(dirRoot, nodes);
      WriteClusteredTree(graph, dirRoot, nodes, kids, AllPackages(from.value), basePackage, opts.clusterDepth);
      ok := true;
    }

    /** The document for a filed tree, which writing leaves as it was. */
    method WriteClusteredTree(graph: seq<GraphNode>, dirRoot: DirCluster, ghost nodes: set<DirCluster>,
                              ghost kids: seq<Block>, ghost placed: seq<Package>, ghost base: string,
                              ghost maxDepth: int)
      requires dirRoot in nodes && Filed(nodes, placed, base, maxDepth) && Mirrors(kids, dirRoot.children, nodes)
      requires forall n :: n in nodes ==> Ascending(n.sortedChildren)
      modifies this`out
      ensures Filed(nodes, placed, base, maxDepth) && Mirrors(kids, dirRoot.children, nodes)
      ensures forall n :: n in nodes ==> Ascending(n.sortedChildren)
      ensures out == old(out) + DocumentLines(opts, render, graph, dirRoot.packages, kids)
    {
      WriteDocument(graph, dirRoot, nodes, kids);
      assert unchanged(nodes);
    }

    /**
     * The document for a clustered tree: the `digraph` line, the graph properties, the
     * root's packages, the top-level clusters at four spaces, every edge, and the closing
     * brace.
     */
    method WriteDocument(graph: seq<GraphNode>, dirRoot: DirCluster, ghost nodes: set<DirCluster>,
                         ghost kids: seq<Block>)
      requires dirRoot in nodes && Mirrors(kids, dirRoot.children, nodes)
      modifies this`out
      ensures out == old(out) + DocumentLines(opts, render, graph, dirRoot.packages, kids)
    {
      out := out + ["digraph G {"];
      out := out + PropertyLines(opts.nocolor);
      WriteRootPackages(dirRoot.packages);
      WriteChildren(dirRoot.children, "    ", nodes, kids);
      out := out + ["    // Edges"];
      WriteEdges(graph);
      out := out + ["}"];
      DocumentSplit(old(out), PropertyLines(opts.nocolor), RootLines(render, dirRoot.packages),
                    KidsLines(opts, render, kids, "    "), EdgeLines(render, graph));
    }
  }
}
