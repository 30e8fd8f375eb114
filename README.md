# goda-cluster: directory clusters, the cluster writer and the query table

This project is a verified Dafny model of three parts of goda-cluster, a tool
that draws Go package dependency graphs.

- **Directory clustering** (`DirTree`, in `dircluster.dfy`). Every package of
  the package tree is filed into a tree of `DirCluster` nodes, one level per
  `/`-separated component of its import path. The common base package is
  stripped first, and the path is cut to `maxDepth` levels. The children of every
  cluster are then sorted by name. `DirCluster` is a class whose `children`,
  `sortedChildren`, `childrenMap` and `packages` fields are updated in place.
  A tree of clusters is described by a ghost set `nodes` and the invariant
  `Filed(nodes, placed, base, maxDepth)`, which has two parts:
  - `WellFormed`: the three views of the children agree, parent and child links
    match, each child's depth is its parent's plus one, and its path is the
    parent's path joined with its name.
  - `Placed`: every cluster holds, in order, exactly the packages whose placement
    is its route.
- **The directory-cluster writer** (`Dot`, in `dot.dfy`). This covers the `Write`
  dispatch, `ModuleLabel`, the cluster colour palettes, and the naming, label and
  font-size rules of `writeDirCluster`. It also covers the nested `subgraph`
  output of `writeDirCluster` and `WriteDirectoryClusters`. The output is a
  sequence of lines that the `DotWriter` methods append to. Each method is proved
  equal to a function of the tree (`BlockLines`, `DocumentLines`), and that
  function is proved to be brace-balanced and indented four spaces per level.
- **The query language's tokenizer, parser and clean form** (`Query`, in
  `query.dfy`, and `QueryTable`, in `querytable.dfy`). The repository's own
  tokenizer and parser are not part of this model; only their test table is.
  The model is a tokenizer, a parser and a printer that reproduce every row of
  that table. For each row, a lemma proves that the input tokenizes to the
  expected tokens, that these parse to a tree, and that the tree prints as the
  expected clean form.
  - All-inputs lemmas support the rows. Blanks in front of a text change nothing
    (`TokenizeBlank`), and a text cut at a token boundary tokenizes part by part
    (`TokenizeAppend`).
  - A canonical token sequence can be emitted for every tree, and it parses back
    to that tree (`ParseRound`).
  - The printed form of a query is not claimed to re-parse to the same tree.

Shared helpers are in `strings.dfy` (the parts of Go's `strings`, `sort.Strings`
and `%d`/`%q` formatting the code uses) and `wrappers.dfy` (`Option`).

`GetBasePackage` (internal/pkgtree/dircluster.go:153-160) compares the shortest ID
only with the IDs after the first. The first ID is used only to pick the shortest
one. `DirTree.FirstIdSkipped` shows an input where the base package is not a
prefix of the first ID: for `["a/zzzz", "b/c", "b/c/d"]` the base is `b`. The
model keeps this behaviour.

## Model

| member | source | states |
|---|---|---|
| `DirTree.DirCluster.constructor` | internal/pkgtree/dircluster.go:22-29 | A new cluster has the given path, parent and depth, no children, no packages and an empty children map. |
| `DirTree.DirCluster.AddPackage` | internal/pkgtree/dircluster.go:32-34 | The package is appended to the cluster's packages. |
| `DirTree.DirCluster.GetOrCreateChild` | internal/pkgtree/dircluster.go:37-52 | The child named `name` is returned. An existing child is returned with nothing changed. Otherwise a fresh child is created: its path is `name` under an empty parent path and `parent/name` otherwise, its parent is the caller, and it has the given depth. It is appended once to `sortedChildren` and `children` and entered in `childrenMap`. The three views stay consistent, with `len(childrenMap) == len(sortedChildren) == len(Children)`. |
| `DirTree.GetOrCreateTwice` | internal/pkgtree/dircluster.go:37-40 | Two calls with one name return the same child. The second call adds nothing to the map or either slice. |
| `DirTree.DirCluster.SortOwnChildren` | internal/pkgtree/dircluster.go:56-63 | After `sort.Strings` and the rebuild loop, the names are ascending and the same multiset as before. `children` is a permutation of the old children, and each child is still the one the map gives for its name. |
| `DirTree.DirCluster.LookUpSorted` | internal/pkgtree/dircluster.go:59-62 | The rebuild loop yields `childrenMap[name]` for every name of `sortedChildren`, in order. |
| `DirTree.DirCluster.Sort` | internal/pkgtree/dircluster.go:55-69 | Every cluster of the subtree ends with its children sorted by name and permuted from the old ones. Clusters outside the subtree keep their children. The tree stays consistent. |
| `Strings.SortStrings` | internal/pkgtree/dircluster.go:56 | `sort.Strings`: the result is ascending in byte order and a permutation of the input. |
| `DirTree.RelativeTo` | internal/pkgtree/dircluster.go:100-115 | `isBase` holds exactly when the ID equals the base package. Otherwise the path is the ID with `base + "/"` stripped, or the whole ID when nothing is left after stripping. |
| `DirTree.RelativePath` | internal/pkgtree/dircluster.go:103-115 | Under a non-empty base, `base + "/" + r == id`. Otherwise, or when the remainder is empty, `r` is the ID. |
| `DirTree.Truncate` | internal/pkgtree/dircluster.go:121-123 | The parts are cut to a prefix of length `min(len, maxDepth)` when `maxDepth > 0`, and kept whole otherwise. |
| `Strings.Split` | internal/pkgtree/dircluster.go:118 | `strings.Split` on `/`: at least one part, and no part contains the separator. |
| `Strings.JoinSplit` | internal/pkgtree/dircluster.go:118 | Joining the parts of a split with the separator gives back the string. |
| `DirTree.PlacementAtRoot` | internal/pkgtree/dircluster.go:104-109 | A package goes to the root cluster exactly when its ID equals the base package. |
| `DirTree.PlacementShape` | internal/pkgtree/dircluster.go:112-133 | Any other package goes between 1 and `maxDepth` levels down (when `maxDepth > 0`). It follows slash-free components that are a prefix of its relative path's components. |
| `DirTree.AddPackageToCluster` | internal/pkgtree/dircluster.go:99-137 | The tree stays well formed. The package is added to the cluster at its placement and to no other. The clusters afterwards are those before plus one per prefix of the placement, so exactly the missing clusters on the way are created. |
| `DirTree.Walk` | internal/pkgtree/dircluster.go:126-133 | The loop ends at the cluster whose route is `parts`. The routes of the clusters afterwards are the old routes plus every prefix of `parts`. Every added cluster is fresh, and the tree stays filed. |
| `DirTree.WalkStep` | internal/pkgtree/dircluster.go:127-132 | One turn of the loop moves to the child named `parts[i]`. Every cluster added since the walk began has a route that is a prefix of `parts`. |
| `DirTree.WalkRoutes` | internal/pkgtree/dircluster.go:126-133 | If every added cluster lies on the way to `parts` and a cluster sits at `parts`, then the routes are the old ones plus the prefixes of `parts`. |
| `DirTree.RoutesReach` | internal/pkgtree/dircluster.go:37-52 | When every cluster below the root has its parent in the tree, every prefix of a cluster's route is the route of a cluster. |
| `DirTree.PrefixesMember` | internal/pkgtree/dircluster.go:126-133 | The routes a walk to `r` passes through are exactly the sequences `r` starts with. |
| `DirTree.RoutesForMember` | internal/pkgtree/dircluster.go:79-91 | Filing `ps` passes through a route exactly when that route is a prefix of one package's placement. |
| `DirTree.RoutesForAppend` | internal/pkgtree/dircluster.go:79-91 | Filing one list and then another passes through the routes of both. |
| `DirTree.Descend` | internal/pkgtree/dircluster.go:132 | One step goes to the child with the given name. The tree grows by at most that new child, and the set of routes grows by exactly the child's route. |
| `DirTree.File` | internal/pkgtree/dircluster.go:136 | Adding the package at its placement extends the filed packages by that package. |
| `DirTree.KidAt` | internal/pkgtree/dircluster.go:47-50 | In a well-formed tree, the `i`-th child is one level deeper than its parent and is reached by the `i`-th name. |
| `DirTree.FiledOnce` | internal/pkgtree/dircluster.go:99-137 | In a filed tree, each package sits in exactly one cluster, the one at its placement, and no cluster holds a package that was not added. |
| `DirTree.ClusterByDirectory` | internal/pkgtree/dircluster.go:72-96 | The root has path `""`, no parent and depth 0. Every package of every module of every repo, and every repo-level package, is filed once in visiting order, and every cluster's children are sorted. The clusters are the root plus one per prefix of some package's placement, and no others. |
| `DirTree.NewRoot` | internal/pkgtree/dircluster.go:73 | A fresh root cluster on its own is a filed tree with no packages, and its only route is the empty one. |
| `DirTree.AddRepos` | internal/pkgtree/dircluster.go:79-91 | After the repo loop, the packages of all repos are filed. The routes added are exactly the prefixes of their placements. |
| `DirTree.AddRepo` | internal/pkgtree/dircluster.go:80-90 | One round files the repo's module packages and then its own packages. It adds exactly the routes of those packages. |
| `DirTree.AddModules` | internal/pkgtree/dircluster.go:81-85 | After the module loop, the packages of all modules are filed after those placed before. The routes added are exactly the prefixes of their placements. |
| `DirTree.AddPackages` | internal/pkgtree/dircluster.go:88-90 | After the package loop, the packages are filed in order. The routes added are exactly the prefixes of their placements. |
| `DirTree.SortAll` | internal/pkgtree/dircluster.go:94 | Sorting keeps the packages where they are and leaves every cluster's names ascending. |
| `DirTree.Lcp` | internal/pkgtree/dircluster.go:174-186 | The result is a prefix of both strings. It either uses up one of them or stops where they differ. |
| `DirTree.LcpGreatest` | internal/pkgtree/dircluster.go:174-186 | Every common prefix of the two strings is a prefix of the result, so the result is maximal. |
| `DirTree.LongestCommonPrefix` | internal/pkgtree/dircluster.go:174-186 | The index loop with early return computes `Lcp(a, b)`. |
| `DirTree.Shortest` | internal/pkgtree/dircluster.go:145-150 | The result is one of the IDs and no ID is shorter. |
| `DirTree.ShortestFirst` | internal/pkgtree/dircluster.go:147 | The pick is the first of the shortest IDs, since only a strictly shorter ID replaces it. |
| `DirTree.ShortestId` | internal/pkgtree/dircluster.go:145-150 | The first loop of `GetBasePackage` computes `Shortest`. |
| `DirTree.CommonPrefix` | internal/pkgtree/dircluster.go:154-160 | The folded prefix is a prefix of the start string and of every ID. |
| `DirTree.CommonPrefixGreatest` | internal/pkgtree/dircluster.go:154-160 | It is the longest such prefix. |
| `DirTree.CommonPrefixStaysEmpty` | internal/pkgtree/dircluster.go:157-159 | Once the prefix is empty it stays empty, so the early `break` changes nothing. |
| `DirTree.CommonPrefixOf` | internal/pkgtree/dircluster.go:154-160 | The second loop, with its `break`, computes `CommonPrefix`. |
| `DirTree.TrimToComponent` | internal/pkgtree/dircluster.go:162-164 | The result is a prefix of the input. It is shorter exactly when the input has a `/` after its first character. Then it is non-empty and ends just before the input's last `/`. |
| `DirTree.BasePackageBounds` | internal/pkgtree/dircluster.go:140-171 | The base package is the shortest ID, or a non-empty prefix of it that prefixes every ID after the first. That prefix is the common prefix cut just before its last `/` when that `/` is not its first character, and otherwise the whole common prefix. |
| `DirTree.BasePackageCommon` | internal/pkgtree/dircluster.go:145-167 | When the first ID is a shortest one, the base is that ID or a prefix of every ID. |
| `DirTree.FirstIdSkipped` | internal/pkgtree/dircluster.go:153-156 | For `["a/zzzz", "b/c", "b/c/d"]` the base is `b`, which is not a prefix of the first ID. |
| `DirTree.GetBasePackage` | internal/pkgtree/dircluster.go:140-171 | It returns `""` for no IDs and `BasePackageOf(ids)` otherwise: the trimmed common prefix when non-empty, else the shortest ID. |
| `Dot.LayoutOf` | internal/graph/dot.go:139-148 | Directory clusters iff `clusters && clusterByDir`, module clusters iff `clusters && !clusterByDir`, regular output iff `!clusters`. |
| `Dot.AtVersion` | internal/graph/dot.go:62-64 | Nothing for an empty version, otherwise `@` followed by the version. |
| `Dot.ModuleLabelOf` | internal/graph/dot.go:60-75 | The label starts with the module path. Its length is exactly the path, the version part, ` (local)` and the replacement part, so nothing else is added. |
| `Dot.ModuleLabel` | internal/graph/dot.go:60-75 | The successive `lbl +=` steps build `ModuleLabelOf(m)`. |
| `Dot.ModuleLabelPlain` | internal/graph/dot.go:60-75 | A module with no version that is neither local nor replaced is labelled by its path alone. |
| `Dot.GoRem` | internal/graph/dot.go:118-119 | Go's truncating `%`: for a non-negative depth it is the Euclidean remainder, and for a negative one it is non-positive. |
| `Dot.ClusterColors` | internal/graph/dot.go:114-121 | With cluster colours off or `nocolor` set, both colours are `""`. Otherwise they are `clusterBgColors[depth % 8]` and `clusterBorderColors[depth % 5]`, and both are non-empty. |
| `Dot.ColorsPeriodic` | internal/graph/dot.go:118-120 | For every depth ≥ 0 both palette indices are in bounds, and the colours repeat every 40 levels. |
| `Dot.ClusterName` | internal/graph/dot.go:309 | The name is `cluster_` followed by the path with each `/` and `.` replaced by `_`. It contains neither character. |
| `Strings.ReplaceChar` | internal/graph/dot.go:309 | `strings.ReplaceAll` for one character: same length, with exactly the matching characters replaced. |
| `Dot.DisplayName` | internal/graph/dot.go:312-315 | The label is the suffix after the last `/`, or the whole path when it has none. It contains no `/`. |
| `Strings.LastIndexOf` | internal/graph/dot.go:313 | `strings.LastIndex` for one character: `-1` iff the character is absent, otherwise its last position. |
| `Dot.FontSize` | internal/graph/dot.go:331-334 | The font size is `max(8, 14 - depth)`, at most 14 for depth ≥ 0. |
| `Strings.NatToStringValue` | internal/graph/dot.go:335 | The decimal digits written for `%d` denote the number. |
| `Dot.NodeLine` | internal/graph/dot.go:356 | A package line starts with the indent plus four spaces and ends in `];`. |
| `Dot.PackageLines` | internal/graph/dot.go:352-357 | There is one node line per package, in order. |
| `Dot.ImportLines` | internal/graph/dot.go:294-297 | There is one edge line per imported node, in import order. |
| `Dot.MarginIffChildren` | internal/graph/dot.go:344-346 | The `margin=20` attribute is written exactly when the cluster has children. |
| `Dot.HeaderShape` | internal/graph/dot.go:317-348 | The header opens one brace, on its first line, and every other line is flat and at least as indented. |
| `Dot.BlockShape` | internal/graph/dot.go:304-369 | A cluster's output is brace-nested. It starts with its `subgraph` line at `indent` and closes with `}` at the same indent. No line is indented less. |
| `Dot.KidsShape` | internal/graph/dot.go:364-366 | Children written one after another at an indent are brace-nested and indented at least that much. |
| `Dot.DocumentNested` | internal/graph/dot.go:270-298 | The whole document is brace-nested, from `digraph G {` to the final `}`. |
| `Dot.MirrorUnique` | internal/graph/dot.go:304-369 | The value tree a writer call follows is determined by the cluster tree. |
| `Dot.DotWriter.WriteHeader` | internal/graph/dot.go:317-348 | It appends the `subgraph` line, the attribute lines and one empty line. |
| `Dot.DotWriter.WriteStyle` | internal/graph/dot.go:318-328 | It appends the label, fill style, colours if any, and pen width lines. |
| `Dot.DotWriter.WriteFont` | internal/graph/dot.go:331-346 | It appends the font size and name, the node defaults unless `nocolor` is set, and the margin when there are children. |
| `Dot.DotWriter.WritePackages` | internal/graph/dot.go:352-357 | It appends the package lines in order. |
| `Dot.DotWriter.WriteHead` | internal/graph/dot.go:317-361 | It appends the header, the packages, and an empty line only when both packages and children exist. |
| `Dot.DotWriter.WriteDirCluster` | internal/graph/dot.go:304-369 | It appends exactly `BlockLines`: the head, each child in `Children` order at indent + 4 spaces, then `}` at the same indent and an empty line. |
| `Dot.DotWriter.WriteChildren` | internal/graph/dot.go:364-366 | It appends every child's block in order. |
| `Dot.DotWriter.WriteRootPackages` | internal/graph/dot.go:275-284 | It appends nothing when the root has no packages. Otherwise it appends the comment, the package lines and an empty line. |
| `Dot.DotWriter.WriteEdges` | internal/graph/dot.go:293-298 | It appends every edge, node by node in `Sorted` order. |
| `Dot.DotWriter.WriteImports` | internal/graph/dot.go:294-297 | It appends one edge line per import. |
| `Dot.DotWriter.WriteDocument` | internal/graph/dot.go:270-298 | It appends exactly `DocumentLines`: the `digraph` line, the properties, the root packages, the top-level clusters at four spaces, the edges, and the closing `}`. |
| `Dot.DotWriter.WriteDirectoryClusters` | internal/graph/dot.go:258-301 | When the package tree cannot be built, nothing is written and the call fails. Otherwise the tree is clustered under `GetBasePackage` of the graph's IDs with `clusterDepth`, and the document for that tree is written. That tree holds exactly the root and the clusters on the way to some package's placement, and every cluster's children are sorted. |
| `Query.TokenizeBlank` | internal/pkgset/ast/ast_test.go:22-27 | Leading blanks do not change the tokens. |
| `Query.TokenizeBlanks` | internal/pkgset/ast/ast_test.go:14 | A blank or empty input tokenizes to no tokens. |
| `Query.TokenizeWord` | internal/pkgset/ast/ast_test.go:87-94 | A word followed by a boundary is one `TPackage` token, or one `TFunc` token when `(` follows at once, even when the word contains `=`. |
| `Query.TokenizeSelected` | internal/pkgset/ast/ast_test.go:110-116 | `:` followed by an optionally signed word is one `TSelector` token whose text keeps the sign. |
| `Query.TokenizeAssign` | internal/pkgset/ast/ast_test.go:129-136 | `:=` is one `TAssign` token. |
| `Query.TokenizeMark` | internal/pkgset/ast/ast_test.go:37-47 | A parenthesis, comma, semicolon or operator is a one-character token. |
| `Query.TokenizeAppend` | internal/pkgset/ast/ast_test.go:143-156 | Text cut where no token can straddle tokenizes as the tokens of each part, in order. |
| `Query.TokenizeRender` | internal/pkgset/ast/ast_test.go:143-156 | Every renderable token sequence, written out, tokenizes back to itself. Renderable means well-spelled, with each function name followed by `(`. |
| `Query.SelectorsRound` | internal/pkgset/ast/ast_test.go:73-85 | A chain of selector tokens attaches each tag in order to the preceding primary. |
| `Query.TermRound` | internal/pkgset/ast/ast_test.go:50-57 | A term's tokens followed by selectors parse to the term with those tags attached in order. For a parenthesised operation the tags attach to the whole group. |
| `Query.ExpressionRound` | internal/pkgset/ast/ast_test.go:29-48 | Operators parse left-associatively into binary nodes, and explicit parentheses survive as nesting. |
| `Query.ArgumentsRound` | internal/pkgset/ast/ast_test.go:59-71 | Comma-separated full expressions up to `)` parse to the call's arguments. |
| `Query.ValueRound` | internal/pkgset/ast/ast_test.go:21-27 | Juxtaposed expressions parse to one juxtaposition node, and a single expression parses to itself. |
| `Query.StatementRound` | internal/pkgset/ast/ast_test.go:129-140 | `name := value` parses to an assignment, and anything else parses to a bare value. |
| `Query.StatementsRound` | internal/pkgset/ast/ast_test.go:129-140 | Statements joined by `;` parse to the same statements, in order. |
| `Query.ParseRound` | internal/pkgset/ast/ast_test.go:158-165 | The canonical tokens of every query tree parse back to that tree. |
| `Query.PrintListJoin` | internal/pkgset/ast/ast_test.go:59-71 | Call arguments, juxtaposed items and statements print as their clean forms joined by the separator. |
| `Query.PrintWithTags` | internal/pkgset/ast/ast_test.go:110-116 | Selectors print after their base, in order, each as `:` and its signed text. |
| `QueryTable.RowEmpty` | internal/pkgset/ast/ast_test.go:14 | The empty query has no tokens and parses to no expression. |
| `QueryTable.RowPatternOf` | internal/pkgset/ast/ast_test.go:15-20 | Any package pattern is one token and prints unchanged. |
| `QueryTable.RowPattern` | internal/pkgset/ast/ast_test.go:15-20 | This holds for the row `golang.org/x/tools/...`. |
| `QueryTable.RowJuxtaposedOf` | internal/pkgset/ast/ast_test.go:21-27 | Blanks are dropped, and two juxtaposed patterns are two tokens that print as `(a, b)`. |
| `QueryTable.RowJuxtaposed` | internal/pkgset/ast/ast_test.go:21-27 | This holds for the row's exact input, tokens and clean form. |
| `QueryTable.RowOperationOf` | internal/pkgset/ast/ast_test.go:28-35 | `a + b` is three tokens and prints `+(a, b)`. |
| `QueryTable.RowOperation` | internal/pkgset/ast/ast_test.go:28-35 | This holds for the row's exact input, tokens and clean form. |
| `QueryTable.RowNestedOf` | internal/pkgset/ast/ast_test.go:36-48 | `a - (a - b:s)` prints `-(a, -(a, b:s))`. |
| `QueryTable.RowNested` | internal/pkgset/ast/ast_test.go:36-48 | This holds for the row `std - (std - unsafe:all)`. |
| `QueryTable.RowSelectorBindsOf` | internal/pkgset/ast/ast_test.go:49-57 | `a:s - b` prints `-(a:s, b)`. |
| `QueryTable.RowSelectorBinds` | internal/pkgset/ast/ast_test.go:49-57 | This holds for the row's exact input, tokens and clean form. |
| `QueryTable.RowCallOf` | internal/pkgset/ast/ast_test.go:58-71 | `f(a + b, c:s)` prints `f(+(a, b), c:s)`. |
| `QueryTable.RowCall` | internal/pkgset/ast/ast_test.go:58-71 | This holds for the `Reaches(...)` row. |
| `QueryTable.RowCallSelectorsOf` | internal/pkgset/ast/ast_test.go:72-85 | `f(a, c:s):s1:s` round-trips, with three separate selector tokens. |
| `QueryTable.RowCallSelectors` | internal/pkgset/ast/ast_test.go:72-85 | This holds for the `Reaches(...):import:all` row. |
| `QueryTable.RowFunctionNameOf` | internal/pkgset/ast/ast_test.go:86-94 | A function name holding `=` followed by `(` is a `TFunc` token. |
| `QueryTable.RowFunctionName` | internal/pkgset/ast/ast_test.go:86-94 | This holds for the `test=1(...)` row. |
| `QueryTable.RowCallDifferenceOf` | internal/pkgset/ast/ast_test.go:95-108 | `f(a) - g(a)` prints `-(f(a), g(a))`. |
| `QueryTable.RowCallDifference` | internal/pkgset/ast/ast_test.go:95-108 | This holds for the `test=1(...) - test=0(...)` row. |
| `QueryTable.RowSignedSelectorsOf` | internal/pkgset/ast/ast_test.go:109-116 | `x:s:s1` with signed selectors keeps both tokens and signs and prints unchanged. |
| `QueryTable.RowSignedSelectors` | internal/pkgset/ast/ast_test.go:109-116 | This holds for the row `x:-test:+test`. |
| `QueryTable.RowGroupSelectorOf` | internal/pkgset/ast/ast_test.go:117-127 | `(x + y):s` prints `+(x, y):s`. |
| `QueryTable.RowGroupSelector` | internal/pkgset/ast/ast_test.go:117-127 | This holds for the row `(x + y):+test`. |
| `QueryTable.RowAssignmentOf` | internal/pkgset/ast/ast_test.go:128-140 | `v:=x:s;y+v` prints `v := x:s; +(y, v)`. |
| `QueryTable.RowAssignment` | internal/pkgset/ast/ast_test.go:128-140 | This holds for the row `q:=x:+test;y+q`. |

## Left out

- The tokenizer, parser and `String` of the query language are not part of this
  model. `Query.Tokenize`, `Query.ParseTokens` and `Query.Print` reproduce the
  thirteen rows of the test table. Beyond those rows, their choices are this
  model's own:
  - juxtaposition is allowed only at statement level;
  - `+` ends a word and `-` does not;
  - an operator is recognised only at the start of a token;
  - a `:` with no word after it is rejected.
- Tokenizer and parser error kinds, messages and positions are not modelled.
  Failure is `None` or `Rejected`.
- `Parse(Tokenize(Print(e)))` idempotence is not claimed. The round trip proved
  is from a tree to its canonical tokens and back (`ParseRound`).
- The query evaluator, selector-tag semantics and functions such as `Reaches` are
  not modelled, because their code is not part of this model.
- `Tree(0)` debug output and the `reflect.DeepEqual` comparison loop of the test are not modelled.
- `colorOf` (SHA-256 and floating-point HSL), the template labels `Label` and
  `TreePackageLabel`, `pkgID`, and the `href=%q` reference helpers come from
  library code. They are opaque functions of the node ID in `Dot.Render`.
- `WriteClusters` and `WriteRegular` depend on `pkgtree.From`, `LookupTable`,
  `VisitChildren` and other code that is not part of this model.
  `pkgtree.From` itself is a parameter of `WriteDirectoryClusters`: an
  `Option<Tree>`, where `None` is its error.
- `Strings.Quote`: `%q` is modelled only as quoting with `"` and `\` escaped.
  Go also escapes control and non-printable characters, which cluster paths do
  not contain.
- `fmt.Fprintf` to an `io.Writer` is modelled as appending lines to a sequence.
  Write errors are ignored, as in the source.
- The unused `lookup` table in `ClusterByDirectory` is not modelled.
- Graph, repo, module and package internals are reduced to an ID string and the
  nesting repos → modules → packages.
- `DirCluster` nodes are identified by a ghost route (the child names from the
  root), because two clusters can share a path. For example, the IDs `x` and `/x`
  both lead to a cluster with path `x`.
- DirTree.GetBasePackage: IDs are sequences of characters, so lengths and common
  prefixes are counted in characters, while Go's `len` and indexing count UTF-8
  bytes. The result agrees with Go's only when the IDs are ASCII, as module-mode
  import paths are. For `["ab", "é"]` Go keeps `"ab"` as the shortest ID, since
  `"é"` is two bytes long, and returns `"ab"`. The model counts `"é"` as one
  character, takes it as the shortest and returns `"é"`.
- DirTree.ShortestId: "shortest" is by character count, not Go's byte count, so
  it matches Go only on ASCII IDs (see `GetBasePackage` above).
- DirTree.Shortest: the same character-count reading as `ShortestId`.
- DirTree.LongestCommonPrefix: the prefix is compared and cut character by
  character. Go compares bytes and can return a prefix that ends inside a
  multi-byte character, which a sequence of characters cannot represent. The two
  agree on ASCII IDs.
- Integer widths: depths and font sizes are unbounded integers. The values the
  code produces stay far from Go's `int` limits.
