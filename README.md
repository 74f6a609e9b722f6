# A verified model of the project-plan DOT compiler

The application draws a YouTrack project plan as a Graphviz picture. Its only
algorithmic part is `computeDotFromIssues` and the small functions around it
in `src/main/graphviz-app-ctrl.ts`. It works in four steps:

- Each YouTrack issue becomes a `GraphvizIssue` record: a DOT identifier made
  from the id, the summary escaped for an HTML-like label, whether the issue
  is resolved, the assignee and the issue type.
- The issues are arranged in a forest of parent/child issues.
- The forest is walked with an enter/leave callback pair that keeps a
  counter for the indent.
- The walk appends to two accumulators in a `DotBuilder`:
  - `dot` gets a `subgraph cluster_<label> { … }` block for every issue with
    subtasks and a `<label> [ … ]` attribute list for every leaf;
  - `dependenciesDot` gets one edge per dependency. An edge ends at leaves
    ("anchors", found by following the first child) and carries
    `ltail`/`lhead` cluster hints when an end point is a group.

The document is a fixed preamble, then the blocks, then the edge block after
a blank line (only when there are edges), then the closing brace.

The model has one Dafny module per concern:

- `Wrappers` holds `Option`.
- `Text` holds `labelFromId`, `sixDigitColor` and `replaceWithHtmlEntities`,
  each with a character-level contract. `Unescape` is an independent inverse
  of the escaping.
- `Helpers` holds `opt`, `opt2` and `coalesce`.
- `Actions` holds the `Action` enum and `actionFromState`.
- `Issues` holds the YouTrack and Graphviz issue records and the mapping
  between them.
- `Forest` holds the issue forest as a `Node` datatype whose dependencies are
  nodes, and `linkLabelForIssueNode` as a `while` loop proved to stop on a
  leaf of the first-child chain (`Anchor`).
- `Emitter` is the imperative part:
  - `DotBuilder` is a class with the two string fields.
  - `EnterNode`, `LeaveNode`, the traversal and `ComputeDotFromIssues` are
    methods that append to those fields.
  - Each method is proved against accumulator functions (`WriteEnter`,
    `WriteEdges`, `ForestDot`, `ForestEdges`, `DotDocument`). These follow
    the source's order of appends exactly.
- `DotProperties` proves what the output looks like, from those functions:
  - brackets per block and balance over the whole document;
  - one arrow per dependency;
  - when the cluster hints appear;
  - the strike-through and the assignee line in labels;
  - the frame of the document.

Runtime environment:

- `makeForest` belongs to an external library. It is a function parameter of
  `ComputeDotFromIssues`.
- `traverseIssueForest` is modelled as the pre-order enter/leave walk that
  its two callbacks (:369-379) describe. The `indentLevel` counter becomes
  the walk's `level` parameter.
- The `assert` in `sixDigitColor` throws on a malformed colour. The model
  gives `None` for it. The whole compilation then gives `None`, because the
  exception discards the partly written builder.

Only the summary is escaped for the label (:358). The issue id (:284) and
the assignee's full name (:287) go into the label as they are, and so they do
in the model.

## Model

| member | source | states |
|---|---|---|
| Text.LabelFromId | src/main/graphviz-app-ctrl.ts:424-426 | the result is an identifier: only `[A-Za-z0-9_]`, no leading digit; its length is the id's plus one exactly when the id starts with a digit, then prefixed with `_`; every other character is kept or becomes `_`; the id is returned unchanged exactly when it already is an identifier; the empty id gives the empty label |
| Text.ReplaceNonIdentChars | src/main/graphviz-app-ctrl.ts:425 | same length; each character kept when in `[a-zA-Z0-9_]`, otherwise `_` |
| Text.LabelFromIdIdempotent | src/main/graphviz-app-ctrl.ts:424-426 | applying the conversion twice gives what applying it once gives |
| Text.LabelFromIdDash | src/main/graphviz-app-ctrl.ts:424-426 | a subtask-style id `XYZ-1` becomes `XYZ_1` |
| Text.LabelFromIdDot | src/main/graphviz-app-ctrl.ts:424-426 | `XYZ.1` becomes `XYZ_1` too |
| Text.LabelFromIdCollides | src/main/graphviz-app-ctrl.ts:424-426 | two different ids can get the same label: the conversion is not injective |
| Text.LabelFromIdLeadingDigit | src/main/graphviz-app-ctrl.ts:425 | `1a` becomes `_1a` |
| Text.SixDigitColor | src/main/graphviz-app-ctrl.ts:428-433 | defined exactly for `#` plus 3 or 6 hex digits (otherwise the assertion fails: `None`); the result is `#` plus 6 hex digits; a 6-digit colour is returned unchanged; a 3-digit one has each digit doubled |
| Text.SixDigitColorIdempotent | src/main/graphviz-app-ctrl.ts:428-433 | expanding an expanded colour changes nothing |
| Text.SixDigitColorExamples | src/main/graphviz-app-ctrl.ts:428-433 | `#abc` and `#aabbcc` both give `#aabbcc`; `#xyz`, `#12` and `#gggggg` are rejected |
| Text.ReplaceWithHtmlEntities | src/main/graphviz-app-ctrl.ts:448-457 | the result holds none of `< > " '`; text without any of the five special characters is returned unchanged; the result is never shorter |
| Text.ReplaceWithHtmlEntitiesAppend | src/main/graphviz-app-ctrl.ts:448-457 | the escaping works character by character: escaping `a + b` is escaping `a`, then escaping `b` |
| Text.EntityAmpersands | src/main/graphviz-app-ctrl.ts:449-455 | every `&` in each of the five replacements begins one of the five entities |
| Text.AmpersandsBeginEntitiesInOutput | src/main/graphviz-app-ctrl.ts:448-457 | every `&` in escaped text begins one of the five entities |
| Text.UnescapeEntity | src/main/graphviz-app-ctrl.ts:449-455 | decoding an entity followed by any text gives back its character followed by the decoded text |
| Text.UnescapeInvertsReplace | src/main/graphviz-app-ctrl.ts:448-457 | decoding escaped text gives back the original text |
| Text.ReplaceWithHtmlEntitiesInjective | src/main/graphviz-app-ctrl.ts:448-457 | two texts with the same escaped form are equal |
| Text.ReplaceWithHtmlEntitiesExamples | src/main/graphviz-app-ctrl.ts:448-457 | `<` becomes `&lt;`; `a&'` becomes `a&amp;&#039;` |
| Helpers.Opt | src/main/graphviz-app-ctrl.ts:205-209 | defined exactly when the object is; then it is the property's value |
| Helpers.Opt2 | src/main/graphviz-app-ctrl.ts:211-216 | defined exactly when the object and its first property are; then it is the second property of the first |
| Helpers.Coalesce | src/main/graphviz-app-ctrl.ts:218-222 | the left value when it is defined, otherwise the right |
| Helpers.Opt2IsChainedOpt | src/main/graphviz-app-ctrl.ts:205-216 | `opt2` is `opt` applied twice, with the undefined cases merged |
| Actions.Action.Value | src/main/graphviz-app-ctrl.ts:35-41 | each action's string value is non-empty |
| Actions.ValueInjective | src/main/graphviz-app-ctrl.ts:35-41 | different actions have different string values |
| Actions.ActionFromState | src/main/graphviz-app-ctrl.ts:224-238 | for each of the five actions: it is chosen exactly when its condition holds and none of the earlier branches' conditions do (a computation in progress or pending metadata, incomplete settings, no base URL, no plan yet, otherwise update) |
| Issues.MapGet | src/main/graphviz-app-ctrl.ts:360-363 | a map lookup is defined exactly for keys in the map, and then gives the stored value |
| Issues.ToGraphvizIssue | src/main/graphviz-app-ctrl.ts:352-366 | the record keeps the id and summary, its label is an identifier, the escaped summary holds no markup; resolved exactly when `resolved` is below 2^53 - 1; it has an assignee exactly when the user map knows the assignee's key, and a type exactly when the type field is set and known to the type map, each with the stored value |
| Issues.ExtendIssues | src/main/graphviz-app-ctrl.ts:352-366 | one extended issue per issue, in order, each the issue with its GraphvizIssue |
| Forest.Anchor | src/main/graphviz-app-ctrl.ts:435-441 | the anchor has no children and lies on the first-child chain; a leaf is its own anchor; a group's anchor is another node |
| Forest.AnchorUnique | src/main/graphviz-app-ctrl.ts:435-441 | the only leaf on the first-child chain is the anchor |
| Forest.LinkLabelForIssueNode | src/main/graphviz-app-ctrl.ts:435-441 | the loop stops and returns the label of the anchor |
| Emitter.DotBuilder.constructor | src/main/graphviz-app-ctrl.ts:327-351 | the builder holds the two given strings |
| Emitter.Indent | src/main/graphviz-app-ctrl.ts:368 | two spaces per level and nothing else |
| Emitter.DefaultColours | src/main/graphviz-app-ctrl.ts:274-275 | with no type, or a type without colour, the font colour is `#000000` and the fill colour `#ffffff` |
| Emitter.TypedColours | src/main/graphviz-app-ctrl.ts:274-275 | with a type colour, the colour assertions pass exactly when both of its colours are `#` plus 3 or 6 hex digits |
| Emitter.FgColor | src/main/graphviz-app-ctrl.ts:274 | when defined, the font colour is `#` plus six hex digits; it is undefined (the assertion fails) only when the issue has a type with its own colour pair, and for such a type it is that pair's foreground expanded by `sixDigitColor` |
| Emitter.BgColor | src/main/graphviz-app-ctrl.ts:275 | when defined, the fill colour is `#` plus six hex digits; it is undefined only when the issue has a type with its own colour pair, and for such a type it is that pair's background expanded by `sixDigitColor` |
| Emitter.WriteOpener | src/main/graphviz-app-ctrl.ts:268-273 | appends after the current indent a line that ends in `{` for a cluster and in `[` for a node block |
| Emitter.WriteLabel | src/main/graphviz-app-ctrl.ts:276-288 | appends the label attribute, starting with `label = <` after the indent; its contents are stated by `DotProperties.StrikeThroughIffResolved` and `DotProperties.AssigneeFontIffAssignee` |
| Emitter.WriteLinkAndColours | src/main/graphviz-app-ctrl.ts:289-293 | first closes the label with `>;` and a newline, and ends with a newline; the lines themselves are stated by `DotProperties.LinkAndColourLines` |
| Emitter.WriteLeave | src/main/graphviz-app-ctrl.ts:317-323 | appends the indent and two characters: `}` for a parent or `]` for a leaf, then a newline |
| Emitter.EdgeOf | src/main/graphviz-app-ctrl.ts:296-306 | the edge runs from the dependency's anchor to the node's anchor; an `ltail` is only set for a dependency that is a group, and names it; `lhead` is set exactly when the node is a group, and names it |
| Emitter.WriteEdge | src/main/graphviz-app-ctrl.ts:299-310 | appends `tail -> head` after two spaces and ends with a newline; with a hint the statement closes with `  ]`; the hint lines are stated by `DotProperties.EdgeTextTail` and `DotProperties.EdgeTextHead` |
| Emitter.WriteEnter | src/main/graphviz-app-ctrl.ts:264-315 | everything entering a node appends to `dot` ends, for a leaf, with the `;` of its last attribute line and a newline, and, for a group, with a blank line (two newlines) |
| Emitter.WriteEdges | src/main/graphviz-app-ctrl.ts:295-311 | with at least one dependency, the edge text ends with a newline |
| Emitter.ForestDot | src/main/graphviz-app-ctrl.ts:369-379 | a non-empty walk ends with the closing line of its last tree: `}` for a group, `]` for a leaf, then a newline |
| Emitter.ForestEdges | src/main/graphviz-app-ctrl.ts:369-379 | when the walk adds edges, the edge text ends with a newline |
| Emitter.Preamble | src/main/graphviz-app-ctrl.ts:329-349 | the preamble starts with `digraph ProjectPlan {` and ends with a blank line |
| Emitter.Finish | src/main/graphviz-app-ctrl.ts:380-383 | the text grows only at its end and ends with `}` and a newline; a non-empty edge block comes after a blank line; without edges only the closing brace is added |
| Emitter.DotDocument | src/main/graphviz-app-ctrl.ts:325-385 | a document exists exactly when every colour in the forest is valid, and it ends with `}` and a newline |
| Emitter.EnterNode | src/main/graphviz-app-ctrl.ts:264-315 | it succeeds exactly when both colours are valid; then `dot` gets the block opener, the label, link and colour attributes (and a blank line for a group), and `dependenciesDot` gets one edge per dependency; when it fails, only the opener has been written |
| Emitter.AppendLabelAndColours | src/main/graphviz-app-ctrl.ts:276-293 | `dot` gets the label (struck through when resolved, with the assignee when present) and the `href`, `fillcolor`, `fontcolor` and `color` lines; the edges are untouched |
| Emitter.AppendDependencyEdges | src/main/graphviz-app-ctrl.ts:294-311 | `dependenciesDot` gets the edges of all dependencies in order; `dot` is untouched |
| Emitter.AppendDependencyEdge | src/main/graphviz-app-ctrl.ts:296-310 | `dependenciesDot` gets the edge from the dependency's anchor to the node's anchor, with the hint block when a hint applies; `dot` is untouched |
| Emitter.LeaveNode | src/main/graphviz-app-ctrl.ts:317-323 | `dot` gets `}` for a group or `]` for a leaf at the current indent; the edges are untouched |
| Emitter.WalkTree | src/main/graphviz-app-ctrl.ts:369-379 | one tree succeeds exactly when its node's colours and every colour below it are valid; then the node is entered one level deeper than the walk's level, its children are walked one level deeper still, and the node is left at its own indent |
| Emitter.TraverseIssueForest | src/main/graphviz-app-ctrl.ts:369-379 | the walk succeeds exactly when every colour in the forest is valid; then `dot` and `dependenciesDot` are the pre-order enter/leave output of the trees in order |
| Emitter.ComputeDotFromIssues | src/main/graphviz-app-ctrl.ts:325-385 | the result is the document of the forest built from the extended issues (`None` when a colour assertion fails), so it is a function of the inputs |
| DotProperties.WriteEnterCount | src/main/graphviz-app-ctrl.ts:264-315 | when the base URL, the id, the summary and the assignee's name hold no `{ } [ ]` and the label is an identifier, entering a node adds exactly one opening bracket: `{` for a group, `[` for a leaf |
| DotProperties.WriteLeaveCount | src/main/graphviz-app-ctrl.ts:317-323 | leaving a node adds exactly one closing bracket: `}` for a group, `]` for a leaf |
| DotProperties.ForestDotCount | src/main/graphviz-app-ctrl.ts:367-379 | when the base URL and every id, summary and assignee name hold no `{ } [ ]` and every label is an identifier, the walk adds one `{` and one `}` per group and one `[` and one `]` per leaf |
| DotProperties.TreeBlockShape | src/main/graphviz-app-ctrl.ts:267-273 | each tree at depth `d` is one block at indent `d + 1`: it starts with `subgraph cluster_<label> {` for a group or `<label> [` for a leaf, holds its children one level deeper, and ends with `}` or `]` at the same indent |
| DotProperties.WriteEdgeCount | src/main/graphviz-app-ctrl.ts:296-310 | one edge statement holds one `->`, a `[`/`]` pair exactly when it has hints, one `;` per hint and no brace |
| DotProperties.WriteEdgesCount | src/main/graphviz-app-ctrl.ts:295-311 | the edges of a node's dependencies add up edge by edge |
| DotProperties.ForestEdgesCount | src/main/graphviz-app-ctrl.ts:367-379 | the edges of a forest add up node by node, in walk order |
| DotProperties.EdgeBlockShape | src/main/graphviz-app-ctrl.ts:295-311 | the edge block holds exactly one `->` per dependency in the forest, no brace, and as many `]` as `[` |
| DotProperties.ForestEdgesLength | src/main/graphviz-app-ctrl.ts:295-311 | without dependencies the edge block stays empty; each dependency adds to it |
| DotProperties.EdgeHints | src/main/graphviz-app-ctrl.ts:297-308 | an edge runs from the dependency's anchor to the node's anchor, both leaves; it has `ltail = cluster_<dependency>` exactly when the dependency is a group and `lhead = cluster_<node>` exactly when the node is a group; it has a hint block exactly when one of them is a group |
| DotProperties.StrikeThroughIffResolved | src/main/graphviz-app-ctrl.ts:276-284 | the label starts with `<s>` exactly when the issue is resolved; a resolved issue's label is `<s>`, the id, `: `, the escaped summary and `</s>`; an unresolved one's is the id, `: ` and the escaped summary with no `<s>` |
| DotProperties.AssigneeFontIffAssignee | src/main/graphviz-app-ctrl.ts:282-288 | the label ends with `</font>` exactly when there is an assignee, and then it ends with the assignee's name in a 12-point font |
| DotProperties.GraphStatementCount | src/main/graphviz-app-ctrl.ts:330-334 | the `graph` attribute statement is one pair of square brackets |
| DotProperties.NodeStatementCount | src/main/graphviz-app-ctrl.ts:335-340 | the `node` attribute statement is one pair of square brackets |
| DotProperties.EdgeStatementCount | src/main/graphviz-app-ctrl.ts:341-343 | the `edge` attribute statement is one pair of square brackets |
| DotProperties.LayoutCount | src/main/graphviz-app-ctrl.ts:344-349 | the layout settings hold no bracket |
| DotProperties.PreambleCount | src/main/graphviz-app-ctrl.ts:329-349 | the preamble opens one brace and holds three pairs of square brackets |
| DotProperties.FinishCount | src/main/graphviz-app-ctrl.ts:380-383 | closing the document adds the edge block and one `}` |
| DotProperties.BracketCount | src/main/graphviz-app-ctrl.ts:325-385 | under the same bracket-free texts and identifier labels, each bracket kind in the document is counted over the preamble, the blocks, the edges and the closing brace |
| DotProperties.DocumentBalanced | src/main/graphviz-app-ctrl.ts:325-385 | `{` and `}` balance, one pair for the digraph and one per group; `[` and `]` balance, three pairs for the attribute statements, one per leaf and one per edge with hints |
| DotProperties.DocumentFramed | src/main/graphviz-app-ctrl.ts:327-384 | the document starts with the preamble and ends with `}` and a newline; the edge block follows a blank line exactly when some issue has a dependency, and otherwise is absent |
| DotProperties.ForestDotExtends | src/main/graphviz-app-ctrl.ts:367-379 | the walk only appends to `dot` |
| DotProperties.EdgeTextPlain | src/main/graphviz-app-ctrl.ts:299-310 | an edge without hints is two spaces, `tail -> head` and a newline, and nothing else |
| DotProperties.EdgeTextTail | src/main/graphviz-app-ctrl.ts:299-310 | with an `ltail`, the statement begins `tail -> head [` followed by the line `    ltail = cluster_<dependency>;`; without an `lhead` it ends with that line and `  ]` |
| DotProperties.EdgeTextHead | src/main/graphviz-app-ctrl.ts:299-310 | with an `lhead`, the statement ends with the line `    lhead = cluster_<node>;` and `  ]`; without an `ltail` that line directly follows `tail -> head [` |
| DotProperties.LinkAndColourLines | src/main/graphviz-app-ctrl.ts:289-293 | after the label's `>;` comes the line `href = "<baseUrl>issue/<id>";`, and the text ends with the lines `fillcolor` set to the fill colour and `fontcolor` and `color` set to the font colour |
| DotProperties.DefaultColourLines | src/main/graphviz-app-ctrl.ts:274-275 | with no type colour, the block ends with `fillcolor = "#ffffff";`, `fontcolor = "#000000";` and `color = "#000000";` |

## Left out

- The `GraphvizAppCtrl` constructor, `createDefaultGraphvizCtrl`, `doAction`, `updateDot` and the `typeMap_` and `widthAndHeight_` signals (:54-173). They are reactive wiring of the S.js signal library; the zoom code also uses floating point.
- `buildPlan` (:139-160): an asynchronous network retrieval.
- `updateSvg` and `computeSvgFromDot` (:175-201, :387-422): a Web Worker, the Viz.js renderer, promises and cancellation.
- `makeForest` and `traverseIssueForest` come from an external library whose source is not part of this model. The forest is a parameter. The model claims nothing about how it is built: unknown parent ids, missing dependencies and cycles are not modelled.
- A dependency is held as a `Node` value. The emitter reads only a dependency's label and the nodes on its first-child chain (their labels and whether they have children). A copy that keeps only that chain, with every `dependencies` list emptied, therefore gives the same output. A dependency on the node itself, on an ancestor or along a cycle is represented by such a copy.
- Text.LabelFromId: JavaScript strings are UTF-16 code units and the replacement at :425 has no `u` flag, so a character outside the Basic Multilingual Plane becomes two underscores in the source but one in the model, which works on Dafny characters. Issue ids are ASCII, where the two agree.
- Text.ReplaceNonIdentChars: the same difference; its lengths count characters, not UTF-16 code units.
- Issues.ToGraphvizIssue: `resolved` is a JavaScript number. The model uses an integer, compared with 2^53 - 1.
- Actions.ActionFromState: the progress number is a `real`; only whether it is defined matters.
- A failed colour assertion throws out of `computeDotFromIssues`. The model returns `None` and keeps no partial output.
- DotProperties.EdgeHints: the source decides whether a dependency is a group by comparing its anchor's label with its own. The lemma therefore requires that no node on a group's first-child chain has the group's label. `labelFromId` is not injective (`Text.LabelFromIdCollides`), so without that hypothesis a group can lose its `ltail`.
- DotProperties.DocumentBalanced: the summary, the id and the assignee's name are not escaped for brackets. The count therefore requires that these texts and the base URL hold no `{ } [ ]`, and that every label is an identifier. A summary such as `[WIP] fix` adds brackets that the count does not cover.
- DotProperties.WriteEnterCount: the same hypotheses, for one node: no `{ } [ ]` in the base URL, the id, the summary or the assignee's name, and an identifier label.
- DotProperties.ForestDotCount: the same hypotheses, for every node of the forest.
- DotProperties.BracketCount: the same hypotheses, for every node of the forest.
- DotProperties.StrikeThroughIffResolved: requires that the issue id hold no markup character; an id that itself began with `<s>` would look struck through.
- DotProperties.AssigneeFontIffAssignee: requires that the escaped summary hold no markup character, which `Issues.ToGraphvizIssue` guarantees.
