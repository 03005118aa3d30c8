# Table-of-contents builder, modelled in Dafny

This project models `generateToc` and `diveChildren` from
`packages/pure/plugins/toc.ts` of the Astro "pure" theme. The builder turns the
flat, ordered list of Markdown headings of a page into a forest of
`TocItem` nodes. Each node holds its heading and an ordered `subheadings` list.

- `generateToc` first drops every heading whose depth is outside 1..10 or
  whose text is undefined. It then walks the remaining headings in order:
  - depth 1 or 2 always opens a new root;
  - a deeper heading also opens a new root when there is no root yet, or when
    it is shallower than the last root;
  - otherwise it is pushed onto the list that `diveChildren(lastRoot, gap)`
    returns, where `gap` is its depth minus the last root's depth.
- `diveChildren(item, depth)` follows the last-subheading links down from
  `item`. It descends `depth - 1` times at most, stops where a node has no
  subheadings, and stops at once when `depth` exceeds 10. It returns the
  `subheadings` list of the node where it stopped.

Files:

- `wrappers.dfy`: `Option`, used for a heading text that may be undefined.
- `toc_model.dfy` (module `TocModel`): the records, the filter,
  `DiveChildren`, `PushInto`, one loop step (`Step`), the fold `Build`, and
  `Outline`. It also holds the observation functions used to state
  properties:
  - `Preorder`: preorder flattening of a forest;
  - `NodeCount`: number of nodes;
  - `SpineLength` and `SpineNode`: the last-subheading spine;
  - `DiveSteps` and `DiveReach`: the number of descent steps, by recursion and
    in closed form;
  - `AtForest`: the heading at a path of child indices.
- `toc_lemmas.dfy` (module `TocLemmas`): the properties of the builder.
- `toc.dfy` (module `Toc`): `GenerateToc`, the imperative loop of
  `generateToc`, proved equal to `Outline`.
- `toc_examples.dfy` (module `TocExamples`): concrete inputs worked through
  the model.

`diveChildren` returns an alias of a `subheadings` array, and `generateToc`
pushes onto it. That mutates a list deep inside the tree. The model works on
values instead: `PushInto(item, depth, x)` is the tree after
`diveChildren(item, depth).push(x)`, with the spine down to that list
rebuilt. `PushIntoSpine` proves that the list which grows is exactly the one
`DiveChildren` returns.

## Model

| member | source | states |
|---|---|---|
| TocLemmas.BodyHeadingsMembers | Arthals-Ink-main/packages/pure/plugins/toc.ts:41-49 | a heading is kept iff it occurs in the input, has depth 1..10 and has defined text; the result is no longer than the input |
| TocLemmas.BodyHeadingsAppend | Arthals-Ink-main/packages/pure/plugins/toc.ts:41-49 | the filter distributes over concatenation, so kept headings stay in input order |
| TocLemmas.BodyHeadingsOfAdmissible | Arthals-Ink-main/packages/pure/plugins/toc.ts:43-48 | a list of admissible headings passes the filter unchanged |
| TocLemmas.DiveChildrenTarget | Arthals-Ink-main/packages/pure/plugins/toc.ts:7-31 | the returned list is the subheadings of the node reached after min(max(depth,1)-1, spine length) last-subheading links, or after none when depth > 10 |
| TocLemmas.DiveChildrenUncapped | Arthals-Ink-main/packages/pure/plugins/toc.ts:23-29 | for depth <= 10 the recursion guard never fires: the result equals the unguarded descent |
| TocModel.PushInto | Arthals-Ink-main/packages/pure/plugins/toc.ts:96-98 | pushing into the list diveChildren returns leaves the node's own heading unchanged |
| TocLemmas.DiveStepsReach | Arthals-Ink-main/packages/pure/plugins/toc.ts:7-31 | the number of last-subheading links diveChildren follows is min(max(depth,1)-1, spine length), or 0 when depth > 10 |
| TocLemmas.PushIntoSpineLength | Arthals-Ink-main/packages/pure/plugins/toc.ts:96-98 | after the push the spine is exactly the links diveChildren followed, one link to the new node, and the new node's own spine |
| TocLemmas.PushIntoSpine | Arthals-Ink-main/packages/pure/plugins/toc.ts:96-98 | after the push, the spine node that diveChildren reached keeps its heading, its subheadings are diveChildren's list plus the new node, and the new node becomes the next spine node |
| TocLemmas.PushIntoPreorder | Arthals-Ink-main/packages/pure/plugins/toc.ts:96-98 | the push appends the new node's flattening to the end of the tree's preorder flattening |
| TocLemmas.PushIntoKeepsPaths | Arthals-Ink-main/packages/pure/plugins/toc.ts:96-98 | every node that existed before the push keeps its heading at the same path |
| TocLemmas.StepShape | Arthals-Ink-main/packages/pure/plugins/toc.ts:69-90 | a step adds a root iff the depth is 1 or 2, the forest is empty, or the depth is below the last root's; the new root is then appended after all others; otherwise the root count is unchanged and all roots but the last, and the last root's heading, are untouched |
| TocLemmas.StepLandsOnSpine | Arthals-Ink-main/packages/pure/plugins/toc.ts:92-98 | a heading that is not a new root has gap >= 0 and becomes the new last subheading of the node min(max(gap,1)-1, spine length) links below the last root, so at most max(gap,1) levels down; gap 0 makes it a direct child |
| TocLemmas.StepPreorder | Arthals-Ink-main/packages/pure/plugins/toc.ts:68-107 | each step appends exactly the new heading to the preorder flattening of the forest |
| TocLemmas.StepKeepsPaths | Arthals-Ink-main/packages/pure/plugins/toc.ts:68-107 | a step neither removes, reorders nor re-parents a node: every existing path keeps its heading |
| TocLemmas.BuildPreorder | Arthals-Ink-main/packages/pure/plugins/toc.ts:51-109 | the preorder flattening of the forest built from a list is that list |
| TocLemmas.OutlinePreorder | Arthals-Ink-main/packages/pure/plugins/toc.ts:33-110 | flattening the result gives exactly the filtered input in order; the node count equals the number of kept headings; a heading appears iff it is in the input and admissible |
| TocLemmas.DiveGuardUnreachable | Arthals-Ink-main/packages/pure/plugins/toc.ts:24-27 | on filtered input the gap passed to diveChildren lies in 0..9, so the depth > 10 guard is dead and the descent equals the unguarded one |
| TocLemmas.StepKeepsOnlyRootsShallow | Arthals-Ink-main/packages/pure/plugins/toc.ts:69-70 | if no nested node has depth below 3, a step with a depth >= 1 heading keeps it so |
| TocLemmas.BuildOnlyRootsShallow | Arthals-Ink-main/packages/pure/plugins/toc.ts:53-108 | building from admissible headings never nests a heading of depth below 3 |
| TocLemmas.ShallowHeadingsAreRoots | Arthals-Ink-main/packages/pure/plugins/toc.ts:68-70 | in generateToc's result every heading below a root has depth >= 3, so depth-1 and depth-2 headings are always roots |
| TocLemmas.BuildKeepsPaths | Arthals-Ink-main/packages/pure/plugins/toc.ts:53-108 | every node of the forest built from a prefix of the input keeps its heading at the same path in the final forest |
| TocLemmas.BuildNext | Arthals-Ink-main/packages/pure/plugins/toc.ts:68-107 | one more forEach iteration turns the forest built from the first i kept headings into the one built from the first i+1 |
| Toc.AddHeading | Arthals-Ink-main/packages/pure/plugins/toc.ts:68-107 | the loop body's four branches compute one step of the fold and append exactly the new heading to the preorder flattening |
| Toc.GenerateToc | Arthals-Ink-main/packages/pure/plugins/toc.ts:33-110 | the loop builds Outline(headings), and its preorder flattening is the filtered input |
| TocExamples.EmptyInput | Arthals-Ink-main/packages/pure/plugins/toc.ts:51-53 | no headings give an empty forest |
| TocExamples.EqualDepthNests | Arthals-Ink-main/packages/pure/plugins/toc.ts:86-98 | headings of depths 3 and 3 put the second heading under the first (gap 0) |
| TocExamples.ShallowerChildUnderDeeper | Arthals-Ink-main/packages/pure/plugins/toc.ts:94-98 | headings of depths 2, 5 and 4 put the 4 under the 5 |
| TocExamples.SkippedLevelsCollapse | Arthals-Ink-main/packages/pure/plugins/toc.ts:14-15 | headings of depths 2 and 5 make the 5 a direct child of the 2 |
| TocExamples.OrphanBecomesRoot | Arthals-Ink-main/packages/pure/plugins/toc.ts:73-78 | a lone depth-3 heading becomes a root |
| TocExamples.DepthTwoNeverNests | Arthals-Ink-main/packages/pure/plugins/toc.ts:69-70 | headings of depths 1, 2, 3, 2, 3, 4 give three roots, 1, 2>3 and 2>3>4 |
| TocExamples.InvalidHeadingsSkipped | Arthals-Ink-main/packages/pure/plugins/toc.ts:43-48 | depths 0 and 11 and an undefined text are dropped; the two depth-1 headings remain as two roots |

## Behaviour worth knowing

The model follows the code. Where a prose description of this builder says
otherwise, the code wins:

- A child is not always deeper than its parent. An equal depth nests:
  for depths `[3,3]`, the code's test is `depth < last root depth`
  (`toc.ts:86`), and the gap of 0 makes a direct child. A shallower heading
  can nest under a deeper one: for `[2,5,4]`, the 4 goes under the 5. See
  `EqualDepthNests` and `ShallowerChildUnderDeeper`.
- Depths `[1,2,3,2,3,4]` give three roots, not two. Every depth-2 heading
  opens a root, so a depth-1 root never gets depth-2 children. See
  `DepthTwoNeverNests`.
- Building twice from the same input gives equal forests. This holds
  because `Outline` is a function; no lemma is needed for it.

## Left out

- `console.warn` diagnostics and the `try`/`catch` around the push
  (`toc.ts:103-106`): logging is I/O, and nothing in the modelled logic
  throws.
- The runtime shape checks are dead code with typed Dafny input, so they are
  left out. These are the non-array input (`toc.ts:35-38`), the `typeof`
  checks on items and depths (`toc.ts:9-12`, `19-21`, `55-58`, `63-66`,
  `80-84`), and the "target is not an array" fallback (`toc.ts:99-101`).
  The `!lastItemInToc.depth` test (`toc.ts:80`) cannot fire either: every
  root has depth 1..10 (`DiveGuardUnreachable` uses this fact).
- Non-integer depths: depths are `int`, so a fractional depth, which the
  JavaScript filter would accept, is not modelled.
- The object spread of extra heading fields: `slug` stands for all of them
  and is carried unchanged.
- In-place update through an alias: the model rebuilds the last root's spine
  (`PushInto`) instead of pushing onto a shared array. Object identity and
  aliasing are therefore not captured; the resulting tree values are.
- Rendering the forest is not part of this model.
