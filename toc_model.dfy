/**
 * Value-level model of the table-of-contents builder in
 * packages/pure/plugins/toc.ts: the heading and outline-node records, the
 * filter that decides which headings take part, the spine descent
 * `diveChildren`, and one step of `generateToc` as a function on the forest
 * built so far.  The observation functions used to state properties
 * (preorder flattening, the last-child spine, paths into the forest) live
 * here too, next to the definitions they observe.
 */
module TocModel {
  import opened Wrappers

  /** Inclusive range of heading depths kept by the filter of generateToc. */
  const MinDepth: int := 1
  const MaxDepth: int := 10
  /** diveChildren stops descending when its remaining depth exceeds this. */
  const DiveLimit: int := 10

  /**
   * A flat heading as produced by the Markdown parser.  Only `depth` and
   * `text` are inspected; `slug` stands for every field passed through.
   */
  datatype Heading = Heading(depth: int, slug: string, text: Option<string>)

  /** An outline node: the heading's fields plus its ordered subheadings. */
  datatype TocItem = TocItem(heading: Heading, subheadings: seq<TocItem>)

  /** The fresh node `{ ...h, subheadings: [] }` built for every heading. */
  function Leaf(h: Heading): TocItem
  {
    TocItem(h, [])
  }

  /** The filter of generateToc: a depth in 1..10 and a defined text. */
  predicate Admissible(h: Heading)
  {
    MinDepth <= h.depth <= MaxDepth && h.text.Some?
  }

  /** `[...headings].filter(...)`: the admissible headings, in input order. */
  function BodyHeadings(hs: seq<Heading>): seq<Heading>
  {
    if hs == [] then []
    else (if Admissible(hs[0]) then [hs[0]] else []) + BodyHeadings(hs[1..])
  }

  function Min(a: int, b: int): int { if a <= b then a else b }
  function Max(a: int, b: int): int { if a <= b then b else a }

  /** Number of last-subheading links that can be followed down from `item`. */
  function SpineLength(item: TocItem): nat
  {
    if |item.subheadings| == 0 then 0
    else 1 + SpineLength(item.subheadings[|item.subheadings| - 1])
  }

  /** The node reached from `item` by following `k` last-subheading links. */
  function SpineNode(item: TocItem, k: nat): TocItem
    requires k <= SpineLength(item)
  {
    if k == 0 then item
    else SpineNode(item.subheadings[|item.subheadings| - 1], k - 1)
  }

  /**
   * How many links diveChildren(item, depth) descends, in closed form: none
   * when the depth is above the recursion guard, otherwise depth - 1 steps
   * (none for depth <= 1), cut short where the spine ends.
   */
  function DiveReach(item: TocItem, depth: int): (k: nat)
    ensures k <= SpineLength(item)
  {
    if depth > DiveLimit then 0 else Min(Max(depth, 1) - 1, SpineLength(item))
  }

  /**
   * diveChildren: the subheadings list into which a heading `depth` levels
   * below `item` is pushed.
   */
  function DiveChildren(item: TocItem, depth: int): seq<TocItem>
    decreases depth
  {
    if depth <= 1 || |item.subheadings| == 0 then item.subheadings
    else
      var lastSubheading := item.subheadings[|item.subheadings| - 1];
      if depth > DiveLimit then item.subheadings
      else DiveChildren(lastSubheading, depth - 1)
  }

  /** How many links diveChildren(item, depth) actually descends. */
  function DiveSteps(item: TocItem, depth: int): nat
    decreases depth
  {
    if depth <= 1 || |item.subheadings| == 0 || depth > DiveLimit then 0
    else 1 + DiveSteps(item.subheadings[|item.subheadings| - 1], depth - 1)
  }

  /** diveChildren without the recursion guard, as a reference definition. */
  function DiveUncapped(item: TocItem, depth: int): seq<TocItem>
    decreases depth
  {
    if depth <= 1 || |item.subheadings| == 0 then item.subheadings
    else DiveUncapped(item.subheadings[|item.subheadings| - 1], depth - 1)
  }

  /**
   * The tree `item` after `diveChildren(item, depth).push(x)`: the list
   * returned by diveChildren is an alias into the tree, so the push extends
   * that list in place.  Here the spine down to it is rebuilt instead.
   */
  function PushInto(item: TocItem, depth: int, x: TocItem): (r: TocItem)
    decreases depth
    ensures r.heading == item.heading
  {
    var subs := item.subheadings;
    if depth <= 1 || |subs| == 0 || depth > DiveLimit then
      item.(subheadings := subs + [x])
    else
      item.(subheadings := subs[..|subs| - 1] + [PushInto(subs[|subs| - 1], depth - 1, x)])
  }

  /**
   * Whether generateToc appends heading `h` to the forest as a new root:
   * depth 1 or 2, no root yet, or shallower than the last root.
   */
  predicate StartsRoot(toc: seq<TocItem>, h: Heading)
  {
    h.depth == 1 || h.depth == 2 || |toc| == 0 || h.depth < toc[|toc| - 1].heading.depth
  }

  /** One iteration of the forEach in generateToc, on the forest so far. */
  function Step(toc: seq<TocItem>, h: Heading): seq<TocItem>
  {
    if StartsRoot(toc, h) then toc + [Leaf(h)]
    else
      var lastItemInToc := toc[|toc| - 1];
      var gap := h.depth - lastItemInToc.heading.depth;
      toc[..|toc| - 1] + [PushInto(lastItemInToc, gap, Leaf(h))]
  }

  /** The forest after processing `body` in order, starting from no roots. */
  function Build(body: seq<Heading>): seq<TocItem>
  {
    if body == [] then [] else Step(Build(body[..|body| - 1]), body[|body| - 1])
  }

  /** generateToc as a function: filter, then build. */
  function Outline(headings: seq<Heading>): seq<TocItem>
  {
    Build(BodyHeadings(headings))
  }

  /** Preorder flattening of one node: the node, then its subtrees in order. */
  function NodePreorder(t: TocItem): seq<Heading>
  {
    [t.heading] + Preorder(t.subheadings)
  }

  /** Preorder flattening of a forest, root by root. */
  function Preorder(f: seq<TocItem>): seq<Heading>
  {
    if f == [] then [] else Preorder(f[..|f| - 1]) + NodePreorder(f[|f| - 1])
  }

  /** Number of nodes in a forest, counted independently of Preorder. */
  function NodeCount(f: seq<TocItem>): nat
  {
    if f == [] then 0
    else NodeCount(f[..|f| - 1]) + 1 + NodeCount(f[|f| - 1].subheadings)
  }

  /** The heading at `path` (child indices) below node `t`, if any. */
  function AtNode(t: TocItem, path: seq<nat>): Option<Heading>
    decreases |path|
  {
    if path == [] then Some(t.heading)
    else if path[0] < |t.subheadings| then AtNode(t.subheadings[path[0]], path[1..])
    else None
  }

  /** The heading at `path` in a forest: a root index, then child indices. */
  function AtForest(f: seq<TocItem>, path: seq<nat>): Option<Heading>
  {
    if path != [] && path[0] < |f| then AtNode(f[path[0]], path[1..]) else None
  }
}
