/**
 * generateToc from packages/pure/plugins/toc.ts as imperative code: the
 * filter, then one pass over the kept headings that grows the forest `toc`.
 */
module Toc {
  import opened Wrappers
  import opened TocModel
  import TocLemmas

  /**
   * The body of the forEach callback: files heading `h` into the forest
   * `toc`, either as a new last root or below the last root.
   */
  method AddHeading(toc: seq<TocItem>, h: Heading) returns (r: seq<TocItem>)
    ensures r == Step(toc, h)
    ensures Preorder(r) == Preorder(toc) + [h]
  {
    var heading := Leaf(h);
    if h.depth == 1 || h.depth == 2 {
      // depth 1 and 2 always open a new top-level entry
      r := toc + [heading];
    } else if |toc| == 0 {
      // no parent yet: fall back to the top level
      r := toc + [heading];
    } else {
      var lastItemInToc := toc[|toc| - 1];
      if h.depth < lastItemInToc.heading.depth {
        // shallower than the last root: an orphan, kept at the top level
        r := toc + [heading];
      } else {
        // push into the list diveChildren finds on the last root's spine
        var gap := h.depth - lastItemInToc.heading.depth;
        r := toc[..|toc| - 1] + [PushInto(lastItemInToc, gap, heading)];
      }
    }
    TocLemmas.StepPreorder(toc, h);
  }

  /**
   * Builds the table of contents for `headings`.  The result is the forest
   * Outline(headings); its preorder flattening is exactly the admissible
   * headings in input order.
   */
  method GenerateToc(headings: seq<Heading>) returns (toc: seq<TocItem>)
    ensures toc == Outline(headings)
    ensures Preorder(toc) == BodyHeadings(headings)
  {
    var bodyHeadings := BodyHeadings(headings);
    toc := [];
    var i := 0;
    while i < |bodyHeadings|
      invariant 0 <= i <= |bodyHeadings|
      invariant toc == Build(bodyHeadings[..i])
    {
      ghost var prev := toc;
      toc := AddHeading(toc, bodyHeadings[i]);
      TocLemmas.BuildNext(bodyHeadings, i, prev, toc);
      i := i + 1;
    }
    assert bodyHeadings[..i] == bodyHeadings;
    TocLemmas.OutlinePreorder(headings);
  }
}
