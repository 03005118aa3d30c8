/**
 * Small inputs worked through the model, for headings of the given depths
 * (any slug, any defined text).  They pin down behaviour that an outline
 * reader might not expect: a child need not be deeper than its parent, and
 * a depth-1 root never receives depth-2 children.
 */
module TocExamples {
  import opened Wrappers
  import opened TocModel
  import TocLemmas

  /** Pushing anywhere below a node without subheadings makes a direct child. */
  lemma PushIntoLeaf(a: Heading, depth: int, x: TocItem)
    ensures PushInto(Leaf(a), depth, x) == TocItem(a, [x])
  {
    assert [] + [x] == [x];
  }

  /** On admissible headings generateToc is the plain fold. */
  lemma OutlineOfAdmissible(hs: seq<Heading>, f: seq<TocItem>)
    requires forall h :: h in hs ==> Admissible(h)
    requires Build(hs) == f
    ensures Outline(hs) == f
  {
    TocLemmas.BodyHeadingsOfAdmissible(hs);
  }

  /** Pushing two or more levels below a node with one subheading goes into it. */
  lemma PushIntoOnly(a: Heading, t: TocItem, depth: int, x: TocItem)
    requires 1 < depth <= DiveLimit
    ensures PushInto(TocItem(a, [t]), depth, x) == TocItem(a, [PushInto(t, depth - 1, x)])
  {
    assert [t][..0] + [PushInto(t, depth - 1, x)] == [PushInto(t, depth - 1, x)];
  }

  /** The filter on a list with a given first heading. */
  lemma BodyHeadingsCons(h: Heading, t: seq<Heading>)
    ensures BodyHeadings([h] + t) == (if Admissible(h) then [h] else []) + BodyHeadings(t)
  {
    assert ([h] + t)[1..] == t;
  }

  /** One more heading that opens a root. */
  lemma BuildRoot(init: seq<Heading>, h: Heading, f: seq<TocItem>)
    requires Build(init) == f && StartsRoot(f, h)
    ensures Build(init + [h]) == f + [Leaf(h)]
  {
    TocLemmas.BuildSnoc(init, h);
  }

  /** One more heading that is pushed below the last root `t`. */
  lemma BuildPush(init: seq<Heading>, h: Heading, f: seq<TocItem>, t: TocItem)
    requires Build(init) == f + [t] && !StartsRoot(f + [t], h)
    ensures Build(init + [h]) == f + [PushInto(t, h.depth - t.heading.depth, Leaf(h))]
  {
    TocLemmas.BuildSnoc(init, h);
    assert (f + [t])[..|f|] == f;
  }

  /** No headings, no entries. */
  lemma EmptyInput()
    ensures Outline([]) == []
  {
  }

  /** The forest for a first heading [a] (any depth). */
  lemma BuildFirst(a: Heading)
    ensures Build([a]) == [Leaf(a)]
  {
    BuildRoot([], a, []);
    assert [] + [a] == [a] && [] + [Leaf(a)] == [Leaf(a)];
  }

  /** [a, b] where b is filed below a. */
  lemma BuildChild(a: Heading, b: Heading)
    requires b.depth >= 3 && b.depth >= a.depth
    ensures Build([a, b]) == [TocItem(a, [Leaf(b)])]
  {
    BuildFirst(a);
    assert [] + [Leaf(a)] == [Leaf(a)];
    BuildPush([a], b, [], Leaf(a));
    assert [a] + [b] == [a, b];
    PushIntoLeaf(a, b.depth - a.depth, Leaf(b));
    assert [] + [TocItem(a, [Leaf(b)])] == [TocItem(a, [Leaf(b)])];
  }

  /** Two depth-3 headings: the second becomes a child of the first (gap 0). */
  lemma EqualDepthNests(a: Heading, b: Heading)
    requires a.depth == 3 && b.depth == 3 && a.text.Some? && b.text.Some?
    ensures Outline([a, b]) == [TocItem(a, [Leaf(b)])]
  {
    BuildChild(a, b);
    OutlineOfAdmissible([a, b], [TocItem(a, [Leaf(b)])]);
  }

  /** [2, 5]: the missing levels collapse, the 5 is a direct child of the 2. */
  lemma SkippedLevelsCollapse(a: Heading, b: Heading)
    requires a.depth == 2 && b.depth == 5 && a.text.Some? && b.text.Some?
    ensures Outline([a, b]) == [TocItem(a, [Leaf(b)])]
  {
    BuildChild(a, b);
    OutlineOfAdmissible([a, b], [TocItem(a, [Leaf(b)])]);
  }

  /** Filing a heading two levels below a root whose only subheading is a leaf. */
  lemma PushBelowOnlyChild(a: Heading, b: Heading, c: Heading)
    ensures PushInto(TocItem(a, [Leaf(b)]), 2, Leaf(c)) == TocItem(a, [TocItem(b, [Leaf(c)])])
  {
    PushIntoLeaf(b, 1, Leaf(c));
    PushIntoOnly(a, Leaf(b), 2, Leaf(c));
  }

  /** The step that files the depth-4 heading of [2, 5, 4]. */
  lemma StepTwoFiveFour(a: Heading, b: Heading, c: Heading)
    requires a.depth == 2 && b.depth == 5 && c.depth == 4
    ensures Step([TocItem(a, [Leaf(b)])], c) == [TocItem(a, [TocItem(b, [Leaf(c)])])]
  {
    var t := TocItem(a, [Leaf(b)]);
    assert !StartsRoot([t], c);
    assert [t][..0] == [];
    PushBelowOnlyChild(a, b, c);
  }

  lemma BuildTwoFiveFour(a: Heading, b: Heading, c: Heading)
    requires a.depth == 2 && b.depth == 5 && c.depth == 4
    ensures Build([a, b, c]) == [TocItem(a, [TocItem(b, [Leaf(c)])])]
  {
    BuildChild(a, b);
    TocLemmas.BuildSnoc([a, b], c);
    assert [a, b] + [c] == [a, b, c];
    StepTwoFiveFour(a, b, c);
  }

  /** [2, 5, 4]: the depth-4 heading is placed under the depth-5 one. */
  lemma ShallowerChildUnderDeeper(a: Heading, b: Heading, c: Heading)
    requires a.depth == 2 && b.depth == 5 && c.depth == 4
    requires a.text.Some? && b.text.Some? && c.text.Some?
    ensures Outline([a, b, c]) == [TocItem(a, [TocItem(b, [Leaf(c)])])]
  {
    BuildTwoFiveFour(a, b, c);
    OutlineOfAdmissible([a, b, c], [TocItem(a, [TocItem(b, [Leaf(c)])])]);
  }

  /** A lone depth-3 heading has no parent and becomes a root. */
  lemma OrphanBecomesRoot(a: Heading)
    requires a.depth == 3 && a.text.Some?
    ensures Outline([a]) == [Leaf(a)]
  {
    BuildFirst(a);
    OutlineOfAdmissible([a], [Leaf(a)]);
  }

  /** The forest after the first three headings of DepthTwoNeverNests. */
  lemma BuildOneTwoThree(a: Heading, b: Heading, c: Heading)
    requires a.depth == 1 && b.depth == 2 && c.depth == 3
    ensures Build([a, b, c]) == [Leaf(a), TocItem(b, [Leaf(c)])]
  {
    BuildFirst(a);
    BuildRoot([a], b, [Leaf(a)]);
    assert [a] + [b] == [a, b];
    BuildPush([a, b], c, [Leaf(a)], Leaf(b));
    assert [a, b] + [c] == [a, b, c];
    PushIntoLeaf(b, 1, Leaf(c));
  }

  /** The forest after the first five headings of DepthTwoNeverNests. */
  lemma BuildOneTwoThreeTwoThree(a: Heading, b: Heading, c: Heading, d: Heading, e: Heading)
    requires a.depth == 1 && b.depth == 2 && c.depth == 3 && d.depth == 2 && e.depth == 3
    ensures Build([a, b, c, d, e]) == [Leaf(a), TocItem(b, [Leaf(c)]), TocItem(d, [Leaf(e)])]
  {
    var first := [Leaf(a), TocItem(b, [Leaf(c)])];
    BuildOneTwoThree(a, b, c);
    BuildRoot([a, b, c], d, first);
    assert [a, b, c] + [d] == [a, b, c, d];
    BuildPush([a, b, c, d], e, first, Leaf(d));
    assert [a, b, c, d] + [e] == [a, b, c, d, e];
    PushIntoLeaf(d, 1, Leaf(e));
  }

  /** The forest for all six headings of DepthTwoNeverNests. */
  lemma BuildOneTwoThreeTwoThreeFour(a: Heading, b: Heading, c: Heading, d: Heading, e: Heading, f: Heading)
    requires a.depth == 1 && b.depth == 2 && c.depth == 3 && d.depth == 2 && e.depth == 3 && f.depth == 4
    ensures Build([a, b, c, d, e, f])
         == [Leaf(a), TocItem(b, [Leaf(c)]), TocItem(d, [TocItem(e, [Leaf(f)])])]
  {
    var first := [Leaf(a), TocItem(b, [Leaf(c)])];
    BuildOneTwoThreeTwoThree(a, b, c, d, e);
    BuildPush([a, b, c, d, e], f, first, TocItem(d, [Leaf(e)]));
    assert [a, b, c, d, e] + [f] == [a, b, c, d, e, f];
    PushBelowOnlyChild(d, e, f);
  }

  /** [1, 2, 3, 2, 3, 4] gives three roots: the depth-2 headings never nest under 1. */
  lemma DepthTwoNeverNests(a: Heading, b: Heading, c: Heading, d: Heading, e: Heading, f: Heading)
    requires a.depth == 1 && b.depth == 2 && c.depth == 3 && d.depth == 2 && e.depth == 3 && f.depth == 4
    requires a.text.Some? && b.text.Some? && c.text.Some? && d.text.Some? && e.text.Some? && f.text.Some?
    ensures Outline([a, b, c, d, e, f])
         == [Leaf(a), TocItem(b, [Leaf(c)]), TocItem(d, [TocItem(e, [Leaf(f)])])]
  {
    BuildOneTwoThreeTwoThreeFour(a, b, c, d, e, f);
    OutlineOfAdmissible([a, b, c, d, e, f],
      [Leaf(a), TocItem(b, [Leaf(c)]), TocItem(d, [TocItem(e, [Leaf(f)])])]);
  }

  /** Headings outside depth 1..10 or without text are dropped. */
  lemma InvalidHeadingsSkipped(a: Heading, b: Heading, c: Heading, d: Heading, e: Heading)
    requires a.depth == 1 && e.depth == 1 && a.text.Some? && e.text.Some?
    requires b.depth == 0 && c.text.None? && d.depth == 11
    ensures Outline([a, b, c, d, e]) == [Leaf(a), Leaf(e)]
  {
    var hs := [a, b, c, d, e];
    BodyHeadingsCons(e, []);
    BodyHeadingsCons(d, [e]);
    BodyHeadingsCons(c, [d, e]);
    BodyHeadingsCons(b, [c, d, e]);
    BodyHeadingsCons(a, [b, c, d, e]);
    assert [a] + [b, c, d, e] == hs;
    assert BodyHeadings(hs) == [a, e];
    BuildFirst(a);
    BuildRoot([a], e, [Leaf(a)]);
    assert [a] + [e] == [a, e];
  }
}
