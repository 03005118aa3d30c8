/**
 * Properties of the table-of-contents builder: what the filter keeps, where
 * each heading lands, that the preorder flattening of the forest is the
 * filtered input, that earlier nodes never move, and that the recursion
 * guard of diveChildren is never reached from generateToc.
 */
module TocLemmas {
  import opened Wrappers
  import opened TocModel

  /**
   * The filter keeps a heading iff it occurs in the input and is
   * admissible, and never lengthens the list.
   */
  lemma {:induction false} BodyHeadingsMembers(hs: seq<Heading>)
    ensures |BodyHeadings(hs)| <= |hs|
    ensures forall h :: h in BodyHeadings(hs) <==> h in hs && Admissible(h)
  {
    if hs != [] {
      BodyHeadingsMembers(hs[1..]);
      assert hs == [hs[0]] + hs[1..];
    }
  }

  /** The filter distributes over concatenation, so it keeps input order. */
  lemma {:induction false} BodyHeadingsAppend(a: seq<Heading>, b: seq<Heading>)
    ensures BodyHeadings(a + b) == BodyHeadings(a) + BodyHeadings(b)
  {
    if a == [] {
      assert a + b == b;
    } else {
      var keep := if Admissible(a[0]) then [a[0]] else [];
      assert (a + b)[0] == a[0] && (a + b)[1..] == a[1..] + b;
      calc {
        BodyHeadings(a + b);
        keep + BodyHeadings(a[1..] + b);
        { BodyHeadingsAppend(a[1..], b); }
        keep + (BodyHeadings(a[1..]) + BodyHeadings(b));
        { Assoc(keep, BodyHeadings(a[1..]), BodyHeadings(b)); }
        BodyHeadings(a) + BodyHeadings(b);
      }
    }
  }

  /** A list of admissible headings passes the filter unchanged. */
  lemma {:induction false} BodyHeadingsOfAdmissible(hs: seq<Heading>)
    requires forall h :: h in hs ==> Admissible(h)
    ensures BodyHeadings(hs) == hs
  {
    if hs != [] {
      BodyHeadingsOfAdmissible(hs[1..]);
    }
  }

  /**
   * diveChildren returns the subheadings list of the spine node DiveReach
   * links below `item`: depth - 1 steps at most, fewer where the spine ends,
   * none above the recursion guard.
   */
  lemma {:induction false} DiveChildrenTarget(item: TocItem, depth: int)
    ensures DiveChildren(item, depth) == SpineNode(item, DiveReach(item, depth)).subheadings
    decreases depth
  {
    if depth > 1 && |item.subheadings| > 0 && depth <= DiveLimit {
      var last := item.subheadings[|item.subheadings| - 1];
      DiveChildrenTarget(last, depth - 1);
      assert DiveReach(item, depth) == 1 + DiveReach(last, depth - 1);
    }
  }

  /** With the guard out of reach, diveChildren agrees with the unguarded descent. */
  lemma {:induction false} DiveChildrenUncapped(item: TocItem, depth: int)
    requires depth <= DiveLimit
    ensures DiveChildren(item, depth) == DiveUncapped(item, depth)
    decreases depth
  {
    if depth > 1 && |item.subheadings| > 0 {
      DiveChildrenUncapped(item.subheadings[|item.subheadings| - 1], depth - 1);
    }
  }

  /** The number of links diveChildren descends, in closed form. */
  lemma {:induction false} DiveStepsReach(item: TocItem, depth: int)
    ensures DiveSteps(item, depth) == DiveReach(item, depth)
    decreases depth
  {
    if depth > 1 && |item.subheadings| > 0 && depth <= DiveLimit {
      DiveStepsReach(item.subheadings[|item.subheadings| - 1], depth - 1);
    }
  }

  /** After the push, the spine runs DiveSteps links further, down to `x`'s spine. */
  lemma {:induction false} PushIntoSpineLength(item: TocItem, depth: int, x: TocItem)
    ensures DiveSteps(item, depth) <= SpineLength(item)
    ensures SpineLength(PushInto(item, depth, x)) == DiveSteps(item, depth) + 1 + SpineLength(x)
    decreases depth
  {
    var subs := item.subheadings;
    if depth > 1 && |subs| > 0 && depth <= DiveLimit {
      PushIntoSpineLength(subs[|subs| - 1], depth - 1, x);
    }
  }

  /**
   * Pushing into the list returned by diveChildren: the spine node that
   * diveChildren stops at keeps its heading and gets `x` as its new last
   * subheading, so `x` becomes the next node of the spine.
   */
  lemma {:induction false} PushIntoSpine(item: TocItem, depth: int, x: TocItem)
    ensures var k := DiveSteps(item, depth);
            var r := PushInto(item, depth, x);
            k + 1 <= SpineLength(r) && k <= SpineLength(item)
            && SpineNode(r, k).heading == SpineNode(item, k).heading
            && SpineNode(r, k).subheadings == DiveChildren(item, depth) + [x]
            && SpineNode(r, k + 1) == x
    decreases depth
  {
    PushIntoSpineLength(item, depth, x);
    var subs := item.subheadings;
    if depth > 1 && |subs| > 0 && depth <= DiveLimit {
      PushIntoSpine(subs[|subs| - 1], depth - 1, x);
    }
  }

  /** Concatenation is associative (stated once so that proofs can cite it). */
  lemma Assoc<T>(a: seq<T>, b: seq<T>, c: seq<T>)
    ensures (a + b) + c == a + (b + c)
  {
  }

  /** Flattening a forest with one more root appends that root's flattening. */
  lemma PreorderSnoc(f: seq<TocItem>, t: TocItem)
    ensures Preorder(f + [t]) == Preorder(f) + NodePreorder(t)
  {
    assert (f + [t])[..|f|] == f;
  }

  /** Pushing `x` below `item` appends the flattening of `x` to the node's. */
  lemma {:induction false} PushIntoPreorder(item: TocItem, depth: int, x: TocItem)
    ensures NodePreorder(PushInto(item, depth, x)) == NodePreorder(item) + NodePreorder(x)
    decreases depth
  {
    var subs := item.subheadings;
    var h := [item.heading];
    if depth <= 1 || |subs| == 0 || depth > DiveLimit {
      calc {
        NodePreorder(PushInto(item, depth, x));
        h + Preorder(subs + [x]);
        { PreorderSnoc(subs, x); }
        h + (Preorder(subs) + NodePreorder(x));
        { Assoc(h, Preorder(subs), NodePreorder(x)); }
        NodePreorder(item) + NodePreorder(x);
      }
    } else {
      var init, last := subs[..|subs| - 1], subs[|subs| - 1];
      var pushed := PushInto(last, depth - 1, x);
      assert init + [last] == subs;
      calc {
        NodePreorder(PushInto(item, depth, x));
        h + Preorder(init + [pushed]);
        { PreorderSnoc(init, pushed); }
        h + (Preorder(init) + NodePreorder(pushed));
        { PushIntoPreorder(last, depth - 1, x); }
        h + (Preorder(init) + (NodePreorder(last) + NodePreorder(x)));
        { Assoc(Preorder(init), NodePreorder(last), NodePreorder(x)); }
        h + ((Preorder(init) + NodePreorder(last)) + NodePreorder(x));
        { PreorderSnoc(init, last); }
        h + (Preorder(subs) + NodePreorder(x));
        { Assoc(h, Preorder(subs), NodePreorder(x)); }
        NodePreorder(item) + NodePreorder(x);
      }
    }
  }

  /** Pushing below `item` keeps every existing node at its path. */
  lemma {:induction false} PushIntoKeepsPaths(item: TocItem, depth: int, x: TocItem, path: seq<nat>)
    requires AtNode(item, path).Some?
    ensures AtNode(PushInto(item, depth, x), path) == AtNode(item, path)
    decreases |path|
  {
    if path != [] {
      var subs := item.subheadings;
      var r := PushInto(item, depth, x);
      if depth <= 1 || |subs| == 0 || depth > DiveLimit || path[0] < |subs| - 1 {
        assert r.subheadings[path[0]] == subs[path[0]];
      } else {
        PushIntoKeepsPaths(subs[|subs| - 1], depth - 1, x, path[1..]);
      }
    }
  }

  /**
   * Which headings start a root: a step adds a root exactly when StartsRoot
   * holds (depth 1 or 2, an empty forest, or shallower than the last root),
   * and then appends the new node after all existing roots.  Otherwise the
   * number of roots is unchanged and all roots but the last are untouched.
   */
  lemma StepShape(toc: seq<TocItem>, h: Heading)
    ensures StartsRoot(toc, h) <==> |Step(toc, h)| == |toc| + 1
    ensures StartsRoot(toc, h) ==> Step(toc, h) == toc + [Leaf(h)]
    ensures !StartsRoot(toc, h) ==>
              |Step(toc, h)| == |toc| && Step(toc, h)[..|toc| - 1] == toc[..|toc| - 1]
              && Step(toc, h)[|toc| - 1].heading == toc[|toc| - 1].heading
  {
  }

  /**
   * A heading that does not start a root lands on the last root's spine:
   * with gap = its depth minus the last root's, gap is not negative, the
   * node min(max(gap, 1) - 1, spine length) links down (the list
   * diveChildren returns) gets it as new last subheading, and so it sits at
   * most max(gap, 1) levels below the root; gap 0 or 1 makes it a direct
   * child.
   */
  lemma StepLandsOnSpine(toc: seq<TocItem>, h: Heading)
    requires !StartsRoot(toc, h)
    requires h.depth <= MaxDepth && toc[|toc| - 1].heading.depth >= MinDepth
    ensures var last := toc[|toc| - 1];
            var gap := h.depth - last.heading.depth;
            var k := Min(Max(gap, 1) - 1, SpineLength(last));
            var root := Step(toc, h)[|toc| - 1];
            0 <= gap && k + 1 <= Max(gap, 1)
            && SpineLength(root) == k + 1
            && SpineNode(root, k).heading == SpineNode(last, k).heading
            && SpineNode(root, k).subheadings == SpineNode(last, k).subheadings + [Leaf(h)]
            && SpineNode(root, k + 1) == Leaf(h)
  {
    var last := toc[|toc| - 1];
    var gap := h.depth - last.heading.depth;
    PushIntoSpine(last, gap, Leaf(h));
    PushIntoSpineLength(last, gap, Leaf(h));
    DiveStepsReach(last, gap);
    DiveChildrenTarget(last, gap);
    assert Step(toc, h)[|toc| - 1] == PushInto(last, gap, Leaf(h));
  }

  /** Processing one more heading is one more step on the forest built so far. */
  lemma BuildSnoc(init: seq<Heading>, h: Heading)
    ensures Build(init + [h]) == Step(Build(init), h)
  {
    assert (init + [h])[..|init|] == init;
  }

  /** One loop iteration of generateToc extends the forest of a prefix by one heading. */
  lemma BuildNext(body: seq<Heading>, i: nat, prev: seq<TocItem>, toc: seq<TocItem>)
    requires i < |body| && prev == Build(body[..i])
    requires toc == Step(prev, body[i])
    ensures toc == Build(body[..i + 1])
  {
    assert body[..i + 1] == body[..i] + [body[i]];
    BuildSnoc(body[..i], body[i]);
  }

  /** Every step appends exactly the new heading to the preorder flattening. */
  lemma StepPreorder(toc: seq<TocItem>, h: Heading)
    ensures Preorder(Step(toc, h)) == Preorder(toc) + [h]
  {
    if StartsRoot(toc, h) {
      PreorderSnoc(toc, Leaf(h));
      assert NodePreorder(Leaf(h)) == [h];
    } else {
      var init, last := toc[..|toc| - 1], toc[|toc| - 1];
      var gap := h.depth - last.heading.depth;
      PushIntoPreorder(last, gap, Leaf(h));
      PreorderSnoc(init, PushInto(last, gap, Leaf(h)));
      PreorderSnoc(init, last);
      assert init + [last] == toc;
      assert NodePreorder(Leaf(h)) == [h];
    }
  }

  /** A step moves no existing node: every path keeps its heading. */
  lemma StepKeepsPaths(toc: seq<TocItem>, h: Heading, path: seq<nat>)
    requires AtForest(toc, path).Some?
    ensures AtForest(Step(toc, h), path) == AtForest(toc, path)
  {
    if !StartsRoot(toc, h) && path[0] == |toc| - 1 {
      var last := toc[|toc| - 1];
      PushIntoKeepsPaths(last, h.depth - last.heading.depth, Leaf(h), path[1..]);
    }
  }

  /** Flattening the built forest in preorder gives back its input. */
  lemma {:induction false} BuildPreorder(body: seq<Heading>)
    ensures Preorder(Build(body)) == body
  {
    if body != [] {
      var init, h := body[..|body| - 1], body[|body| - 1];
      assert init + [h] == body;
      var prev := Build(init);
      assert Build(body) == Step(prev, h);
      BuildPreorder(init);
      StepPreorder(prev, h);
    }
  }

  /** The preorder flattening has one entry per node. */
  lemma {:induction false} PreorderCountsNodes(f: seq<TocItem>)
    ensures |Preorder(f)| == NodeCount(f)
  {
    if f != [] {
      PreorderCountsNodes(f[..|f| - 1]);
      PreorderCountsNodes(f[|f| - 1].subheadings);
    }
  }

  /**
   * generateToc: the preorder flattening of its result is exactly the
   * filtered input, so every admissible heading appears once, in input
   * order, nothing else appears, and the node count equals the number of
   * admissible headings.
   */
  lemma OutlinePreorder(headings: seq<Heading>)
    ensures Preorder(Outline(headings)) == BodyHeadings(headings)
    ensures NodeCount(Outline(headings)) == |BodyHeadings(headings)|
    ensures forall h :: h in Preorder(Outline(headings)) <==> h in headings && Admissible(h)
  {
    BuildPreorder(BodyHeadings(headings));
    BodyHeadingsMembers(headings);
    PreorderCountsNodes(Outline(headings));
  }

  /** Every root's heading occurs in the flattening of its forest. */
  lemma {:induction false} RootsInPreorder(f: seq<TocItem>)
    ensures forall i :: 0 <= i < |f| ==> f[i].heading in Preorder(f)
  {
    if f != [] {
      var init := f[..|f| - 1];
      RootsInPreorder(init);
      assert Preorder(f) == Preorder(init) + NodePreorder(f[|f| - 1]);
      forall i | 0 <= i < |f|
        ensures f[i].heading in Preorder(f)
      {
        if i < |f| - 1 {
          assert f[i] == init[i];
        }
      }
    }
  }

  /**
   * The recursion guard of diveChildren is dead code for generateToc: on
   * filtered input every root has depth at least 1, so the gap passed to
   * diveChildren is between 0 and 9, below the guard, and the guarded
   * descent agrees with the unguarded one.
   */
  lemma DiveGuardUnreachable(body: seq<Heading>, h: Heading)
    requires forall g :: g in body ==> Admissible(g)
    requires Admissible(h)
    requires !StartsRoot(Build(body), h)
    ensures var toc := Build(body);
            var gap := h.depth - toc[|toc| - 1].heading.depth;
            0 <= gap <= MaxDepth - MinDepth && gap < DiveLimit
            && DiveChildren(toc[|toc| - 1], gap) == DiveUncapped(toc[|toc| - 1], gap)
  {
    var toc := Build(body);
    BuildPreorder(body);
    RootsInPreorder(toc);
    assert toc[|toc| - 1].heading in body;
    DiveChildrenUncapped(toc[|toc| - 1], h.depth - toc[|toc| - 1].heading.depth);
  }

  /** No heading below the root `t` has depth 1 or 2 (nor any depth under 3). */
  ghost predicate DeepBelow(t: TocItem)
  {
    forall g :: g in Preorder(t.subheadings) ==> g.depth >= 3
  }

  ghost predicate OnlyRootsShallow(f: seq<TocItem>)
  {
    forall i :: 0 <= i < |f| ==> DeepBelow(f[i])
  }

  /** Below the root it is pushed into, a step adds exactly the new heading. */
  lemma PushIntoSubPreorder(last: TocItem, depth: int, h: Heading)
    ensures Preorder(PushInto(last, depth, Leaf(h)).subheadings) == Preorder(last.subheadings) + [h]
  {
    var pushed := PushInto(last, depth, Leaf(h));
    var p, q := Preorder(pushed.subheadings), Preorder(last.subheadings);
    PushIntoPreorder(last, depth, Leaf(h));
    assert NodePreorder(Leaf(h)) == [h];
    Assoc([last.heading], q, [h]);
    assert [last.heading] + p == [last.heading] + (q + [h]);
    assert p == ([last.heading] + p)[1..];
    assert q + [h] == ([last.heading] + (q + [h]))[1..];
  }

  /** OnlyRootsShallow holds root by root. */
  lemma OnlyRootsShallowSnoc(f: seq<TocItem>, t: TocItem)
    ensures OnlyRootsShallow(f + [t]) <==> OnlyRootsShallow(f) && DeepBelow(t)
  {
    var g := f + [t];
    assert forall i :: 0 <= i < |f| ==> g[i] == f[i];
    assert g[|f|] == t;
  }

  lemma StepKeepsOnlyRootsShallow(toc: seq<TocItem>, h: Heading)
    requires OnlyRootsShallow(toc)
    requires h.depth >= MinDepth
    ensures OnlyRootsShallow(Step(toc, h))
  {
    if StartsRoot(toc, h) {
      assert Preorder(Leaf(h).subheadings) == [];
      OnlyRootsShallowSnoc(toc, Leaf(h));
    } else {
      var init, last := toc[..|toc| - 1], toc[|toc| - 1];
      var pushed := PushInto(last, h.depth - last.heading.depth, Leaf(h));
      assert init + [last] == toc;
      OnlyRootsShallowSnoc(init, last);
      PushIntoSubPreorder(last, h.depth - last.heading.depth, h);
      assert DeepBelow(pushed);
      OnlyRootsShallowSnoc(init, pushed);
    }
  }

  lemma {:induction false} BuildOnlyRootsShallow(body: seq<Heading>)
    requires forall g :: g in body ==> Admissible(g)
    ensures OnlyRootsShallow(Build(body))
  {
    if body != [] {
      var init := body[..|body| - 1];
      BuildOnlyRootsShallow(init);
      assert body[|body| - 1] in body;
      StepKeepsOnlyRootsShallow(Build(init), body[|body| - 1]);
    }
  }

  /** Headings of depth 1 and 2 occur only as roots of generateToc's result. */
  lemma ShallowHeadingsAreRoots(headings: seq<Heading>)
    ensures var f := Outline(headings);
            forall i :: 0 <= i < |f| ==> forall h :: h in Preorder(f[i].subheadings) ==> h.depth >= 3
  {
    BodyHeadingsMembers(headings);
    BuildOnlyRootsShallow(BodyHeadings(headings));
  }

  /**
   * Appending only: every node of the forest built from a prefix of the
   * input keeps its heading at the same path in the final forest, so no
   * node is removed, reordered or re-parented.
   */
  lemma {:induction false} BuildKeepsPaths(body: seq<Heading>, i: nat, path: seq<nat>)
    requires i <= |body|
    requires AtForest(Build(body[..i]), path).Some?
    ensures AtForest(Build(body), path) == AtForest(Build(body[..i]), path)
  {
    if i == |body| {
      assert body[..i] == body;
    } else {
      var init := body[..|body| - 1];
      assert init[..i] == body[..i];
      BuildKeepsPaths(init, i, path);
      StepKeepsPaths(Build(init), body[|body| - 1], path);
    }
  }
}
