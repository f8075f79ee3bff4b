/** Worked cases of the multi-word matcher's labelling rule for the brand
    "capital one", under any distance and segmenter that behave as stated. */
module Scenarios {
  import opened Text
  import opened Foreign
  import opened ResultBoxes
  import opened Segmentation
  import opened MultiWord

  lemma JoinTwo(a: string, b: string)
    ensures Join([a, b]) == a + " " + b
  {
    assert [a, b][1..] == [b];
  }

  /** With fewer tokens than the brand has words, pass 1 finds no window
      and leaves every token. */
  lemma ShortInputLeftover(ts: seq<string>, brand: string, k: nat, dist: (string, string) -> nat)
    requires 1 <= k && |ts| < k
    ensures WindowPass(ts, brand, k, dist, 0) == Claims(0, 0, Repeat(false, |ts|))
    ensures Leftover(ts, brand, k, dist) == ts
  {
    UnflaggedNone(ts);
  }

  lemma {:induction false} UnflaggedNone(ts: seq<string>)
    ensures Unflagged(ts, Repeat(false, |ts|)) == ts
  {
    if ts != [] {
      var n := |ts| - 1;
      assert Repeat(false, |ts|)[..n] == Repeat(false, n);
      UnflaggedNone(ts[..n]);
      assert ts == ts[..n] + [ts[n]];
    }
  }

  /** The trace of a single token: its segmentation, every child mapped to
      source index 0. */
  lemma SingleTokenTrace(t: string, segment: string -> seq<string>)
    ensures var tr := TraceMultiWord([t], segment);
      && SubTokens(tr.tracked) == segment(t)
      && (forall j: nat :: j in tr.parentOf <==> j < |segment(t)|)
      && (forall j :: j in tr.parentOf ==> tr.parentOf[j] == 0)
  {
    var tr := TraceMultiWord([t], segment);
    var parts := segment(t);
    assert [t][..0] == [];
    assert TraceMultiWord([], segment) == MultiTrace([], map[]);
    assert tr.tracked == [] + Children(0, t, parts, 0);
    assert SubTokens(Children(0, t, parts, 0)) == parts;
  }

  /** The only original token is removed and nothing is kept. */
  lemma OnlyTokenRemoved(t: string)
    ensures Unmarked([t], {0}) == []
  {
    assert [t][..0] == [];
  }

  /** Pass 2 over the two children of one fused token: the window covers
      every child, so it is labelled `typo`. */
  lemma WholeTokenWindow(subs: seq<string>, parentOf: map<nat, nat>, brand: string, dist: (string, string) -> nat)
    requires subs == ["capital", "one"] && brand == "capital one"
    requires forall j: nat :: j in parentOf <==> j < 2
    requires forall j :: j in parentOf ==> parentOf[j] == 0
    requires dist(brand, "capital one") == 0
    ensures var p2 := ChildPass(subs, parentOf, brand, 2, dist, 0);
      p2.typo == 1 && p2.combo == 0 && p2.fuzzy == 0 && p2.origs == {0}
  {
    assert GetWord(subs, 0, 2) == "capital one" by {
      assert subs[0..2] == ["capital", "one"];
      JoinTwo("capital", "one");
    }
    assert WindowLabel(2, 2, parentOf, 0, 0) == Typo;
    ChildPassAccepts(subs, parentOf, brand, 2, dist, 0);
    assert ChildPass(subs, parentOf, brand, 2, dist, 2) == Labels(0, 0, 0, {}, {});
    assert Parents(parentOf, 0, 2) == {0};
  }

  /** A single fused token that the segmenter splits into exactly the
      brand's two words: the window covers every sub-token, so the match is
      labelled `typo`, not `combo`, and the token is consumed. */
  lemma FusedBrandAloneIsTypo(ops: Oracles)
    requires ops.segment("capitalone") == ["capital", "one"]
    requires ops.dist("capital one", "capital one") == 0
    ensures DetectMultiWord(["capitalone"], "capital one", 2, ops) == Outcome(Tally(0, 1, 0, 0), [], "")
  {
    var ts := ["capitalone"];
    var brand := "capital one";
    ShortInputLeftover(ts, brand, 2, ops.dist);
    var tr := TraceMultiWord(ts, ops.segment);
    SingleTokenTrace("capitalone", ops.segment);
    WholeTokenWindow(SubTokens(tr.tracked), tr.parentOf, brand, ops.dist);
    OnlyTokenRemoved("capitalone");
    DetectBothPasses(ts, brand, 2, ops);
  }

  /** Pass 2 over the three children of one fused token: the first window
      misses, the second matches and shares its first child's source with
      the child before it, so it is labelled `combo`. */
  lemma SharedBoundaryWindow(subs: seq<string>, parentOf: map<nat, nat>, brand: string, dist: (string, string) -> nat)
    requires subs == ["x", "capital", "one"] && brand == "capital one"
    requires forall j: nat :: j in parentOf <==> j < 3
    requires forall j :: j in parentOf ==> parentOf[j] == 0
    requires dist(brand, "x capital") > 2
    requires dist(brand, "capital one") == 0
    ensures var p2 := ChildPass(subs, parentOf, brand, 2, dist, 0);
      p2.typo == 0 && p2.combo == 1 && p2.fuzzy == 0 && p2.origs == {0}
  {
    assert GetWord(subs, 0, 2) == "x capital" by {
      assert subs[0..2] == ["x", "capital"];
      JoinTwo("x", "capital");
    }
    assert GetWord(subs, 1, 3) == "capital one" by {
      assert subs[1..3] == ["capital", "one"];
      JoinTwo("capital", "one");
    }
    assert WindowLabel(3, 2, parentOf, 1, 0) == Combo;
    ChildPassRejects(subs, parentOf, brand, 2, dist, 0);
    ChildPassAccepts(subs, parentOf, brand, 2, dist, 1);
    assert ChildPass(subs, parentOf, brand, 2, dist, 3) == Labels(0, 0, 0, {}, {});
    assert Parents(parentOf, 1, 3) == {0};
  }

  /** A fused token with an extra sub-token in front: the matching window's
      first sub-token shares its source with the sub-token just before it,
      so the match is labelled `combo`. */
  lemma FusedBrandWithPrefixIsCombo(ops: Oracles)
    requires ops.segment("xcapitalone") == ["x", "capital", "one"]
    requires ops.dist("capital one", "x capital") > 2
    requires ops.dist("capital one", "capital one") == 0
    ensures DetectMultiWord(["xcapitalone"], "capital one", 2, ops) == Outcome(Tally(0, 0, 1, 0), [], "")
  {
    var ts := ["xcapitalone"];
    var brand := "capital one";
    ShortInputLeftover(ts, brand, 2, ops.dist);
    var tr := TraceMultiWord(ts, ops.segment);
    SingleTokenTrace("xcapitalone", ops.segment);
    SharedBoundaryWindow(SubTokens(tr.tracked), tr.parentOf, brand, ops.dist);
    OnlyTokenRemoved("xcapitalone");
    DetectBothPasses(ts, brand, 2, ops);
  }

  /** The brand's two words written apart and matched by pass 1: one
      `direct`, both tokens consumed, nothing left for pass 2. */
  lemma SeparateWordsAreDirect(ops: Oracles)
    requires ops.dist("capital one", "capital one") == 0
    ensures DetectMultiWord(["capital", "one"], "capital one", 2, ops) == Outcome(Tally(1, 0, 0, 0), [], "")
  {
    var ts := ["capital", "one"];
    var brand := "capital one";
    assert GetWord(ts, 0, 2) == "capital one" by {
      assert ts[0..2] == ts;
      JoinTwo("capital", "one");
    }
    assert WindowPass(ts, brand, 2, ops.dist, 0) == Claims(1, 0, [true, true]) by {
      assert WindowPass(ts, brand, 2, ops.dist, 2) == Claims(0, 0, []);
      assert Repeat(true, 2) == [true, true];
    }
    assert Leftover(ts, brand, 2, ops.dist) == [] by {
      assert Unflagged(ts, [true, true]) == Unflagged(["capital"], [true]) + [];
      assert Unflagged(["capital"], [true]) == Unflagged([], []) + [];
    }
    DetectEmptyLeftover(ts, brand, 2, ops);
  }
}
