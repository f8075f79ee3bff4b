/** `process_detection_oneword`: the matcher for a single-word brand. Step 1
    classifies each token by its distance to the brand; step 2 segments the
    tokens left over and looks for the brand among the sub-tokens. */
module OneWord {
  import opened Text
  import opened Foreign
  import opened ResultBoxes
  import opened Segmentation

  /** The number of tokens at distance exactly `d` from the brand. */
  function CountAtDistance(ts: seq<string>, brand: string, dist: (string, string) -> nat, d: nat): nat {
    if ts == [] then 0
    else
      var n := |ts| - 1;
      CountAtDistance(ts[..n], brand, dist, d) + (if dist(brand, ts[n]) == d then 1 else 0)
  }

  /** The tokens at distance 2 or more, in their original order. */
  function Carried(ts: seq<string>, brand: string, dist: (string, string) -> nat): seq<string> {
    if ts == [] then []
    else
      var n := |ts| - 1;
      Carried(ts[..n], brand, dist) + (if dist(brand, ts[n]) >= 2 then [ts[n]] else [])
  }

  /** Step 1 puts every token in exactly one place: the direct count, the
      typo count, or the list carried to step 2. */
  lemma {:induction false} FirstPassPartition(ts: seq<string>, brand: string, dist: (string, string) -> nat)
    ensures CountAtDistance(ts, brand, dist, 0) + CountAtDistance(ts, brand, dist, 1)
          + |Carried(ts, brand, dist)| == |ts|
  {
    if ts != [] {
      FirstPassPartition(ts[..|ts| - 1], brand, dist);
    }
  }

  /** The carried tokens are exactly the tokens at distance 2 or more. */
  lemma {:induction false} CarriedMembers(ts: seq<string>, brand: string, dist: (string, string) -> nat)
    ensures forall t :: t in Carried(ts, brand, dist) <==> t in ts && dist(brand, t) >= 2
  {
    if ts != [] {
      var n := |ts| - 1;
      CarriedMembers(ts[..n], brand, dist);
      assert ts == ts[..n] + [ts[n]];
    }
  }

  /** What step 2 has found after a prefix of the trace. */
  datatype Retry = Retry(combo: nat, fuzzy: nat, removed: set<nat>)

  /** Step 2 over the trace: a sub-token of a source token not yet removed
      counts `combo` at distance 0 and `fuzzy` at distance 1 or 2, and
      removes its source token. */
  function RetryPass(tr: seq<Piece>, brand: string, dist: (string, string) -> nat): Retry {
    if tr == [] then Retry(0, 0, {})
    else
      var n := |tr| - 1;
      var r := RetryPass(tr[..n], brand, dist);
      var p := tr[n];
      if p.orig in r.removed then r
      else
        var d := dist(brand, p.sub);
        if d == 0 then Retry(r.combo + 1, r.fuzzy, r.removed + {p.orig})
        else if 1 <= d <= 2 then Retry(r.combo, r.fuzzy + 1, r.removed + {p.orig})
        else r
  }

  /** Each source index adds at most one combo or fuzzy increment:
      `combo + fuzzy == |remove_orig|`. */
  lemma {:induction false} RetryPassCounts(tr: seq<Piece>, brand: string, dist: (string, string) -> nat)
    ensures RetryPass(tr, brand, dist).combo + RetryPass(tr, brand, dist).fuzzy == |RetryPass(tr, brand, dist).removed|
  {
    if tr != [] {
      RetryPassCounts(tr[..|tr| - 1], brand, dist);
    }
  }

  /** A source index is removed exactly when one of its sub-tokens is
      within distance 2 of the brand. */
  lemma {:induction false} RetryPassRemoved(tr: seq<Piece>, brand: string, dist: (string, string) -> nat, i: nat)
    ensures i in RetryPass(tr, brand, dist).removed <==>
      exists j :: 0 <= j < |tr| && tr[j].orig == i && dist(brand, tr[j].sub) <= 2
  {
    if tr != [] {
      var n := |tr| - 1;
      RetryPassRemoved(tr[..n], brand, dist, i);
      if exists j :: 0 <= j < |tr| && tr[j].orig == i && dist(brand, tr[j].sub) <= 2 {
        var j :| 0 <= j < |tr| && tr[j].orig == i && dist(brand, tr[j].sub) <= 2;
        if j < n { assert tr[..n][j] == tr[j]; }
      }
      if exists j :: 0 <= j < n && tr[..n][j].orig == i && dist(brand, tr[..n][j].sub) <= 2 {
        var j :| 0 <= j < n && tr[..n][j].orig == i && dist(brand, tr[..n][j].sub) <= 2;
        assert tr[j] == tr[..n][j];
      }
    }
  }

  /** The source tokens with some sub-token within distance 2 of the brand. */
  function Consumed(rem: seq<string>, brand: string, ops: Oracles): set<nat> {
    set i: nat | i < |rem| && exists s :: s in ops.segment(rem[i]) && ops.dist(brand, s) <= 2
  }

  /** Over the trace of `rem`, step 2 removes exactly the consumed tokens. */
  lemma RetryRemovesConsumed(rem: seq<string>, brand: string, ops: Oracles)
    ensures RetryPass(TraceOneWord(rem, ops.segment), brand, ops.dist).removed == Consumed(rem, brand, ops)
  {
    forall i: nat ensures i in RetryPass(TraceOneWord(rem, ops.segment), brand, ops.dist).removed
                      <==> i in Consumed(rem, brand, ops) {
      RemovedIffConsumed(rem, brand, ops, i);
    }
  }

  lemma RemovedIffConsumed(rem: seq<string>, brand: string, ops: Oracles, i: nat)
    ensures i in RetryPass(TraceOneWord(rem, ops.segment), brand, ops.dist).removed <==> i in Consumed(rem, brand, ops)
  {
    var tr := TraceOneWord(rem, ops.segment);
    RetryPassRemoved(tr, brand, ops.dist, i);
    if i in RetryPass(tr, brand, ops.dist).removed {
      var j :| 0 <= j < |tr| && tr[j].orig == i && ops.dist(brand, tr[j].sub) <= 2;
      SubsOfMembers(tr, i, tr[j].sub);
      TraceOneWordBlocks(rem, ops.segment, i);
      assert tr[j].sub in ops.segment(rem[i]);
    }
    if i in Consumed(rem, brand, ops) {
      var s :| s in ops.segment(rem[i]) && ops.dist(brand, s) <= 2;
      TraceOneWordBlocks(rem, ops.segment, i);
      SubsOfMembers(tr, i, s);
    }
  }

  /** `process_detection_oneword` as a value: the tally it adds to its stage
      and the tokens it leaves, joined into the string it returns. */
  function DetectOneWord(ts: seq<string>, brand: string, ops: Oracles): Outcome {
    var rem := Carried(ts, brand, ops.dist);
    var direct := CountAtDistance(ts, brand, ops.dist, 0);
    var typo := CountAtDistance(ts, brand, ops.dist, 1);
    if rem == [] then Outcome(Tally(direct, typo, 0, 0), [], "")
    else
      var r := RetryPass(TraceOneWord(rem, ops.segment), brand, ops.dist);
      var kept := Unmarked(rem, r.removed);
      Outcome(Tally(direct, typo, r.combo, r.fuzzy), kept, Join(kept))
  }

  /** Every input token is counted once or left over, never both: the four
      counts and the leftover tokens add up to the input. The leftovers are
      the step-1 misses none of whose sub-tokens came within distance 2,
      in order, and the returned string is them space-joined. */
  lemma OneWordConservation(ts: seq<string>, brand: string, ops: Oracles)
    ensures var o := DetectOneWord(ts, brand, ops);
      && o.tally.direct + o.tally.typo + o.tally.combo + o.tally.fuzzy + |o.kept| == |ts|
      && o.kept == Unmarked(Carried(ts, brand, ops.dist), Consumed(Carried(ts, brand, ops.dist), brand, ops))
      && o.text == Join(o.kept)
      && forall t :: t in o.kept ==> t in ts && ops.dist(brand, t) >= 2
  {
    var rem := Carried(ts, brand, ops.dist);
    FirstPassPartition(ts, brand, ops.dist);
    CarriedMembers(ts, brand, ops.dist);
    if rem != [] {
      var tr := TraceOneWord(rem, ops.segment);
      var r := RetryPass(tr, brand, ops.dist);
      RetryPassCounts(tr, brand, ops.dist);
      RetryRemovesConsumed(rem, brand, ops);
      UnmarkedLength(rem, r.removed);
      UnmarkedMembers(rem, r.removed);
    } else {
      assert Unmarked(rem, Consumed(rem, brand, ops)) == [];
    }
  }

  /** `process_detection_oneword(text_split_, my_brand, result_box, prefix)`:
      adds the tally of `DetectOneWord` to its own stage and returns the
      leftover text. */
  method ProcessDetectionOneWord(ts: seq<string>, brand: string, ops: Oracles, box: ResultBox, stage: Stage)
    returns (text: string)
    requires box.Valid()
    modifies box
    ensures box.Valid()
    ensures text == DetectOneWord(ts, brand, ops).text
    ensures box.counts == Credit(old(box.counts), stage, DetectOneWord(ts, brand, ops).tally)
  {
    ghost var start := box.counts;
    var remaining := ClassifyTokens(ts, brand, ops, box, stage);
    if remaining == [] {
      DetectNoneCarried(ts, brand, ops);
      return "";
    }
    ghost var afterFirst := box.counts;
    var tracked := TraceOneWord(remaining, ops.segment);
    var removeOrig := RetrySubTokens(tracked, brand, ops, box, stage);
    DetectSomeCarried(ts, brand, ops);
    CreditSum(start, stage, FirstTally(ts, brand, ops.dist), RetryTally(RetryPass(tracked, brand, ops.dist)),
              DetectOneWord(ts, brand, ops).tally, afterFirst, box.counts);
    text := Join(Unmarked(remaining, removeOrig));
  }

  lemma DetectNoneCarried(ts: seq<string>, brand: string, ops: Oracles)
    requires Carried(ts, brand, ops.dist) == []
    ensures DetectOneWord(ts, brand, ops) == Outcome(FirstTally(ts, brand, ops.dist), [], "")
  {
  }

  lemma DetectSomeCarried(ts: seq<string>, brand: string, ops: Oracles)
    requires Carried(ts, brand, ops.dist) != []
    ensures var rem := Carried(ts, brand, ops.dist);
      var r := RetryPass(TraceOneWord(rem, ops.segment), brand, ops.dist);
      DetectOneWord(ts, brand, ops)
        == Outcome(Tally(CountAtDistance(ts, brand, ops.dist, 0), CountAtDistance(ts, brand, ops.dist, 1), r.combo, r.fuzzy),
                   Unmarked(rem, r.removed), Join(Unmarked(rem, r.removed)))
  {
  }

  /** Step 1: one `direct` per token at distance 0 and one `typo` per token
      at distance 1; the others are returned as `remaining`, in order. */
  method ClassifyTokens(ts: seq<string>, brand: string, ops: Oracles, box: ResultBox, stage: Stage)
    returns (remaining: seq<string>)
    requires box.Valid()
    modifies box
    ensures box.Valid()
    ensures remaining == Carried(ts, brand, ops.dist)
    ensures box.counts == Credit(old(box.counts), stage, FirstTally(ts, brand, ops.dist))
  {
    ghost var start := box.counts;
    remaining := [];
    assert ts[..0] == [];
    for i := 0 to |ts|
      invariant box.Valid()
      invariant remaining == Carried(ts[..i], brand, ops.dist)
      invariant box.counts == Credit(start, stage, FirstTally(ts[..i], brand, ops.dist))
    {
      remaining := ClassifyToken(ts, brand, ops, box, stage, i, remaining, start);
    }
    assert ts[..|ts|] == ts;
  }

  /** The tally of step 1 over `ts`. */
  function FirstTally(ts: seq<string>, brand: string, dist: (string, string) -> nat): Tally {
    Tally(CountAtDistance(ts, brand, dist, 0), CountAtDistance(ts, brand, dist, 1), 0, 0)
  }

  /** One iteration of step 1, on token `i`. */
  method ClassifyToken(ts: seq<string>, brand: string, ops: Oracles, box: ResultBox, stage: Stage,
                       i: nat, remaining: seq<string>, ghost start: map<Key, nat>)
    returns (carried: seq<string>)
    requires i < |ts| && box.Valid() && Full(start)
    requires remaining == Carried(ts[..i], brand, ops.dist)
    requires box.counts == Credit(start, stage, FirstTally(ts[..i], brand, ops.dist))
    modifies box
    ensures box.Valid()
    ensures carried == Carried(ts[..i + 1], brand, ops.dist)
    ensures box.counts == Credit(start, stage, FirstTally(ts[..i + 1], brand, ops.dist))
  {
    ClassifyStep(ts, brand, ops.dist, i);
    ghost var counts0 := box.counts;
    ghost var t := FirstTally(ts[..i], brand, ops.dist);
    carried := remaining;
    var d := ops.dist(brand, ts[i]);
    if d == 0 {
      box.Increment(Count(stage, Direct));
      CreditStep(start, stage, t, Direct, counts0, box.counts);
    } else if d == 1 {
      box.Increment(Count(stage, Typo));
      CreditStep(start, stage, t, Typo, counts0, box.counts);
    } else {
      carried := remaining + [ts[i]];
    }
  }

  /** How one more token extends the step-1 results. */
  lemma ClassifyStep(ts: seq<string>, brand: string, dist: (string, string) -> nat, i: nat)
    requires i < |ts|
    ensures Carried(ts[..i + 1], brand, dist)
         == Carried(ts[..i], brand, dist) + (if dist(brand, ts[i]) >= 2 then [ts[i]] else [])
    ensures dist(brand, ts[i]) == 0 ==> FirstTally(ts[..i + 1], brand, dist) == AddOne(FirstTally(ts[..i], brand, dist), Direct)
    ensures dist(brand, ts[i]) == 1 ==> FirstTally(ts[..i + 1], brand, dist) == AddOne(FirstTally(ts[..i], brand, dist), Typo)
    ensures dist(brand, ts[i]) >= 2 ==> FirstTally(ts[..i + 1], brand, dist) == FirstTally(ts[..i], brand, dist)
  {
    assert ts[..i + 1][..i] == ts[..i] && ts[..i + 1][i] == ts[i];
  }

  /** Step 2: walks the trace; a sub-token of a source token not yet removed
      adds one `combo` at distance 0 or one `fuzzy` at distance 1 or 2 and
      removes that source token. Returns `remove_orig`. */
  method RetrySubTokens(tracked: seq<Piece>, brand: string, ops: Oracles, box: ResultBox, stage: Stage)
    returns (removeOrig: set<nat>)
    requires box.Valid()
    modifies box
    ensures box.Valid()
    ensures removeOrig == RetryPass(tracked, brand, ops.dist).removed
    ensures box.counts == Credit(old(box.counts), stage, RetryTally(RetryPass(tracked, brand, ops.dist)))
  {
    ghost var start := box.counts;
    removeOrig := {};
    assert tracked[..0] == [];
    for j := 0 to |tracked|
      invariant box.Valid()
      invariant removeOrig == RetryPass(tracked[..j], brand, ops.dist).removed
      invariant box.counts == Credit(start, stage, RetryTally(RetryPass(tracked[..j], brand, ops.dist)))
    {
      removeOrig := RetryPiece(tracked, brand, ops, box, stage, j, removeOrig, start);
    }
    assert tracked[..|tracked|] == tracked;
  }

  /** The tally of step 2. */
  function RetryTally(r: Retry): Tally {
    Tally(0, 0, r.combo, r.fuzzy)
  }

  /** One iteration of step 2, on trace entry `j`. */
  method RetryPiece(tracked: seq<Piece>, brand: string, ops: Oracles, box: ResultBox, stage: Stage,
                    j: nat, removeOrig: set<nat>, ghost start: map<Key, nat>)
    returns (removed: set<nat>)
    requires j < |tracked| && box.Valid() && Full(start)
    requires removeOrig == RetryPass(tracked[..j], brand, ops.dist).removed
    requires box.counts == Credit(start, stage, RetryTally(RetryPass(tracked[..j], brand, ops.dist)))
    modifies box
    ensures box.Valid()
    ensures removed == RetryPass(tracked[..j + 1], brand, ops.dist).removed
    ensures box.counts == Credit(start, stage, RetryTally(RetryPass(tracked[..j + 1], brand, ops.dist)))
  {
    RetryStep(tracked, brand, ops.dist, j);
    removed := removeOrig;
    var p := tracked[j];
    if p.orig in removeOrig {
      return;
    }
    ghost var counts0 := box.counts;
    ghost var t := RetryTally(RetryPass(tracked[..j], brand, ops.dist));
    var d := ops.dist(brand, p.sub);
    if d == 0 {
      box.Increment(Count(stage, Combo));
      CreditStep(start, stage, t, Combo, counts0, box.counts);
      removed := removeOrig + {p.orig};
    } else if 1 <= d <= 2 {
      box.Increment(Count(stage, Fuzzy));
      CreditStep(start, stage, t, Fuzzy, counts0, box.counts);
      removed := removeOrig + {p.orig};
    }
  }

  /** How one more trace entry extends step 2. */
  lemma RetryStep(tr: seq<Piece>, brand: string, dist: (string, string) -> nat, j: nat)
    requires j < |tr|
    ensures var r := RetryPass(tr[..j], brand, dist);
      var d := dist(brand, tr[j].sub);
      RetryPass(tr[..j + 1], brand, dist) ==
        if tr[j].orig in r.removed then r
        else if d == 0 then Retry(r.combo + 1, r.fuzzy, r.removed + {tr[j].orig})
        else if 1 <= d <= 2 then Retry(r.combo, r.fuzzy + 1, r.removed + {tr[j].orig})
        else r
    ensures var r := RetryPass(tr[..j], brand, dist);
      var d := dist(brand, tr[j].sub);
      && (tr[j].orig !in r.removed && d == 0 ==> RetryTally(RetryPass(tr[..j + 1], brand, dist)) == AddOne(RetryTally(r), Combo))
      && (tr[j].orig !in r.removed && 1 <= d <= 2 ==> RetryTally(RetryPass(tr[..j + 1], brand, dist)) == AddOne(RetryTally(r), Fuzzy))
  {
    assert tr[..j + 1][..j] == tr[..j] && tr[..j + 1][j] == tr[j];
  }
}
