/** `process_detection_multiword`: the matcher for a brand of `k >= 1` words.
    Pass 1 slides a `k`-token window over the tokens and claims every window
    at distance 0 or 1; pass 2 segments what is left and slides a `k`-sub-token
    window over the segmentation, labelling each match by whether it shares a
    source token with a neighbouring sub-token. */
module MultiWord {
  import opened Text
  import opened Foreign
  import opened ResultBoxes
  import opened Segmentation

  /** `get_word(my_list, my_first, my_last)`: the slice, space-joined. */
  function GetWord(ts: seq<string>, first: nat, last: nat): string
    requires first <= last <= |ts|
  {
    Join(ts[first..last])
  }

  /** A window of words reads back, under `split()`, as the same words. */
  lemma GetWordSplits(ts: seq<string>, first: nat, last: nat)
    requires first <= last <= |ts|
    requires forall i :: 0 <= i < |ts| ==> IsWord(ts[i])
    ensures Split(GetWord(ts, first, last)) == ts[first..last]
  {
    SplitJoin(ts[first..last]);
  }

  // ---------------------------------------------------------------- pass 1

  /** `[v] * n`. */
  function Repeat(v: bool, n: nat): (r: seq<bool>)
    ensures |r| == n && forall i :: 0 <= i < n ==> r[i] == v
  {
    seq(n, _ => v)
  }

  /** The number of `True` entries. */
  function CountTrue(flags: seq<bool>): nat {
    if flags == [] then 0
    else
      var n := |flags| - 1;
      CountTrue(flags[..n]) + (if flags[n] then 1 else 0)
  }

  lemma {:induction false} CountTrueAppend(a: seq<bool>, b: seq<bool>)
    ensures CountTrue(a + b) == CountTrue(a) + CountTrue(b)
    decreases |b|
  {
    if b != [] {
      var n := |b| - 1;
      assert (a + b)[..|a + b| - 1] == a + b[..n];
      CountTrueAppend(a, b[..n]);
    } else {
      assert a + b == a;
    }
  }

  lemma {:induction false} CountTrueRepeat(v: bool, n: nat)
    ensures CountTrue(Repeat(v, n)) == if v then n else 0
  {
    if n > 0 {
      assert Repeat(v, n)[..n - 1] == Repeat(v, n - 1);
      CountTrueRepeat(v, n - 1);
    }
  }

  /** What pass 1 finds from `index` on: its counts, and `remove_token`
      from `index` to the end. */
  datatype Claims = Claims(direct: nat, typo: nat, flags: seq<bool>)

  /** The number of windows pass 1 accepted. */
  function Accepted(c: Claims): nat {
    c.direct + c.typo
  }

  /** Pass 1 from `index`: a window at distance 0 counts `direct`, one at
      distance 1 counts `typo`; both flag their `k` tokens and the scan
      jumps past them, otherwise the token at `index` stays unflagged and
      the scan moves on by one. */
  function WindowPass(ts: seq<string>, brand: string, k: nat, dist: (string, string) -> nat, index: nat): (c: Claims)
    requires k >= 1 && index <= |ts|
    ensures |c.flags| == |ts| - index
    decreases |ts| - index
  {
    if index + k > |ts| then Claims(0, 0, Repeat(false, |ts| - index))
    else
      var d := dist(brand, GetWord(ts, index, index + k));
      if d == 0 then
        var r := WindowPass(ts, brand, k, dist, index + k);
        Claims(r.direct + 1, r.typo, Repeat(true, k) + r.flags)
      else if d == 1 then
        var r := WindowPass(ts, brand, k, dist, index + k);
        Claims(r.direct, r.typo + 1, Repeat(true, k) + r.flags)
      else
        var r := WindowPass(ts, brand, k, dist, index + 1);
        Claims(r.direct, r.typo, [false] + r.flags)
  }

  /** One accepted window: `k` flags, then whatever the scan finds after it. */
  lemma WindowPassAccepts(ts: seq<string>, brand: string, k: nat, dist: (string, string) -> nat, index: nat)
    requires k >= 1 && index + k <= |ts|
    requires dist(brand, GetWord(ts, index, index + k)) <= 1
    ensures var c := WindowPass(ts, brand, k, dist, index);
      var r := WindowPass(ts, brand, k, dist, index + k);
      var d := dist(brand, GetWord(ts, index, index + k));
      && c.flags == Repeat(true, k) + r.flags
      && c.direct == r.direct + (if d == 0 then 1 else 0)
      && c.typo == r.typo + (if d == 1 then 1 else 0)
      && Accepted(c) == Accepted(r) + 1
  {
  }

  /** One rejected window: an unset flag, then whatever the scan finds one
      token later. */
  lemma WindowPassRejects(ts: seq<string>, brand: string, k: nat, dist: (string, string) -> nat, index: nat)
    requires k >= 1 && index + k <= |ts|
    requires dist(brand, GetWord(ts, index, index + k)) >= 2
    ensures var c := WindowPass(ts, brand, k, dist, index);
      var r := WindowPass(ts, brand, k, dist, index + 1);
      c.flags == [false] + r.flags && c.direct == r.direct && c.typo == r.typo
  {
  }

  /** Accepted windows never overlap: pass 1 flags exactly `k` tokens per
      accepted window. */
  lemma {:induction false} WindowPassFlags(ts: seq<string>, brand: string, k: nat, dist: (string, string) -> nat, index: nat)
    requires k >= 1 && index <= |ts|
    ensures var c := WindowPass(ts, brand, k, dist, index);
      CountTrue(c.flags) == k * Accepted(c)
    decreases |ts| - index
  {
    var c := WindowPass(ts, brand, k, dist, index);
    if index + k > |ts| {
      CountTrueRepeat(false, |ts| - index);
    } else if dist(brand, GetWord(ts, index, index + k)) <= 1 {
      WindowPassAccepts(ts, brand, k, dist, index);
      WindowPassFlags(ts, brand, k, dist, index + k);
      FlagsAfterAccept(k, c, WindowPass(ts, brand, k, dist, index + k));
    } else {
      WindowPassRejects(ts, brand, k, dist, index);
      WindowPassFlags(ts, brand, k, dist, index + 1);
      FlagsAfterReject(k, c, WindowPass(ts, brand, k, dist, index + 1));
    }
  }

  lemma FlagsAfterAccept(k: nat, c: Claims, r: Claims)
    requires c.flags == Repeat(true, k) + r.flags && Accepted(c) == Accepted(r) + 1
    requires CountTrue(r.flags) == k * Accepted(r)
    ensures CountTrue(c.flags) == k * Accepted(c)
  {
    CountTrueAppend(Repeat(true, k), r.flags);
    CountTrueRepeat(true, k);
    MulStep(k, Accepted(r), Accepted(c), CountTrue(c.flags), CountTrue(r.flags));
  }

  lemma FlagsAfterReject(k: nat, c: Claims, r: Claims)
    requires c.flags == [false] + r.flags && c.direct == r.direct && c.typo == r.typo
    requires CountTrue(r.flags) == k * Accepted(r)
    ensures CountTrue(c.flags) == k * Accepted(c)
  {
    CountTrueAppend([false], r.flags);
  }

  lemma MulStep(k: nat, n: nat, m: nat, x: nat, y: nat)
    requires m == n + 1 && x == k + y && y == k * n
    ensures x == k * m
  {
  }

  /** The tokens whose flag is not set, in order. */
  function Unflagged(ts: seq<string>, flags: seq<bool>): seq<string>
    requires |flags| == |ts|
  {
    if ts == [] then []
    else
      var n := |ts| - 1;
      Unflagged(ts[..n], flags[..n]) + (if flags[n] then [] else [ts[n]])
  }

  lemma {:induction false} UnflaggedLength(ts: seq<string>, flags: seq<bool>)
    requires |flags| == |ts|
    ensures |Unflagged(ts, flags)| == |ts| - CountTrue(flags)
  {
    if ts != [] {
      UnflaggedLength(ts[..|ts| - 1], flags[..|ts| - 1]);
    }
  }

  /** `[tok for i, tok in enumerate(text_split_) if not remove_token[i]]`
      after pass 1. */
  function Leftover(ts: seq<string>, brand: string, k: nat, dist: (string, string) -> nat): seq<string>
    requires k >= 1
  {
    Unflagged(ts, WindowPass(ts, brand, k, dist, 0).flags)
  }

  /** Pass 1 removes exactly `k` tokens per accepted window. */
  lemma LeftoverLength(ts: seq<string>, brand: string, k: nat, dist: (string, string) -> nat)
    requires k >= 1
    ensures var c := WindowPass(ts, brand, k, dist, 0);
      |Leftover(ts, brand, k, dist)| == |ts| - k * Accepted(c)
  {
    WindowPassFlags(ts, brand, k, dist, 0);
    UnflaggedLength(ts, WindowPass(ts, brand, k, dist, 0).flags);
  }

  // ---------------------------------------------------------------- pass 2

  /** `is_boundary_shared`, written as the source's three cases: does the
      window `[first, last]` of children `0..maxChild` share its parent
      token with the child just outside it? */
  function IsBoundaryShared(parentOf: map<nat, nat>, maxChild: nat, first: nat, last: nat): (r: bool)
    requires first <= last <= maxChild
    requires forall j :: 0 <= j <= maxChild ==> j in parentOf
    ensures r <==> ((first > 0 && parentOf[first - 1] == parentOf[first])
                 || (last < maxChild && parentOf[last + 1] == parentOf[last]))
  {
    if first == 0 then
      last + 1 <= maxChild && parentOf[last + 1] == parentOf[last]
    else if last == maxChild then
      first - 1 >= 0 && parentOf[first - 1] == parentOf[first]
    else
      (first - 1 >= 0 && parentOf[first - 1] == parentOf[first])
      || (last + 1 <= maxChild && parentOf[last + 1] == parentOf[last])
  }

  /** The label of an accepted window starting at `first` among `n` children:
      `typo` when the whole segmentation is the window; otherwise `combo` (at
      distance 0) or `fuzzy` when it shares a boundary, and `typo` when not. */
  function WindowLabel(n: nat, k: nat, parentOf: map<nat, nat>, first: nat, d: nat): Bucket
    requires 1 <= k && first + k <= n
    requires forall j :: 0 <= j < n ==> j in parentOf
  {
    if n == k then Typo
    else if IsBoundaryShared(parentOf, n - 1, first, first + k - 1) then
      (if d == 0 then Combo else Fuzzy)
    else Typo
  }

  /** The label is never `direct`; `combo` means distance 0 and a shared
      boundary, `fuzzy` a distance other than 0 and a shared boundary, and a
      window covering every child is always `typo`. */
  lemma WindowLabelCases(n: nat, k: nat, parentOf: map<nat, nat>, first: nat, d: nat)
    requires 1 <= k && first + k <= n
    requires forall j :: 0 <= j < n ==> j in parentOf
    ensures var last := first + k - 1;
      var shared := (first > 0 && parentOf[first - 1] == parentOf[first])
                 || (last < n - 1 && parentOf[last + 1] == parentOf[last]);
      && WindowLabel(n, k, parentOf, first, d) != Direct
      && (n == k ==> WindowLabel(n, k, parentOf, first, d) == Typo)
      && (WindowLabel(n, k, parentOf, first, d) == Combo <==> n != k && d == 0 && shared)
      && (WindowLabel(n, k, parentOf, first, d) == Fuzzy <==> n != k && d != 0 && shared)
  {
  }

  /** The parent tokens of children `lo..hi-1`. */
  function Parents(parentOf: map<nat, nat>, lo: nat, hi: nat): (r: set<nat>)
    requires forall j :: lo <= j < hi ==> j in parentOf
    ensures forall x :: x in r <==> exists j :: lo <= j < hi && parentOf[j] == x
    decreases hi
  {
    if hi <= lo then {} else Parents(parentOf, lo, hi - 1) + {parentOf[hi - 1]}
  }

  /** What pass 2 finds from `index` on. */
  datatype Labels = Labels(typo: nat, combo: nat, fuzzy: nat, children: set<nat>, origs: set<nat>)

  function Bump(l: Labels, b: Bucket): Labels {
    match b
    case Typo => l.(typo := l.typo + 1)
    case Combo => l.(combo := l.combo + 1)
    case Fuzzy => l.(fuzzy := l.fuzzy + 1)
    case Direct => l
  }

  /** Pass 2 from `index`: a window of sub-tokens at distance 2 or less is
      labelled, claims its children and their parent tokens, and the scan
      jumps past it; otherwise it moves on by one. */
  function ChildPass(subs: seq<string>, parentOf: map<nat, nat>, brand: string, k: nat,
                     dist: (string, string) -> nat, index: nat): Labels
    requires k >= 1
    requires forall j :: 0 <= j < |subs| ==> j in parentOf
    decreases |subs| - index
  {
    if index + k > |subs| then Labels(0, 0, 0, {}, {})
    else
      var d := dist(brand, GetWord(subs, index, index + k));
      if d <= 2 then
        var r := ChildPass(subs, parentOf, brand, k, dist, index + k);
        var b := WindowLabel(|subs|, k, parentOf, index, d);
        Bump(r, b).(children := Range(index, index + k) + r.children,
                    origs := Parents(parentOf, index, index + k) + r.origs)
      else ChildPass(subs, parentOf, brand, k, dist, index + 1)
  }

  /** One accepted window of sub-tokens: one label, its children and their
      parents, then whatever the scan finds after it. */
  lemma ChildPassAccepts(subs: seq<string>, parentOf: map<nat, nat>, brand: string, k: nat,
                         dist: (string, string) -> nat, index: nat)
    requires k >= 1 && index + k <= |subs|
    requires forall j :: 0 <= j < |subs| ==> j in parentOf
    requires dist(brand, GetWord(subs, index, index + k)) <= 2
    ensures var p := ChildPass(subs, parentOf, brand, k, dist, index);
      var r := ChildPass(subs, parentOf, brand, k, dist, index + k);
      var b := WindowLabel(|subs|, k, parentOf, index, dist(brand, GetWord(subs, index, index + k)));
      && p.children == Range(index, index + k) + r.children
      && p.origs == Parents(parentOf, index, index + k) + r.origs
      && p.typo == Bump(r, b).typo && p.combo == Bump(r, b).combo && p.fuzzy == Bump(r, b).fuzzy
      && p.typo + p.combo + p.fuzzy == r.typo + r.combo + r.fuzzy + 1
  {
    WindowLabelCases(|subs|, k, parentOf, index, dist(brand, GetWord(subs, index, index + k)));
  }

  /** One rejected window: the scan moves on by one and finds nothing here. */
  lemma ChildPassRejects(subs: seq<string>, parentOf: map<nat, nat>, brand: string, k: nat,
                         dist: (string, string) -> nat, index: nat)
    requires k >= 1 && index + k <= |subs|
    requires forall j :: 0 <= j < |subs| ==> j in parentOf
    requires dist(brand, GetWord(subs, index, index + k)) > 2
    ensures ChildPass(subs, parentOf, brand, k, dist, index) == ChildPass(subs, parentOf, brand, k, dist, index + 1)
  {
  }

  /** The claimed children lie at or after `index` and inside the list. */
  lemma {:induction false} ChildPassBounds(subs: seq<string>, parentOf: map<nat, nat>, brand: string, k: nat,
                                           dist: (string, string) -> nat, index: nat)
    requires k >= 1
    requires forall j :: 0 <= j < |subs| ==> j in parentOf
    ensures forall c :: c in ChildPass(subs, parentOf, brand, k, dist, index).children ==> index <= c < |subs|
    decreases |subs| - index
  {
    if index + k <= |subs| {
      if dist(brand, GetWord(subs, index, index + k)) <= 2 {
        ChildPassAccepts(subs, parentOf, brand, k, dist, index);
        ChildPassBounds(subs, parentOf, brand, k, dist, index + k);
      } else {
        ChildPassRejects(subs, parentOf, brand, k, dist, index);
        ChildPassBounds(subs, parentOf, brand, k, dist, index + 1);
      }
    }
  }

  /** Every child of an accepted window goes to `remove_child` and its
      parent to `remove_orig`, and nothing else does: the removed originals
      are exactly the parents of the claimed children. */
  lemma {:induction false} ChildPassParents(subs: seq<string>, parentOf: map<nat, nat>, brand: string, k: nat,
                                            dist: (string, string) -> nat, index: nat)
    requires k >= 1
    requires forall j :: 0 <= j < |subs| ==> j in parentOf
    ensures var p := ChildPass(subs, parentOf, brand, k, dist, index);
      && (forall c :: c in p.children ==> index <= c < |subs|)
      && (forall x :: x in p.origs <==> exists c :: c in p.children && parentOf[c] == x)
    decreases |subs| - index
  {
    ChildPassBounds(subs, parentOf, brand, k, dist, index);
    var p := ChildPass(subs, parentOf, brand, k, dist, index);
    if index + k <= |subs| {
      if dist(brand, GetWord(subs, index, index + k)) <= 2 {
        var r := ChildPass(subs, parentOf, brand, k, dist, index + k);
        ChildPassAccepts(subs, parentOf, brand, k, dist, index);
        ChildPassParents(subs, parentOf, brand, k, dist, index + k);
        forall x ensures x in p.origs <==> exists c :: c in p.children && parentOf[c] == x {
          if x in Parents(parentOf, index, index + k) {
            var j :| index <= j < index + k && parentOf[j] == x;
            assert j in p.children;
          } else if x in r.origs {
            var c :| c in r.children && parentOf[c] == x;
            assert c in p.children;
          }
          if exists c :: c in p.children && parentOf[c] == x {
            var c :| c in p.children && parentOf[c] == x;
            if c < index + k {
              assert x in Parents(parentOf, index, index + k);
            } else {
              assert c in r.children;
            }
          }
        }
      } else {
        ChildPassRejects(subs, parentOf, brand, k, dist, index);
        ChildPassParents(subs, parentOf, brand, k, dist, index + 1);
      }
    }
  }

  /** Pass 2 removes some original token exactly when it labels some window. */
  lemma {:induction false} ChildPassRemovesIffLabels(subs: seq<string>, parentOf: map<nat, nat>, brand: string, k: nat,
                                                     dist: (string, string) -> nat, index: nat)
    requires k >= 1
    requires forall j :: 0 <= j < |subs| ==> j in parentOf
    ensures var p := ChildPass(subs, parentOf, brand, k, dist, index);
      p.origs == {} <==> p.typo + p.combo + p.fuzzy == 0
    decreases |subs| - index
  {
    if index + k <= |subs| {
      if dist(brand, GetWord(subs, index, index + k)) <= 2 {
        ChildPassAccepts(subs, parentOf, brand, k, dist, index);
        assert parentOf[index] in Parents(parentOf, index, index + k);
      } else {
        ChildPassRejects(subs, parentOf, brand, k, dist, index);
        ChildPassRemovesIffLabels(subs, parentOf, brand, k, dist, index + 1);
      }
    }
  }

  // ---------------------------------------------------------------- the whole matcher

  /** `process_detection_multiword` as a value: the tally it adds to its
      stage and the tokens it leaves, joined into the string it returns. */
  function DetectMultiWord(ts: seq<string>, brand: string, k: nat, ops: Oracles): Outcome
    requires k >= 1
  {
    var p1 := WindowPass(ts, brand, k, ops.dist, 0);
    var left := Leftover(ts, brand, k, ops.dist);
    if left == [] then Outcome(Tally(p1.direct, p1.typo, 0, 0), [], "")
    else
      var tr := TraceMultiWord(left, ops.segment);
      var subs := SubTokens(tr.tracked);
      if |subs| < k then Outcome(Tally(p1.direct, p1.typo, 0, 0), left, Join(left))
      else
        var p2 := ChildPass(subs, tr.parentOf, brand, k, ops.dist, 0);
        var kept := Unmarked(left, p2.origs);
        Outcome(Tally(p1.direct, p1.typo + p2.typo, p2.combo, p2.fuzzy), kept, Join(kept))
  }

  /** Pass 2 keeps the leftover tokens that are not the parent of a claimed
      child, and it drops some token exactly when it labels some window. */
  lemma PassTwoKeeps(left: seq<string>, brand: string, k: nat, ops: Oracles)
    requires k >= 1
    requires |SubTokens(TraceMultiWord(left, ops.segment).tracked)| >= k
    ensures var tr := TraceMultiWord(left, ops.segment);
      var p2 := ChildPass(SubTokens(tr.tracked), tr.parentOf, brand, k, ops.dist, 0);
      && (forall t :: t in Unmarked(left, p2.origs) ==> t in left)
      && (Unmarked(left, p2.origs) == left <==> p2.typo + p2.combo + p2.fuzzy == 0)
  {
    var tr := TraceMultiWord(left, ops.segment);
    var subs := SubTokens(tr.tracked);
    var p2 := ChildPass(subs, tr.parentOf, brand, k, ops.dist, 0);
    ChildPassParents(subs, tr.parentOf, brand, k, ops.dist, 0);
    ChildPassRemovesIffLabels(subs, tr.parentOf, brand, k, ops.dist, 0);
    assert forall x :: x in p2.origs ==> x < |left|;
    UnmarkedLength(left, p2.origs);
    UnmarkedMembers(left, p2.origs);
  }

  /** The returned string is the kept tokens space-joined, and every kept
      token is a leftover token of pass 1. */
  lemma MultiWordKeeps(ts: seq<string>, brand: string, k: nat, ops: Oracles)
    requires k >= 1
    ensures var o := DetectMultiWord(ts, brand, k, ops);
      && o.text == Join(o.kept)
      && (forall t :: t in o.kept ==> t in Leftover(ts, brand, k, ops.dist))
  {
    var left := Leftover(ts, brand, k, ops.dist);
    if left == [] {
      DetectEmptyLeftover(ts, brand, k, ops);
    } else if |SubTokens(TraceMultiWord(left, ops.segment).tracked)| < k {
      DetectShortSegmentation(ts, brand, k, ops);
    } else {
      DetectBothPasses(ts, brand, k, ops);
      PassTwoKeeps(left, brand, k, ops);
    }
  }

  /** The matcher keeps every leftover token of pass 1 exactly when pass 2
      counts nothing. */
  lemma MultiWordKeepsAllIffNoLabels(ts: seq<string>, brand: string, k: nat, ops: Oracles)
    requires k >= 1
    ensures var p1 := WindowPass(ts, brand, k, ops.dist, 0);
      var o := DetectMultiWord(ts, brand, k, ops);
      o.kept == Leftover(ts, brand, k, ops.dist) <==> o.tally == Tally(p1.direct, p1.typo, 0, 0)
  {
    var left := Leftover(ts, brand, k, ops.dist);
    if left == [] {
      DetectEmptyLeftover(ts, brand, k, ops);
    } else if |SubTokens(TraceMultiWord(left, ops.segment).tracked)| < k {
      DetectShortSegmentation(ts, brand, k, ops);
    } else {
      var p1 := WindowPass(ts, brand, k, ops.dist, 0);
      var tr := TraceMultiWord(left, ops.segment);
      var p2 := ChildPass(SubTokens(tr.tracked), tr.parentOf, brand, k, ops.dist, 0);
      DetectBothPasses(ts, brand, k, ops);
      PassTwoKeeps(left, brand, k, ops);
      TallyUnchanged(Tally(p1.direct, p1.typo, 0, 0), p2.typo, p2.combo, p2.fuzzy);
    }
  }

  lemma TallyUnchanged(t: Tally, typo: nat, combo: nat, fuzzy: nat)
    ensures t.(typo := t.typo + typo, combo := t.combo + combo, fuzzy := t.fuzzy + fuzzy) == t
        <==> typo + combo + fuzzy == 0
  {
  }

  // ---------------------------------------------------------------- the imperative matcher

  /** `process_detection_multiword(text_split_, my_brand, brand_count,
      result_box, prefix)`: adds the tally of `DetectMultiWord` to its own
      stage and returns the leftover text. */
  method ProcessDetectionMultiWord(ts: seq<string>, brand: string, k: nat, ops: Oracles, box: ResultBox, stage: Stage)
    returns (text: string)
    requires k >= 1
    requires box.Valid()
    modifies box
    ensures box.Valid()
    ensures text == DetectMultiWord(ts, brand, k, ops).text
    ensures box.counts == Credit(old(box.counts), stage, DetectMultiWord(ts, brand, k, ops).tally)
  {
    ghost var start := box.counts;
    ghost var p1 := WindowPass(ts, brand, k, ops.dist, 0);
    ghost var t1 := Tally(p1.direct, p1.typo, 0, 0);
    var left := FlagWindows(ts, brand, k, ops, box, stage);
    if left == [] {
      DetectEmptyLeftover(ts, brand, k, ops);
      return "";
    }
    var trace := TraceMultiWord(left, ops.segment);
    var ninjaTokens := SubTokens(trace.tracked);
    if |ninjaTokens| < k {
      DetectShortSegmentation(ts, brand, k, ops);
      return Join(left);
    }
    ghost var mid := box.counts;
    var removeOrig := LabelWindows(ninjaTokens, trace.parentOf, brand, k, ops, box, stage);
    ghost var p2 := ChildPass(ninjaTokens, trace.parentOf, brand, k, ops.dist, 0);
    DetectBothPasses(ts, brand, k, ops);
    CreditSum(start, stage, t1, Tally(0, p2.typo, p2.combo, p2.fuzzy), DetectMultiWord(ts, brand, k, ops).tally,
              mid, box.counts);
    text := Join(Unmarked(left, removeOrig));
  }

  /** `DetectMultiWord` when pass 1 leaves nothing. */
  lemma DetectEmptyLeftover(ts: seq<string>, brand: string, k: nat, ops: Oracles)
    requires k >= 1 && Leftover(ts, brand, k, ops.dist) == []
    ensures var p1 := WindowPass(ts, brand, k, ops.dist, 0);
      DetectMultiWord(ts, brand, k, ops) == Outcome(Tally(p1.direct, p1.typo, 0, 0), [], "")
  {
  }

  /** `DetectMultiWord` when the leftover segments into fewer than `k`
      sub-tokens. */
  lemma DetectShortSegmentation(ts: seq<string>, brand: string, k: nat, ops: Oracles)
    requires k >= 1
    requires var left := Leftover(ts, brand, k, ops.dist);
      left != [] && |SubTokens(TraceMultiWord(left, ops.segment).tracked)| < k
    ensures var p1 := WindowPass(ts, brand, k, ops.dist, 0);
      var left := Leftover(ts, brand, k, ops.dist);
      DetectMultiWord(ts, brand, k, ops) == Outcome(Tally(p1.direct, p1.typo, 0, 0), left, Join(left))
  {
  }

  /** `DetectMultiWord` when pass 2 runs. */
  lemma DetectBothPasses(ts: seq<string>, brand: string, k: nat, ops: Oracles)
    requires k >= 1
    requires var left := Leftover(ts, brand, k, ops.dist);
      left != [] && |SubTokens(TraceMultiWord(left, ops.segment).tracked)| >= k
    ensures var p1 := WindowPass(ts, brand, k, ops.dist, 0);
      var left := Leftover(ts, brand, k, ops.dist);
      var tr := TraceMultiWord(left, ops.segment);
      var p2 := ChildPass(SubTokens(tr.tracked), tr.parentOf, brand, k, ops.dist, 0);
      var kept := Unmarked(left, p2.origs);
      DetectMultiWord(ts, brand, k, ops) == Outcome(Tally(p1.direct, p1.typo + p2.typo, p2.combo, p2.fuzzy), kept, Join(kept))
  {
  }

  /** Pass 1 over `remove_token`: the flags always lie behind `index`, so the
      source's re-check of a window for flagged tokens never fires. */
  method FlagWindows(ts: seq<string>, brand: string, k: nat, ops: Oracles, box: ResultBox, stage: Stage)
    returns (left: seq<string>)
    requires k >= 1
    requires box.Valid()
    modifies box
    ensures box.Valid()
    ensures left == Leftover(ts, brand, k, ops.dist)
    ensures box.counts == Credit(old(box.counts), stage, Tally(WindowPass(ts, brand, k, ops.dist, 0).direct,
                                                               WindowPass(ts, brand, k, ops.dist, 0).typo, 0, 0))
  {
    ghost var start := box.counts;
    ghost var all := WindowPass(ts, brand, k, ops.dist, 0);
    ghost var t := Tally(0, 0, 0, 0);
    var removeToken := Repeat(false, |ts|);
    var index := 0;
    ResumeStarts(ts, brand, k, ops.dist);
    while index + k <= |ts|
      invariant index <= |ts| && |removeToken| == |ts|
      invariant forall i :: index <= i < |ts| ==> !removeToken[i]
      invariant Resume(ts, brand, k, ops.dist, index, removeToken, t.direct, t.typo) == all
      invariant box.Valid() && box.counts == Credit(start, stage, t)
      invariant t.combo == 0 && t.fuzzy == 0
      decreases |ts| - index
    {
      index, removeToken, t := ScanWindow(ts, brand, k, ops, box, stage, index, removeToken, start, all, t);
    }
    ResumeEnds(ts, brand, k, ops.dist, index, removeToken, t.direct, t.typo);
    left := KeepUnflagged(ts, removeToken);
  }

  /** One turn of the pass-1 loop: a window with a flagged token would be
      skipped (the flags all lie behind `index`, so this never happens); a
      window at distance 0 or 1 is counted and its tokens flagged, and the
      scan jumps past it; otherwise the scan moves on by one token. */
  method ScanWindow(ts: seq<string>, brand: string, k: nat, ops: Oracles, box: ResultBox, stage: Stage,
                    index: nat, removeToken: seq<bool>, ghost start: map<Key, nat>, ghost all: Claims, ghost t: Tally)
    returns (next: nat, flags: seq<bool>, ghost t': Tally)
    requires k >= 1 && index + k <= |ts| == |removeToken|
    requires forall i :: index <= i < |ts| ==> !removeToken[i]
    requires Resume(ts, brand, k, ops.dist, index, removeToken, t.direct, t.typo) == all
    requires Full(start) && box.Valid() && box.counts == Credit(start, stage, t)
    requires t.combo == 0 && t.fuzzy == 0
    modifies box
    ensures index < next <= |ts| == |flags|
    ensures forall i :: next <= i < |ts| ==> !flags[i]
    ensures Resume(ts, brand, k, ops.dist, next, flags, t'.direct, t'.typo) == all
    ensures box.Valid() && box.counts == Credit(start, stage, t')
    ensures t'.combo == 0 && t'.fuzzy == 0
  {
    next, flags, t' := index + 1, removeToken, t;
    if exists i | index <= i < index + k :: removeToken[i] {
      assert false;
      return;
    }
    var wordExtracted := GetWord(ts, index, index + k);
    var d := ops.dist(brand, wordExtracted);
    ghost var counts0 := box.counts;
    if d == 0 {
      box.Increment(Count(stage, Direct));
      flags := ClaimTokens(removeToken, index, index + k);
      next := index + k;
      t' := AddOne(t, Direct);
      CreditStep(start, stage, t, Direct, counts0, box.counts);
      ResumeAccepts(ts, brand, k, ops.dist, index, next, removeToken, flags, t, Direct, t');
    } else if d == 1 {
      box.Increment(Count(stage, Typo));
      flags := ClaimTokens(removeToken, index, index + k);
      next := index + k;
      t' := AddOne(t, Typo);
      CreditStep(start, stage, t, Typo, counts0, box.counts);
      ResumeAccepts(ts, brand, k, ops.dist, index, next, removeToken, flags, t, Typo, t');
    } else {
      ResumeRejects(ts, brand, k, ops.dist, index, next, flags, t.direct, t.typo);
    }
  }

  /** The whole scan's result, seen from `index`: the counts and flags so far
      followed by what the scan finds from `index` on. */
  function Resume(ts: seq<string>, brand: string, k: nat, dist: (string, string) -> nat, index: nat,
                  flags: seq<bool>, direct: nat, typo: nat): Claims
    requires k >= 1 && index <= |ts| && index <= |flags|
  {
    var rest := WindowPass(ts, brand, k, dist, index);
    Claims(direct + rest.direct, typo + rest.typo, flags[..index] + rest.flags)
  }

  lemma ResumeStarts(ts: seq<string>, brand: string, k: nat, dist: (string, string) -> nat)
    requires k >= 1
    ensures Resume(ts, brand, k, dist, 0, Repeat(false, |ts|), 0, 0) == WindowPass(ts, brand, k, dist, 0)
  {
    assert Repeat(false, |ts|)[..0] == [];
  }

  /** Flagging the `k` tokens of a window at distance 0 and counting it
      `direct`, or at distance 1 and counting it `typo`, leaves the resumed
      result unchanged. */
  lemma ResumeAccepts(ts: seq<string>, brand: string, k: nat, dist: (string, string) -> nat, index: nat, next: nat,
                      before: seq<bool>, after: seq<bool>, t: Tally, b: Bucket, t': Tally)
    requires k >= 1 && next == index + k <= |ts| == |before| == |after|
    requires forall i :: 0 <= i < |after| ==> after[i] == (index <= i < index + k || before[i])
    requires var d := dist(brand, GetWord(ts, index, index + k));
      (d == 0 && b == Direct) || (d == 1 && b == Typo)
    requires t' == AddOne(t, b)
    ensures Resume(ts, brand, k, dist, next, after, t'.direct, t'.typo)
         == Resume(ts, brand, k, dist, index, before, t.direct, t.typo)
  {
    WindowPassAccepts(ts, brand, k, dist, index);
    ClaimedPrefix(before, after, index, k);
  }

  lemma ClaimedPrefix(before: seq<bool>, after: seq<bool>, index: nat, k: nat)
    requires index + k <= |before| == |after|
    requires forall i :: 0 <= i < |after| ==> after[i] == (index <= i < index + k || before[i])
    ensures after[..index + k] == before[..index] + Repeat(true, k)
  {
  }

  /** Moving past a rejected window, whose first token stays unflagged,
      leaves the resumed result unchanged. */
  lemma ResumeRejects(ts: seq<string>, brand: string, k: nat, dist: (string, string) -> nat, index: nat, next: nat,
                      flags: seq<bool>, direct: nat, typo: nat)
    requires k >= 1 && next == index + 1 && index + k <= |ts| == |flags|
    requires !flags[index]
    requires dist(brand, GetWord(ts, index, index + k)) >= 2
    ensures Resume(ts, brand, k, dist, next, flags, direct, typo)
         == Resume(ts, brand, k, dist, index, flags, direct, typo)
  {
    WindowPassRejects(ts, brand, k, dist, index);
    var r := WindowPass(ts, brand, k, dist, index + 1);
    assert flags[..index + 1] == flags[..index] + [false];
    assert flags[..index + 1] + r.flags == flags[..index] + ([false] + r.flags);
  }

  /** Once no window fits, the resumed result is the state itself. */
  lemma ResumeEnds(ts: seq<string>, brand: string, k: nat, dist: (string, string) -> nat, index: nat,
                   flags: seq<bool>, direct: nat, typo: nat)
    requires k >= 1 && index <= |ts| == |flags| && index + k > |ts|
    requires forall i :: index <= i < |ts| ==> !flags[i]
    ensures Resume(ts, brand, k, dist, index, flags, direct, typo) == Claims(direct, typo, flags)
  {
    assert flags == flags[..index] + Repeat(false, |ts| - index);
  }

  /** `[tok for i, tok in enumerate(text_split_) if not remove_token[i]]`. */
  method KeepUnflagged(ts: seq<string>, flags: seq<bool>) returns (left: seq<string>)
    requires |flags| == |ts|
    ensures left == Unflagged(ts, flags)
    ensures |left| == |ts| - CountTrue(flags)
  {
    left := [];
    for i := 0 to |ts|
      invariant left == Unflagged(ts[..i], flags[..i])
    {
      assert ts[..i + 1][..i] == ts[..i] && flags[..i + 1][..i] == flags[..i];
      if !flags[i] {
        left := left + [ts[i]];
      }
    }
    assert ts[..|ts|] == ts && flags[..|ts|] == flags;
    UnflaggedLength(ts, flags);
  }

  /** `for i in range(lo, hi): remove_token[i] = True`. */
  method ClaimTokens(flags: seq<bool>, lo: nat, hi: nat) returns (r: seq<bool>)
    requires lo <= hi <= |flags|
    ensures |r| == |flags|
    ensures forall i :: 0 <= i < |r| ==> r[i] == (lo <= i < hi || flags[i])
  {
    r := flags;
    for i := lo to hi
      invariant |r| == |flags|
      invariant forall j :: 0 <= j < |r| ==> r[j] == (lo <= j < i || flags[j])
    {
      r := r[i := true];
    }
  }

  /** Pass 2 over `remove_child` and `remove_orig`: the claimed children
      always lie behind `index`, so the re-check never fires. */
  method LabelWindows(ninjaTokens: seq<string>, parentOf: map<nat, nat>, brand: string, k: nat, ops: Oracles,
                      box: ResultBox, stage: Stage)
    returns (removeOrig: set<nat>)
    requires k >= 1
    requires forall j :: 0 <= j < |ninjaTokens| ==> j in parentOf
    requires box.Valid()
    modifies box
    ensures box.Valid()
    ensures removeOrig == ChildPass(ninjaTokens, parentOf, brand, k, ops.dist, 0).origs
    ensures var p := ChildPass(ninjaTokens, parentOf, brand, k, ops.dist, 0);
      box.counts == Credit(old(box.counts), stage, Tally(0, p.typo, p.combo, p.fuzzy))
  {
    ghost var start := box.counts;
    ghost var all := ChildPass(ninjaTokens, parentOf, brand, k, ops.dist, 0);
    ghost var t := Tally(0, 0, 0, 0);
    removeOrig := {};
    var removeChild: set<nat> := {};
    var index := 0;
    ResumeLabelsStarts(ninjaTokens, parentOf, brand, k, ops.dist);
    while index + k <= |ninjaTokens|
      invariant index <= |ninjaTokens|
      invariant forall c :: c in removeChild ==> c < index
      invariant ResumeLabels(ninjaTokens, parentOf, brand, k, ops.dist, index, removeChild, removeOrig, t) == all
      invariant box.Valid() && box.counts == Credit(start, stage, t)
      invariant t.direct == 0
      decreases |ninjaTokens| - index
    {
      index, removeChild, removeOrig, t :=
        LabelWindow(ninjaTokens, parentOf, brand, k, ops, box, stage, index, removeChild, removeOrig, start, all, t);
    }
    ResumeLabelsEnds(ninjaTokens, parentOf, brand, k, ops.dist, index, removeChild, removeOrig, t);
  }

  /** One turn of the pass-2 loop: a window with a claimed child would be
      skipped (never, as the claimed children lie behind `index`); a window
      at distance 2 or less is labelled, its children and their parents are
      claimed, and the scan jumps past it; otherwise it moves on by one. */
  method LabelWindow(ninjaTokens: seq<string>, parentOf: map<nat, nat>, brand: string, k: nat, ops: Oracles,
                     box: ResultBox, stage: Stage, index: nat, removeChild: set<nat>, removeOrig: set<nat>,
                     ghost start: map<Key, nat>, ghost all: Labels, ghost t: Tally)
    returns (next: nat, children: set<nat>, origs: set<nat>, ghost t': Tally)
    requires k >= 1 && index + k <= |ninjaTokens|
    requires forall j :: 0 <= j < |ninjaTokens| ==> j in parentOf
    requires forall c :: c in removeChild ==> c < index
    requires ResumeLabels(ninjaTokens, parentOf, brand, k, ops.dist, index, removeChild, removeOrig, t) == all
    requires Full(start) && box.Valid() && box.counts == Credit(start, stage, t)
    requires t.direct == 0
    modifies box
    ensures index < next <= |ninjaTokens|
    ensures forall c :: c in children ==> c < next
    ensures ResumeLabels(ninjaTokens, parentOf, brand, k, ops.dist, next, children, origs, t') == all
    ensures box.Valid() && box.counts == Credit(start, stage, t')
    ensures t'.direct == 0
  {
    next, children, origs, t' := index + 1, removeChild, removeOrig, t;
    if exists i | index <= i < index + k :: i in removeChild {
      assert false;
      return;
    }
    var wordExtracted := GetWord(ninjaTokens, index, index + k);
    var d := ops.dist(brand, wordExtracted);
    if d == 0 || (1 <= d <= 2) {
      var first, last := index, index + k - 1;
      var bucket := WindowLabel(|ninjaTokens|, k, parentOf, first, d);
      ghost var counts0 := box.counts;
      box.Increment(Count(stage, bucket));
      t' := AddOne(t, bucket);
      CreditStep(start, stage, t, bucket, counts0, box.counts);
      children, origs := ClaimChildren(parentOf, first, last + 1, removeChild, removeOrig);
      next := last + 1;
      WindowLabelCases(|ninjaTokens|, k, parentOf, first, d);
      ResumeLabelsAccepts(ninjaTokens, parentOf, brand, k, ops.dist, index, next,
                          removeChild, removeOrig, children, origs, t, bucket, t');
    } else {
      ResumeLabelsRejects(ninjaTokens, parentOf, brand, k, ops.dist, index, next, children, origs, t);
    }
  }

  /** `for i in range(first, last + 1): remove_child.add(i);
      remove_orig.add(child_parent_dict[i])`. */
  method ClaimChildren(parentOf: map<nat, nat>, lo: nat, hi: nat, removeChild: set<nat>, removeOrig: set<nat>)
    returns (children: set<nat>, origs: set<nat>)
    requires lo <= hi
    requires forall j :: lo <= j < hi ==> j in parentOf
    ensures forall c :: c in children <==> c in removeChild || lo <= c < hi
    ensures children == removeChild + Range(lo, hi)
    ensures origs == removeOrig + Parents(parentOf, lo, hi)
  {
    children, origs := removeChild, removeOrig;
    for i := lo to hi
      invariant children == removeChild + Range(lo, i)
      invariant origs == removeOrig + Parents(parentOf, lo, i)
    {
      children := children + {i};
      origs := origs + {parentOf[i]};
    }
  }

  /** The whole of pass 2, seen from `index`: the labels and claims so far
      together with what the scan finds from `index` on. */
  function ResumeLabels(subs: seq<string>, parentOf: map<nat, nat>, brand: string, k: nat,
                        dist: (string, string) -> nat, index: nat, children: set<nat>, origs: set<nat>, t: Tally): Labels
    requires k >= 1
    requires forall j :: 0 <= j < |subs| ==> j in parentOf
  {
    var r := ChildPass(subs, parentOf, brand, k, dist, index);
    Labels(t.typo + r.typo, t.combo + r.combo, t.fuzzy + r.fuzzy, children + r.children, origs + r.origs)
  }

  lemma ResumeLabelsStarts(subs: seq<string>, parentOf: map<nat, nat>, brand: string, k: nat,
                           dist: (string, string) -> nat)
    requires k >= 1
    requires forall j :: 0 <= j < |subs| ==> j in parentOf
    ensures ResumeLabels(subs, parentOf, brand, k, dist, 0, {}, {}, Tally(0, 0, 0, 0))
         == ChildPass(subs, parentOf, brand, k, dist, 0)
  {
    var r := ChildPass(subs, parentOf, brand, k, dist, 0);
    assert {} + r.children == r.children && {} + r.origs == r.origs;
  }

  /** Labelling a window and claiming its children and their parents leaves
      the resumed result unchanged. */
  lemma ResumeLabelsAccepts(subs: seq<string>, parentOf: map<nat, nat>, brand: string, k: nat,
                            dist: (string, string) -> nat, index: nat, next: nat,
                            children: set<nat>, origs: set<nat>, children': set<nat>, origs': set<nat>,
                            t: Tally, b: Bucket, t': Tally)
    requires k >= 1 && next == index + k <= |subs|
    requires forall j :: 0 <= j < |subs| ==> j in parentOf
    requires dist(brand, GetWord(subs, index, index + k)) <= 2
    requires b == WindowLabel(|subs|, k, parentOf, index, dist(brand, GetWord(subs, index, index + k)))
    requires children' == children + Range(index, index + k)
    requires origs' == origs + Parents(parentOf, index, index + k)
    requires t' == AddOne(t, b)
    ensures ResumeLabels(subs, parentOf, brand, k, dist, next, children', origs', t')
         == ResumeLabels(subs, parentOf, brand, k, dist, index, children, origs, t)
  {
    ChildPassAccepts(subs, parentOf, brand, k, dist, index);
    WindowLabelCases(|subs|, k, parentOf, index, dist(brand, GetWord(subs, index, index + k)));
  }

  lemma ResumeLabelsRejects(subs: seq<string>, parentOf: map<nat, nat>, brand: string, k: nat,
                            dist: (string, string) -> nat, index: nat, next: nat,
                            children: set<nat>, origs: set<nat>, t: Tally)
    requires k >= 1 && next == index + 1 && index + k <= |subs|
    requires forall j :: 0 <= j < |subs| ==> j in parentOf
    requires dist(brand, GetWord(subs, index, index + k)) > 2
    ensures ResumeLabels(subs, parentOf, brand, k, dist, next, children, origs, t)
         == ResumeLabels(subs, parentOf, brand, k, dist, index, children, origs, t)
  {
    ChildPassRejects(subs, parentOf, brand, k, dist, index);
  }

  /** Once no window fits, the resumed result is the state itself. */
  lemma ResumeLabelsEnds(subs: seq<string>, parentOf: map<nat, nat>, brand: string, k: nat,
                         dist: (string, string) -> nat, index: nat, children: set<nat>, origs: set<nat>, t: Tally)
    requires k >= 1 && index + k > |subs|
    requires forall j :: 0 <= j < |subs| ==> j in parentOf
    ensures ResumeLabels(subs, parentOf, brand, k, dist, index, children, origs, t)
         == Labels(t.typo, t.combo, t.fuzzy, children, origs)
  {
    assert children + {} == children && origs + {} == origs;
  }
}
