/** The two segmentation-trace builders: each token is split by the word
    segmenter and every sub-token is recorded with the index of the token it
    came from. */
module Segmentation {

  /** `(orig_idx, orig_token, sub_token)`. */
  datatype Piece = Piece(orig: nat, token: string, sub: string)

  /** `(orig_idx, orig_token, sub_token, child_idx)`. */
  datatype Child = Child(orig: nat, token: string, sub: string, index: nat)

  /** `tracked` and `child_parent_dict`. */
  datatype MultiTrace = MultiTrace(tracked: seq<Child>, parentOf: map<nat, nat>)

  function Pieces(i: nat, token: string, parts: seq<string>): seq<Piece> {
    seq(|parts|, j requires 0 <= j < |parts| => Piece(i, token, parts[j]))
  }

  /** `seperate_word_check_one_word_with_origin`. */
  function TraceOneWord(ts: seq<string>, segment: string -> seq<string>): (tr: seq<Piece>)
    ensures forall j :: 0 <= j < |tr| ==> tr[j].orig < |ts| && tr[j].token == ts[tr[j].orig]
    ensures forall a, b :: 0 <= a <= b < |tr| ==> tr[a].orig <= tr[b].orig
  {
    if ts == [] then []
    else
      var n := |ts| - 1;
      TraceOneWord(ts[..n], segment) + Pieces(n, ts[n], segment(ts[n]))
  }

  /** The sub-tokens recorded for source index `i`, in trace order. */
  function SubsOf(tr: seq<Piece>, i: nat): seq<string> {
    if tr == [] then []
    else
      var n := |tr| - 1;
      SubsOf(tr[..n], i) + (if tr[n].orig == i then [tr[n].sub] else [])
  }

  lemma {:induction false} SubsOfAppend(a: seq<Piece>, b: seq<Piece>, i: nat)
    ensures SubsOf(a + b, i) == SubsOf(a, i) + SubsOf(b, i)
    decreases |b|
  {
    if b != [] {
      var n := |b| - 1;
      assert (a + b)[..|a + b| - 1] == a + b[..n];
      SubsOfAppend(a, b[..n], i);
    } else {
      assert a + b == a;
    }
  }

  lemma {:induction false} SubsOfPieces(k: nat, token: string, parts: seq<string>, i: nat)
    ensures SubsOf(Pieces(k, token, parts), i) == if i == k then parts else []
    decreases |parts|
  {
    if parts != [] {
      var n := |parts| - 1;
      assert Pieces(k, token, parts)[..n] == Pieces(k, token, parts[..n]);
      SubsOfPieces(k, token, parts[..n], i);
      if i == k {
        assert parts == parts[..n] + [parts[n]];
      }
    }
  }

  /** The trace lists, for every source index, exactly that token's
      segmentation in order: nothing is lost, reordered or misattributed. */
  lemma {:induction false} TraceOneWordBlocks(ts: seq<string>, segment: string -> seq<string>, i: nat)
    requires i < |ts|
    ensures SubsOf(TraceOneWord(ts, segment), i) == segment(ts[i])
  {
    var n := |ts| - 1;
    var pre := TraceOneWord(ts[..n], segment);
    SubsOfAppend(pre, Pieces(n, ts[n], segment(ts[n])), i);
    SubsOfPieces(n, ts[n], segment(ts[n]), i);
    if i < n {
      TraceOneWordBlocks(ts[..n], segment, i);
      assert ts[..n][i] == ts[i];
      assert SubsOf(pre, i) + [] == SubsOf(pre, i);
    } else {
      TraceNoLaterIndex(ts[..n], segment, i);
    }
  }

  lemma TraceNoLaterIndex(ts: seq<string>, segment: string -> seq<string>, i: nat)
    requires |ts| <= i
    ensures SubsOf(TraceOneWord(ts, segment), i) == []
  {
    SubsOfNone(TraceOneWord(ts, segment), i);
  }

  lemma {:induction false} SubsOfNone(tr: seq<Piece>, i: nat)
    requires forall j :: 0 <= j < |tr| ==> tr[j].orig != i
    ensures SubsOf(tr, i) == []
  {
    if tr != [] {
      SubsOfNone(tr[..|tr| - 1], i);
    }
  }

  /** A sub-token is listed for index `i` exactly when some trace entry
      carries it with that index. */
  lemma {:induction false} SubsOfMembers(tr: seq<Piece>, i: nat, s: string)
    ensures s in SubsOf(tr, i) <==> exists j :: 0 <= j < |tr| && tr[j].orig == i && tr[j].sub == s
  {
    if tr != [] {
      var n := |tr| - 1;
      SubsOfMembers(tr[..n], i, s);
      if exists j :: 0 <= j < |tr| && tr[j].orig == i && tr[j].sub == s {
        var j :| 0 <= j < |tr| && tr[j].orig == i && tr[j].sub == s;
        if j < n { assert tr[..n][j] == tr[j]; }
      }
      if exists j :: 0 <= j < n && tr[..n][j].orig == i && tr[..n][j].sub == s {
        var j :| 0 <= j < n && tr[..n][j].orig == i && tr[..n][j].sub == s;
        assert tr[j] == tr[..n][j];
      }
    }
  }

  function Children(i: nat, token: string, parts: seq<string>, base: nat): seq<Child> {
    seq(|parts|, j requires 0 <= j < |parts| => Child(i, token, parts[j], base + j))
  }

  /** The child positions `base <= j < base + count`, each mapped to `i`. */
  function ParentEntries(base: nat, count: nat, i: nat): (m: map<nat, nat>)
    ensures forall j :: j in m <==> base <= j < base + count
    ensures forall j :: j in m ==> m[j] == i
    decreases count
  {
    if count == 0 then map[] else ParentEntries(base, count - 1, i)[base + count - 1 := i]
  }

  /** `seperate_word_check_multiword_with_origin`: children are numbered
      0..n-1 along the trace and `child_parent_dict` maps each to the index
      of the token it came from. */
  function TraceMultiWord(ts: seq<string>, segment: string -> seq<string>): (r: MultiTrace)
    ensures forall j :: 0 <= j < |r.tracked| ==> r.tracked[j].index == j
    ensures forall j :: j in r.parentOf <==> 0 <= j < |r.tracked|
    ensures forall j :: 0 <= j < |r.tracked| ==>
      r.parentOf[j] == r.tracked[j].orig < |ts| && r.tracked[j].token == ts[r.tracked[j].orig]
    ensures forall a, b :: 0 <= a <= b < |r.tracked| ==> r.tracked[a].orig <= r.tracked[b].orig
  {
    if ts == [] then MultiTrace([], map[])
    else
      var n := |ts| - 1;
      var prev := TraceMultiWord(ts[..n], segment);
      var base := |prev.tracked|;
      var parts := segment(ts[n]);
      MultiTrace(prev.tracked + Children(n, ts[n], parts, base),
                 prev.parentOf + ParentEntries(base, |parts|, n))
  }

  /** `[t[2] for t in tracked]`. */
  function SubTokens(tracked: seq<Child>): seq<string> {
    seq(|tracked|, j requires 0 <= j < |tracked| => tracked[j].sub)
  }

  /** The two builders record the same entries: the multi-word trace is the
      one-word trace with the child index added. */
  lemma {:induction false} TracesAgree(ts: seq<string>, segment: string -> seq<string>)
    ensures |TraceMultiWord(ts, segment).tracked| == |TraceOneWord(ts, segment)|
    ensures forall j :: 0 <= j < |TraceOneWord(ts, segment)| ==>
      var c := TraceMultiWord(ts, segment).tracked[j];
      Piece(c.orig, c.token, c.sub) == TraceOneWord(ts, segment)[j]
  {
    if ts != [] {
      var n := |ts| - 1;
      TracesAgree(ts[..n], segment);
    }
  }
}
