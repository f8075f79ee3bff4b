/** The three token normalizers applied between matching stages, each taking
    the list of tokens the previous stage left over. */
module Normalize {
  import opened Text

  /** The code points whose bracketed hex markers are stripped: zero-width
      space, non-joiner and joiner, word joiner, byte-order mark, left-to-right
      and right-to-left marks, Arabic letter mark, soft hyphen. */
  const Patterns: seq<string> := ["200b", "200c", "200d", "2060", "feff", "200e", "200f", "061c", "00ad"]

  function Marker(p: string): string {
    "<" + p + ">"
  }

  predicate NoAngle(s: string) {
    forall i :: 0 <= i < |s| ==> s[i] != '<'
  }

  /** A bracketed four-character marker such as `<200b>` or `<ABCD>`. */
  predicate MarkerShaped(m: string) {
    |m| == 6 && m[0] == '<' && NoAngle(m[1..])
  }

  /** `m` is the lower- or upper-case marker of one of `ps`. */
  predicate Listed(m: string, ps: seq<string>)
    decreases |ps|
  {
    ps != [] && (m == Marker(ps[0]) || m == Marker(Upper(ps[0])) || Listed(m, ps[1..]))
  }

  /** One turn of the inner loop: `.replace('<p>', '').replace('<P>', '')`. */
  function StripPattern(t: string, p: string): string {
    RemoveAll(RemoveAll(t, Marker(p)), Marker(Upper(p)))
  }

  /** The inner loop over the patterns, in list order. */
  function StripPatterns(t: string, ps: seq<string>): (r: string)
    ensures |r| <= |t|
    decreases |ps|
  {
    if ps == [] then t else StripPatterns(StripPattern(t, ps[0]), ps[1..])
  }

  /** `remove_unicode_text_patterns`: strip the markers from each token, then
      lower-case it. Tokens that become empty are kept. */
  function RemoveUnicodeTextPatterns(ts: seq<string>): (r: seq<string>)
    ensures |r| == |ts|
    ensures forall i :: 0 <= i < |ts| ==> |r[i]| <= |ts[i]|
    ensures forall i :: 0 <= i < |ts| && NoMarkerOf(ts[i], Patterns) ==> r[i] == Lower(ts[i])
  {
    PatternsAreHex();
    seq(|ts|, i requires 0 <= i < |ts| => Lower(StripPatterns(ts[i], Patterns)))
  }

  predicate HexLike(ps: seq<string>) {
    forall j :: 0 <= j < |ps| ==> |ps[j]| == 4 && NoAngle(ps[j])
  }

  lemma PatternsAreHex()
    ensures HexLike(Patterns)
    ensures forall t :: NoMarkerOf(t, Patterns) ==> StripPatterns(t, Patterns) == t
  {
    forall t | NoMarkerOf(t, Patterns) ensures StripPatterns(t, Patterns) == t {
      StripPatternsAbsent(t, Patterns);
    }
  }

  /** `t` contains neither the lower- nor the upper-case marker of any of `ps`. */
  predicate NoMarkerOf(t: string, ps: seq<string>) {
    forall j :: 0 <= j < |ps| ==> !IsSubstring(Marker(ps[j]), t) && !IsSubstring(Marker(Upper(ps[j])), t)
  }

  /** `replace` changes nothing when the text does not occur. */
  lemma {:induction false} RemoveAllAbsent(s: string, p: string)
    requires p != "" && !IsSubstring(p, s)
    ensures RemoveAll(s, p) == s
    decreases |s|
  {
    if s != [] {
      RemoveAllAbsent(s[1..], p);
      assert s == [s[0]] + s[1..];
    }
  }

  lemma {:induction false} StripPatternsAbsent(t: string, ps: seq<string>)
    requires NoMarkerOf(t, ps)
    ensures StripPatterns(t, ps) == t
    decreases |ps|
  {
    if ps != [] {
      RemoveAllAbsent(t, Marker(ps[0]));
      RemoveAllAbsent(t, Marker(Upper(ps[0])));
      assert NoMarkerOf(t, ps[1..]) by {
        forall j | 0 <= j < |ps[1..]|
          ensures !IsSubstring(Marker(ps[1..][j]), t) && !IsSubstring(Marker(Upper(ps[1..][j])), t)
        {
          assert ps[1..][j] == ps[j + 1];
        }
      }
      StripPatternsAbsent(t, ps[1..]);
    }
  }

  lemma UpperNoAngle(p: string)
    requires NoAngle(p)
    ensures |Upper(p)| == |p| && NoAngle(Upper(p))
  {
  }

  /** A token read as pieces: runs without `<`, and marker-shaped pieces. */
  predicate Piecewise(segs: seq<string>) {
    forall j :: 0 <= j < |segs| ==> NoAngle(segs[j]) || MarkerShaped(segs[j])
  }

  function Concat(segs: seq<string>): string
    decreases |segs|
  {
    if segs == [] then "" else segs[0] + Concat(segs[1..])
  }

  /** The pieces that are not the marker of any of `ps`, in order. */
  function Unlisted(segs: seq<string>, ps: seq<string>): seq<string>
    decreases |segs|
  {
    if segs == [] then [] else (if Listed(segs[0], ps) then [] else [segs[0]]) + Unlisted(segs[1..], ps)
  }

  /** `replace` passes over a run without `<` whatever follows it. */
  lemma {:induction false} RemoveAllText(x: string, rest: string, p: string)
    requires p != "" && p[0] == '<' && NoAngle(x)
    ensures RemoveAll(x + rest, p) == x + RemoveAll(rest, p)
    decreases |x|
  {
    if x != [] {
      var s := x + rest;
      assert !StartsWith(s, p) by { assert |p| <= |s| ==> s[..|p|][0] == s[0]; }
      assert s[1..] == x[1..] + rest;
      RemoveAllText(x[1..], rest, p);
      assert x == [x[0]] + x[1..];
    } else {
      assert x + rest == rest;
    }
  }

  /** A piece at the front is deleted whole when it is `p` and kept whole
      otherwise, whatever follows it. */
  lemma RemoveAllPiece(x: string, rest: string, p: string)
    requires NoAngle(x) || MarkerShaped(x)
    requires |p| == 6 && p[0] == '<'
    ensures RemoveAll(x + rest, p) == (if x == p then "" else x) + RemoveAll(rest, p)
  {
    if NoAngle(x) {
      assert x != p by { assert |x| == 0 || x[0] != '<'; }
      RemoveAllText(x, rest, p);
    } else {
      var s := x + rest;
      assert s[..|p|] == x;
      if x == p {
        assert s[|p|..] == rest;
      } else {
        assert s[1..] == x[1..] + rest;
        RemoveAllText(x[1..], rest, p);
        assert x == [x[0]] + x[1..];
      }
    }
  }

  lemma StripPatternPiece(x: string, rest: string, p: string)
    requires NoAngle(x) || MarkerShaped(x)
    requires |p| == 4 && NoAngle(p)
    ensures StripPattern(x + rest, p)
         == (if x == Marker(p) || x == Marker(Upper(p)) then "" else x) + StripPattern(rest, p)
  {
    var a, b := Marker(p), Marker(Upper(p));
    UpperNoAngle(p);
    RemoveAllPiece(x, rest, a);
    var r1 := RemoveAll(rest, a);
    if x == a {
      assert "" + r1 == r1;
    } else {
      RemoveAllPiece(x, r1, b);
    }
  }

  lemma {:induction false} StripPatternsPiece(x: string, rest: string, ps: seq<string>)
    requires NoAngle(x) || MarkerShaped(x)
    requires HexLike(ps)
    ensures StripPatterns(x + rest, ps) == (if Listed(x, ps) then "" else x) + StripPatterns(rest, ps)
    decreases |ps|
  {
    if ps == [] {
    } else {
      var p := ps[0];
      StripPatternPiece(x, rest, p);
      var r1 := StripPattern(rest, p);
      assert HexLike(ps[1..]) by {
        forall j | 0 <= j < |ps[1..]| ensures |ps[1..][j]| == 4 && NoAngle(ps[1..][j]) {
          assert ps[1..][j] == ps[j + 1];
        }
      }
      if x == Marker(p) || x == Marker(Upper(p)) {
        assert "" + r1 == r1;
      } else {
        StripPatternsPiece(x, r1, ps[1..]);
      }
    }
  }

  /** Over a token made of pieces, stripping deletes exactly the listed
      marker pieces and keeps every other piece, in order. */
  lemma {:induction false} StripPatternsPieces(segs: seq<string>, ps: seq<string>)
    requires Piecewise(segs) && HexLike(ps)
    ensures StripPatterns(Concat(segs), ps) == Concat(Unlisted(segs, ps))
    decreases |segs|
  {
    if segs != [] {
      var x, tail := segs[0], segs[1..];
      assert Piecewise(tail) by {
        forall j | 0 <= j < |tail| ensures NoAngle(tail[j]) || MarkerShaped(tail[j]) {
          assert tail[j] == segs[j + 1];
        }
      }
      StripPatternsPiece(x, Concat(tail), ps);
      StripPatternsPieces(tail, ps);
      var u := Unlisted(tail, ps);
      if !Listed(x, ps) {
        assert ([x] + u)[0] == x && ([x] + u)[1..] == u;
      } else {
        assert [] + u == u;
      }
    }
  }

  /** `remove_unicode_text_patterns` on a token made of runs without `<` and
      marker-shaped pieces: every listed marker, in either case, is deleted,
      every other piece is kept in order, and the result is lower-cased. */
  lemma StripsMarkers(ts: seq<string>, i: nat, segs: seq<string>)
    requires i < |ts| && ts[i] == Concat(segs) && Piecewise(segs)
    ensures RemoveUnicodeTextPatterns(ts)[i] == Lower(Concat(Unlisted(segs, Patterns)))
  {
    PatternsAreHex();
    StripPatternsPieces(segs, Patterns);
  }

  lemma MarkerIs200b()
    ensures Marker(Patterns[0]) == "<200b>"
  {
    var mk, m := Marker("200b"), "<200b>";
    assert |mk| == |m|;
    forall j | 0 <= j < |m| ensures mk[j] == m[j] {}
  }

  /** The marker of a four-character pattern without `<` is marker-shaped. */
  lemma MarkerOfShaped(p: string)
    requires |p| == 4 && NoAngle(p)
    ensures MarkerShaped(Marker(p))
  {
    assert Marker(p)[1..] == p + ">";
  }

  /** Every listed marker of hex-like patterns, in either case, is marker-shaped. */
  lemma {:induction false} ListedShaped(m: string, ps: seq<string>)
    requires HexLike(ps) && Listed(m, ps)
    ensures MarkerShaped(m)
    decreases |ps|
  {
    if m == Marker(ps[0]) {
      MarkerOfShaped(ps[0]);
    } else if m == Marker(Upper(ps[0])) {
      UpperNoAngle(ps[0]);
      MarkerOfShaped(Upper(ps[0]));
    } else {
      assert HexLike(ps[1..]) by {
        forall j | 0 <= j < |ps[1..]| ensures |ps[1..][j]| == 4 && NoAngle(ps[1..][j]) {
          assert ps[1..][j] == ps[j + 1];
        }
      }
      ListedShaped(m, ps[1..]);
    }
  }

  /** A token that is only a listed marker, in either case, becomes the empty
      token, which is kept. */
  lemma MarkerOnlyTokenKept(ts: seq<string>, i: nat)
    requires i < |ts| && Listed(ts[i], Patterns)
    ensures |RemoveUnicodeTextPatterns(ts)| == |ts|
    ensures RemoveUnicodeTextPatterns(ts)[i] == ""
  {
    var m := ts[i];
    PatternsAreHex();
    ListedShaped(m, Patterns);
    var one: seq<string> := [m];
    assert Concat(one) == m by { assert one[1..] == []; }
    StripsMarkers(ts, i, one);
  }

  lemma ConcatCons(x: string, rest: seq<string>)
    ensures Concat([x] + rest) == x + Concat(rest)
  {
    assert ([x] + rest)[0] == x && ([x] + rest)[1..] == rest;
  }

  lemma UnlistedCons(x: string, rest: seq<string>, ps: seq<string>)
    ensures Unlisted([x] + rest, ps) == (if Listed(x, ps) then [] else [x]) + Unlisted(rest, ps)
  {
    assert ([x] + rest)[0] == x && ([x] + rest)[1..] == rest;
  }

  /** Two zero-width spaces inside one token are both deleted:
      `Bank<200b>of<200b>America` becomes the lower-cased `BankofAmerica`. */
  lemma TwoMarkersStripped(ts: seq<string>, i: nat)
    requires i < |ts| && ts[i] == "Bank" + "<200b>" + "of" + "<200b>" + "America"
    ensures RemoveUnicodeTextPatterns(ts)[i] == Lower("Bank" + "of" + "America")
  {
    var m := "<200b>";
    var segs := ["Bank", m, "of", m, "America"];
    assert MarkerShaped(m) by { assert m[1..] == "200b>"; }
    assert Piecewise(segs);
    TwoMarkersConcat(segs, m);
    ZeroWidthListed();
    WordsNotListed();
    TwoMarkersUnlisted("Bank", m, "of", "America", Patterns);
    ThreeWordsConcat();
    StripsMarkers(ts, i, segs);
  }

  lemma TwoMarkersConcat(segs: seq<string>, m: string)
    requires segs == ["Bank", m, "of", m, "America"]
    ensures Concat(segs) == "Bank" + m + "of" + m + "America"
  {
    var none: seq<string> := [];
    ConcatCons("America", none);
    ConcatCons(m, ["America"]);
    ConcatCons("of", [m, "America"]);
    ConcatCons(m, ["of", m, "America"]);
    ConcatCons("Bank", [m, "of", m, "America"]);
    assert segs == ["Bank"] + [m, "of", m, "America"];
    assert [m, "of", m, "America"] == [m] + ["of", m, "America"];
    assert ["of", m, "America"] == ["of"] + [m, "America"];
    assert [m, "America"] == [m] + ["America"];
  }

  /** Two listed markers between three unlisted pieces are both dropped. */
  lemma TwoMarkersUnlisted(a: string, m: string, b: string, c: string, ps: seq<string>)
    requires Listed(m, ps) && !Listed(a, ps) && !Listed(b, ps) && !Listed(c, ps)
    ensures Unlisted([a, m, b, m, c], ps) == [a, b, c]
  {
    var none: seq<string> := [];
    UnlistedCons(c, none, ps);
    UnlistedCons(m, [c], ps);
    UnlistedCons(b, [m, c], ps);
    UnlistedCons(m, [b, m, c], ps);
    UnlistedCons(a, [m, b, m, c], ps);
    assert [a, m, b, m, c] == [a] + [m, b, m, c];
    assert [m, b, m, c] == [m] + [b, m, c];
    assert [b, m, c] == [b] + [m, c];
    assert [m, c] == [m] + [c];
  }

  lemma ZeroWidthListed()
    ensures Listed("<200b>", Patterns)
  {
    MarkerIs200b();
  }

  lemma WordsNotListed()
    ensures !Listed("Bank", Patterns) && !Listed("of", Patterns) && !Listed("America", Patterns)
  {
    TextNotListed("Bank", Patterns);
    TextNotListed("of", Patterns);
    TextNotListed("America", Patterns);
  }

  lemma ThreeWordsConcat()
    ensures Concat(["Bank", "of", "America"]) == "Bank" + "of" + "America"
  {
    var none: seq<string> := [];
    ConcatCons("America", none);
    ConcatCons("of", ["America"]);
    ConcatCons("Bank", ["of", "America"]);
    assert ["Bank", "of", "America"] == ["Bank"] + ["of", "America"];
    assert ["of", "America"] == ["of"] + ["America"];
  }

  /** A piece that does not start with `<` is never a marker. */
  lemma {:induction false} TextNotListed(x: string, ps: seq<string>)
    requires |x| == 0 || x[0] != '<'
    ensures !Listed(x, ps)
    decreases |ps|
  {
    if ps != [] {
      assert x != Marker(ps[0]) && x != Marker(Upper(ps[0])) by { assert |x| == 0 || x[0] != '<'; }
      TextNotListed(x, ps[1..]);
    }
  }

  /** `normalize_unicode_text`: transliterate, lower-case, drop empty results. */
  function NormalizeUnicodeText(ts: seq<string>, translit: string -> string): (r: seq<string>)
    ensures |r| <= |ts|
    ensures forall i :: 0 <= i < |r| ==> r[i] != ""
  {
    if ts == [] then []
    else
      var n := |ts| - 1;
      var ascii := Lower(translit(ts[n]));
      NormalizeUnicodeText(ts[..n], translit) + (if ascii != "" then [ascii] else [])
  }

  /** The positions whose transliteration is empty. */
  function EmptyTransliterations(ts: seq<string>, translit: string -> string): set<nat> {
    set i: nat | i < |ts| && translit(ts[i]) == ""
  }

  function TransliterateAll(ts: seq<string>, translit: string -> string): seq<string> {
    seq(|ts|, i requires 0 <= i < |ts| => Lower(translit(ts[i])))
  }

  lemma {:induction false} NormalizePrefix(ts: seq<string>, translit: string -> string, n: nat)
    requires n <= |ts|
    ensures NormalizeUnicodeText(ts[..n], translit)
         == TransliterateAll(Unmarked(ts[..n], EmptyTransliterations(ts, translit)), translit)
  {
    var e := EmptyTransliterations(ts, translit);
    if n == 0 {
      assert ts[..0] == [];
    } else {
      var m := n - 1;
      NormalizePrefix(ts, translit, m);
      var pre := ts[..n];
      assert pre[..m] == ts[..m];
      var u := Unmarked(ts[..m], e);
      var t := ts[m];
      assert Unmarked(pre, e) == u + (if m in e then [] else [t]);
      assert m in e <==> Lower(translit(t)) == "";
      if m !in e {
        assert TransliterateAll(u + [t], translit) == TransliterateAll(u, translit) + [Lower(translit(t))];
      } else {
        assert u + [] == u;
      }
    }
  }

  /** `normalize_unicode_text` drops exactly the tokens whose transliteration
      is empty, keeps the others in order and transliterates them. */
  lemma NormalizeDropsExactlyEmpty(ts: seq<string>, translit: string -> string)
    ensures NormalizeUnicodeText(ts, translit)
         == TransliterateAll(Unmarked(ts, EmptyTransliterations(ts, translit)), translit)
    ensures |NormalizeUnicodeText(ts, translit)| == |ts| - |EmptyTransliterations(ts, translit)|
  {
    NormalizePrefix(ts, translit, |ts|);
    assert ts[..|ts|] == ts;
    UnmarkedLength(ts, EmptyTransliterations(ts, translit));
  }

  predicate IsAsciiAlnum(c: char) {
    ('a' <= c <= 'z') || ('A' <= c <= 'Z') || ('0' <= c <= '9')
  }

  predicate IsLowerAlnum(c: char) {
    ('a' <= c <= 'z') || ('0' <= c <= '9')
  }

  predicate CleanToken(t: string) {
    t != "" && forall j :: 0 <= j < |t| ==> IsLowerAlnum(t[j])
  }

  /** `re.sub(r'[^a-zA-Z0-9]', '', s)`. */
  function KeepAlnum(s: string): (r: string)
    ensures forall i :: 0 <= i < |r| ==> IsAsciiAlnum(r[i])
    ensures (forall i :: 0 <= i < |s| ==> IsAsciiAlnum(s[i])) ==> r == s
  {
    if s == [] then []
    else (if IsAsciiAlnum(s[0]) then [s[0]] else []) + KeepAlnum(s[1..])
  }

  /** The regex keeps each ASCII letter and digit, deletes any other
      character, and does so independently on the two halves of a
      concatenation. */
  lemma {:induction false} KeepAlnumAppend(a: string, b: string)
    ensures KeepAlnum(a + b) == KeepAlnum(a) + KeepAlnum(b)
    decreases |a|
  {
    if a != [] {
      assert (a + b)[0] == a[0] && (a + b)[1..] == a[1..] + b;
      KeepAlnumAppend(a[1..], b);
    } else {
      assert a + b == b;
    }
  }

  lemma KeepAlnumChar(c: char)
    ensures KeepAlnum([c]) == if IsAsciiAlnum(c) then [c] else ""
  {
    assert [c][1..] == "";
  }

  /** `remove_special_characters`: keep ASCII letters and digits, drop the
      tokens that become empty, lower-case the rest. */
  function RemoveSpecialCharacters(ts: seq<string>): (r: seq<string>)
    ensures |r| <= |ts|
    ensures forall i :: 0 <= i < |r| ==> CleanToken(r[i])
  {
    if ts == [] then []
    else
      var n := |ts| - 1;
      var cleaned := KeepAlnum(ts[n]);
      RemoveSpecialCharacters(ts[..n]) + (if cleaned != "" then [Lower(cleaned)] else [])
  }

  /** The positions whose cleaned form is empty. */
  function EmptyCleanings(ts: seq<string>): set<nat> {
    set i: nat | i < |ts| && KeepAlnum(ts[i]) == ""
  }

  function CleanAll(ts: seq<string>): seq<string> {
    seq(|ts|, i requires 0 <= i < |ts| => Lower(KeepAlnum(ts[i])))
  }

  lemma {:induction false} RemoveSpecialPrefix(ts: seq<string>, n: nat)
    requires n <= |ts|
    ensures RemoveSpecialCharacters(ts[..n]) == CleanAll(Unmarked(ts[..n], EmptyCleanings(ts)))
  {
    var e := EmptyCleanings(ts);
    if n == 0 {
      assert ts[..0] == [];
    } else {
      var m := n - 1;
      RemoveSpecialPrefix(ts, m);
      var pre := ts[..n];
      assert pre[..m] == ts[..m];
      var u := Unmarked(ts[..m], e);
      var t := ts[m];
      assert Unmarked(pre, e) == u + (if m in e then [] else [t]);
      assert m in e <==> KeepAlnum(t) == "";
      if m !in e {
        assert CleanAll(u + [t]) == CleanAll(u) + [Lower(KeepAlnum(t))];
      } else {
        assert u + [] == u;
      }
    }
  }

  /** `remove_special_characters` drops exactly the tokens with no ASCII
      letter or digit, keeps the others in order, and replaces each by its
      letters and digits, lower-cased. */
  lemma RemoveSpecialDropsExactlyEmpty(ts: seq<string>)
    ensures RemoveSpecialCharacters(ts) == CleanAll(Unmarked(ts, EmptyCleanings(ts)))
    ensures |RemoveSpecialCharacters(ts)| == |ts| - |EmptyCleanings(ts)|
  {
    RemoveSpecialPrefix(ts, |ts|);
    assert ts[..|ts|] == ts;
    UnmarkedLength(ts, EmptyCleanings(ts));
  }

  /** Tokens that are already non-empty lower-case letters and digits pass
      through unchanged. */
  lemma {:induction false} RemoveSpecialKeepsClean(ts: seq<string>)
    requires forall i :: 0 <= i < |ts| ==> CleanToken(ts[i])
    ensures RemoveSpecialCharacters(ts) == ts
  {
    if ts != [] {
      var n := |ts| - 1;
      assert forall i :: 0 <= i < n ==> ts[..n][i] == ts[i];
      RemoveSpecialKeepsClean(ts[..n]);
      var t := ts[n];
      assert KeepAlnum(t) == t;
      assert Lower(t) == t;
      assert ts == ts[..n] + [t];
    }
  }

  /** Stripping special characters twice is the same as once. */
  lemma RemoveSpecialIdempotent(ts: seq<string>)
    ensures RemoveSpecialCharacters(RemoveSpecialCharacters(ts)) == RemoveSpecialCharacters(ts)
  {
    RemoveSpecialKeepsClean(RemoveSpecialCharacters(ts));
  }
}
