/** String and sequence helpers standing for the Python built-ins the scorer
    uses: `str.split()`, `' '.join`, ASCII `lower()`/`upper()`, `str.replace`,
    the `in` substring test and list comprehensions that drop positions. */
module Text {

  /** Python's whitespace for `str.split()` and `str.strip()`, restricted to
      ASCII: tab, line feed, vertical tab, form feed, carriage return, the
      four separators 0x1C..0x1F and the space. */
  predicate IsSpace(c: char) {
    var n := c as int;
    (9 <= n <= 13) || (28 <= n <= 32)
  }

  predicate NoSpace(s: string) {
    forall i :: 0 <= i < |s| ==> !IsSpace(s[i])
  }

  /** `not s.strip()`: the string is empty or only whitespace. */
  predicate IsBlank(s: string) {
    forall i :: 0 <= i < |s| ==> IsSpace(s[i])
  }

  /** What `str.split()` may produce: a non-empty run without whitespace. */
  predicate IsWord(s: string) {
    s != "" && NoSpace(s)
  }

  /** Length of the longest whitespace-free prefix. */
  function WordLength(s: string): (n: nat)
    ensures n <= |s|
    ensures forall i :: 0 <= i < n ==> !IsSpace(s[i])
    ensures n < |s| ==> IsSpace(s[n])
  {
    if s == [] || IsSpace(s[0]) then 0 else 1 + WordLength(s[1..])
  }

  /** `s.split()`: the maximal whitespace-free runs, in order. */
  function Split(s: string): (words: seq<string>)
    ensures forall i :: 0 <= i < |words| ==> IsWord(words[i])
    decreases |s|
  {
    if s == [] then []
    else if IsSpace(s[0]) then Split(s[1..])
    else
      var n := WordLength(s);
      [s[..n]] + Split(s[n..])
  }

  /** `' '.join(ws)`. */
  function Join(ws: seq<string>): string {
    if ws == [] then ""
    else if |ws| == 1 then ws[0]
    else ws[0] + " " + Join(ws[1..])
  }

  lemma {:induction false} WordLengthOfWord(w: string, rest: string)
    requires NoSpace(w)
    requires rest == [] || IsSpace(rest[0])
    ensures WordLength(w + rest) == |w|
  {
    if w != [] {
      assert (w + rest)[1..] == w[1..] + rest;
      WordLengthOfWord(w[1..], rest);
    } else {
      assert w + rest == rest;
    }
  }

  lemma SplitWordThen(w: string, rest: string)
    requires IsWord(w)
    requires rest == [] || IsSpace(rest[0])
    ensures Split(w + rest) == [w] + Split(rest)
  {
    WordLengthOfWord(w, rest);
    assert (w + rest)[..|w|] == w;
    assert (w + rest)[|w|..] == rest;
  }

  /** Splitting a single-space join of words gives the words back: a token
      list that is joined into a stage's output string and split again at
      the next stage arrives unchanged. */
  lemma {:induction false} SplitJoin(ws: seq<string>)
    requires forall i :: 0 <= i < |ws| ==> IsWord(ws[i])
    ensures Split(Join(ws)) == ws
  {
    if ws == [] {
    } else if |ws| == 1 {
      SplitWordThen(ws[0], "");
      assert ws[0] + "" == ws[0];
    } else {
      var rest := Join(ws[1..]);
      SplitJoin(ws[1..]);
      assert ws[0] + " " + rest == ws[0] + (" " + rest);
      SplitWordThen(ws[0], " " + rest);
      assert (" " + rest)[1..] == rest;
      assert ws == [ws[0]] + ws[1..];
    }
  }

  /** `my_brand.strip()` is empty exactly when `my_brand.split()` is. */
  lemma {:induction false} BlankIffNoWords(s: string)
    ensures IsBlank(s) <==> Split(s) == []
    decreases |s|
  {
    if s != [] {
      if IsSpace(s[0]) {
        BlankIffNoWords(s[1..]);
        assert IsBlank(s) <==> IsBlank(s[1..]) by {
          if IsBlank(s[1..]) {
            forall i | 0 <= i < |s| ensures IsSpace(s[i]) {
              if i > 0 { assert s[i] == s[1..][i - 1]; }
            }
          }
        }
      }
    }
  }

  /** ASCII `lower()`. */
  function LowerChar(c: char): char {
    if 'A' <= c <= 'Z' then (c as int + 32) as char else c
  }

  function Lower(s: string): string {
    seq(|s|, i requires 0 <= i < |s| => LowerChar(s[i]))
  }

  /** ASCII `upper()`. */
  function UpperChar(c: char): char {
    if 'a' <= c <= 'z' then (c as int - 32) as char else c
  }

  function Upper(s: string): string {
    seq(|s|, i requires 0 <= i < |s| => UpperChar(s[i]))
  }

  predicate StartsWith(s: string, p: string) {
    |p| <= |s| && s[..|p|] == p
  }

  /** `s.replace(p, '')`: delete the non-overlapping occurrences of `p` found
      scanning left to right; the result is not scanned again. */
  function RemoveAll(s: string, p: string): (r: string)
    requires p != ""
    ensures |r| <= |s|
    decreases |s|
  {
    if s == [] then []
    else if StartsWith(s, p) then RemoveAll(s[|p|..], p)
    else [s[0]] + RemoveAll(s[1..], p)
  }

  /** Python's `p in s` on strings. */
  predicate IsSubstring(p: string, s: string)
    decreases |s|
  {
    StartsWith(s, p) || (s != [] && IsSubstring(p, s[1..]))
  }

  /** `s.replace(' ', '')`: only the space character is removed. */
  function DropSpaces(s: string): (r: string)
    ensures |r| <= |s|
    ensures forall i :: 0 <= i < |r| ==> r[i] != ' '
    ensures (forall i :: 0 <= i < |s| ==> s[i] != ' ') ==> r == s
  {
    if s == [] then []
    else (if s[0] == ' ' then [] else [s[0]]) + DropSpaces(s[1..])
  }

  /** `replace(' ', '')` works character by character: it deletes a space,
      keeps any other character, and does so independently on the two
      halves of a concatenation. */
  lemma {:induction false} DropSpacesAppend(a: string, b: string)
    ensures DropSpaces(a + b) == DropSpaces(a) + DropSpaces(b)
    decreases |a|
  {
    if a != [] {
      assert (a + b)[0] == a[0] && (a + b)[1..] == a[1..] + b;
      DropSpacesAppend(a[1..], b);
    } else {
      assert a + b == b;
    }
  }

  lemma DropSpacesChar(c: char)
    ensures DropSpaces([c]) == if c == ' ' then "" else [c]
  {
    assert [c][1..] == "";
  }

  /** The positions `lo <= i < hi`. */
  function Range(lo: nat, hi: nat): (r: set<nat>)
    ensures forall i :: i in r <==> lo <= i < hi
    decreases hi
  {
    if hi <= lo then {} else Range(lo, hi - 1) + {hi - 1}
  }

  lemma {:induction false} RangeSize(lo: nat, hi: nat)
    requires lo <= hi
    ensures |Range(lo, hi)| == hi - lo
    decreases hi - lo
  {
    if lo < hi {
      RangeSize(lo, hi - 1);
      assert Range(lo, hi) == Range(lo, hi - 1) + {hi - 1};
    } else {
      assert Range(lo, hi) == {};
    }
  }

  /** `[x for i, x in enumerate(s) if i not in marked]`. */
  function Unmarked<T>(s: seq<T>, marked: set<nat>): seq<T> {
    if s == [] then []
    else
      var n := |s| - 1;
      Unmarked(s[..n], marked) + (if n in marked then [] else [s[n]])
  }

  /** The marked positions below `n`. */
  function MarkedBelow(marked: set<nat>, n: nat): set<nat> {
    set i | i in marked && i < n
  }

  lemma {:induction false} UnmarkedCount<T>(s: seq<T>, marked: set<nat>)
    ensures |Unmarked(s, marked)| + |MarkedBelow(marked, |s|)| == |s|
  {
    if s != [] {
      var n := |s| - 1;
      UnmarkedCount(s[..n], marked);
      if n in marked {
        assert MarkedBelow(marked, |s|) == MarkedBelow(marked, n) + {n};
      } else {
        assert MarkedBelow(marked, |s|) == MarkedBelow(marked, n);
      }
    } else {
      assert MarkedBelow(marked, 0) == {};
    }
  }

  /** Dropping the marked positions shortens the list by exactly the number
      of marks, when every mark is a position of the list. */
  lemma UnmarkedLength<T>(s: seq<T>, marked: set<nat>)
    requires forall i :: i in marked ==> i < |s|
    ensures |Unmarked(s, marked)| == |s| - |marked|
  {
    UnmarkedCount(s, marked);
    assert MarkedBelow(marked, |s|) == marked;
  }

  /** Every kept element is an element of the list, and the unmarked
      positions keep every element. */
  lemma {:induction false} UnmarkedMembers<T>(s: seq<T>, marked: set<nat>)
    ensures forall x :: x in Unmarked(s, marked) ==> x in s
    ensures (forall i :: 0 <= i < |s| ==> i !in marked) ==> Unmarked(s, marked) == s
  {
    if s != [] {
      var n := |s| - 1;
      UnmarkedMembers(s[..n], marked);
      assert s == s[..n] + [s[n]];
    }
  }
}
