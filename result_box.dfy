/** The counter dictionary every analysis fills in: one count per
    normalization stage and match kind, plus the substring-fallback flag. */
module ResultBoxes {
  import opened Text

  /** The four stages, whose key prefixes are `raw_`, `invisible_`,
      `normalized_` and `special_`. */
  datatype Stage = Raw | Invisible | Normalized | Special

  datatype Bucket = Direct | Typo | Combo | Fuzzy

  datatype Key = Count(stage: Stage, bucket: Bucket) | SubstringMatch

  function Prefix(s: Stage): string {
    match s
    case Raw => "raw_"
    case Invisible => "invisible_"
    case Normalized => "normalized_"
    case Special => "special_"
  }

  function Label(b: Bucket): string {
    match b
    case Direct => "direct"
    case Typo => "typo"
    case Combo => "combo"
    case Fuzzy => "fuzzy"
  }

  /** The dictionary key as a string: `f'{prefix}{label}'`. */
  function KeyName(k: Key): string {
    match k
    case Count(s, b) => Prefix(s) + Label(b)
    case SubstringMatch => "substring_match"
  }

  function ParseLabel(s: Stage, rest: string): (r: Option<Key>) {
    if rest == "direct" then Some(Count(s, Direct))
    else if rest == "typo" then Some(Count(s, Typo))
    else if rest == "combo" then Some(Count(s, Combo))
    else if rest == "fuzzy" then Some(Count(s, Fuzzy))
    else None
  }

  /** Reads a key name back. */
  function ParseKey(name: string): Option<Key> {
    if name == "substring_match" then Some(SubstringMatch)
    else if StartsWith(name, "raw_") then ParseLabel(Raw, name[4..])
    else if StartsWith(name, "invisible_") then ParseLabel(Invisible, name[10..])
    else if StartsWith(name, "normalized_") then ParseLabel(Normalized, name[11..])
    else if StartsWith(name, "special_") then ParseLabel(Special, name[8..])
    else None
  }

  datatype Option<T> = None | Some(value: T)

  /** Every key's name reads back as that key, so the seventeen names are
      pairwise distinct: `f'{prefix}{label}'` never collides. */
  lemma KeyNameRoundTrip(k: Key)
    ensures ParseKey(KeyName(k)) == Some(k)
  {
    match k
    case SubstringMatch =>
    case Count(s, b) =>
      var name := KeyName(k);
      assert name[..|Prefix(s)|] == Prefix(s);
      assert name[|Prefix(s)|..] == Label(b);
      assert name != "substring_match" by {
        if s == Special { assert name[1] == 'p'; } else { assert name[0] != 's'; }
      }
      match s
      case Raw =>
      case Invisible => assert !StartsWith(name, "raw_") by { assert name[0] == 'i'; }
      case Normalized =>
        assert !StartsWith(name, "raw_") by { assert name[0] == 'n'; }
        assert !StartsWith(name, "invisible_") by { assert name[0] == 'n'; }
      case Special =>
        assert !StartsWith(name, "raw_") by { assert name[0] == 's'; }
        assert !StartsWith(name, "invisible_") by { assert name[0] == 's'; }
        assert !StartsWith(name, "normalized_") by { assert name[0] == 's'; }
  }

  lemma KeyNamesDistinct(k1: Key, k2: Key)
    ensures KeyName(k1) == KeyName(k2) ==> k1 == k2
  {
    KeyNameRoundTrip(k1);
    KeyNameRoundTrip(k2);
  }

  /** The four keys of one stage. */
  function StageKeys(s: Stage): set<Key> {
    {Count(s, Direct), Count(s, Typo), Count(s, Combo), Count(s, Fuzzy)}
  }

  lemma StageKeysExactly(s: Stage)
    ensures |StageKeys(s)| == 4
    ensures forall k: Key :: k in StageKeys(s) <==> k.Count? && k.stage == s
  {
    forall k: Key | k.Count? && k.stage == s ensures k in StageKeys(s) {
      match k.bucket
      case Direct => case Typo => case Combo => case Fuzzy =>
    }
  }

  function AllKeys(): set<Key> {
    StageKeys(Raw) + StageKeys(Invisible) + StageKeys(Normalized) + StageKeys(Special) + {SubstringMatch}
  }

  lemma AllKeysSize()
    ensures |AllKeys()| == 17
  {
    var a, b, c, d := StageKeys(Raw), StageKeys(Invisible), StageKeys(Normalized), StageKeys(Special);
    StageKeysExactly(Raw);
    StageKeysExactly(Invisible);
    StageKeysExactly(Normalized);
    StageKeysExactly(Special);
    assert a * b == {};
    assert |a + b| == 8;
    assert (a + b) * c == {};
    assert |a + b + c| == 12;
    assert (a + b + c) * d == {};
    assert |a + b + c + d| == 16;
    assert SubstringMatch !in a + b + c + d;
  }

  lemma AllKeysComplete()
    ensures forall k: Key :: k in AllKeys()
  {
    forall k: Key ensures k in AllKeys() {
      match k
      case SubstringMatch =>
      case Count(s, b) => StageKeysExactly(s);
    }
  }

  /** A result box holds every key. */
  ghost predicate Full(m: map<Key, nat>) {
    forall k: Key :: k in m
  }

  /** `_empty_result_box()`: all seventeen keys, each zero. */
  function EmptyBox(): (m: map<Key, nat>)
    ensures Full(m)
    ensures |m| == 17
    ensures forall k :: k in m ==> m[k] == 0
  {
    AllKeysComplete();
    AllKeysSize();
    var m := map k | k in AllKeys() :: 0;
    assert m.Keys == AllKeys();
    m
  }

  /** What one `process_detection_*` call adds to its own stage. */
  datatype Tally = Tally(direct: nat, typo: nat, combo: nat, fuzzy: nat)

  function Amount(t: Tally, b: Bucket): nat {
    match b
    case Direct => t.direct
    case Typo => t.typo
    case Combo => t.combo
    case Fuzzy => t.fuzzy
  }

  /** What one matching call produces: its tally, the tokens it leaves for
      the next stage, and the string it returns (those tokens space-joined). */
  datatype Outcome = Outcome(tally: Tally, kept: seq<string>, text: string)

  /** Adds a stage's tally to the box. */
  function Credit(m: map<Key, nat>, s: Stage, t: Tally): (r: map<Key, nat>)
    ensures r.Keys == m.Keys
    ensures Full(m) ==> Full(r)
    ensures forall k :: k in m && !(k.Count? && k.stage == s) ==> r[k] == m[k]
    ensures forall b :: Count(s, b) in m ==> r[Count(s, b)] == m[Count(s, b)] + Amount(t, b)
  {
    map k | k in m :: if k.Count? && k.stage == s then m[k] + Amount(t, k.bucket) else m[k]
  }

  function AddOne(t: Tally, b: Bucket): Tally {
    match b
    case Direct => t.(direct := t.direct + 1)
    case Typo => t.(typo := t.typo + 1)
    case Combo => t.(combo := t.combo + 1)
    case Fuzzy => t.(fuzzy := t.fuzzy + 1)
  }

  /** One `result_box[key] += 1` is one more in the tally of that stage. */
  lemma CreditAddOne(m: map<Key, nat>, s: Stage, t: Tally, b: Bucket)
    requires Full(m)
    ensures Credit(m, s, AddOne(t, b)) == Credit(m, s, t)[Count(s, b) := Credit(m, s, t)[Count(s, b)] + 1]
  {
  }

  /** `CreditAddOne` in the form a loop step uses: the maps before and after
      the increment are named, so the loop invariant is carried forward
      without re-deriving `Credit`. */
  lemma CreditStep(m: map<Key, nat>, s: Stage, t: Tally, b: Bucket, before: map<Key, nat>, after: map<Key, nat>)
    requires Full(m) && before == Credit(m, s, t)
    requires after == before[Count(s, b) := before[Count(s, b)] + 1]
    ensures after == Credit(m, s, AddOne(t, b))
  {
    CreditAddOne(m, s, t, b);
  }

  /** `CreditTwice` in the form a method uses: the intermediate and final
      maps are named, as they are after two calls on the same box. */
  lemma CreditSum(m: map<Key, nat>, s: Stage, t1: Tally, t2: Tally, t: Tally, mid: map<Key, nat>, after: map<Key, nat>)
    requires mid == Credit(m, s, t1) && after == Credit(mid, s, t2)
    requires t == Tally(t1.direct + t2.direct, t1.typo + t2.typo, t1.combo + t2.combo, t1.fuzzy + t2.fuzzy)
    ensures after == Credit(m, s, t)
  {
    CreditTwice(m, s, t1, t2);
  }

  /** Two calls on the same stage add up. */
  lemma CreditTwice(m: map<Key, nat>, s: Stage, t1: Tally, t2: Tally)
    ensures Credit(Credit(m, s, t1), s, t2)
         == Credit(m, s, Tally(t1.direct + t2.direct, t1.typo + t2.typo, t1.combo + t2.combo, t1.fuzzy + t2.fuzzy))
  {
  }

  /** `all(v == 0 for k, v in result_box.items() if k != 'substring_match')`. */
  predicate NoStageHits(m: map<Key, nat>) {
    forall k :: k in m && k != SubstringMatch ==> m[k] == 0
  }

  predicate FallbackFires(m: map<Key, nat>, brand: string, text: string) {
    NoStageHits(m) && DropSpaces(brand) != "" && IsSubstring(DropSpaces(brand), DropSpaces(text))
  }

  /** `_check_substring_fallback`: only the flag may change, and it becomes 1
      exactly when no stage counted anything and the space-free brand occurs
      in the space-free text. */
  function Fallback(m: map<Key, nat>, brand: string, text: string): (r: map<Key, nat>)
    requires Full(m)
    ensures Full(r)
    ensures forall k :: k != SubstringMatch ==> r[k] == m[k]
    ensures r[SubstringMatch] == if FallbackFires(m, brand, text) then 1 else m[SubstringMatch]
  {
    if FallbackFires(m, brand, text) then m[SubstringMatch := 1] else m
  }

  /** Running the fallback a second time changes nothing. */
  lemma FallbackIdempotent(m: map<Key, nat>, brand: string, text: string)
    requires Full(m)
    ensures Fallback(Fallback(m, brand, text), brand, text) == Fallback(m, brand, text)
  {
    var r := Fallback(m, brand, text);
    if FallbackFires(m, brand, text) {
      assert NoStageHits(r);
      assert r[SubstringMatch := 1] == r;
    }
  }

  /** The box that `process_detection_*` and the fallback mutate in place. */
  class ResultBox {
    var counts: map<Key, nat>

    ghost predicate Valid()
      reads this
    {
      Full(counts)
    }

    constructor ()
      ensures Valid()
      ensures counts == EmptyBox()
    {
      counts := EmptyBox();
    }

    /** `result_box[key] += 1`. */
    method Increment(k: Key)
      requires Valid()
      modifies this
      ensures Valid()
      ensures counts == old(counts)[k := old(counts)[k] + 1]
    {
      counts := counts[k := counts[k] + 1];
    }

    /** `_check_substring_fallback(result_box, my_brand, original_text)`. */
    method CheckSubstringFallback(brand: string, text: string)
      requires Valid()
      modifies this
      ensures Valid()
      ensures counts == Fallback(old(counts), brand, text)
    {
      var allZero := forall k | k in counts && k != SubstringMatch :: counts[k] == 0;
      if allZero {
        var textNoSpace := DropSpaces(text);
        var brandNoSpace := DropSpaces(brand);
        if brandNoSpace != "" && IsSubstring(brandNoSpace, textNoSpace) {
          counts := counts[SubstringMatch := 1];
        }
      }
    }
  }
}
