/** `check_impersonation_one_word`, `check_impersonation_multiple_words` and
    `main`: the matcher runs on the raw tokens and then, while text is left,
    on three successively cleaned versions of what the previous stage left;
    the substring fallback runs once at the end. */
module Pipeline {
  import opened Text
  import opened Foreign
  import opened ResultBoxes
  import opened Normalize
  import opened OneWord
  import opened MultiWord

  /** Which matcher a check runs: the one-word matcher, or the multi-word
      matcher with the brand's word count. */
  datatype Matcher = Single | Multi(count: nat)

  predicate Usable(m: Matcher) {
    m.Multi? ==> m.count >= 1
  }

  /** `process_detection_oneword` or `process_detection_multiword`, as a value. */
  function Detect(m: Matcher, ts: seq<string>, brand: string, ops: Oracles): Outcome
    requires Usable(m)
  {
    match m
    case Single => DetectOneWord(ts, brand, ops)
    case Multi(k) => DetectMultiWord(ts, brand, k, ops)
  }

  /** The stage after `s`; `Special` is the last. */
  function Following(s: Stage): Stage
    requires s != Special
  {
    match s
    case Raw => Invisible
    case Invisible => Normalized
    case Normalized => Special
  }

  /** The position of a stage in the order raw, invisible, normalized, special. */
  function Rank(s: Stage): nat {
    match s
    case Raw => 0
    case Invisible => 1
    case Normalized => 2
    case Special => 3
  }

  /** The cleaning applied to the previous stage's text before stage `s`:
      each cleaner splits the string on whitespace first. */
  function Clean(s: Stage, text: string, translit: string -> string): seq<string>
    requires s != Raw
  {
    match s
    case Invisible => RemoveUnicodeTextPatterns(Split(text))
    case Normalized => NormalizeUnicodeText(Split(text), translit)
    case Special => RemoveSpecialCharacters(Split(text))
  }

  /** The matcher of a check as a function from tokens to outcomes. */
  function Detector(m: Matcher, brand: string, ops: Oracles): seq<string> -> Outcome
    requires Usable(m)
  {
    ts => Detect(m, ts, brand, ops)
  }

  /** The box after stage `s` and the stages after it, starting from `box`
      with the tokens `ts` for stage `s`: each stage adds the tally `detect`
      gives for its tokens to its own keys, and a stage that leaves the empty
      string ends the run. */
  function Stages(detect: seq<string> -> Outcome, translit: string -> string, box: map<Key, nat>, s: Stage, ts: seq<string>): (r: map<Key, nat>)
    requires Full(box)
    ensures Full(r)
    decreases 3 - Rank(s)
  {
    var o := detect(ts);
    var after := Credit(box, s, o.tally);
    if o.text == "" || s == Special then after
    else Stages(detect, translit, after, Following(s), Clean(Following(s), o.text, translit))
  }

  /** A check: the stages from an empty box on the raw tokens, then the
      fallback against the original text. */
  function Check(m: Matcher, brand: string, ts: seq<string>, original: string, ops: Oracles): map<Key, nat>
    requires Usable(m)
  {
    Fallback(Stages(Detector(m, brand, ops), ops.translit, EmptyBox(), Raw, ts), brand, original)
  }

  /** `main(my_brand, my_text)` as a value. */
  function Analysis(brand: string, text: string, ops: Oracles): map<Key, nat> {
    if IsBlank(brand) then EmptyBox()
    else
      var n := |Split(brand)|;
      BlankIffNoWords(brand);
      Check(if n == 1 then Single else Multi(n), brand, Split(text), text, ops)
  }

  /** The stages keep every key, never touch the substring flag, leave the
      keys of earlier stages alone, add exactly this stage's tally to its own
      keys, and only ever increase a count. */
  lemma {:induction false} StagesFrame(detect: seq<string> -> Outcome, translit: string -> string,
                                       box: map<Key, nat>, s: Stage, ts: seq<string>)
    requires Full(box)
    ensures var r := Stages(detect, translit, box, s, ts);
      && r[SubstringMatch] == box[SubstringMatch]
      && (forall k: Key :: k.Count? && Rank(k.stage) < Rank(s) ==> r[k] == box[k])
      && (forall b :: r[Count(s, b)] == box[Count(s, b)] + Amount(detect(ts).tally, b))
      && (forall k :: k in r ==> r[k] >= box[k])
    decreases 3 - Rank(s)
  {
    var o := detect(ts);
    var after := Credit(box, s, o.tally);
    if !(o.text == "" || s == Special) {
      var s' := Following(s);
      StagesFrame(detect, translit, after, s', Clean(s', o.text, translit));
    }
  }

  /** When a stage leaves no text, no later stage counts anything. */
  lemma StagesStop(detect: seq<string> -> Outcome, translit: string -> string, box: map<Key, nat>, s: Stage, ts: seq<string>)
    requires Full(box)
    requires detect(ts).text == ""
    ensures forall k: Key :: k.Count? && Rank(k.stage) > Rank(s) ==> Stages(detect, translit, box, s, ts)[k] == box[k]
  {
  }

  /** The raw stage of a check counts exactly the raw tokens' tally, and if
      it leaves no text every later stage reads zero. */
  lemma CheckRawStage(m: Matcher, brand: string, ts: seq<string>, original: string, ops: Oracles)
    requires Usable(m)
    ensures var r := Check(m, brand, ts, original, ops);
      var o := Detect(m, ts, brand, ops);
      && (forall b :: r[Count(Raw, b)] == Amount(o.tally, b))
      && (o.text == "" ==> forall k: Key :: k.Count? && k.stage != Raw ==> r[k] == 0)
  {
    var detect := Detector(m, brand, ops);
    RawStage(detect, ops.translit, ts, brand, original);
    if detect(ts).text == "" {
      RawStageStops(detect, ops.translit, ts, brand, original);
    }
    assert detect(ts) == Detect(m, ts, brand, ops);
  }

  lemma RawStage(detect: seq<string> -> Outcome, translit: string -> string, ts: seq<string>, brand: string, original: string)
    ensures var r := Fallback(Stages(detect, translit, EmptyBox(), Raw, ts), brand, original);
      forall b :: r[Count(Raw, b)] == Amount(detect(ts).tally, b)
  {
    StagesFrame(detect, translit, EmptyBox(), Raw, ts);
  }

  lemma RawStageStops(detect: seq<string> -> Outcome, translit: string -> string, ts: seq<string>, brand: string, original: string)
    requires detect(ts).text == ""
    ensures var r := Fallback(Stages(detect, translit, EmptyBox(), Raw, ts), brand, original);
      forall k: Key :: k.Count? && k.stage != Raw ==> r[k] == 0
  {
    StagesStop(detect, translit, EmptyBox(), Raw, ts);
    assert forall k: Key :: k.Count? && k.stage != Raw ==> Rank(k.stage) > Rank(Raw);
  }

  /** The substring flag of a check is set exactly when no stage counted
      anything and the brand, spaces removed, is non-empty and occurs in the
      original text with its spaces removed. */
  lemma CheckSubstringIff(m: Matcher, brand: string, ts: seq<string>, original: string, ops: Oracles)
    requires Usable(m)
    ensures var r := Check(m, brand, ts, original, ops);
      && r[SubstringMatch] <= 1
      && (r[SubstringMatch] == 1 <==>
            (forall k :: k in r && k != SubstringMatch ==> r[k] == 0)
            && DropSpaces(brand) != ""
            && IsSubstring(DropSpaces(brand), DropSpaces(original)))
  {
    var s := Stages(Detector(m, brand, ops), ops.translit, EmptyBox(), Raw, ts);
    StagesFrame(Detector(m, brand, ops), ops.translit, EmptyBox(), Raw, ts);
    var r := Fallback(s, brand, original);
    assert NoStageHits(s) <==> forall k :: k in r && k != SubstringMatch ==> r[k] == 0;
  }

  /** With a one-word brand, the raw stage counts at most one hit per token:
      its four counts and the tokens it leaves add up to the raw tokens. */
  lemma OneWordRawBudget(brand: string, ts: seq<string>, original: string, ops: Oracles)
    ensures var r := Check(Single, brand, ts, original, ops);
      r[Count(Raw, Direct)] + r[Count(Raw, Typo)] + r[Count(Raw, Combo)] + r[Count(Raw, Fuzzy)]
        + |DetectOneWord(ts, brand, ops).kept| == |ts|
  {
    var o := DetectOneWord(ts, brand, ops);
    var r := Check(Single, brand, ts, original, ops);
    assert forall b :: r[Count(Raw, b)] == Amount(o.tally, b) by {
      CheckRawStage(Single, brand, ts, original, ops);
      assert Detect(Single, ts, brand, ops) == o;
    }
    assert o.tally.direct + o.tally.typo + o.tally.combo + o.tally.fuzzy + |o.kept| == |ts| by {
      OneWordConservation(ts, brand, ops);
    }
    assert r[Count(Raw, Direct)] == o.tally.direct && r[Count(Raw, Typo)] == o.tally.typo;
    assert r[Count(Raw, Combo)] == o.tally.combo && r[Count(Raw, Fuzzy)] == o.tally.fuzzy;
  }

  /** A blank brand gives the empty box, and a brand with words picks the
      one-word check exactly when it has a single word. */
  lemma AnalysisDispatch(brand: string, text: string, ops: Oracles)
    ensures IsBlank(brand) ==> Analysis(brand, text, ops) == EmptyBox()
    ensures !IsBlank(brand) ==> |Split(brand)| >= 1
    ensures !IsBlank(brand) && |Split(brand)| == 1 ==>
      Analysis(brand, text, ops) == Check(Single, brand, Split(text), text, ops)
    ensures !IsBlank(brand) && |Split(brand)| >= 2 ==>
      Analysis(brand, text, ops) == Check(Multi(|Split(brand)|), brand, Split(text), text, ops)
  {
    BlankIffNoWords(brand);
  }

  /** One stage on the box: `process_detection_oneword` or
      `process_detection_multiword` with the stage's prefix. */
  method ProcessDetection(m: Matcher, ts: seq<string>, brand: string, ops: Oracles, box: ResultBox, stage: Stage)
    returns (text: string)
    requires Usable(m) && box.Valid()
    modifies box
    ensures box.Valid()
    ensures text == Detector(m, brand, ops)(ts).text
    ensures box.counts == Credit(old(box.counts), stage, Detector(m, brand, ops)(ts).tally)
  {
    assert Detector(m, brand, ops)(ts) == Detect(m, ts, brand, ops);
    match m
    case Single =>
      text := ProcessDetectionOneWord(ts, brand, ops, box, stage);
    case Multi(k) =>
      text := ProcessDetectionMultiWord(ts, brand, k, ops, box, stage);
  }

  /** The four stages and the fallback on a fresh box, shared by both checks. */
  method RunStages(m: Matcher, brand: string, ts: seq<string>, original: string, ops: Oracles) returns (box: ResultBox)
    requires Usable(m)
    ensures fresh(box) && box.Valid()
    ensures box.counts == Check(m, brand, ts, original, ops)
  {
    ghost var detect := Detector(m, brand, ops);
    box := new ResultBox();
    ghost var goal := Stages(detect, ops.translit, box.counts, Raw, ts);
    assert Check(m, brand, ts, original, ops) == Fallback(goal, brand, original);
    var textAfterRaw := RunStage(m, brand, ops, box, Raw, ts, detect, goal);
    if textAfterRaw == "" {
      box.CheckSubstringFallback(brand, original);
      return;
    }
    var textClean := RemoveUnicodeTextPatterns(Split(textAfterRaw));
    var textAfterInvisible := RunStage(m, brand, ops, box, Invisible, textClean, detect, goal);
    if textAfterInvisible == "" {
      box.CheckSubstringFallback(brand, original);
      return;
    }
    var textNormalized := NormalizeUnicodeText(Split(textAfterInvisible), ops.translit);
    var textAfterNormalized := RunStage(m, brand, ops, box, Normalized, textNormalized, detect, goal);
    if textAfterNormalized == "" {
      box.CheckSubstringFallback(brand, original);
      return;
    }
    var textSpecial := RemoveSpecialCharacters(Split(textAfterNormalized));
    var _ := RunStage(m, brand, ops, box, Special, textSpecial, detect, goal);
    box.CheckSubstringFallback(brand, original);
  }

  /** One stage of a check on the box, on the way to the box `goal` the
      stages end with: afterwards either `goal` is reached or the next stage
      on the cleaned text still leads to it. */
  method RunStage(m: Matcher, brand: string, ops: Oracles, box: ResultBox, stage: Stage, ts: seq<string>,
                  ghost detect: seq<string> -> Outcome, ghost goal: map<Key, nat>)
    returns (text: string)
    requires Usable(m) && box.Valid() && detect == Detector(m, brand, ops)
    requires goal == Stages(detect, ops.translit, box.counts, stage, ts)
    modifies box
    ensures box.Valid()
    ensures text == "" || stage == Special ==> goal == box.counts
    ensures text != "" && stage != Special ==>
      goal == Stages(detect, ops.translit, box.counts, Following(stage), Clean(Following(stage), text, ops.translit))
  {
    ghost var before := box.counts;
    text := ProcessDetection(m, ts, brand, ops, box, stage);
    StageDone(detect, ops.translit, goal, before, stage, ts, detect(ts), box.counts);
  }

  /** One stage of the run towards the final box `goal`: it adds the
      outcome's tally, after which either `goal` is reached or the next
      stage, on the cleaned text, still leads to it. */
  lemma StageDone(detect: seq<string> -> Outcome, translit: string -> string, goal: map<Key, nat>,
                  box: map<Key, nat>, s: Stage, ts: seq<string>, o: Outcome, after: map<Key, nat>)
    requires Full(box) && goal == Stages(detect, translit, box, s, ts)
    requires o == detect(ts) && after == Credit(box, s, o.tally)
    ensures Full(after)
    ensures o.text == "" || s == Special ==> goal == after
    ensures o.text != "" && s != Special ==> goal == Stages(detect, translit, after, Following(s), Clean(Following(s), o.text, translit))
  {
  }

  /** `check_impersonation_one_word(my_brand, text_split_, original_text)`. */
  method CheckImpersonationOneWord(brand: string, ts: seq<string>, original: string, ops: Oracles)
    returns (box: ResultBox)
    ensures fresh(box) && box.Valid()
    ensures box.counts == Check(Single, brand, ts, original, ops)
  {
    box := RunStages(Single, brand, ts, original, ops);
  }

  /** `check_impersonation_multiple_words(my_brand, brand_count,
      text_split_, original_text)`. */
  method CheckImpersonationMultipleWords(brand: string, count: nat, ts: seq<string>, original: string, ops: Oracles)
    returns (box: ResultBox)
    requires count >= 1
    ensures fresh(box) && box.Valid()
    ensures box.counts == Check(Multi(count), brand, ts, original, ops)
  {
    box := RunStages(Multi(count), brand, ts, original, ops);
  }

  /** `main(my_brand, my_text)`: a blank brand gives a fresh empty box; a
      one-word brand the one-word check, any other the multi-word check
      with its word count, both on the whitespace-split text. */
  method Analyze(brand: string, text: string, ops: Oracles) returns (box: ResultBox)
    ensures fresh(box) && box.Valid()
    ensures box.counts == Analysis(brand, text, ops)
  {
    if IsBlank(brand) {
      box := new ResultBox();
      return;
    }
    var brandWords := Split(brand);
    var brandCount := |brandWords|;
    var textSplit := Split(text);
    if brandCount == 1 {
      box := CheckImpersonationOneWord(brand, textSplit, text, ops);
    } else {
      BlankIffNoWords(brand);
      box := CheckImpersonationMultipleWords(brand, brandCount, textSplit, text, ops);
    }
  }
}
