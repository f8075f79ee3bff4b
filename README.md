# Brand-impersonation scoring, modelled in Dafny

This project models the scorer in `impersonation_analysis.py`. The scorer
decides how a brand name is disguised inside a text and counts what it finds
in a result box. The box has seventeen keys:

- one count per pair of stage and match kind. The stages are `raw_`,
  `invisible_`, `normalized_` and `special_`. The kinds are `direct`,
  `typo`, `combo` and `fuzzy`;
- the flag `substring_match`.

The model has these parts:

- **Text** — the Python built-ins the scorer uses, with their real edge
  cases:
  - `str.split()` and `' '.join`;
  - ASCII `lower()` and `upper()`;
  - `str.replace`;
  - the `in` substring test;
  - list comprehensions that drop marked positions.
- **Normalize** — the three token cleaners that run between stages:
  - invisible-marker stripping;
  - transliteration;
  - special-character stripping.
- **Segmentation** — the two trace builders. Each records, for every
  sub-token the segmenter produces, the index of the token it came from.
  The multi-word builder also records a child index and a child-to-parent
  map.
- **ResultBoxes** — the box, modelled as a `class ResultBox`. Its field
  `counts: map<Key, nat>` is updated in place by `Increment` and by the
  substring fallback. The pure function `Credit` adds one stage's tally.
  `Fallback` is the fallback as a function on the map.
- **OneWord** and **MultiWord** — the two matchers,
  `process_detection_oneword` and `process_detection_multiword`:
  - Each is an imperative method with the source's loops.
  - Each is proved against a pure specification function, `DetectOneWord`
    or `DetectMultiWord`. The method adds exactly that function's tally to
    its stage, and returns that function's leftover text.
  - The lemmas about the specification functions state what the matcher
    promises:
    - conservation of tokens;
    - which tokens are consumed;
    - non-overlapping windows;
    - the boundary rule for labels.
- **Pipeline** — the two checks and `main`:
  - four stages, each of which runs while text is left;
  - cleaning between stages;
  - the single substring fallback at the end.

  The staged run is the function `Stages`. The methods are proved to build
  exactly the box that `Check` and `Analysis` describe.
- **Scenarios** — worked cases of the multi-word labelling rule for the
  brand `capital one`. Each case holds for any distance function and
  segmenter that behave as its preconditions state.

The three libraries are passed in through `Foreign.Oracles`. They are
`DamerauLevenshtein.distance`, `wordninja.split` and `unidecode`. Each is a
total function parameter, so every property holds whatever they compute.

Behaviours of the code worth noting, which the model keeps:

- Invisible-marker stripping keeps the tokens that become empty. Only
  transliteration and special-character stripping drop them. An empty token
  then disappears when the stage's leftover is joined and split again.
- The fallback removes only the space character, not all whitespace.
- `main` does not lower-case the brand.
- The fused token `capitalone`, matched against `capital one`, is labelled
  `typo`, not `combo`. The segmenter splits it into exactly the brand's two
  words, so the window covers every sub-token, and the code labels such a
  window `typo` before it looks at boundaries
  (`Scenarios.FusedBrandAloneIsTypo`).

## Model

| member | source | states |
|---|---|---|
| Text.Split | impersonation_analysis.py:321 | `str.split()`: the maximal whitespace-free runs of the string, in order; every element is non-empty and free of whitespace |
| Text.Join | impersonation_analysis.py:128 | `' '.join`: the tokens with one space between neighbours (a definition, proved about by `SplitJoin`) |
| Text.SplitJoin | impersonation_analysis.py:12-13 | for tokens that are non-empty and free of whitespace, such as the raw tokens, splitting their space-joined string gives them back; empty tokens and tokens holding whitespace are not covered |
| Text.BlankIffNoWords | impersonation_analysis.py:316-320 | a brand is empty or all whitespace exactly when `split()` gives no words |
| Text.DropSpaces | impersonation_analysis.py:77-78 | `replace(' ', '')` leaves no space, never lengthens, and a string without spaces is unchanged |
| Text.DropSpacesAppend | impersonation_analysis.py:77-78 | removing spaces from a concatenation removes them from each half; with `DropSpacesChar` this fixes the result character by character |
| Text.DropSpacesChar | impersonation_analysis.py:77-78 | a space is deleted and any other character is kept |
| Text.RemoveAll | impersonation_analysis.py:21 | `str.replace(p, '')`: deletes the non-overlapping occurrences of `p` found left to right, without rescanning; never lengthens |
| Text.IsSubstring | impersonation_analysis.py:79 | Python's `p in s`: `p` starts at some position of `s` |
| Text.UnmarkedLength | impersonation_analysis.py:127 | dropping the marked positions shortens the list by exactly the number of marks |
| Text.UnmarkedMembers | impersonation_analysis.py:272 | every kept token is an input token, and with no marks the list is unchanged |
| Normalize.StripPatterns | impersonation_analysis.py:19-21 | the inner loop: for each pattern in list order, delete its lower-case marker, then its upper-case marker; never lengthens |
| Normalize.RemoveUnicodeTextPatterns | impersonation_analysis.py:11-23 | one output token per input token, none longer, and a token containing no listed marker in either case is only lower-cased |
| Normalize.PatternsAreHex | impersonation_analysis.py:17 | the nine patterns are four characters without `<`, and stripping leaves a token with no listed marker unchanged |
| Normalize.RemoveAllAbsent | impersonation_analysis.py:21 | `replace` changes nothing when the text does not occur |
| Normalize.StripPatternsAbsent | impersonation_analysis.py:20-21 | the inner loop changes nothing when no marker of the patterns occurs |
| Normalize.RemoveAllText | impersonation_analysis.py:21 | `replace` of a `<`-marker passes over a run without `<`, whatever follows it |
| Normalize.RemoveAllPiece | impersonation_analysis.py:21 | a piece at the front is deleted whole when it is the marker and kept whole otherwise, whatever follows it |
| Normalize.StripPatternPiece | impersonation_analysis.py:21 | the same for one pattern's lower- and upper-case markers |
| Normalize.StripPatternsPiece | impersonation_analysis.py:20-21 | the same for the whole pattern list: the front piece is deleted exactly when it is a listed marker |
| Normalize.StripPatternsPieces | impersonation_analysis.py:19-21 | over a token made of runs without `<` and marker-shaped pieces, stripping deletes exactly the listed marker pieces and keeps every other piece, in order |
| Normalize.StripsMarkers | impersonation_analysis.py:19-22 | for a token of any number of such pieces, the output token is the lower-cased concatenation of the pieces that are not listed markers |
| Normalize.TwoMarkersStripped | impersonation_analysis.py:19-22 | `Bank<200b>of<200b>America` becomes `BankofAmerica` lower-cased: both zero-width markers are deleted |
| Normalize.ListedShaped | impersonation_analysis.py:17-21 | each of the eighteen markers the loop deletes, lower- or upper-case, is a `<`, four characters without `<`, and a `>` |
| Normalize.MarkerOnlyTokenKept | impersonation_analysis.py:19-22 | a token that is only a listed marker, in either case, becomes the empty token and is not dropped |
| Normalize.NormalizeUnicodeText | impersonation_analysis.py:26-38 | never lengthens the list, and no output token is empty |
| Normalize.NormalizeDropsExactlyEmpty | impersonation_analysis.py:33-37 | drops exactly the tokens whose transliteration is empty, keeps the order, and lower-cases the transliterations |
| Normalize.KeepAlnum | impersonation_analysis.py:50 | keeps only ASCII letters and digits, and leaves a string made only of those unchanged |
| Normalize.RemoveSpecialCharacters | impersonation_analysis.py:41-53 | never lengthens the list, and every output token is non-empty lower-case letters and digits |
| Normalize.KeepAlnumAppend | impersonation_analysis.py:50 | the regex works on each half of a concatenation separately; with `KeepAlnumChar` this fixes the result character by character |
| Normalize.KeepAlnumChar | impersonation_analysis.py:50 | an ASCII letter or digit is kept and any other character is deleted |
| Normalize.RemoveSpecialDropsExactlyEmpty | impersonation_analysis.py:48-52 | the output is, in order, the lower-cased letters and digits of exactly the tokens that have some; its length is the input's minus the tokens dropped |
| Normalize.RemoveSpecialKeepsClean | impersonation_analysis.py:48-52 | tokens that are already clean pass through unchanged |
| Normalize.RemoveSpecialIdempotent | impersonation_analysis.py:41-53 | stripping special characters twice equals stripping once |
| Segmentation.TraceOneWord | impersonation_analysis.py:85-91 | every entry names a valid source index and that index's token, and source indices never decrease along the trace |
| Segmentation.TraceOneWordBlocks | impersonation_analysis.py:85-91 | the sub-tokens recorded for each source index are exactly that token's segmentation, in order |
| Segmentation.SubsOfMembers | impersonation_analysis.py:89-90 | a sub-token is listed for an index exactly when some entry carries it with that index |
| Segmentation.ParentEntries | impersonation_analysis.py:172-175 | one token's children occupy consecutive child indices, each mapped to that token |
| Segmentation.TraceMultiWord | impersonation_analysis.py:165-177 | children are numbered 0..n-1 along the trace; the parent map has exactly those keys and maps each to a valid source index whose token the entry carries; parents never decrease |
| Segmentation.TracesAgree | impersonation_analysis.py:165-177 | the multi-word trace is the one-word trace with the child index added |
| ResultBoxes.KeyNameRoundTrip | impersonation_analysis.py:64-71 | every key's `prefix + label` name reads back as that key |
| ResultBoxes.KeyNamesDistinct | impersonation_analysis.py:64-71 | no two keys share a name |
| ResultBoxes.StageKeysExactly | impersonation_analysis.py:66-69 | each stage has exactly four keys, one per kind |
| ResultBoxes.AllKeysSize | impersonation_analysis.py:64-71 | the box has seventeen keys |
| ResultBoxes.AllKeysComplete | impersonation_analysis.py:64-71 | every key is one of the seventeen |
| ResultBoxes.EmptyBox | impersonation_analysis.py:64-71 | the fresh box holds all seventeen keys, each zero |
| ResultBoxes.Credit | impersonation_analysis.py:102-104 | adding a stage's tally keeps every key, changes only that stage's four counts, and adds each bucket's amount |
| ResultBoxes.CreditAddOne | impersonation_analysis.py:102 | one `+= 1` on a stage key is one more in that stage's tally |
| ResultBoxes.CreditStep | impersonation_analysis.py:121 | the same step, stated from the maps before and after the increment |
| ResultBoxes.CreditTwice | impersonation_analysis.py:98-125 | the counts of step 1 and step 2 on one stage add up |
| ResultBoxes.CreditSum | impersonation_analysis.py:98-125 | the same sum, stated from the intermediate and final maps |
| ResultBoxes.Fallback | impersonation_analysis.py:74-80 | only the flag may change; it becomes 1 exactly when every count is zero and the space-free brand is non-empty and occurs in the space-free text; otherwise it is unchanged |
| ResultBoxes.FallbackIdempotent | impersonation_analysis.py:74-80 | running the fallback twice equals running it once |
| ResultBoxes.ResultBox.constructor | impersonation_analysis.py:64-71 | a new box is the empty box |
| ResultBoxes.ResultBox.Increment | impersonation_analysis.py:102 | `result_box[key] += 1`: that key grows by one and nothing else changes |
| ResultBoxes.ResultBox.CheckSubstringFallback | impersonation_analysis.py:74-80 | the box becomes `Fallback` of the old box |
| OneWord.Carried | impersonation_analysis.py:98-106 | the tokens at distance 2 or more, in input order (a definition, proved about by `CarriedMembers`) |
| OneWord.RetryPass | impersonation_analysis.py:113-125 | step 2 as a value: along the trace, a sub-token of a not-yet-removed source counts combo at distance 0 or fuzzy at distance 1 or 2 and removes the source |
| OneWord.DetectOneWord | impersonation_analysis.py:94-128 | the one-word matcher as a value: step 1's counts, then step 2 on the carried tokens if any, and the unremoved carried tokens joined |
| OneWord.FirstPassPartition | impersonation_analysis.py:98-106 | every token lands in exactly one place: the direct count, the typo count, or the carried list |
| OneWord.CarriedMembers | impersonation_analysis.py:105-106 | the carried tokens are exactly the tokens at distance 2 or more |
| OneWord.RetryPassCounts | impersonation_analysis.py:113-125 | combo plus fuzzy equals the number of removed source tokens, so each source token counts at most once |
| OneWord.RetryPassRemoved | impersonation_analysis.py:114-125 | a source index is removed when, and only when, one of its trace entries is within distance 2 |
| OneWord.RetryRemovesConsumed | impersonation_analysis.py:111-125 | over the real trace, step 2 removes exactly the tokens with a sub-token within distance 2 |
| OneWord.RemovedIffConsumed | impersonation_analysis.py:111-125 | the same, for one index |
| OneWord.OneWordConservation | impersonation_analysis.py:94-128 | the four counts plus the leftover tokens equal the input size; the leftovers are the unconsumed step-1 misses, in order; the text is them joined; every leftover is an input token at distance 2 or more |
| OneWord.ProcessDetectionOneWord | impersonation_analysis.py:94-128 | the method adds exactly `DetectOneWord`'s tally to its stage and returns its text |
| OneWord.DetectNoneCarried | impersonation_analysis.py:108-109 | when step 1 carries nothing, only step 1 counts, and the result is empty |
| OneWord.DetectSomeCarried | impersonation_analysis.py:111-128 | when step 1 carries tokens, step 2 adds its combo and fuzzy counts, and the unremoved carried tokens are kept |
| OneWord.ClassifyTokens | impersonation_analysis.py:96-106 | the loop returns exactly the carried tokens and adds the direct and typo counts of every token |
| OneWord.ClassifyToken | impersonation_analysis.py:99-106 | one token extends both the carried list and the tally |
| OneWord.ClassifyStep | impersonation_analysis.py:101-106 | a token at distance 0 adds one direct, at distance 1 one typo, and any other is carried |
| OneWord.RetrySubTokens | impersonation_analysis.py:113-125 | the loop returns exactly `RetryPass`'s removed set and adds its combo and fuzzy counts |
| OneWord.RetryPiece | impersonation_analysis.py:114-125 | one trace entry extends the removed set and the tally, with removed tokens skipped |
| OneWord.RetryStep | impersonation_analysis.py:115-125 | a removed source is skipped; distance 0 adds a combo, distance 1 or 2 a fuzzy; either removes the source |
| MultiWord.GetWord | impersonation_analysis.py:60-61 | the slice from `first` to `last`, space-joined |
| MultiWord.GetWordSplits | impersonation_analysis.py:60-61 | a window of words, joined, splits back into the same words |
| MultiWord.Repeat | impersonation_analysis.py:182 | `[v] * n` has length n and every entry v |
| MultiWord.WindowPass | impersonation_analysis.py:185-204 | pass 1 as a value from `index`: its direct and typo counts and `remove_token` from `index` on |
| MultiWord.WindowPassAccepts | impersonation_analysis.py:193-202 | a window at distance 0 counts one direct and one at distance 1 one typo; either way it flags its k tokens and jumps past them |
| MultiWord.WindowPassRejects | impersonation_analysis.py:203-204 | a window at distance 2 or more leaves its first token unflagged and moves on by one |
| MultiWord.WindowPassFlags | impersonation_analysis.py:185-204 | accepted windows never overlap: exactly k tokens are flagged per accepted window |
| MultiWord.UnflaggedLength | impersonation_analysis.py:206 | the kept list is the input minus the flagged tokens |
| MultiWord.LeftoverLength | impersonation_analysis.py:182-206 | pass 1 removes exactly k tokens per direct or typo match |
| MultiWord.IsBoundaryShared | impersonation_analysis.py:237-255 | the three-case test is true exactly when the child before the window, or the child after it, has the same parent as the window's edge child |
| MultiWord.WindowLabel | impersonation_analysis.py:234-260 | the label of an accepted window: typo when it covers every child, otherwise combo or fuzzy by distance when a boundary is shared, else typo |
| MultiWord.WindowLabelCases | impersonation_analysis.py:234-260 | a label is never direct; a window covering every child is typo; combo means distance 0 with a shared boundary; fuzzy means another distance with a shared boundary |
| MultiWord.Parents | impersonation_analysis.py:264-266 | the set holds exactly the parents of the claimed children |
| MultiWord.ChildPass | impersonation_analysis.py:222-270 | pass 2 as a value from `index`: label counts, claimed children and removed sources |
| MultiWord.ChildPassAccepts | impersonation_analysis.py:230-268 | an accepted window adds one label and claims its k children and their parents, then the scan resumes after the window |
| MultiWord.ChildPassRejects | impersonation_analysis.py:269-270 | a window at distance over 2 moves the scan on by one |
| MultiWord.ChildPassBounds | impersonation_analysis.py:222-270 | claimed children lie within the sub-token list |
| MultiWord.ChildPassParents | impersonation_analysis.py:264-266 | the removed source tokens are exactly the parents of the claimed children |
| MultiWord.ChildPassRemovesIffLabels | impersonation_analysis.py:222-272 | pass 2 removes some source token exactly when it labels some window |
| MultiWord.DetectMultiWord | impersonation_analysis.py:181-273 | the multi-word matcher as a value: pass 1, then pass 2 on the leftover when it is non-empty and segments into at least k sub-tokens |
| MultiWord.PassTwoKeeps | impersonation_analysis.py:272-273 | the kept tokens come from pass 1's leftover, and all of it is kept exactly when pass 2 labels nothing |
| MultiWord.MultiWordKeeps | impersonation_analysis.py:181-273 | the returned text is the kept tokens joined, and every kept token is a pass-1 leftover |
| MultiWord.MultiWordKeepsAllIffNoLabels | impersonation_analysis.py:206-273 | the matcher keeps all of pass 1's leftover exactly when it adds no typo, combo or fuzzy in pass 2 |
| MultiWord.ProcessDetectionMultiWord | impersonation_analysis.py:181-273 | the method adds exactly `DetectMultiWord`'s tally to its stage and returns its text |
| MultiWord.DetectEmptyLeftover | impersonation_analysis.py:208-209 | when pass 1 leaves no token, only pass 1 counts and the text is empty |
| MultiWord.DetectShortSegmentation | impersonation_analysis.py:214-215 | when the leftover has fewer than k sub-tokens, pass 2 is skipped and the whole leftover is returned |
| MultiWord.DetectBothPasses | impersonation_analysis.py:217-273 | otherwise pass 2's labels are added and its removed sources are dropped |
| MultiWord.FlagWindows | impersonation_analysis.py:182-206 | the pass-1 loop returns exactly the leftover and adds pass 1's direct and typo counts |
| MultiWord.ScanWindow | impersonation_analysis.py:186-204 | one turn of the pass-1 loop keeps the loop's equation with the whole pass |
| MultiWord.ResumeStarts | impersonation_analysis.py:182-183 | the loop starts from no flags and no counts |
| MultiWord.ResumeAccepts | impersonation_analysis.py:193-202 | flagging a matched window and counting it keeps the loop's equation |
| MultiWord.ResumeRejects | impersonation_analysis.py:203-204 | moving past a rejected window keeps the loop's equation |
| MultiWord.ResumeEnds | impersonation_analysis.py:185 | once no window fits, the state is the pass's result |
| MultiWord.KeepUnflagged | impersonation_analysis.py:206 | the comprehension keeps exactly the unflagged tokens |
| MultiWord.ClaimTokens | impersonation_analysis.py:195-196 | the flags of the window become true and no other flag changes |
| MultiWord.LabelWindows | impersonation_analysis.py:217-270 | the pass-2 loop returns exactly `ChildPass`'s removed sources and adds its labels |
| MultiWord.LabelWindow | impersonation_analysis.py:223-268 | one turn of the pass-2 loop keeps the loop's equation with the whole pass |
| MultiWord.ClaimChildren | impersonation_analysis.py:264-266 | the window's children join `remove_child`, and their parents join `remove_orig` |
| MultiWord.ResumeLabelsStarts | impersonation_analysis.py:217-221 | pass 2 starts with nothing claimed and nothing counted |
| MultiWord.ResumeLabelsAccepts | impersonation_analysis.py:230-268 | labelling and claiming a window keeps the loop's equation |
| MultiWord.ResumeLabelsRejects | impersonation_analysis.py:269-270 | moving past a rejected window keeps the loop's equation |
| MultiWord.ResumeLabelsEnds | impersonation_analysis.py:222 | once no window fits, the state is the pass's result |
| Pipeline.Clean | impersonation_analysis.py:142-156 | the cleaner before a stage, applied to the split leftover text: invisible markers, transliteration or special characters |
| Pipeline.Stages | impersonation_analysis.py:136-157 | the staged run: credit this stage's tally, then stop if its text is empty or it was the last stage, else clean the text and run the next stage |
| Pipeline.Check | impersonation_analysis.py:131-161 | a check as a value: the staged run on the empty box from the raw stage, then the fallback on the original text |
| Pipeline.Analysis | impersonation_analysis.py:315-326 | `main` as a value: the empty box for a blank brand, else the check chosen by the brand's word count on the split text |
| Pipeline.StagesFrame | impersonation_analysis.py:131-161 | the stages keep every key; they never touch the flag; earlier stages are left alone; a stage adds exactly its own tally; counts only grow |
| Pipeline.StagesStop | impersonation_analysis.py:138-140 | a stage that leaves no text stops the run: no later stage counts anything |
| Pipeline.CheckRawStage | impersonation_analysis.py:134-140 | the raw counts of a check are exactly the matcher's tally on the raw tokens, and an empty raw result leaves every later stage at zero |
| Pipeline.RawStage | impersonation_analysis.py:136 | the raw counts are the tally of the first call |
| Pipeline.RawStageStops | impersonation_analysis.py:138-140 | an empty raw result leaves every non-raw count at zero |
| Pipeline.CheckSubstringIff | impersonation_analysis.py:159 | the flag is 0 or 1, and it is 1 exactly when no stage counted anything and the space-free brand is non-empty and occurs in the space-free original text |
| Pipeline.OneWordRawBudget | impersonation_analysis.py:136 | with a one-word brand, the raw counts plus the leftover tokens equal the number of raw tokens |
| Pipeline.AnalysisDispatch | impersonation_analysis.py:315-326 | a blank brand gives the empty box; a one-word brand runs the one-word check; a longer brand runs the multi-word check with its word count |
| Pipeline.ProcessDetection | impersonation_analysis.py:136 | one stage adds exactly the chosen matcher's tally and returns its text |
| Pipeline.RunStages | impersonation_analysis.py:131-161 | a fresh box ends exactly as `Check` describes |
| Pipeline.RunStage | impersonation_analysis.py:143-147 | after one stage, either the final box is reached or the next stage on the cleaned text still leads to it |
| Pipeline.StageDone | impersonation_analysis.py:149-157 | the same step on maps: the stage's credit; then a stop, or the next stage |
| Pipeline.CheckImpersonationOneWord | impersonation_analysis.py:131-161 | returns a fresh box equal to `Check` with the one-word matcher |
| Pipeline.CheckImpersonationMultipleWords | impersonation_analysis.py:277-310 | returns a fresh box equal to `Check` with the multi-word matcher and the given word count |
| Pipeline.Analyze | impersonation_analysis.py:315-326 | returns a fresh box equal to `Analysis` of the brand and text |
| Scenarios.JoinTwo | impersonation_analysis.py:61 | joining two words puts one space between them |
| Scenarios.ShortInputLeftover | impersonation_analysis.py:185 | with fewer tokens than brand words, pass 1 finds nothing and leaves every token |
| Scenarios.UnflaggedNone | impersonation_analysis.py:206 | with no flags, every token is kept |
| Scenarios.SingleTokenTrace | impersonation_analysis.py:165-177 | one token's trace is its segmentation, with every child mapped to source 0 |
| Scenarios.OnlyTokenRemoved | impersonation_analysis.py:272 | removing the only source token leaves nothing |
| Scenarios.WholeTokenWindow | impersonation_analysis.py:234-235 | a window covering both children of one token is labelled typo |
| Scenarios.FusedBrandAloneIsTypo | impersonation_analysis.py:181-273 | on `capitalone` split as `capital`, `one`, the matcher counts one typo, no combo, and leaves nothing |
| Scenarios.SharedBoundaryWindow | impersonation_analysis.py:243-258 | a matching window at the end of three children of one token shares its first child's parent with the child before it, so it is labelled combo |
| Scenarios.FusedBrandWithPrefixIsCombo | impersonation_analysis.py:181-273 | on `xcapitalone` split as `x`, `capital`, `one`, the matcher counts one combo and leaves nothing |
| Scenarios.SeparateWordsAreDirect | impersonation_analysis.py:185-206 | `capital one` as two tokens is one direct match in pass 1; both tokens are consumed and pass 2 does not run |

## Left out

- `extract_contents_forwarded_as_attachements.py` and `prompt_example.py` are not part of this model. They are mail extraction and prompting code outside the scorer.
- The internals of `DamerauLevenshtein.distance`, `wordninja.split` and `unidecode` are not part of this model. They are parameters, so nothing is assumed of them beyond being total. In particular, the segmenter may return any list, the empty one included.
- Characters are ASCII only:
  - `lower()`, `upper()` and the whitespace test of `split()`/`strip()` use the ASCII rules. These include the separators 0x1C-0x1F.
  - Python's Unicode case mapping and Unicode whitespace are not modelled.
- The demonstration block under `if __name__ == "__main__"` is left out because it only prints. So are the unused `csv` and `json` imports and the `field_size_limit` call.
- `get_distance_levenshtein_typosquatting` is not a member of its own. It only forwards to the library, so the model calls `Oracles.dist` in its place.
- The `isinstance(text_list, str)` dispatch of the three cleaners is not modelled as a branch. The scorer always passes them a string. The model splits that string first (`Pipeline.Clean`, and the calls in `Pipeline.RunStages`), then applies the cleaner to the token list.
- `.copy()` of the raw token list is left out. Token lists are Dafny values, so no caller can see a matcher's changes to them.
- `remove_token` is a `seq<bool>` value, reassigned by `MultiWord.ClaimTokens`, not a mutable list. Only the result box is an object updated in place.
- MultiWord.ProcessDetectionMultiWord: requires a word count of at least 1. With a count of 0 the window is the empty string. An accepted window then moves the index by 0, so pass 1 never ends whenever `dist(brand, '')` is at most 1. Pass 2 runs only after pass 1 has ended with a non-empty leftover, so there `dist(brand, '')` is at least 2, and the window is accepted only when it is exactly 2. Then, if there is at least one sub-token, the window at index 0 has a last index of -1, and the boundary test reads the child-to-parent map at -1 (line 241), which raises `KeyError`. Only when there are no sub-tokens does the `typo` branch leave the index at 0, so the loop never ends. `main` only calls it with a count of 2 or more.
- Pipeline.CheckImpersonationMultipleWords: requires a word count of at least 1, for the same reason.
- Normalize.StripsMarkers: covers tokens in which every `<` is followed by at least five characters other than `<`, which is every token that splits into runs without `<` and marker-shaped pieces. A token such as `<<200b>` or one ending in `<20` is not covered, because it does not split into such pieces. Among the tokens left out are those in which one deletion joins two pieces into a new marker, such as `<20<200b>0b>`: deleting the inner `<200b>` leaves `<200b>`, and the source does not rescan for it.
- `ClassifyToken`, `RetryPiece`, `ScanWindow`, `LabelWindow`, `ClaimChildren` and `KeepUnflagged` are loop bodies and comprehensions of the source, written as separate methods. They are not functions of the source.
