# RoyalRefresh, modelled in Dafny

RoyalRefresh is a browser extension for Royal Road chapter pages. When a
reader opens a chapter, it fetches the previous chapter and shows a recap
above the new one: the fiction title, the previous chapter's name, a
"Showing last ~N words" caption, and the last N words of the previous
chapter with its paragraph markup kept. It can also fetch the story's
overview page and show the blurb. Fetched chapter HTML is cached for thirty
minutes. A change of the word budget is served from the cache without a new
fetch.

This project models the core of that extension and proves properties of the
model:

- **words.dfy (`Words`)**: JavaScript's `trim()`, `split(/\s+/)`,
  `join(" ")`, `slice` and integer-to-string, on `seq<char>`. Blank text
  splits into `[""]`, so it counts as one word, as in JavaScript.
- **dom.dfy (`Dom`)**: nodes (`Text`, `Element`, `Other`), `textContent`,
  `querySelectorAll("p")`, attributes and `href`. A parsed document is the
  table of what each configured selector matches.
- **walk.dfy (`ParagraphWalk`)**: the reverse paragraph walk shared by every
  version of `extractChapterContent`. It is written once, generically, for
  any way of counting words and any way of cutting the boundary paragraph.
  - `WalkLoop` is the loop over a sequence.
  - `WalkLoopInPlace` is the loop over an array that writes the cut back.
  - Both are proved against the specification functions `WalkSelect` and
    `WalkInPlace`.
- **truncator.dfy (`Truncator`)**: `buildContentFromWords` as the function
  `Rebuild`. `BuildContentFromWords` and `BuildChildren` follow the source's
  recursion and children loop and are proved to compute `Rebuild`. The walk
  with `Rebuild` as its cut is the selection of `extractChapterContent`.
- **processor.dfy (`Processor`)**: `ContentProcessor` of
  `src/lib/services/content-processor.ts`. `createRecap` and `createBlurb`
  return `Ok(fragment)` or the first error, in the source's order.
- **legacy_content.dfy (`LegacyContent`)**: the older helpers of
  `src/lib/content-utils.ts`, which never fail but show fallback texts. The
  same code is copied in `src/lib/content-helpers.ts` and
  `src/scripts/content.ts`. The blurb clean-up removes inputs and labels.
- **in_place.dfy (`InPlace`)**: the first truncator of
  `scripts/royalrecap.js`. It mutates the boundary paragraph in place and
  flattens it to text.
- **flat_recap.dfy (`FlatRecap`)**: the original `royalrecap.js`, which keeps
  the flat "last N words" of an element's text.
- **urls.dfy (`Urls`)**: the page checks. These are the chapter-URL test, the
  previous-chapter-link test and the recap-container test.
- **cache.dfy (`Cache`)**: the TTL cache, as a class over a
  `map<string, Entry>`, with the clock as an explicit `now` argument.
- **manager.dfy (`Manager`)**: the content manager.
  - The network is a function from URL to response.
  - A ghost log `fetched` records every URL fetched, which makes "no fetch on
    a cache hit or a refresh" provable.
- **recap_state.dfy (`RecapState`)**: the recap panel's state machine, as a
  class whose methods are proved against step functions.
- **migrations.dfy (`Migrations`)**: the v1 to v2 settings migration.
- **dev_android.dfy (`DevAndroid`)**: the Android launcher's argument
  handling.
- **wrappers.dfy (`Wrappers`)**: `Option` and `Result`.

Behaviours of the code that the model keeps on purpose:

- `slice(-0)` keeps every word, so a cut with budget 0 keeps the whole text
  behind "..." (`TextSliceZero`).
- A boundary paragraph is cut from its first child forward. The result is
  the tail of its first child(ren), not the last words of the paragraph
  (`BoundaryKeepsFirstChildTail`).
- Rebuilt sibling texts are joined without a separator, so their words can
  merge (`SiblingWordsMerge`).
- The first truncator adds "..." even when the boundary paragraph fits
  exactly (`FlattenKeepsLastWords`).
- The cache serves an entry at exactly thirty minutes, because the expiry
  test is a strict `>` (`ReadAfterStore`).
- An empty cached page counts as present for `hasRecap`, yet the manager
  treats it as a miss (`EmptyEntryIsPresentButUnusable`).

Further behaviours of the code that are easy to get wrong:

- There is no "blurb labels" block anywhere in the code.
- The services `createBlurb` only clones the blurb; only the older helpers
  remove its inputs and labels.
- A cached entry is still valid at exactly thirty minutes: the test is
  `now - timestamp > TTL`.
- Node kinds other than text and element become an empty text node rather
  than being dropped.
- The word budget is not checked to be positive; the model handles every
  integer budget.
- Raising the budget does not always raise the number of words shown: a
  rebuilt node's words are counted after its sibling texts are joined, so the
  model states no monotonicity.
- The original `royalrecap.js` reads the fiction title from the fetched page,
  not from the page being read.

## Model

| member | source | states |
|---|---|---|
| Words.TrimStart | src/lib/services/content-processor.ts:225 | the result is a suffix of the text and what it drops is blank; it is empty exactly when the text is blank, and otherwise starts with a non-space |
| Words.TrimEnd | src/lib/services/content-processor.ts:225 | the result is a prefix of the text and what it drops is blank; it is empty exactly when the text is blank, and otherwise ends with a non-space |
| Words.Trim | src/lib/services/content-processor.ts:225 | `trim()`: empty exactly for blank text, otherwise no white space at either end, never longer than the input |
| Words.TrimDecomposes | src/lib/services/content-processor.ts:225 | every text is blank lead + `trim()` of it + blank trail; with the end conditions of `Trim` this fixes the result uniquely |
| Words.ThreeParts | src/lib/services/content-processor.ts:225 | a suffix of a text that starts with a given part splits the text into three pieces |
| Words.NonSpacePrefix | src/lib/services/content-processor.ts:225 | the longest space-free prefix: free of white space and followed by white space or the end |
| Words.Runs | src/lib/services/content-processor.ts:225 | `split(/\s+/)` on trimmed text as maximal non-space runs; stated by `RunsAreWords`, `RunsPrepend`, `RunsMerge`, `RunsOfJoin`, `RunsAppend` and `RunsEmptyIffBlank` |
| Words.RunsAreWords | src/lib/services/content-processor.ts:225 | every piece `split(/\s+/)` yields from trimmed text is a non-empty word without white space |
| Words.SplitAreWords | src/lib/services/content-processor.ts:225 | the split of any text is either `[""]` (blank text) or a list of words |
| Words.SplitWords | src/lib/services/content-processor.ts:225 | `trim().split(/\s+/)` always has at least one element |
| Words.WordCount | src/lib/services/content-processor.ts:195 | the paragraph word count is at least 1, even for blank text |
| Words.SliceFrom | src/lib/services/content-processor.ts:228 | `slice(start)` is a suffix whose length follows JavaScript's clamping; `slice(-0)` keeps everything |
| Words.Join | src/lib/services/content-processor.ts:228-229 | `join(" ")`; its round trip with the split is stated by `RunsOfJoin` and `SplitJoin` |
| Words.RunsPrepend | src/lib/services/content-processor.ts:225 | a word followed by white space or the end splits off as a word of its own |
| Words.RunsMerge | src/lib/services/content-processor.ts:251-252 | a word directly followed by non-space text merges with that text's first word |
| Words.RunsOfJoin | src/lib/services/content-processor.ts:228-229 | splitting words joined by single spaces gives the same words back |
| Words.SplitJoin | src/lib/services/content-processor.ts:228-229 | `join(" ")` followed by `trim().split(/\s+/)` gives the words back |
| Words.EllipsisBeforeWords | src/lib/services/content-processor.ts:228 | "..." before joined words fuses with the first word and leaves the rest unchanged |
| Words.RunsAppend | src/lib/services/content-processor.ts:251-252 | concatenating two texts never creates words; at most two merge into one |
| Words.WordCountAppend | src/lib/services/content-processor.ts:251-252 | word counts are subadditive over concatenation |
| Words.RunsEmptyIffBlank | src/scripts/content.ts:94 | text has no words exactly when it is blank |
| Words.NatToString | src/lib/services/content-processor.ts:298 | decimal digits of a natural number, non-empty and unsigned |
| Words.IntToString | src/lib/services/content-processor.ts:298 | `${n}` of an integer is non-empty |
| Words.ReadIntToString | src/lib/services/content-processor.ts:298 | reading a printed integer back gives the same integer |
| Words.IntToStringInjective | src/lib/services/content-processor.ts:298 | distinct budgets print differently |
| Dom.Lower | src/lib/services/content-processor.ts:233-235 | `toLowerCase()` keeps the length and lower-cases each ASCII letter |
| Dom.Paragraphs | src/lib/services/content-processor.ts:182 | `querySelectorAll("p")` yields only `<p>` elements |
| Dom.ParagraphsIn | src/lib/services/content-processor.ts:182 | the `<p>` descendants of a list of nodes are all `<p>` elements |
| Dom.TextElement | src/lib/services/content-processor.ts:289-290 | a created element whose `textContent` was set reads back exactly that text, with no attributes |
| Dom.SetTextContent | scripts/royalrecap.js:398 | setting an element's `textContent` keeps its tag and attributes and makes its text exactly the new string |
| Dom.GetAttribute | src/lib/content-manager.ts:154 | an attribute value is found exactly when some attribute has that name |
| ParagraphWalk.WalkSelect | src/lib/services/content-processor.ts:192-212 | the walk never selects more paragraphs than there are |
| ParagraphWalk.WalkInPlace | scripts/royalrecap.js:384-404 | writing the cut back keeps the number of paragraphs |
| ParagraphWalk.Reverse | src/lib/services/content-processor.ts:215 | reversing keeps the length |
| ParagraphWalk.ReverseSnoc | src/lib/services/content-processor.ts:215 | reversing after a push puts the pushed paragraph first |
| ParagraphWalk.StepKeep | src/lib/services/content-processor.ts:198-201 | a paragraph that leaves words to spare is kept whole and the walk continues before it with the reduced budget |
| ParagraphWalk.StepCut | src/lib/services/content-processor.ts:202-209 | a paragraph that uses the budget up is cut with the budget it was given, and nothing before it is kept |
| ParagraphWalk.KeepInPlace | scripts/royalrecap.js:393-394 | keeping a paragraph in place leaves the paragraphs from it onwards unchanged |
| ParagraphWalk.CutInPlace | scripts/royalrecap.js:395-401 | cutting in place replaces that one paragraph and leaves every other paragraph unchanged |
| ParagraphWalk.SelectKeep | src/lib/services/content-processor.ts:198-201 | one keep step of the loop preserves "selection = walk of the rest + reversed pushes" |
| ParagraphWalk.SelectCut | src/lib/services/content-processor.ts:202-215 | the final cut step makes the reversed pushes equal to the whole walk |
| ParagraphWalk.WalkLoop | src/lib/services/content-processor.ts:188-215 | the reverse loop (skip a paragraph without words, subtract, keep while words are left, cut with the pre-subtraction budget, stop, reverse) returns exactly `WalkSelect` |
| ParagraphWalk.WalkLoopInPlace | scripts/royalrecap.js:381-406 | the same loop over an array that writes the cut paragraph back: the array becomes `WalkInPlace` of its old contents and the result is `WalkSelect` |
| ParagraphWalk.TotalLast | src/lib/services/content-processor.ts:198 | the total words of a list grow by the words of an appended paragraph |
| ParagraphWalk.TotalAppend | src/lib/services/content-processor.ts:198 | total words are additive over concatenation |
| ParagraphWalk.WalkAllFit | src/lib/services/content-processor.ts:192-215 | when all paragraphs together have fewer words than the budget, every paragraph is kept unchanged in order, and none is cut |
| ParagraphWalk.SplitSlices | src/lib/services/content-processor.ts:192 | the slices after paragraph `j`, seen from the paragraphs before the last one |
| ParagraphWalk.WalkAtBoundary | src/lib/services/content-processor.ts:197-210 | the cut lands on the paragraph where the budget runs out: the later paragraphs are kept whole, and that paragraph is cut with what they left over |
| ParagraphWalk.WalkWithinBudget | src/lib/services/content-processor.ts:192-215 | with a budget of at least 1 and a cut that respects its budget, the selection holds at most the budget's words |
| ParagraphWalk.WalkShape | scripts/royalrecap.js:384-402 | two walks that differ only in the cut select as many paragraphs, and the same whole ones |
| ParagraphWalk.WalkIsInPlaceTail | scripts/royalrecap.js:384-406 | the selection is exactly the trailing paragraphs of the list after the in-place walk |
| Truncator.NodeWords | src/lib/services/content-processor.ts:194-195 | a paragraph's word count is at least 1, so the `> 0` guard always passes |
| Truncator.TextSlice | src/lib/services/content-processor.ts:224-230 | the text cut; stated by `TextSliceKeepsLast`, `TextSliceFits`, `TextSliceCount` and `TextSliceZero` |
| Truncator.Rebuild | src/lib/services/content-processor.ts:223-277 | `buildContentFromWords` as a value; stated by `BuildContentFromWords`, `RebuildWithinBudget`, `BoundaryKeepsFirstChildTail` and `SiblingWordsMerge` |
| Truncator.RebuildKids | src/lib/services/content-processor.ts:242-270 | the children loop as a value; stated by `BuildChildren`, `KidsKeep`, `KidsLast` and `KidsWithinBudget` |
| Truncator.BuildContentFromWords | src/lib/services/content-processor.ts:223-277 | the recursive rebuild (text cut, element with lower-cased tag and copied attributes, other nodes become empty text) computes `Rebuild` |
| Truncator.BuildChildren | src/lib/services/content-processor.ts:242-270 | the children loop (keep and subtract while the child fits, rebuild again and stop when it does not, stop at 0) computes `RebuildKids` |
| Truncator.KidsKeep | src/lib/services/content-processor.ts:254-256 | a child with words to spare is kept and the loop goes on with the reduced budget |
| Truncator.KidsLast | src/lib/services/content-processor.ts:254-269 | a child that reaches or exceeds the budget is the last child kept |
| Truncator.Regroup | src/lib/services/content-processor.ts:255 | pushing onto the kept children regroups the concatenation |
| Truncator.SelectParagraphs | src/lib/services/content-processor.ts:188-215 | the paragraph loop with the rebuild as its cut returns `SelectTail` |
| Truncator.SelectTail | src/lib/services/content-processor.ts:188-215 | never more paragraphs than the chapter has; `SelectAllFit`, `SelectAtBoundary` and `SelectWithinBudget` state which |
| Truncator.TextSliceKeepsLast | src/lib/services/content-processor.ts:225-228 | a text with more than `count >= 1` words keeps exactly its last `count` words, in order, with "..." on the first |
| Truncator.TextSliceFits | src/lib/services/content-processor.ts:226-229 | a text within the budget keeps all its words, with no "..." |
| Truncator.TextSliceCount | src/lib/services/content-processor.ts:225-229 | a rebuilt text has `min(count, words)` words |
| Truncator.TextSliceZero | src/lib/services/content-processor.ts:228 | budget 0 keeps every word (`slice(-0)`), behind "..." |
| Truncator.ConcatRuns | src/lib/services/content-processor.ts:251-252 | the joined text of several nodes has no more words than they hold separately |
| Truncator.RebuildWithinBudget | src/lib/services/content-processor.ts:223-277 | a node rebuilt with `count >= 1` holds at most `count` words |
| Truncator.KidsWithinBudget | src/lib/services/content-processor.ts:246-270 | the kept children together hold at most the budget's words |
| Truncator.SelectAllFit | src/lib/services/content-processor.ts:192-215 | a chapter shorter than the budget is copied whole, with no paragraph rebuilt |
| Truncator.SelectAtBoundary | src/lib/services/content-processor.ts:197-210 | the boundary paragraph is rebuilt with the budget left before it, the later ones are cloned whole, and earlier ones are dropped |
| Truncator.SelectWithinBudget | src/lib/services/content-processor.ts:192-215 | the selected paragraphs hold at most the budget's words |
| Truncator.OneWord | src/lib/services/content-processor.ts:225 | a single word splits into itself |
| Truncator.BoundaryKeepsFirstChildTail | src/lib/services/content-processor.ts:246-270 | when the first text child alone reaches the budget, only its last words are kept and every later child is dropped |
| Truncator.SiblingWordsMerge | src/lib/services/content-processor.ts:251-256 | two one-word text children are both kept but read back as one word |
| Processor.TitleFrom | src/lib/services/content-processor.ts:115-143 | missing when nothing matches or the text is empty, else exactly the trimmed text (empty only for blank text) |
| Processor.ExtractFictionTitle | src/lib/services/content-processor.ts:115-127 | fails with "Could not find fiction title on current page" exactly on a miss or empty text; otherwise the trimmed text of the current page's match |
| Processor.ExtractChapterName | src/lib/services/content-processor.ts:132-143 | fails with "Could not find chapter title in fetched content" exactly on a miss or empty text; otherwise the trimmed text of the fetched page's match |
| Processor.ChapterContent | src/lib/services/content-processor.ts:168-218 | the three errors in order (no match, blank text, no paragraphs); otherwise a bare `<div>` whose paragraphs fit the budget and equal all paragraphs when the chapter is shorter |
| Processor.SelectionFacts | src/lib/services/content-processor.ts:192-215 | the budget bound and the all-fit case of the selection |
| Processor.ExtractChapterContent | src/lib/services/content-processor.ts:168-218 | the step-by-step extraction with the paragraph loop returns `ChapterContent` |
| Processor.RecapFragment | src/lib/services/content-processor.ts:282-310 | exactly hr, h1 "RoyalRefresh of title", h2 "Previous chapter: name", h4 "Showing last ~N words:", content, hr |
| Processor.RecapLayout | src/lib/services/content-processor.ts:282-310 | six parts: hr, h1, h2 and h4 with the given texts, the content, hr |
| Processor.WordsNotice | src/lib/services/content-processor.ts:296-298 | an h4 without attributes reading "Showing last ~N words:"; `WordsNoticeReadsBack` reads N back |
| Processor.WordsNoticeReadsBack | src/lib/services/content-processor.ts:298 | the caption "Showing last ~N words:" carries the budget N, which reads back from it |
| Processor.CreateRecap | src/lib/services/content-processor.ts:14-62 | succeeds exactly when all three extractions do; otherwise the first failing stage's error unchanged (fiction title, then chapter title, then content); on success exactly `RecapFragment` of the three results, whose content fits the budget |
| Processor.ExtractBlurb | src/lib/services/content-processor.ts:148-163 | no match or a non-element gives "Could not find story blurb…"; blank text gives "…appears to be empty"; otherwise the matched element |
| Processor.BlurbFragment | src/lib/services/content-processor.ts:315-332 | exactly hr, h1 "Blurb: title", the blurb, and an hr with a 50px bottom margin |
| Processor.CreateBlurb | src/lib/services/content-processor.ts:70-110 | succeeds exactly when the title and blurb do; otherwise the title error, else the blurb error unchanged; on success exactly `BlurbFragment` of the title and the matched blurb |
| LegacyContent.LegacyTitle | src/lib/content-utils.ts:45-73 | the fallback text on a miss, else exactly the trimmed text |
| LegacyContent.LegacyFictionTitle | src/lib/content-utils.ts:45-55 | "Error loading fiction title" on a miss; equal to the processor's title whenever that succeeds |
| LegacyContent.LegacyChapterName | src/lib/content-utils.ts:60-73 | "Error loading chapter title" on a miss; equal to the processor's name whenever that succeeds |
| LegacyContent.FallbackDiv | src/lib/content-utils.ts:115-121 | a `<div>` whose text is the message |
| LegacyContent.LegacyChapterContent | src/lib/content-utils.ts:104-155 | the processor's div when that succeeds, the "Error loading recap" div for a miss or blank body, and an empty div when there are no paragraphs |
| LegacyContent.LegacyExtractChapterContent | src/lib/content-utils.ts:104-155 | the step-by-step version with the paragraph loop returns `LegacyChapterContent` |
| LegacyContent.StripControls | src/lib/content-utils.ts:94-96 | removing inputs and labels keeps the node's kind, tag and attributes; what happens to the children is stated by `StripKidsAppend` and `StripKidsSingle` |
| LegacyContent.StripKids | src/lib/content-utils.ts:94-96 | removing controls never adds children; which children stay is stated by `StripKidsAppend` and `StripKidsSingle` |
| LegacyContent.StripKidsAppend | src/lib/content-utils.ts:94-96 | the clean-up distributes over concatenated sibling lists, so order is kept |
| LegacyContent.StripKidsSingle | src/lib/content-utils.ts:94-96 | one child is dropped exactly when it is an input or label, and otherwise kept with its own controls removed |
| LegacyContent.StripLeavesNoControls | src/lib/content-utils.ts:94-96 | after the removal no input or label is left anywhere below |
| LegacyContent.StripKidsLeaveNoControls | src/lib/content-utils.ts:94-96 | the same for a list of children |
| LegacyContent.StripKeepsClean | src/lib/content-utils.ts:94-96 | a node without controls is left exactly as it was |
| LegacyContent.StripKidsKeepClean | src/lib/content-utils.ts:94-96 | the same for a list of children |
| LegacyContent.StripIdempotent | src/lib/content-utils.ts:94-96 | removing the controls twice is the same as once |
| LegacyContent.LegacyExtractBlurb | src/lib/content-utils.ts:78-99 | always a div without controls; the "Error loading story blurb" div unless a `<div>` matched; a matched div is that div with its inputs and labels removed, unchanged if it had none |
| LegacyContent.LegacyRecapFragment | src/lib/content-utils.ts:214-248 | always hr, h1 "RoyalRefresh of" + the fallback-aware title, h2 "Previous chapter: " + name, the h4 caption, `LegacyChapterContent` and hr; exactly the processor's recap whenever that succeeds |
| LegacyContent.LegacyBlurbFragment | src/lib/content-utils.ts:253-275 | hr, h1 "Blurb: title", `LegacyExtractBlurb` (a div without controls) and an hr with a 50px bottom margin |
| InPlace.TruncateInPlace | scripts/royalrecap.js:381-406 | the paragraphs of the fetched document end up as `InPlaceResult`, with only the boundary one overwritten, and the pushed nodes are `InPlaceSelect` |
| InPlace.Flatten | scripts/royalrecap.js:396-398 | overwriting a paragraph's text keeps its tag and attributes; `FlattenKeepsLastWords` states the text |
| InPlace.InPlaceSelect | scripts/royalrecap.js:384-406 | never more paragraphs than the chapter has; `SameShapeAsSelectTail`, `InPlaceAllFit` and `SelectionIsDocumentTail` state which |
| InPlace.InPlaceResult | scripts/royalrecap.js:384-404 | as many paragraphs as before; only the boundary one changes (`ParagraphWalk.CutInPlace`, `InPlaceAllFit`) |
| InPlace.SameShapeAsSelectTail | scripts/royalrecap.js:384-402 | the first truncator selects as many paragraphs as the later one, and the same whole ones |
| InPlace.InPlaceAllFit | scripts/royalrecap.js:384-395 | a chapter shorter than the budget is pushed whole and left unchanged |
| InPlace.SelectionIsDocumentTail | scripts/royalrecap.js:394-406 | the pushed nodes are the trailing paragraphs of the mutated document |
| InPlace.FlattenKeepsLastWords | scripts/royalrecap.js:396-398 | the boundary paragraph becomes one text: "..." fused to the first of its last `budget` words, even on an exact fit |
| InPlace.InPlaceChapterContent | scripts/royalrecap.js:366-409 | a div: the fallback when nothing matched (a blank chapter is not rejected), else a bare div holding exactly the pushed paragraphs, as many as the later truncator selects |
| InPlace.ExtractChapterContentInPlace | scripts/royalrecap.js:366-409 | copying the paragraphs into an array and running the in-place loop gives `InPlaceChapterContent` |
| InPlace.RoyalRecapFragment | scripts/royalrecap.js:206-238 | hr, h1 "RoyalRecap of title", h2 "Previous chapter: name", h4 "Showing last N words:" (no "~"), `InPlaceChapterContent`, hr |
| FlatRecap.ExtractContent | royalrecap.js:277-295 | null exactly when the selector matches nothing |
| FlatRecap.ExtractContentKeepsLastWords | royalrecap.js:289-294 | the text holds exactly the last `min(wordcount, n)` words in order; `wordcount` 0 keeps all of them |
| FlatRecap.EllipsisPlus | royalrecap.js:220 | "..." is always prepended, and a null content prints as "...null" |
| FlatRecap.FlatRecapFragment | royalrecap.js:190-225 | h1, h2, h4 "Showing last N words:", the div, hr; both titles are read from the fetched page with the same word cut; the div reads "..." + the extracted content, or "...null" when nothing matched |
| Urls.SplitOn | src/scripts/content.ts:101 | `split("/")` yields at least one piece, none containing the separator |
| Urls.JoinSplit | src/scripts/content.ts:101 | joining the pieces of a split gives the path back |
| Urls.SplitAround | src/scripts/content.ts:101 | splitting at a separator splits the two sides separately |
| Urls.SplitWhole | src/scripts/content.ts:101 | a string without the separator is one piece |
| Urls.SplitJoinOn | src/scripts/content.ts:101 | splitting joined separator-free pieces gives the pieces back |
| Urls.IsChapterPath | royalrecap.js:92-94 | `pathname.split("/").includes("chapter")`; stated by `ChapterPathOfSegments` and `ChapterSegmentDetected` |
| Urls.ChapterSegmentDetected | src/scripts/content.ts:100-102 | a path whose second segment is exactly "chapter" is a chapter page, whatever follows |
| Urls.ChapterPathOfSegments | royalrecap.js:92-94 | a path is a chapter page exactly when one of its segments is "chapter" itself |
| Urls.HasPreviousChapterUrl | src/scripts/content.ts:107-113 | true exactly when the previous-chapter selector matches an element with an `href` attribute |
| Urls.RecapContainerHasContent | src/scripts/content.ts:93-95 | true exactly when the container's text is not blank, i.e. holds a word |
| Cache.Lookup | src/lib/services/content-cache.ts:20-33 | a hit exactly when the URL is stored and at most the TTL has passed, and the hit is the stored HTML |
| Cache.AfterLookup | src/lib/services/content-cache.ts:26-30 | a read deletes only the URL's own stale entry and changes no other entry |
| Cache.Expired | src/lib/services/content-cache.ts:27-30 | the strict expiry test; `ReadAfterStore` states that an entry at exactly TTL is still served |
| Cache.ContentCache.constructor | src/lib/services/content-cache.ts:8-11 | the cache starts empty |
| Cache.ContentCache.GetRecap | src/lib/services/content-cache.ts:20-33 | answers `Lookup` and leaves `AfterLookup` |
| Cache.ContentCache.SetRecap | src/lib/services/content-cache.ts:40-45 | overwrites only the URL's entry, with the current time |
| Cache.ContentCache.HasRecap | src/lib/services/content-cache.ts:52-54 | equals "`getRecap` found something", with the same eviction |
| Cache.ContentCache.ClearRecapCache | src/lib/services/content-cache.ts:59-61 | the cache is empty afterwards |
| Cache.MissWhenAbsent | src/lib/services/content-cache.ts:21-24 | a URL never stored, or stored before a clear, is a miss and evicts nothing |
| Cache.ReadAfterStore | src/lib/services/content-cache.ts:27-32 | after storing at `t`, a read returns the HTML exactly when `now - t <= 30 min`, and otherwise deletes only that entry |
| Cache.StoreLeavesOthers | src/lib/services/content-cache.ts:40-45 | storing one URL does not change what other URLs read |
| Cache.ReadLeavesOthers | src/lib/services/content-cache.ts:27-29 | reading, even with eviction, does not change what other URLs read |
| Cache.ReadTwice | src/lib/services/content-cache.ts:20-33 | a second read at the same time answers the same and evicts nothing more |
| Cache.ExpiryIsFinal | src/lib/services/content-cache.ts:27-30 | once a read misses, later reads miss too |
| Manager.FindPreviousChapterUrl | src/lib/content-manager.ts:143-161 | "Could not find previous chapter button…" exactly when no anchor matches; "…has no link…" exactly for an empty href; otherwise that non-empty href |
| Manager.FindFictionOverviewUrl | src/lib/content-manager.ts:166-190 | three errors in order (no title, parent not an anchor, empty href), each exactly in its case; otherwise the parent's non-empty href |
| Manager.Deliver | src/lib/services/content-manager.ts:37-40 | the outcome is content exactly when processing succeeded |
| Manager.Usable | src/lib/services/content-manager.ts:30 | JavaScript truthiness of the cached HTML; `EmptyEntryIsPresentButUnusable` shows an empty page fails it |
| Manager.FromCache | src/lib/services/content-manager.ts:118-132 | "No cached content available…" exactly when the cache gave nothing usable; otherwise the processed cached HTML |
| Manager.ContentManager.constructor | src/lib/services/content-manager.ts:13 | a manager over the given cache that has fetched nothing |
| Manager.ContentManager.FetchRecap | src/lib/services/content-manager.ts:20-64 | a URL error passes through with no cache change and no fetch; a usable hit is processed with no fetch; otherwise exactly one fetch, where a failure gives "Failed to fetch previous chapter: …" and stores nothing, and a success is stored with the store time and processed |
| Manager.ContentManager.FetchBlurb | src/lib/services/content-manager.ts:72-99 | never changes the cache; a URL error means no fetch; otherwise one fetch, and a failure gives "Failed to fetch story overview: …" |
| Manager.ContentManager.RefreshRecapFromCache | src/lib/services/content-manager.ts:107-133 | never fetches and never stores; a URL error passes through; otherwise the cached HTML is processed, or "No cached content…" |
| Manager.ContentManager.HasRecapInCache | src/lib/services/content-manager.ts:140-147 | false when the URL is unresolvable, else the cache's `hasRecap` |
| Manager.ContentManager.ClearCache | src/lib/services/content-manager.ts:152-154 | the cache is empty and nothing is fetched |
| Manager.FinderErrorsAreDistinct | src/lib/content-manager.ts:143-190 | a URL-finder error can never be mistaken for a processor error |
| Manager.ButtonCheckCoversFinder | src/lib/content-utils.ts:13-21 | the previous-chapter check accepts every page on which the URL finder succeeds |
| Manager.RefreshServesFetched | src/lib/services/content-manager.ts:119-132 | a non-blank page fetched at `t` is served by a refresh within 30 minutes, with the same result as processing it afresh |
| Manager.EmptyEntryIsPresentButUnusable | src/lib/services/content-manager.ts:119-124 | an empty cached page is present for `hasRecap`, yet a refresh reports no cached content |
| RecapState.AfterToggle | src/lib/recap-state.svelte.ts:13-20 | visible becomes hidden; any other state becomes loading with the loading flag set |
| RecapState.AfterSetContent | src/lib/recap-state.svelte.ts:22-28 | shows the new content and type, not loading, no error |
| RecapState.AfterSetError | src/lib/recap-state.svelte.ts:30-34 | hidden, not loading, the error set; content and type unchanged |
| RecapState.AfterHide | src/lib/recap-state.svelte.ts:36-38 | only the visibility changes, to hidden |
| RecapState.AfterShow | src/lib/recap-state.svelte.ts:40-44 | visible when there is content; otherwise nothing changes |
| RecapState.RecapStateManager.constructor | src/lib/recap-state.svelte.ts:7-11 | hidden, no content, not loading, no error, type recap |
| RecapState.RecapStateManager.Toggle | src/lib/recap-state.svelte.ts:13-20 | the fields become `AfterToggle` of the old ones |
| RecapState.RecapStateManager.SetContent | src/lib/recap-state.svelte.ts:22-28 | the fields become `AfterSetContent` |
| RecapState.RecapStateManager.SetError | src/lib/recap-state.svelte.ts:30-34 | the fields become `AfterSetError` |
| RecapState.RecapStateManager.Hide | src/lib/recap-state.svelte.ts:36-38 | the fields become `AfterHide` |
| RecapState.RecapStateManager.Show | src/lib/recap-state.svelte.ts:40-44 | the fields become `AfterShow` |
| RecapState.RecapStateManager.ToggleText | src/lib/recap-state.svelte.ts:46-48 | "Hide " exactly when visible, "Show " exactly when not |
| RecapState.RecapStateManager.IsVisible | src/lib/recap-state.svelte.ts:50-52 | `isVisible`: whether the panel shows; `ToggleText` is stated in terms of it |
| RecapState.UpdatesStayConsistent | src/lib/recap-state.svelte.ts:13-44 | every update keeps a loading panel flagged as loading |
| RecapState.ToggleTwiceReloads | src/lib/recap-state.svelte.ts:13-20 | toggling a shown recap twice starts a reload instead of showing it again |
| RecapState.HideThenShowRestores | src/lib/recap-state.svelte.ts:36-44 | hiding and then showing set content restores the same state |
| RecapState.ErrorKeepsPreviousContent | src/lib/recap-state.svelte.ts:30-44 | an error after a load hides the panel but keeps the old content for `show` |
| RecapState.ShowDuringLoad | src/lib/recap-state.svelte.ts:13-44 | `show` during a load makes the panel visible while it is still flagged as loading |
| Migrations.Migrate | src/lib/utils/migrations.ts:4-22 | without `smoothScroll` the same settings; otherwise `smoothScroll` is removed, `enableJump` is true only for literal `true`, `scrollBehavior` follows truthiness, and every other key is kept |
| Migrations.MigrateIdempotent | src/lib/utils/migrations.ts:6-21 | migrating twice is the same as once |
| Migrations.TruthyIsNotTrue | src/lib/utils/migrations.ts:10-11 | a truthy non-boolean gives smooth scrolling but no jump |
| Migrations.SmoothScrollTrueScenario | src/lib/utils/migrations.ts:6-19 | `smoothScroll: true` with other settings gives jump, smooth scrolling and the other settings kept |
| DevAndroid.AdditionalFlags | scripts/dev-android.ts:19 | the arguments after the device id |
| DevAndroid.SourceDirIndex | scripts/dev-android.ts:23 | the first `--source-dir` or `-s`, or -1 exactly when there is none |
| DevAndroid.FirstInlineSourceDir | scripts/dev-android.ts:30 | the first `--source-dir=` flag, or none exactly when there is none |
| DevAndroid.FirstPiece | scripts/dev-android.ts:32 | the first piece of a split is the text before the first separator |
| DevAndroid.InlineValue | scripts/dev-android.ts:32 | the value after `--source-dir=`, up to any next `=` |
| DevAndroid.CustomSourceDir | scripts/dev-android.ts:22-34 | the argument after the first `--source-dir`/`-s` (none when it is last); else the first inline value; else none |
| DevAndroid.OutDir | scripts/dev-android.ts:37 | a missing or empty directory falls back to ".output" |
| DevAndroid.BuildDir | scripts/dev-android.ts:38 | the build directory under the output directory; `SourceDirTakenOut` and `TrailingFlagFallsBack` state its value |
| DevAndroid.WebExtCommand | scripts/dev-android.ts:55 | the `web-ext run` command line; `PrepareLaunch` states which arguments fill it |
| DevAndroid.Filtered | scripts/dev-android.ts:41-52 | no source-directory flag is passed on, and the list never grows |
| DevAndroid.FilteredFlags | scripts/dev-android.ts:41-52 | the filtering loop (skip the flag and its value, skip inline flags) returns `Filtered` |
| DevAndroid.PrepareLaunch | scripts/dev-android.ts:11-61 | a usage error exactly without a device id; otherwise the `web-ext` command with the build directory and the filtered flags, and the exported directory exactly when one was given |
| DevAndroid.FilteredIsSubsequence | scripts/dev-android.ts:41-52 | the flags passed on are the original ones with some left out, in order |
| DevAndroid.SubsequenceOfTail | scripts/dev-android.ts:41-52 | dropping a leading element keeps a subsequence |
| DevAndroid.OrdinaryFlagsKept | scripts/dev-android.ts:41-52 | flags without source-directory flags pass unchanged |
| DevAndroid.ValueIsDropped | scripts/dev-android.ts:44-46 | the argument after `--source-dir`/`-s` is dropped, whatever it is |
| DevAndroid.FilteredAppend | scripts/dev-android.ts:41-52 | filtering splits over a concatenation that does not cut a flag from its value |
| DevAndroid.SourceDirIndexPast | scripts/dev-android.ts:23 | the first `--source-dir` after ordinary flags is found at its position |
| DevAndroid.SourceDirTakenOut | scripts/dev-android.ts:22-52 | `--source-dir dir` sets the build directory to `dir/firefox-mv2` and both arguments disappear |
| DevAndroid.InlineValueStopsAtEquals | scripts/dev-android.ts:32 | `--source-dir=a=b` yields `a` |
| DevAndroid.TrailingFlagFallsBack | scripts/dev-android.ts:27-38 | `-s` as the last argument gives the default `.output/firefox-mv2` |

## Left out

- HTML parsing and CSS selector matching: `DOMParser` is a function parameter. A parsed document is the table of what each configured selector matches, with the first match and its parent.
- Serialising to `innerHTML` in `createRecap` and `createBlurb`: the model returns the fragment's node list instead of its markup.
- The `try`/`catch` fallbacks ("Failed to process recap: …"): nothing in the model throws, so these are not modelled.
- URL resolution of `href`: an anchor's `href` is its attribute value, not an absolute URL resolved against the page.
- JavaScript numbers: budgets are unbounded integers, so `NaN`, fractions and floating-point formatting are not modelled.
- Asynchrony, `fetch`, `Date.now()` and storage:
  - The network is a function from URL to result.
  - The clock is an explicit argument.
  - Each step runs to completion, so no interleaving of concurrent calls is modelled.
- The static singletons (`ContentCache`, `ContentManager`, `recapState`) are class instances passed around explicitly.
- The imported finders: `src/lib/services/content-manager.ts` imports `findPreviousChapterUrl` and `findFictionOverviewUrl` from `src/lib/utils/dom-utils.ts`, and that file does not define them. The model uses the finders of `src/lib/content-manager.ts` for both managers.
- Cloning and node identity: clones are values. The first truncator's push of the original node objects is modelled by the array the walk writes back into.
- Input and label removal in the older `extractBlurb` returns a new value instead of mutating the matched node in place.
- `WalkLoop`, `SelectParagraphs` and `TruncateInPlace` take the paragraph list after `querySelectorAll("p")`. Their cut is the `Rebuild` function, or `Flatten` for the first truncator. `BuildContentFromWords` is proved to compute `Rebuild`.
- `Truncator.Rebuild` applies the text cut and the word count through the function values `CutText` and `CountWords`, which equal `TextSlice` and `NodeWords`.
- The user interface (buttons, containers, scrolling, settings pages, sanitising before display) and `console` logging are not part of this model.
- `DevAndroid.PrepareLaunch` stops before running the commands: `execSync`, `process.env`, `console` and `process.exit` are left out.
- `src/lib/content-helpers.ts` and `src/scripts/content.ts` repeat the code of `src/lib/content-utils.ts`. They are covered by the `LegacyContent` members and the `Urls` page checks rather than by separate members. The only difference is that `src/scripts/content.ts` reads the default budget from the loaded settings, and the model passes the budget explicitly.
- LegacyContent.StripControls: its own contract states only the kept kind, tag and attributes, because a full statement of the clean-up is the definition itself; `StripKidsAppend`, `StripKidsSingle`, `StripLeavesNoControls`, `StripKeepsClean` and `StripIdempotent` state its behaviour.
- LegacyContent.StripKids: its own contract bounds only the number of children; which children stay, in which order, is stated by `StripKidsAppend` and `StripKidsSingle`.
