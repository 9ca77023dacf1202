# Book export: verified models

Dafny models of the scripts that turn a translated book into documents and keep
the exports in order, with proofs of what the scripts promise and of exactly when
they do not keep it. Verify everything with `dafny verify dfyconfig.toml`.

| part of the system | modules |
|---|---|
| chapter exporter: repair passes and render loop over one list of blocks | `ChapterBlocks`, `PanelClusters`, `CaptionPairing`, `Headings`, `Continuations`, `OrderedLists`, `Listings`, `ChapterRender`, `RenderAccount`, `RenderFate`, `ChapterRules`, `FigureRules` |
| chapter exporter: text layer | `PyText`, `Reflow`, `ReflowLaws`, `ParagraphBreaks`, `BreakLaws`, `WidthLaws`, `WordLaws`, `SentenceSearch`, `ChunkGrouping`, `GroupingLaws`, `References` |
| content-addressed blob store: concurrent protocol and scripts | `ExportRows`, `BlobProtocol`, `BlobRaces`, `BlobScripts` |
| exports table: heal, backfill, verify | `Ledger`, `LedgerLaws`, `LedgerRules` |
| JSON Schema to TypeScript compiler | `TsTypes`, `TsRules`, `TsLaws`, `TsMeaning`, `TsLimits`, `TsDocument` |
| bilingual renderer | `VisualParagraphs`, `VisualRules`, `BilingualParagraph`, `NoteCallouts`, `BilingualRules` |
| live runner and monitor | `ClaimLoop`, `Descendants` |

How things are represented:

- Blocks are identified by their position in reading order, where the exporter
  uses database keys. Every regular-expression test on a block's text is an
  attribute of the block, and nothing is assumed about how attributes relate.
- The filters of the render loop that neither read nor write the repair state are
  arbitrary sets of blocks; the results hold for any choice of them.
- Passes over sets and dictionaries are methods with the source's loops, proved
  against declarative definitions; theorems across passes are lemmas about those.
  The blob tree and the exports table are classes.
- The thresholds 0.9, 0.65 and 0.55 are exact fractions.
- Concurrency is a state machine over single steps: exporters, maintenance passes,
  one reaper and the clock in `BlobProtocol`; main thread, workers and other runners in `ClaimLoop`.
- SHA-256 is an injective name for bytes. Databases are maps of rows.

## Where the code differs from what it says

Each of these is a proved statement, named in parentheses.

- The reaper's comment calls the race with an exporter impossible to lose. It is
  lost, for instance, by adopting an old orphan blob (`BlobRaces.AdoptionLosesTheRace`),
  after a link that failed (`BlobRaces.FailedLinkLosesTheRace`), by linking an old file
  and committing late (`BlobRaces.LateCommitLosesTheRace`), and by a backfill that
  stamps a row between the reaper's read and its unlink
  (`BlobRaces.StampingLosesTheRace`). Three conditions exclude all of them, and under
  them the reaper is safe in every run of the modelled steps
  (`BlobProtocol.ReaperIsSafe`); which unlinks are
  unsafe in general is `BlobProtocol.UnsafeUnlinkIff`.
- Text can vanish from a chapter: the continuation of a list's last item
  (`RenderFate.LastStepLosesItsTail`) and the paragraph after a sentence that wraps
  onto "listing N.M ..." (`RenderFate.ParagraphAfterMentionIsLost`).
- Text can appear twice in a chapter: a curated or promoted block inside a rendered
  listing (`RenderFate.BoxAppearsTwice`), code inside a multi-panel figure, which the
  figure shows as a picture too (`RenderFate.FigureTextIsPrinted`), and the running
  header whose title an untranslated heading borrows, which also comes out when the
  header itself is suppressed (`RenderFate.TitleAppearsTwice`). As text, captions and
  borrowed titles aside, the first is the only way (`RenderAccount.AtMostTwice`,
  `RenderAccount.AtMostOnceIff`).
- The reflow's comment speaks of the 95th percentile of line lengths; the code takes
  the 90th, and so does the model. The detector's docstring says it is the same
  heuristic. On repaired text it is, blank slices aside
  (`ParagraphBreaks.HeuristicsAgree`, `BreakLaws.CountsDiffer`). But the detector reads
  the raw text, which the reflow repairs first: on raw text the two agree exactly if
  there is no soft hyphen and no carriage return on a content line
  (`BreakLaws.RawAgreesIff`, `BreakLaws.ReturnDisagrees`).
- Healing by basename would point a stamped, non-stale sentinel row at other bytes
  without marking it (`LedgerLaws.HealKeepsSoundIff`). Nothing writes such a row, and
  where sentinel rows are stale the passes keep every row right
  (`LedgerLaws.StaleSentinelsStaySound`).
- A backfill asks for `stale_reason` and digest by truth, not by NULL: it looks at a
  missing file again and again if the reason is the empty string
  (`LedgerLaws.BackfillIsIdempotentIff`).
- A merged translation that is redistributed loses the part of every blank source
  sentence (`BilingualParagraph.MergedTextIsKeptIff`).
- The type compiler prints boolean and null literals as Python words, an empty `anyOf`
  as nothing, nothing inside a string escaped, references by names that need not be
  identifiers, and `additionalProperties` as a record whether or not the schema says
  `object` (`TsLimits.ConstIsSoundIff`, `EnumIsSoundIff`, `TypeParsesIff`,
  `StringLiteralReadsBackIff`, `ReferenceReadsBackIff`, `RecordIsSoundIff`). A component
  with properties becomes an interface even if it is no object
  (`TsDocument.InterfaceIsSoundIff`), and names of components and properties are printed
  as they are (`TsDocument.DocumentReadsBackIff`).
- The slice cap is kept by one runner only; every commit by another one can cost a
  success above it (`ClaimLoop.TwoRunnersOvershoot`).

## Model

| member | source | states |
|---|---|---|
| `RenderAccount.AtMostOnceIff` | scripts/export_chapter_zh_html.py:3504-3942 | over all passes together a block's content appears at most once in the rendered chapter, except exactly when it renders alone inside a rendered listing that also prints it, or comes out although another unit shows it as title or caption, or two units show it |
| `RenderAccount.ContentAccount` | scripts/export_chapter_zh_html.py:3504-3942 | the exact number: one for the branch that renders the block's chunks, one for a rendered listing around it, one for every unit that shows it as a borrowed title or a caption |
| `RenderAccount.AtMostTwice` | scripts/export_chapter_zh_html.py:3504-3942 | a block that is neither heading nor caption appears at most twice, and twice exactly if it renders alone inside a rendered listing |
| `RenderAccount.CarriedIff` | scripts/export_chapter_zh_html.py:3504-3826 | the keeper carries a block's chunks if and only if the branch meant for it is taken: prose for chains and glued headings, the list for items |
| `RenderAccount.OnlyTheseHold` | scripts/export_chapter_zh_html.py:3753-3942 | a unit that holds anything of a block is its keeper's, a listing that prints it, or one that shows it as title or caption |
| `RenderAccount.ShownIsTitleOrCaption` | scripts/export_chapter_zh_html.py:3930-3942 | what a unit shows besides its chunks is the first translated heading of its own section, for a heading without translation, or a caption, for a figure |
| `RenderAccount.AsideAccount` | scripts/export_chapter_zh_html.py:3879-3942 | a title or caption is shown once by every unit that asks for it |
| `RenderAccount.ChunkAccount` | scripts/export_chapter_zh_html.py:3753-3826 | a block comes out in some unit's own chunk list exactly once if its keeper (chain start, list head, glued-to text or itself) carries it, and otherwise never; borrowed titles and captions are counted apart |
| `RenderAccount.CodeAccount` | scripts/export_chapter_zh_html.py:3346-3446 | a block's source is printed as code exactly once if some rendered listing took it in, and otherwise never |
| `RenderAccount.OnlyKeeperCarries` | scripts/export_chapter_zh_html.py:3753-3826 | no unit but the keeper's has a block in its chunk list: chains, lists and glued headings never share a member (a borrowed title or caption is no part of the list) |
| `RenderAccount.AbsorbedBlocksRenderNothing` | scripts/export_chapter_zh_html.py:3504-3534 | a continuation, list item, glued heading, cluster member or stepped-over page header never renders on its own |
| `RenderAccount.OnePrinter` | scripts/export_chapter_zh_html.py:3384-3446 | two rendered listings never print the same block |
| `RenderAccount.NothingRendersInside` | scripts/export_chapter_zh_html.py:3753-3826 | nothing renders between a unit's own block and a later block in its chunk list: reading order survives (borrowed titles and captions may come from anywhere) |
| `RenderAccount.PrintedMeansNotPulled` | scripts/export_chapter_zh_html.py:3588-3688 | a block is both printed by a listing and carried by a unit only if it renders alone inside that listing |
| `RenderAccount.CarriedPlace` | scripts/export_chapter_zh_html.py:3753-3826 | what a unit has in its chunk list besides its own block is a later paragraph or the heading right above it (borrowed titles and captions may come from anywhere) |
| `RenderAccount.CarrierStartsAboveListing` | scripts/export_chapter_zh_html.py:3384-3446 | whoever carries a block that a listing takes in starts above that listing |
| `RenderAccount.UnitsAscend` | scripts/export_chapter_zh_html.py:3753-3826 | no unit repeats a block, and its parts are in reading order |
| `RenderFate.ContinuationCarriedIff` | scripts/export_chapter_zh_html.py:3766-3778 | a continuation comes out if and only if the start of its chain renders as prose |
| `RenderFate.ItemCarriedIff` | scripts/export_chapter_zh_html.py:3784-3826 | a list item comes out if and only if its list's head renders the list |
| `RenderFate.ListingBodySurvivesIff` | scripts/export_chapter_zh_html.py:3384-3446 | a block only a listing took over survives if and only if a listing printing it is rendered |
| `RenderFate.TailOfAbsorbedStartIsLost` | scripts/export_chapter_zh_html.py:3784-3791 | if the start of a chain went into somebody else's list, the rest of the chain is in the chapter only where a rendered listing prints it |
| `RenderFate.LastStepLosesItsTail` | scripts/export_chapter_zh_html.py:3098-3115 | a chapter that shows it: the tail of the last numbered step is lost |
| `RenderFate.BodyOfAbsorbedHeadersIsLost` | scripts/export_chapter_zh_html.py:3384-3446 | what listings took in is lost when each listing header that reaches it has itself been absorbed |
| `RenderFate.ParagraphAfterMentionIsLost` | scripts/export_chapter_zh_html.py:3384-3446 | a chapter that shows it: the paragraph after a sentence that wraps onto a listing mention is lost |
| `RenderFate.InsideFigureAccount` | scripts/export_chapter_zh_html.py:3504-3516 | what lies inside a multi-panel figure appears once if a rendered listing prints it, and otherwise not at all |
| `RenderFate.FigurePrinter` | scripts/export_chapter_zh_html.py:3384-3446 | such a listing starts at a header without a box inside the same figure, unless the figure's first panel is a suppressed annotation |
| `RenderFate.FigureTextIsPrinted` | scripts/export_chapter_zh_html.py:3384-3446 | a chapter that shows it: code inside a figure is printed under a header without a box |
| `RenderFate.BoxAppearsTwice` | scripts/export_chapter_zh_html.py:3384-3446 | a chapter in which a curated paragraph appears twice: as a box, and in the listing above it |
| `RenderFate.TitleAppearsTwice` | scripts/export_chapter_zh_html.py:3930-3942 | a chapter in which a running header appears twice, with a paragraph rendered in between; if it is suppressed it still comes out once |
| `ChapterRender.Repair` | scripts/export_chapter_zh_html.py:2865-3446 | the passes in sequence establish all the state the account relies on, for any chapter |
| `ChapterRender.Render` | scripts/export_chapter_zh_html.py:3469-3942 | the render loop emits exactly the specified unit for each block, in order, borrowed titles included |
| `ChapterRender.IndexTitles` | scripts/export_chapter_zh_html.py:2460-2476 | the index holds the first titled translation of every section that has one |
| `ChapterRender.TitleIff` | scripts/export_chapter_zh_html.py:2460-2476 | a section's title is its first translated heading with a title, and there is none only if there is no such heading |
| `ChapterRender.RenderChapter` | scripts/export_chapter_zh_html.py:2724-3942 | clusters, passes and render loop composed |
| `ChapterRules.FragmentIff` | scripts/export_chapter_zh_html.py:2906-2970 | a heading is glued exactly if it has text, is no page artifact and shaped like a sliced-off opening, and the very next block is running text that starts in lower case |
| `ChapterRules.FragmentIsPutBackIff` | scripts/export_chapter_zh_html.py:2960-2970 | a short noun or a callout lead comes out exactly once if the next block renders as prose, and otherwise never; a fragment that is neither never comes out |
| `ChapterRules.FragmentComesFirst` | scripts/export_chapter_zh_html.py:3753-3760 | it stands right before the text it opens |
| `ChapterRules.ContinuesIff` | scripts/export_chapter_zh_html.py:3006-3050 | a paragraph is recorded as continuing another exactly if both are unbroken paragraphs outside figures, one ends and the other starts in lower case, and at most two page headers lie between |
| `ChapterRules.ContinuationOutcome` | scripts/export_chapter_zh_html.py:3766-3778 | a continuation comes out exactly as often as what it continues does as prose |
| `ChapterRules.HeaderInBetween` | scripts/export_chapter_zh_html.py:3032-3050 | the page headers between the two never render |
| `ChapterRules.ListOutcome` | scripts/export_chapter_zh_html.py:3784-3826 | in a row of three or more paragraphs numbered from 1 every later one comes out with the first if that renders the list, and otherwise never |
| `ChapterRules.ListedIff` | scripts/export_chapter_zh_html.py:3080-3129 | list members are exactly the paragraphs of such rows, told by kind, number, figures and continuations |
| `ChapterRules.ListingOutcome` | scripts/export_chapter_zh_html.py:3384-3446 | a block is printed as code once if it is no side annotation and a rendered listing header stands at most twelve blocks above with only code-like or annotated blocks in between, and otherwise never |
| `ChapterRules.SkippedIff` | scripts/export_chapter_zh_html.py:3504-3534 | what leaves the flow is exactly fragments, stepped-over page headers, continuations and list items behind the first |
| `ChapterRules.FlowOutcome` | scripts/export_chapter_zh_html.py:3504-3942 | a block that stays in the flow comes out once or not at all: the filters, listings around it, its own listing or list, and silence are asked for in this order |
| `ChapterRules.ProseIff` | scripts/export_chapter_zh_html.py:3588-3826 | the branches for prose and for lists are taken exactly by blocks that no filter and no listing takes, lists by the heads of lists that have text |
| `ChapterRules.BorrowOutcome` | scripts/export_chapter_zh_html.py:3930-3942 | an untranslated numbered heading that renders shows the first heading of its number that is translated to more than a page number, and nothing if there is none |
| `PanelClusters.DetectClusters` | scripts/export_chapter_zh_html.py:2724-2862 | the masters are exactly the panels that start a figure and lie in no earlier one; the skip set is exactly the blocks inside figures |
| `PanelClusters.WalkCluster` | scripts/export_chapter_zh_html.py:2737-2798 | the walk stops at the caption if and only if panel and caption span a figure, and collects exactly the blocks with a box in between |
| `PanelClusters.LooksAhead` | scripts/export_chapter_zh_html.py:2767-2793 | a paragraph is absorbed exactly if another panel or a real caption follows within five blocks with nothing else between |
| `PanelClusters.ClustersAreDisjoint` | scripts/export_chapter_zh_html.py:2724-2862 | figures never overlap; the next starts after the previous one's caption |
| `PanelClusters.ClusterShape` | scripts/export_chapter_zh_html.py:2797-2845 | every figure has at least two panels and one caption, all on one page |
| `PanelClusters.CaptionIsDetermined` | scripts/export_chapter_zh_html.py:2741-2754 | a panel's figure ends at one caption only |
| `FigureRules.FigureIff` | scripts/export_chapter_zh_html.py:2724-2862 | a panel and a caption span a figure exactly if they are on one page, at most eleven blocks apart, with another panel between and nothing but panels, blocks without a box, and paragraphs behind which a panel or the caption follows within five blocks |
| `FigureRules.FigureOutcome` | scripts/export_chapter_zh_html.py:2724-2862 | every such figure that no earlier one reaches into is found with its caption, and takes in every block with a box in between |
| `FigureRules.InsideIsFigure` | scripts/export_chapter_zh_html.py:2797-2862 | and nothing else is taken in |
| `CaptionPairing.PairCaptions` | scripts/export_chapter_zh_html.py:2520-2551 | figures are served in reading order, each with the nearest caption still free, or none if none is eligible |
| `CaptionPairing.FindNearest` | scripts/export_chapter_zh_html.py:2532-2544 | nearest by ordinal within ten on the same page, the earlier of two equally near |
| `CaptionPairing.PairingIsAMatching` | scripts/export_chapter_zh_html.py:2520-2551 | the pairing is injective, on one page, within ten ordinals, and hands out no caption that was taken |
| `CaptionPairing.PairingIsUnique` | scripts/export_chapter_zh_html.py:2531-2551 | the greedy rule determines the pairing |
| `FigureRules.CaptionOutcome` | scripts/export_chapter_zh_html.py:2520-2551 | a figure gets a caption exactly if it has no linked one and some real caption on its page, within ten ordinals, is free; it gets the nearest, the earlier of two equally near |
| `Headings.GlueHeadings` | scripts/export_chapter_zh_html.py:2906-2970 | exactly the heading fragments are glued to, prepended to and skipped in favour of the very next block |
| `Continuations.LinkContinuations` | scripts/export_chapter_zh_html.py:3006-3050 | exactly the declared links are recorded; the skip set grows by exactly the page headers under them |
| `Continuations.NextProse` | scripts/export_chapter_zh_html.py:3018-3031 | the paragraph found is the one behind at most two page headers |
| `Continuations.LinksAreAMatching` | scripts/export_chapter_zh_html.py:3006-3038 | links are injective and do not cross |
| `Continuations.RecordedLinksGoForward` | scripts/export_chapter_zh_html.py:3006-3050 | links strictly increase in position and only page headers lie between linked blocks |
| `Continuations.Invert` | scripts/export_chapter_zh_html.py:3052-3055 | turning the links around loses none |
| `Continuations.Follow` | scripts/export_chapter_zh_html.py:3060-3067 | the chain-following loop terminates and collects the chain |
| `Continuations.BuildChains` | scripts/export_chapter_zh_html.py:3056-3068 | one chain per start; every continuation, and nothing else, is added to the skip set |
| `Continuations.ChainIsReadingOrder` | scripts/export_chapter_zh_html.py:3060-3067 | a chain follows the links step by step, strictly forward |
| `Continuations.ChainMembersShareHead` | scripts/export_chapter_zh_html.py:3056-3068 | all members of a chain lead back to its start |
| `Continuations.ContinuationIsInHeadsChain` | scripts/export_chapter_zh_html.py:3056-3068 | every continuation is in the chain of the paragraph it leads back to |
| `Continuations.ContinuationHasExactlyOneHead` | scripts/export_chapter_zh_html.py:3056-3068 | every continuation lies in exactly one chain |
| `Continuations.ChainHasNoGaps` | scripts/export_chapter_zh_html.py:3006-3068 | between start and member of a chain lie only chain members and stepped-over page headers |
| `OrderedLists.GroupOrderedLists` | scripts/export_chapter_zh_html.py:3080-3129 | heads are exactly the eligible paragraphs numbered 1 that start a run of at least three; each list is the whole maximal run |
| `OrderedLists.ExtendRun` | scripts/export_chapter_zh_html.py:3095-3109 | the run is maximal: consecutive eligible paragraphs numbered 1, 2, 3, ... |
| `OrderedLists.ListsAreDisjoint` | scripts/export_chapter_zh_html.py:3110-3128 | lists share no item and none starts inside another |
| `OrderedLists.ListsAreUnique` | scripts/export_chapter_zh_html.py:3080-3129 | no other grouping meets the definition |
| `OrderedLists.NoHeadInsideRun` | scripts/export_chapter_zh_html.py:3127-3128 | jumping over a run skips no list |
| `Listings.AbsorbListings` | scripts/export_chapter_zh_html.py:3384-3446 | every header's body, in order, and exactly the blocks some listing takes |
| `Listings.ScanListing` | scripts/export_chapter_zh_html.py:3395-3438 | exactly the blocks up to the first stopper within twelve are taken, and those not suppressed are printed in order |
| `Listings.NestedHeaderIsAnnotated` | scripts/export_chapter_zh_html.py:3395-3434 | a listing reaches past another header only if that header is a suppressed annotation |
| `Reflow.ReflowPdfSource` | scripts/export_chapter_zh_html.py:2204-2273 | for every text the loop computes the declarative reflow: paragraphs by the width heuristic, each on one line, one empty line between |
| `ReflowLaws.ReflowIsIdempotent` | scripts/export_chapter_zh_html.py:2204-2273 | reflowing a reflowed text changes nothing, for every text |
| `ReflowLaws.ReflowKeepsInk` | scripts/export_chapter_zh_html.py:2226-2273 | the non-space characters of the repaired input come out in order, and no others |
| `ReflowLaws.ReflowedShape` | scripts/export_chapter_zh_html.py:2226-2273 | every maximal newline run has length two, no two spaces are adjacent, no outer whitespace |
| `ReflowLaws.NothingToRepair` | scripts/export_chapter_zh_html.py:2226-2230 | without carriage returns and soft hyphens the repair step changes nothing |
| `ParagraphBreaks.DetectBreakPositions` | scripts/export_chapter_zh_html.py:857-899 | the cursor loop computes the declared offsets |
| `ParagraphBreaks.DetectedAscends` | scripts/export_chapter_zh_html.py:865-899 | the offsets strictly ascend, start at 0 and lie inside the text |
| `ParagraphBreaks.HeuristicsAgree` | scripts/export_chapter_zh_html.py:857-899 | run on the same text, the two separately written heuristics agree: the detector's slices without blank lines are the paragraphs of the reflow's grouping, for every text |
| `ParagraphBreaks.ReflowFollowsOffsets` | scripts/export_chapter_zh_html.py:2204-2273 | what the reflow prints is determined by the detector's offsets in the repaired text |
| `BreakLaws.CountsDiffer` | scripts/export_chapter_zh_html.py:857-899 | there is one offset for each paragraph and one for each blank line that a slice begins with |
| `BreakLaws.CountsAgreeIff` | scripts/export_chapter_zh_html.py:857-899 | offsets and paragraphs are equally many if and only if the first line is not blank and no blank line directly follows a line that ends a paragraph (an empty last line aside) |
| `BreakLaws.CountsAgree` | scripts/export_chapter_zh_html.py:857-899 | in particular without blank lines |
| `BreakLaws.CountsCanDiffer` | scripts/export_chapter_zh_html.py:885-888 | a text with a blank line after a short sentence: three offsets, two paragraphs |
| `BreakLaws.RawAgreesIff` | scripts/export_chapter_zh_html.py:857-899 | on raw text the detector's slices are the paragraphs that the reflow prints if and only if there is no soft hyphen and every carriage return stands on a blank line |
| `BreakLaws.ReflowFollowsRawIff` | scripts/export_chapter_zh_html.py:2204-2273 | without carriage returns, the reflow prints the raw text's slices if and only if no soft hyphen is there |
| `BreakLaws.ReturnDisagrees` | scripts/export_chapter_zh_html.py:857-899 | a raw text with a bare carriage return: one offset, two paragraphs |
| `ParagraphBreaks.SlicesAreGroups` | scripts/export_chapter_zh_html.py:884-899 | cutting the raw text at the offsets cuts it between groups of whole lines |
| `WidthLaws.WidthIff` | scripts/export_chapter_zh_html.py:2231-2244 | the column width is the length of a line with more than 25 characters of text, such that fewer than max(1, ⌊9n/10⌋) of the n such lines are shorter and at least as many are no longer; without such lines it is 80, and nothing else is the width |
| `WidthLaws.StopsIff` | scripts/export_chapter_zh_html.py:2251-2266 | a line ends a paragraph exactly if up to its last non-space it fills less than 65% of the width and ends in . ? ! or a full-width mark, perhaps with one closing quote or bracket behind it |
| `WidthLaws.ParagraphsDivide` | scripts/export_chapter_zh_html.py:2231-2273 | the paragraphs hold every content line once, in order; a line goes on into the next exactly if no blank line lies between and it does not stop short |
| `WidthLaws.DetectedIff` | scripts/export_chapter_zh_html.py:857-899 | the detector's offsets are 0 and the starts of exactly the lines behind one that is blank or stops short |
| `WidthLaws.ShortMiddleBreaks` | scripts/export_chapter_zh_html.py:2231-2273 | three long lines of 60, 29 and 60 characters, the second a sentence end: two paragraphs and two offsets |
| `WidthLaws.ShortMiddleExists` | scripts/export_chapter_zh_html.py:2231-2273 | there is such a text |
| `WordLaws.ReflowKeepsWords` | scripts/export_chapter_zh_html.py:2226-2273 | the words of the repaired input come out one by one, none split and none joined |
| `WordLaws.FirstSoftHyphen` | scripts/export_chapter_zh_html.py:2226-2230 | at the first soft hyphen of a text hyphen and line break go, and the repair goes on behind the letter that follows |
| `WordLaws.NoSoftHyphen` | scripts/export_chapter_zh_html.py:2226-2230 | a text without soft hyphens is left alone |
| `WordLaws.FirstReturn` | scripts/export_chapter_zh_html.py:2226-2230 | the first carriage return becomes a line feed, together with a line feed right behind it |
| `SentenceSearch.NotFoundIff` | scripts/export_chapter_zh_html.py:1062-1085 | a sentence is missed if and only if it has no words or its first three words, or all if it has fewer, can be read nowhere from the start on, whatever the whitespace |
| `SentenceSearch.FoundIsOccurrence` | scripts/export_chapter_zh_html.py:1062-1085 | where it is found, at or after the start, its first three words can be read, or all of them if it has fewer |
| `SentenceSearch.FoundIsFirst` | scripts/export_chapter_zh_html.py:1072-1084 | verbatim words win over re-spaced ones even further on; among equals the first wins |
| `SentenceSearch.WordsOfText` | scripts/export_chapter_zh_html.py:1068-1071 | the words of a text are its maximal runs of characters that are no whitespace, in order, and none is left out |
| `SentenceSearch.ReadsIff` | scripts/export_chapter_zh_html.py:1079-1084 | words can be read at the front of a text exactly if they stand there in order, with whitespace and nothing else between each two |
| `ChunkGrouping.ParagraphIndexForOffset` | scripts/export_chapter_zh_html.py:965-972 | the loop finds the last break at or before the offset |
| `ChunkGrouping.ParagraphEncloses` | scripts/export_chapter_zh_html.py:965-972 | on ascending breaks that is the one paragraph that encloses the offset |
| `ChunkGrouping.ParasAscend` | scripts/export_chapter_zh_html.py:1007-1013 | because the search cursor is monotone, later sentences never go to earlier paragraphs |
| `ChunkGrouping.Locate` | scripts/export_chapter_zh_html.py:1007-1013 | one search step: the paragraph, and the cursor behind it |
| `ChunkGrouping.CollectRecords` | scripts/export_chapter_zh_html.py:1000-1033 | the pass keeps exactly the sentences with a first-seen, non-stub target and reports exactly the missing and stub ones |
| `ChunkGrouping.BlockZhChunksGrouped` | scripts/export_chapter_zh_html.py:975-1056 | the groups are the paragraphs' buckets in stable order of target ordinals, without empty groups at the end |
| `GroupingLaws.SentencesAreAccountedFor` | scripts/export_chapter_zh_html.py:1005-1033 | every sentence is exactly one of kept, duplicate, or reported as missing or stub |
| `GroupingLaws.LaterIsDuplicate` | scripts/export_chapter_zh_html.py:1026-1029 | a target is shown for the first sentence that has it and no other |
| `GroupingLaws.KeptIsInOneBucket` | scripts/export_chapter_zh_html.py:1044-1051 | each kept sentence is in its paragraph's bucket and in no other |
| `GroupingLaws.SearchStartsIff` | scripts/export_chapter_zh_html.py:1007-1012 | a sentence is looked for from right behind the start of the last sentence found |
| `GroupingLaws.FoundFurtherOn` | scripts/export_chapter_zh_html.py:1007-1012 | so no two sentences are found in one place |
| `GroupingLaws.MissedFollows` | scripts/export_chapter_zh_html.py:1009-1013 | a sentence that is not found goes with the text right behind the start of the last one that was |
| `GroupingLaws.KeptIff` | scripts/export_chapter_zh_html.py:1022-1033 | a sentence is kept exactly if it has a translation with text that no earlier sentence had and that is no stub |
| `GroupingLaws.UntranslatedIs` | scripts/export_chapter_zh_html.py:1022-1032 | reported are exactly the sources without translation and those whose stub comes for the first time, in order |
| `GroupingLaws.GroupShows` | scripts/export_chapter_zh_html.py:1035-1051 | a group shows the translations of exactly the kept sentences of its paragraph, by ordinal, and by position where ordinals are equal |
| `GroupingLaws.TrimIs` | scripts/export_chapter_zh_html.py:1052-1055 | dropping empty groups at the end drops nothing else |
| `GroupingLaws.GroupsAreOrdered` | scripts/export_chapter_zh_html.py:1035-1051 | sentences of an earlier group precede those of a later one |
| `GroupingLaws.GroupIsSortedBucket` | scripts/export_chapter_zh_html.py:1048-1051 | a group shows its bucket, sorted by ordinal and by position where ordinals are equal |
| `GroupingLaws.FlatText` | scripts/export_chapter_zh_html.py:1088-1096 | the flattened chunks are the sorted buckets one after another |
| `GroupingLaws.FlatIsInOrderIff` | scripts/export_chapter_zh_html.py:1088-1096 | they are in sentence order if and only if ordinals do not decrease within any paragraph |
| `References.SplitReferenceCitations` | scripts/export_chapter_zh_html.py:1577-1605 | there are entries if and only if there are enough markers, and one entry per marker |
| `References.EntryHoldsMarker` | scripts/export_chapter_zh_html.py:1594-1604 | each entry holds its own marker whole and no other; every entry but the first starts with it |
| `References.AllInkIsKept` | scripts/export_chapter_zh_html.py:1592-1604 | the entries together are the text without its list mark, up to whitespace |
| `References.MarkersIff` | scripts/export_chapter_zh_html.py:1593 | the search finds every marker |
| `References.MarkerIff` | scripts/export_chapter_zh_html.py:1567 | a marker is a bracket, whitespace, at least one digit, whitespace and a closing bracket, and nothing else is |
| `References.ListMarkGoes` | scripts/export_chapter_zh_html.py:1592 | a dash, star or plus with whitespace behind it, and nothing but whitespace before it, goes with all of that whitespace; any other text is left alone |
| `BlobProtocol.ReaperIsSafe` | scripts/reap_blob_store.py:24-29 | over every interleaving of exporters, maintenance, reaper and clock that meets the three conditions, only unreferenced blobs are unlinked and no linked serviceable row loses its bytes |
| `BlobProtocol.StepKeepsInv` | scripts/reap_blob_store.py:115-182 | every step keeps the invariant behind that |
| `BlobProtocol.UnsafeUnlinkIff` | scripts/reap_blob_store.py:115-182 | in any run, an unlink is unsafe if and only if since the last read of the references a commit or maintenance step wrote a serviceable row with the blob that no later step touched, or a commit kept a version that was not dropped |
| `BlobProtocol.ReferencedSinceIff` | scripts/reap_blob_store.py:99-112 | a blob unreferenced at one point of a run is referenced at a later one if and only if a write in between references it and still stands |
| `BlobProtocol.CondemnedWasUnreferenced` | scripts/reap_blob_store.py:129-170 | whatever is condemned was unreferenced when the references were read |
| `BlobProtocol.BlobOutcome` | scripts/materialize_blob_store.py:105-121 | a blob appears only when an exporter files it, as old as the file if linked and new if copied, goes only when the reaper unlinks it, and never changes |
| `BlobProtocol.LinkedOutcome` | scripts/materialize_blob_store.py:105-121 | a row is linked by the commit of an exporter that filed its blob, and stays so until it gets another digest or goes |
| `BlobRaces.AdoptionLosesTheRace` | scripts/materialize_blob_store.py:105-121 | for every age gate, a prompt exporter that adopts an old orphan can lose its bytes |
| `BlobRaces.FailedLinkLosesTheRace` | src/book_agent/infra/storage/blobs.py:121-143 | for every age gate, a prompt exporter whose link failed is stamped anyway and can lose a blob that somebody else left |
| `BlobRaces.LateCommitLosesTheRace` | scripts/materialize_blob_store.py:105-121 | for every age gate, an exporter that links an old file and commits late can lose its bytes |
| `BlobRaces.StampingLosesTheRace` | scripts/backfill_export_paths.py:157-178 | for every age gate and every row and pass that stamps a new digest, the row can be stamped between the reaper's read and its unlink and lose its blob, with no exporter involved |
| `BlobRaces.NewDigestIff` | scripts/backfill_export_paths.py:93-178 | a pass leaves a serviceable row with a new digest exactly if it is a backfill that hashes the row, or a verification that hashes rows without digest, of a row that is not stale and whose file is there with other bytes than recorded |
| `BlobRaces.PassIsSupportedIff` | scripts/backfill_export_paths.py:157-178 | where sentinel rows are stale, a pass breaks the third condition exactly by stamping the digest of a blob that is neither referenced nor young |
| `BlobScripts.ReferencedShas` | scripts/reap_blob_store.py:99-112 | exactly the digests of serviceable rows and retained versions |
| `BlobScripts.BlobTree.Scan` | scripts/reap_blob_store.py:115-170 | every unreferenced blob is sorted into old enough or too young, once |
| `BlobScripts.BlobTree.Apply` | scripts/reap_blob_store.py:173-182 | exactly the orphans go; the reported bytes are the bytes that are gone |
| `BlobScripts.BlobTree.Reap` | scripts/reap_blob_store.py:115-182 | one undisturbed cycle leaves exactly the referenced and the young blobs, unchanged |
| `BlobScripts.BytesWithout` | scripts/reap_blob_store.py:173-182 | the byte count does not depend on the order of removal |
| `BlobScripts.StaysIff` | scripts/reap_blob_store.py:99-170 | a blob stays exactly if it is retained history, younger than the minimum age, or the recorded digest of a succeeded row that has no stale_reason and no sentinel path |
| `BlobScripts.BlobTree.Materialise` | scripts/materialize_blob_store.py:105-121 | link, copy or adopt; an existing blob is never touched |
| `BlobScripts.BlobTree.MaterialiseAll` | scripts/materialize_blob_store.py:124-183 | the tree becomes the filled tree: it gains exactly the wanted blobs and stays addressed by content; the report counts filed, mismatched, missing, digest-less and unrecoverable rows, and there are as many links and copies as the tree grew by |
| `BlobScripts.BlobTree.FileRow` | scripts/materialize_blob_store.py:133-175 | what becomes of one row |
| `BlobScripts.OneFate` | scripts/materialize_blob_store.py:133-175 | every row has exactly one fate, told by its columns and the file at its path, and only the rows whose file has the recorded digest call for a blob |
| `BlobScripts.FilledGains` | scripts/materialize_blob_store.py:124-183 | filling gains exactly the wanted blobs, changes none that was there and keeps the tree addressed by content |
| `BlobScripts.FilledTwice` | scripts/materialize_blob_store.py:124-183 | a later run over the same rows changes nothing |
| `BlobScripts.BlobTree.MaterialiseTwice` | scripts/materialize_blob_store.py:124-183 | after two runs the tree is the one the first run left, and the second finds every blob in place |
| `Ledger.ExportsTable.ScanHeal` | scripts/heal_exports_by_basename.py:65-108 | exactly the rows whose file is gone and whose basename is found are fixable, with the path that is stored |
| `Ledger.ExportsTable.ApplyHeal` | scripts/heal_exports_by_basename.py:111-117 | exactly the fixable rows get a new path |
| `Ledger.ExportsTable.Heal` | scripts/heal_exports_by_basename.py:65-117 | the whole table becomes its healed version |
| `Ledger.ExportsTable.ScanBackfill` | scripts/backfill_export_paths.py:93-154 | rows needing a hash are split into computed and missing |
| `Ledger.ExportsTable.ApplyBackfill` | scripts/backfill_export_paths.py:157-178 | stamps the computed rows, marks the missing ones, touches no other |
| `Ledger.ExportsTable.Backfill` | scripts/backfill_export_paths.py:93-178 | the whole table becomes its backfilled version |
| `Ledger.ExportsTable.ScanVerify` | scripts/verify_exports.py:94-172 | rows due are split into matched, drifted and missing |
| `Ledger.ExportsTable.MarkAll` | scripts/verify_exports.py:190-209 | marks exactly the given rows, keeping a stale_reason that is already set |
| `Ledger.ExportsTable.RefreshAll` | scripts/verify_exports.py:175-190 | refreshes exactly the matched rows |
| `Ledger.ExportsTable.ApplyVerify` | scripts/verify_exports.py:175-209 | refreshes and marks exactly the judged rows |
| `Ledger.ExportsTable.Verify` | scripts/verify_exports.py:94-209 | the whole table becomes its verified version |
| `LedgerRules.VerifyOutcome` | scripts/verify_exports.py:94-209 | a row that is due and has no stale_reason ends missing_at_verify exactly if its file is gone, content_drift exactly if the file is there and a recorded digest differs, and else with the file's digest, stamped now; nothing else of it changes |
| `LedgerRules.VerifyLeavesAlone` | scripts/verify_exports.py:94-126 | any other row is left as it is, and so is every stale_reason |
| `LedgerRules.BackfillOutcome` | scripts/backfill_export_paths.py:93-178 | a row that wants a digest gets digest, size and stamp of its file, or is marked missing_at_backfill if it has no stale_reason; any other row is left as it is |
| `LedgerRules.HealOutcome` | scripts/heal_exports_by_basename.py:56-117 | a succeeded row whose file is gone gets the stored form of the first of the two places where a file of its name is; any other row is left as it is |
| `LedgerLaws.PassesKeepSound` | scripts/verify_exports.py:94-209 | any sequence of heal, backfill and verify keeps 'a stamped row that is not stale matches its file', unless a spoiled sentinel row was there |
| `LedgerLaws.HealKeepsSoundIff` | scripts/heal_exports_by_basename.py:65-117 | healing keeps it if and only if the row is not a stamped, non-stale sentinel whose basename is found with other bytes |
| `LedgerLaws.HealCanSpoil` | scripts/heal_exports_by_basename.py:65-117 | a row that shows it: stamped, not stale and yet a sentinel, which no script leaves |
| `LedgerLaws.StaleSentinelsStaySound` | alembic/versions/20260422_0028_exports_integrity_fields_and_path_check.py:66-95 | if sentinel rows are stale, as they are written, they stay so, and no sequence of passes ever spoils a row |
| `LedgerLaws.PassRevivesNothing` | scripts/verify_exports.py:94-209 | and then no pass makes a row serviceable without giving it a digest |
| `LedgerLaws.BackfillKeepsSound` | scripts/backfill_export_paths.py:93-178 | backfilling keeps a sound row sound |
| `LedgerLaws.VerifyKeepsSound` | scripts/verify_exports.py:94-209 | verifying keeps a sound row sound |
| `LedgerLaws.StaleReasonsStick` | scripts/verify_exports.py:190-209 | no sequence of passes alters a stale_reason once it is set |
| `LedgerLaws.HealIsIdempotent` | scripts/heal_exports_by_basename.py:65-117 | a healed row is not fixable again |
| `LedgerLaws.BackfillIsIdempotentIff` | scripts/backfill_export_paths.py:93-178 | a second backfill has nothing left to hash or mark, except exactly for a row with a missing file and an empty stale_reason or a file with an empty digest; it changes nothing, stamps of the latter aside |
| `LedgerLaws.VerifyAgainIff` | scripts/verify_exports.py:94-172 | a second verification finds a row due if and only if the stamp has left the time-to-live |
| `LedgerLaws.VerifyEstablishes` | scripts/verify_exports.py:94-209 | every row looked at ends sound, drifted and vanished files included |
| `LedgerLaws.RecomputeEstablishes` | scripts/backfill_export_paths.py:93-178 | a recomputing backfill leaves every row it may touch sound, and stamped or stale |
| `LedgerLaws.StoredResolves` | scripts/heal_exports_by_basename.py:85-108 | a healed path means the same file however it is stored, and is never the sentinel |
| `LedgerRules.StoredIff` | scripts/heal_exports_by_basename.py:85-108 | the stored form is the path without root and slash if it lies under the root, and else the path |
| `LedgerLaws.Maintain` | scripts/verify_exports.py:94-209 | the three passes one after another keep a sound table sound |
| `TsLaws.TypeReadsBack` | scripts/generate_frontend_api_types.py:21-49 | printed text, read with TypeScript's precedence in any position it can stand in, is the intended union |
| `TsLaws.MemberReadsBack` | scripts/generate_frontend_api_types.py:21-49 | text without a bar, and every form but a union, reads back as one member even with [] behind it |
| `TsLaws.ItemReadsBack` | scripts/generate_frontend_api_types.py:40-42 | an array's item is always read as the whole item: unions are parenthesised |
| `TsMeaning.RoundTrip` | scripts/generate_frontend_api_types.py:21-49 | printing and parsing gives back the intended type |
| `TsMeaning.SameTextSameType` | scripts/generate_frontend_api_types.py:24-26 | options that print alike mean the same type, so dropping duplicates is harmless |
| `TsMeaning.CompileIsSound` | scripts/generate_frontend_api_types.py:21-49 | every value valid against a schema inhabits the type that its printed text denotes |
| `TsMeaning.CompileIsExact` | scripts/generate_frontend_api_types.py:21-49 | for schemas that say no more than a type can, the type admits exactly the values that are valid when every integer is read as number |
| `TsMeaning.CompileIsExactWithoutIntegers` | scripts/generate_frontend_api_types.py:21-49 | so without integers it admits the valid values and no others |
| `TsMeaning.WidenedIsSound` | scripts/generate_frontend_api_types.py:35-36 | reading integers as numbers excludes no value that was valid |
| `TsRules.UnionIs` | scripts/generate_frontend_api_types.py:24-26 | a union prints its options' texts with bars between, every text once, where an option first prints it, and no other text |
| `TsRules.ReferenceIs` | scripts/generate_frontend_api_types.py:22-23 | a reference prints what follows its last slash |
| `TsLimits.TypeParsesIff` | scripts/generate_frontend_api_types.py:21-49 | a schema with plain names and readable literals prints a type if and only if no anyOf or enum in it is empty, wherever it stands |
| `TsLimits.EnumIsSoundIff` | scripts/generate_frontend_api_types.py:27-28 | an enum of readable literals (no string with a quote, a backslash or a line end) is sound if and only if it is not empty and every boolean or null in it that the other keywords allow is admitted by a component named like some printed word |
| `TsLimits.ConstIsSoundIff` | scripts/generate_frontend_api_types.py:29-31 | a readable const (no string with a quote, a backslash or a line end) is sound if and only if it is a string or number, or the type keyword excludes it, or a component named True, False or None admits it |
| `TsLimits.StringLiteralReadsBackIff` | scripts/generate_frontend_api_types.py:27-31 | a string literal reads back if and only if it holds no quote, no backslash and no line end |
| `TsLimits.ReferenceReadsBackIff` | scripts/generate_frontend_api_types.py:22-23 | a reference reads back as a name if and only if its last segment is an identifier |
| `TsLimits.ReadNames` | scripts/generate_frontend_api_types.py:22-23 | whatever text is read, a name that comes out is an identifier |
| `TsLimits.RecordIsSoundIff` | scripts/generate_frontend_api_types.py:43-48 | what prints as a record is sound if and only if type is object and every value a listed property allows would do as an additional one, where additional ones are typed |
| `TsDocument.DocumentReadsBackIff` | scripts/generate_frontend_api_types.py:52-65 | the whole generated file, read as TypeScript declarations, is one declaration per component with the intended name, fields, optional marks and types, if and only if the names of all components and properties are identifiers and no component has a built-in name (every printed schema being printable) |
| `TsDocument.DocumentIsSound` | scripts/generate_frontend_api_types.py:52-65 | if the component names mean values that the components allow, they mean values that the printed declarations allow, however components refer to each other |
| `TsDocument.DocumentIsExact` | scripts/generate_frontend_api_types.py:52-65 | for components that say no more than their declarations, the printed declarations have exactly the models of the components with every integer read as number |
| `TsDocument.ObjectsOnlyIff` | scripts/generate_frontend_api_types.py:60-64 | an interface is sound if and only if its component allows nothing but objects |
| `TsDocument.InterfaceIsSoundIff` | scripts/generate_frontend_api_types.py:60-64 | unless a reference, anyOf, enum or const stands beside the properties, that is the case if and only if the component has type object, whatever additionalProperties or items say |
| `VisualParagraphs.SplitIntoVisualParagraphs` | scripts/render_bilingual_subset.py:259-289 | the loop computes the declared split; both final filters change nothing |
| `VisualParagraphs.ParagraphsKeepInk` | scripts/render_bilingual_subset.py:259-289 | splitting loses and moves no content |
| `VisualParagraphs.ParagraphsAreTrimmed` | scripts/render_bilingual_subset.py:287-289 | no paragraph is blank or padded; there is none if and only if the source is blank |
| `VisualParagraphs.BreaksAreTails` | scripts/render_bilingual_subset.py:277-286 | paragraphs break behind every short tail line but the last, and nowhere else |
| `VisualParagraphs.ChunksHoldLines` | scripts/render_bilingual_subset.py:277-286 | every line is in exactly one paragraph, in order |
| `VisualRules.ThresholdIs` | scripts/render_bilingual_subset.py:274-275 | the threshold is 55% of the median line length, the median told by counting, and at least 20 |
| `VisualRules.TailIff` | scripts/render_bilingual_subset.py:283-284 | a tail has at most that many characters and ends a sentence, a closing quote or bracket behind a full stop allowed |
| `VisualRules.SplitCuts` | scripts/render_bilingual_subset.py:277-289 | a text of several lines is cut behind every short tail but the last line, and nowhere else |
| `BilingualParagraph.FillBuckets` | scripts/render_bilingual_subset.py:831-848 | the search loop places every sentence as declared |
| `BilingualParagraph.FindChunk` | scripts/render_bilingual_subset.py:841-846 | forward search from the cursor |
| `BilingualParagraph.PlaceIsFirst` | scripts/render_bilingual_subset.py:839-848 | a sentence goes to the first chunk ahead that contains its first forty characters, else it stays at the cursor |
| `VisualRules.BucketsFollow` | scripts/render_bilingual_subset.py:831-848 | from where the last sentence went, a sentence goes to the first paragraph that holds its opening, and to that same place if none does; every bucket holds the sentences that go to it, in order |
| `BilingualRules.EntryIs` | scripts/render_bilingual_subset.py:834-838 | a sentence is looked for by the first forty characters of its words, joined by single spaces, and skipped exactly if it is blank |
| `BilingualRules.NormalIsWords` | scripts/render_bilingual_subset.py:832-838 | collapsed and stripped, a text is its words with single spaces between |
| `BilingualRules.CleanKeepsWords` | scripts/render_bilingual_subset.py:340-343 | cleaning changes whitespace only |
| `BilingualRules.ChunksAre` | scripts/render_bilingual_subset.py:819-824 | the visual paragraphs hold the source's content in order, and there is none only if it is blank; without a source the normalized text is the only one |
| `BilingualRules.ParagraphShows` | scripts/render_bilingual_subset.py:851-881 | line k shows in English the words of the sentences placed in paragraph k, or of the paragraph itself if there are none, and in Chinese the translations of these sentences; the first line also shows the held note |
| `BilingualParagraph.BucketsKeepSentences` | scripts/render_bilingual_subset.py:831-848 | concatenating the buckets gives the non-blank sentences once each, in order |
| `BilingualParagraph.CutsIff` | scripts/render_bilingual_subset.py:547-560 | a Chinese text is cut at every sentence boundary and nowhere else |
| `BilingualRules.SentenceEndsIff` | scripts/render_bilingual_subset.py:547 | boundaries lie behind 。！？ before other text that is no closing bracket, and behind such a mark with one closing bracket |
| `BilingualParagraph.SplitKeepsInk` | scripts/render_bilingual_subset.py:550-560 | splitting loses nothing |
| `BilingualParagraph.ExpandMergedTargets` | scripts/render_bilingual_subset.py:563-592 | redistributes exactly when one merged text splits into as many parts as there are sentences, and otherwise changes nothing |
| `BilingualRules.RedistributesIff` | scripts/render_bilingual_subset.py:563-581 | a translation is redistributed exactly if it is the only one, for several sentences, and splits into as many parts |
| `BilingualParagraph.MergedTextIsKeptIff` | scripts/render_bilingual_subset.py:563-592 | a redistributed translation comes out whole and in order, however the sentences fall into paragraphs, if and only if no source sentence is blank |
| `NoteCallouts.RenderParagraph` | scripts/render_bilingual_subset.py:819-883 | every visual paragraph gets a line; a held note goes into the first and is then gone |
| `NoteCallouts.EmitPassages` | scripts/render_bilingual_subset.py:851-881 | the loop emits one line for each passage and gives the note to the first |
| `NoteCallouts.LinesCall` | scripts/render_bilingual_subset.py:866-881 | a paragraph with a held note shows exactly that note, once |
| `NoteCallouts.EnIsNotEmpty` | scripts/render_bilingual_subset.py:852-864 | the test that skips an empty paragraph never fires, so the first is always there to take the note |
| `NoteCallouts.RenderBlock` | scripts/render_bilingual_subset.py:658-918 | what each kind of block does to a held note; a block that holds a note emits nothing |
| `NoteCallouts.Render` | scripts/render_bilingual_subset.py:970-1114 | the merged counter counts the callouts shown, and what is pending is the note held last |
| `NoteCallouts.HeldIff` | scripts/render_bilingual_subset.py:724-738 | a note is held exactly while nothing but quiet blocks follow it |
| `NoteCallouts.MergesIff` | scripts/render_bilingual_subset.py:866-877 | a note goes into the next emitted paragraph, unless another note comes first |
| `NoteCallouts.MergedAtMostOnce` | scripts/render_bilingual_subset.py:866-877 | no note is merged twice |
| `NoteCallouts.NotesAreAccountedFor` | scripts/render_bilingual_subset.py:724-738 | notes seen are notes merged plus overwritten plus still held |
| `BilingualRules.EventIs` | scripts/render_bilingual_subset.py:682-738 | a NOTE heading with text is held back unless it is demoted or suppressed; a block that counts as a paragraph takes a held note unless it is empty, a page header or a label dump; no other block matters to it |
| `BilingualRules.NoteIs` | scripts/render_bilingual_subset.py:724-738 | the held note is the heading's text and the first translation of its sentences that has any text |
| `BilingualRules.FilteredIff` | scripts/render_bilingual_subset.py:675-703 | nothing comes of a block exactly if it has no text and is no figure, or is a page header that counts as a paragraph or is a footnote, or a label dump |
| `ClaimLoop.NeverOvershoots` | scripts/run_real_book_live.py:969-1007 | with one runner, successes in the database plus uncommitted items never exceed the slice cap, although claims use a stale summary |
| `ClaimLoop.StepKeepsInv` | scripts/run_real_book_live.py:942-1091 | the invariant behind it holds over every step of main thread, workers and other runners |
| `ClaimLoop.OvershootIsForeign` | scripts/run_real_book_live.py:969-1007 | every commit by another runner costs at most one success over the cap |
| `ClaimLoop.TwoRunnersOvershoot` | scripts/run_real_book_live.py:969-1007 | for every cap, worker limit and number of commits by other runners, a run in which each of these costs one success over the cap: the bound is attained |
| `ClaimLoop.NeverTooManyWorkers` | scripts/run_real_book_live.py:969-970 | in-flight futures never exceed the worker limit |
| `ClaimLoop.TargetMeansFinished` | scripts/run_real_book_live.py:1045-1062 | when the summary says that the target is reached it is reached exactly, and no worker is still at it: the pause abandons nothing |
| `ClaimLoop.EndsWhenDone` | scripts/run_real_book_live.py:1012-1095 | unless interrupted, the loop ends only when the summary shows the run paused or over and no future is under way |
| `ClaimLoop.NothingAboveTheCap` | scripts/run_real_book_live.py:482-498 | a run that starts at or above the cap claims nothing |
| `ClaimLoop.ReachesTheCap` | scripts/run_real_book_live.py:969-1062 | from below: without other runners there is a run that gets any number of items up to the cap done |
| `ClaimLoop.ClaimsIff` | scripts/run_real_book_live.py:482-498 | a claim is made exactly if a worker is free and items done and under way stay below the cap |
| `ClaimLoop.NeverStuck` | scripts/run_real_book_live.py:969-1007 | with nothing under way and the cap not reached, any item can be claimed |
| `ClaimLoop.PausesAtTheTarget` | scripts/run_real_book_live.py:1045-1062 | the loop pauses as soon as a reread summary shows the target, and stops when nothing is under way |
| `ClaimLoop.EffectiveWorkers` | scripts/run_real_book_live.py:935-940 | at least one worker, no more than asked for and budgeted beyond that, and one of these limits is attained |
| `Descendants.CollectDescendantPids` | scripts/watch_real_book_live.py:147-160 | terminates on any process table, cyclic ones included, with exactly the pids that the root reaches |
| `Descendants.ChildMap` | scripts/watch_real_book_live.py:148-150 | the map lists exactly the children of each parent |
| `Descendants.ClosedHoldsReachable` | scripts/watch_real_book_live.py:153-159 | a set closed under children holds everything reachable |

## Left out

- Figure geometry: bounding boxes, image rendering, sidebar detection and the suppression of text inside figures; the last only removes blocks and is one of the arbitrary filters.
- The text classifiers (page artifact, running header, heading shape, diagram labels, stub translation, prose-like code): attributes, since their content is heuristic.
- HTML, Markdown and CSS layout of units, source folds, statistics and reports: only which blocks a unit carries is modelled.
- Which caption a figure shows: after the cluster pass its text is looked up again by anchor, by pairing or in the database; the model takes any map from figures to captions, and the account counts what it shows.
- PDF first-line-indent offsets: only that the breaks are an ascending list starting at 0.
- SQL, sessions, the layout walk of the blob tree, symbolic links and trailing slashes in paths: rows, digests and normal paths stand for them.
- The order of the components in the generated types: the model takes them as sorted. A component's name means the same on both sides.
- Escapes in TypeScript string literals, which the printer never writes and the reader rejects; property names in quotes; digits and letters outside ASCII in names, numbers and citation markers.
- Lease, budget and run services behind the live runner: commit, failure, refresh and the result of a claim are environment steps, and any item may be claimed.
- Chapter banners, callout images and the suppression of their duplicates in the bilingual renderer: a suppressed block is an attribute.
- BilingualParagraph.MergedTextIsKeptIff: does not cover the removal of the model's own remarks from a translation, because that is a text classifier.
- BlobProtocol.ReaperIsSafe: does not cover a second reaper running at the same time, nor the deletion of a document, which also unlinks blobs, without an age gate and without looking at retained versions (src/book_agent/services/document_files.py:73-87).
- TsLimits.ConstIsSoundIff: does not cover strings with a quote, a backslash or a line end, because such a text can spell any type; whether it reads back is StringLiteralReadsBackIff.
- TsLimits.EnumIsSoundIff: does not cover such strings either.
- Ledger.ExportsTable.MarkAll: does not model the order of the UPDATE statements, because rows are independent.
