# Verified models of exp-cli

These Dafny files model the parts of exp-cli whose correctness depends on more
than one function or on a whole run, and prove what those parts are for. Code
that works step by step is a method with loops, proved against a specification;
the properties are lemmas about that specification, for all inputs.

| file | subject |
|---|---|
| `EditDistance.dfy` | command suggestions: the two-row edit distance is the least number of single-character edits, and a metric; the one-pass filter keeps every nearest command |
| `DisplayCodes.dfy`, `Ordering.dfy` | short display codes: the neighbour scan agrees with the all-pairs search, and codes resolve back |
| `CompletionBuilder.dfy` | the capped, de-duplicating completion list |
| `TerminalText.dfy` | control sequences, stripping, display width, truncation |
| `Styling.dfy`, `Renderers.dfy`, `DocumentRenderers.dfy` | a small terminal, and what human output, guides and help show on it |
| `HumanTable.dfy` | column alignment |
| `ReleasePublication.dfy`, `ReleaseScript.dfy`, `ReleaseRaces.dfy` | the release protocol under interleaving and cut-offs, the code as its refinement, and runs that compete |
| `ArgvTokenizer.dfy` | the argument tokenizer, its grammar, and quoting printers |
| `PromotionChain.dfy` | the promotion chain walk |
| `PlanRequest.dfy` | the strict inspector of Plan requests |
| `DedicatedRepository.dfy` | repository creation with undo |
| `Fingerprints.dfy` | framing before hashing |
| `PlanRefresh.dfy` | Plan refresh and dequeueing |
| `Prelude.dfy` | shared helpers |

`dafny verify dfyconfig.toml` checks everything.

What the models take as given: strings are sequences of Unicode characters
(valid UTF-8), or of byte-valued characters in `Fingerprints.dfy`; the Unicode
tables, lower-casing and text sanitisers are parameters, of which only the few
facts named in the `Standard` predicates are used; library sorting is a stable
insertion sort, whose result is the only one possible for the keys sorted here.
Remote calls, filesystem calls and `git` can fail at any point. A release call names
a tag: it is taken to hit the published release if there is a visible one, and else
a visible draft; if several drafts are visible it may hit any of them or refuse,
because only the listing of releases rejects duplicates (scripts/release.py:144-145).

Results that differ from what a reader might expect:

- A Finding whose display code has only decimal digits (`F-01912345`) is read by
  the resolver as a legacy alias, so the code does not name the record although
  the resolver's comment says it accepts display codes. `CodeResolves` gives the exact condition and
  `DecimalFindingCodeIsLost` an instance.
- Painting a word inside an already painted label or severity ends the outer
  style there: every painted word writes a full reset. `Sem` says which cells keep
  which style.
- Stripping control sequences twice can remove more than stripping once.
  `StripTwice` gives the exact condition: outside complete sequences, an ESC comes
  right before a "[", and a final character follows further on.
- The check that a truncated text does not already end in a reset never fails,
  because the text ends in the ellipsis.
- Release runs create a release exactly if none is visible when they start
  (`CreationExactly`), so two of them can create two drafts (`SecondReleaseExactly`).
  Uploading, downloading and publishing do not notice duplicates: a run can verify one
  draft and publish the other, which may be incomplete (`TwoRunsPublishIncomplete`).
  `SafetyExactly` says from which releases this cannot happen in any interleaving:
  nothing is expected; or a release is published; or one is visible, and it is the
  only one or all are complete. `AnyWorldResumes` says exactly when a fresh run is sure
  to succeed, and when it can.
- A NaN utility passes the reassessment check of Plan refresh, as no comparison holds
  of it (`CompleteUtility`).
- The stream hashed for an adoption has no marker for a missing document.
  `AdoptionCollides` says exactly which inputs share a stream, and
  `TypedAdoptionsDiffer` that Try and Idea IDs, which carry their kinds, never do.
- A wizard frame can be read in one way only exactly if no field contains a NUL
  (`FrameReadsOneWay`); a NUL in the status alone does no harm among observations
  whose other fields have none (`FrameIsInjective`).

## Model

| member | source | states |
|---|---|---|
| EditDistance.ComputeDistance | internal/cli/usage.go:50-72 | the two rows compute the recursive distance, for all strings |
| EditDistance.DistanceIsMetric | internal/cli/usage.go:50-72 | the distance is zero only for equal strings, symmetric, and obeys the triangle inequality |
| EditDistance.NoScriptIsShorter | internal/cli/usage.go:64-67 | no sequence of inserts, deletes and substitutions, at any positions and in any order, is shorter than the distance |
| EditDistance.ShortestScript | internal/cli/usage.go:64-67 | some edit sequence has exactly the distance as its length |
| EditDistance.DistanceIsLeastScriptLength | internal/cli/usage.go:50-72 | a number is the distance if and only if it is the least length of an edit sequence |
| EditDistance.CommandSuggestions | internal/cli/usage.go:26-48 | Cobra's suggestions win; otherwise the names at an increasing list of places, which are exactly the available commands within distance three that none is nearer than |
| EditDistance.AtDistanceHolds | internal/cli/usage.go:33-46 | a name is suggested exactly when an available command of that name is at the least distance |
| DisplayCodes.CommonPrefixLength | internal/cli/completion.go:285-292 | the index loop finds the longest common prefix |
| DisplayCodes.CompletionDisplayCodes | internal/cli/completion.go:254-283 | an ID has a code exactly when its kind has a letter and exactly one document has it, and the code is the letter, a dash and the shortest of at least eight digits with which no other ID of the kind begins |
| DisplayCodes.NeighboursDominate | internal/cli/completion.go:268-276 | in sorted order the prefix shared with any ID is bounded by one shared with a neighbour |
| DisplayCodes.NeighbourLengthIsShortest | internal/cli/completion.go:268-276 | the length taken from the two neighbours is the all-pairs shortest unambiguous length |
| DisplayCodes.LengthFitsIffOnce | internal/cli/completion.go:277-279 | the length fits into the digits exactly for IDs that occur once |
| DisplayCodes.CommonPrefixLengths | internal/cli/completion.go:269-276 | the length is eight or one more than the longest prefix shared with another ID of the kind |
| DisplayCodes.DisplayCode | internal/research/resolve.go:26-52 | the resolver's search returns the shortest of at least eight digits with which no other candidate of the kind begins, for every non-zero ID whose kind has a letter; its last error is unreachable |
| DisplayCodes.ScanRefinesSearch | internal/research/resolve.go:35-51 | the neighbour scan stores exactly the resolver's code if and only if the ID occurs once |
| DisplayCodes.OrderIndependent | internal/cli/completion.go:254-283 | the codes do not depend on the order of the documents |
| DisplayCodes.CodesArePrefixFree | internal/cli/completion.go:277-279 | no stored code begins another |
| DisplayCodes.CodeResolves | internal/research/resolve.go:57-107 | a shortest code resolves to its record if and only if it is not an all-decimal Finding code, or that record alone carries the alias |
| DisplayCodes.DecimalFindingCodeIsLost | internal/research/resolve.go:73-85 | a Finding whose digits begin with eight decimal ones is not found by its own code |
| DisplayCodes.ResolveExactly | internal/research/resolve.go:57-107 | every answer: a query of another kind than the expected one is refused; else the answer is the one candidate the query asks for, none if there is none, ambiguous if there are more |
| DisplayCodes.CodeOfOtherKind | internal/research/resolve.go:88-92 | the shortest code of an ID of another kind than the expected one is refused |
| CompletionBuilder.Builder.Add | internal/cli/completion.go:586-603 | after any sequence of offers the list holds the first hundred distinct admissible values, and is marked truncated exactly when there were more; what is admissible and what one offer changes |
| CompletionBuilder.Builder.Values | internal/cli/completion.go:605-612 | the returned list is the stable sort of the list by value, strictly increasing |
| CompletionBuilder.Builder.Capped | internal/cli/completion.go:614-622 | the capped notice is given exactly when more than a hundred distinct values were offered |
| CompletionBuilder.FirstOccurrences | internal/cli/completion.go:586-603 | the distinct admissible offers are exactly the first occurrences, each with its own description, in the order offered |
| CompletionBuilder.KeyOfItem | internal/cli/completion.go:605-610 | the text before the first tab of an entry is its value |
| TerminalText.AnsiSequenceEnd | internal/cli/render.go:175-185 | the end of the control sequence that starts at a position, or the position itself |
| TerminalText.StripANSI | internal/cli/render.go:187-200 | the index loop removes exactly the complete sequences |
| TerminalText.DisplayWidth | internal/cli/render.go:136-148 | the index loop sums the widths of what is outside complete sequences |
| TerminalText.ClosedAppend | internal/cli/render.go:136-148 | text without dangling sequences is stripped and measured independently of what follows |
| TerminalText.StripTwice | internal/cli/render.go:187-200 | stripping twice equals stripping once if and only if no ESC joins a later "[" when the sequences between them go, with a final character left after it; and a text where it does not |
| TerminalText.ClosedStripIsEscFree | internal/cli/render.go:187-200 | on text whose sequences are complete, stripping removes every ESC and is idempotent |
| TerminalText.TruncateDisplay | internal/cli/render.go:204-236 | the result is the value if it fits; else the front up to the first visible character that leaves no column for the ellipsis, the ellipsis, and a reset exactly if the front holds a sequence |
| TerminalText.KeptWidth | internal/cli/render.go:211-235 | kept front, ellipsis and reset take at most one column more than the budget, even when the front ends inside a control sequence |
| TerminalText.DanglingReset | internal/cli/render.go:231-234 | a dangling control sequence swallows the ellipsis and half of the appended reset |
| TerminalText.TruncatedFits | internal/cli/render.go:202-236 | for every text and limit the result is no wider than the limit, and truncation is idempotent |
| TerminalText.FitIsMaximal | internal/cli/render.go:215-230 | the cut is tight: the first dropped character is visible and did not fit |
| TerminalText.WidthOfStripped | internal/cli/render.go:136-148 | the width of a text is the sum of the widths of the characters stripping leaves |
| Styling.PaintCells | internal/cli/color.go:101-117 | painted text shows the text in the role's style on top of the current one, and resets |
| Styling.StripIsChars | internal/cli/render.go:187-200 | stripping gives the characters a terminal shows |
| Styling.TruncatedIsReset | internal/cli/render.go:231-234 | a text whose sequences are complete leaves the terminal reset when it is cut |
| Renderers.PaintHeaderColumns | internal/cli/color.go:205-225 | exactly the characters that are not spaces show in the header style |
| Renderers.LooksLikeTableHeader | internal/cli/color.go:184-203 | the loop decides the header rule: a tab or double space, a letter, no lower-case letter, no other punctuation |
| Renderers.PaintSemanticTokens | internal/cli/color.go:254-281 | each maximal word that is a known state shows in its role on top of the current style, which it ends; nothing else changes |
| Renderers.SemAt | internal/cli/color.go:254-281 | the style of each character of an ESC-free text, in terms of words alone: that of the word it lies in if that is a known state, on top of the outer styles until the first known state has ended |
| Renderers.StateSpelling | internal/cli/color.go:122-137 | spaces around a state, its case, and "-" for "_" make no difference to its role |
| Renderers.SemKeepsText | internal/cli/color.go:254-281 | painting words keeps the text and leaves a reset terminal reset |
| Renderers.SemThenReset | internal/cli/color.go:244-251 | in already painted text, words before the reset are painted over its style and words after it over none |
| Renderers.PaintHumanLine | internal/cli/color.go:227-252 | a severity word, or else a label of at most 32 bytes, shows in its role, and words are painted over it and over the rest |
| Renderers.EmphasisExactly | internal/cli/color.go:231-249 | what is painted before the words: ERROR, WARNING or INFO at the start, alone or before a space; else a label up to the first colon, within 32 bytes and without a tab; else nothing |
| Renderers.TrimExactly | internal/cli/color.go:185 | trimming removes the spaces in front and behind, and no more |
| DocumentRenderers.RenderSemanticHuman | internal/cli/color.go:156-182 | for every ESC-free text, stripping returns it; with styling on, the output is one piece for each line, which shows as a header or as a human line, and no style leaks |
| DocumentRenderers.RenderGuideInline | internal/cli/color.go:363-386 | spans between double asterisks are strong, spans between backquotes code, everything else plain |
| DocumentRenderers.SpansExactly | internal/cli/color.go:366-383 | a strong span ends at the first two asterisks behind its opening, a code span at the first backquote; an opening without its end is plain |
| DocumentRenderers.RenderGuideMarkdown | internal/cli/color.go:330-361 | for every ESC-free text, stripping returns it; the output is one piece for each line: fences are labels, lines after an odd number of fences code, headings titles, others have spans |
| DocumentRenderers.RenderCobraHelp | internal/cli/color.go:287-315 | for every ESC-free text, stripping returns it; line by line, headings, first columns and other lines show as the section in force demands |
| DocumentRenderers.PaintedColumn | internal/cli/color.go:317-328 | the first column of an indented help line, up to a double space, shows as code and nothing else does |
| DocumentRenderers.FirstColumnExactly | internal/cli/color.go:317-328 | the first column lies behind a non-empty indent and ends at the first double space, or with the line |
| DocumentRenderers.SectionExactly | internal/cli/color.go:296-308 | the section in force is the last heading, unless a blank line follows it |
| DocumentRenderers.PartsExactly | internal/cli/color.go:160-172 | every part but the last is a line and its newline, and no line has a newline |
| HumanTable.IndentShifts | internal/cli/render.go:63-68 | the indent only stands before each row and changes nothing else in it |
| HumanTable.Table.Add | internal/cli/render.go:43-54 | a row has one cleaned cell per header: missing cells empty, surplus dropped |
| HumanTable.WriteTableRow | internal/cli/render.go:112-128 | the row is the indent, the cells, each but the last followed by the spaces up to two columns behind its column, and a newline |
| HumanTable.MeasureColumns | internal/cli/render.go:74-86 | each column is as wide as its widest cell, the shown header included, and no wider |
| HumanTable.Table.Render | internal/cli/render.go:70-102 | the output is the header row, if shown, and then one line for each row, in order, all with the same column widths |
| HumanTable.RowLines | internal/cli/render.go:97-101 | the written rows are the lines of the rows, each once and in order |
| HumanTable.RenderedRowsFit | internal/cli/render.go:74-100 | every written row, the painted header included, fits the measured widths |
| HumanTable.CellsAlign | internal/cli/render.go:112-128 | every row starts cell j in the same display column, and each cell ends two columns before the next starts |
| HumanTable.CellInRow | internal/cli/render.go:115-124 | the row begins with what precedes cell j, then cell j |
| HumanTable.StrippedRow | internal/cli/render.go:87-95 | stripping a row of painted headers gives the row of plain ones |
| ReleasePublication.StepIsSafe | scripts/release.py:165-199 | one call by one run on settled releases, whatever it hits: releases only grow and stay good and settled, nothing is added to a published one, and what runs have learned stays right |
| ReleasePublication.DraftsBegin | scripts/release.py:165-178 | any number of stable drafts with correct assets is a starting point, and a single visible one is a safe one |
| ReleasePublication.EveryInterleavingIsSafe | scripts/release.py:165-199 | from a safe start, one visible draft among them, in every interleaving of any number of runs, each cut off anywhere, whatever calls hit: at most one release is published, with exactly the expected names and digests; assets never change; nothing is added after publication; success means a published release |
| ReleasePublication.StepDescends | scripts/release.py:165-199 | every call brings a run closer to its end, whatever the remote answers |
| ReleasePublication.CreatesOnce | scripts/release.py:166-178 | within a run, create happens at most once and only right after a lookup that found no release, whatever other runs do |
| ReleasePublication.RunOutcome | scripts/release.py:165-199 | an undisturbed run on a visible release ends published and complete exactly if the release is stable, correct, and a draft or complete; otherwise it fails and changes nothing; a complete published release is unchanged |
| ReleasePublication.CutOffRunResumes | scripts/release.py:166-199 | a run from nothing, cut off anywhere, leaves no release or one that an undisturbed rerun completes and publishes once visible |
| ReleasePublication.FreshRun | scripts/release.py:165-199 | a fresh undisturbed run on good releases completes and publishes the one its calls hit |
| ReleasePublication.FreshRunInVain | scripts/release.py:166-178 | if nothing is visible and stays so, a fresh run leaves one more draft and fails |
| ReleasePublication.AnyWorldResumes | scripts/release.py:165-199 | a fresh undisturbed run on good releases succeeds whatever its calls hit if and only if one release must be hit, and can succeed if and only if something is visible |
| ReleasePublication.LookupRules | scripts/release.py:124-163 | which releases a call can hit and must hit, and when it finds nothing or may refuse |
| ReleasePublication.NamesCompleteIsComplete | scripts/release.py:193-194 | the count and name checks amount to having exactly the expected assets |
| ReleaseRaces.CreationExactly | scripts/release.py:166-168 | runs create a release if and only if none is visible when they start |
| ReleaseRaces.SecondReleaseExactly | scripts/release.py:166-168 | with at most one release at the start, a second can appear if and only if that one was not there and visible |
| ReleaseRaces.SafetyExactly | scripts/release.py:152-199 | every published release is complete in every interleaving, whatever calls hit, if and only if the start is safe |
| ReleaseRaces.SafetyWithOneRelease | scripts/release.py:152-199 | with at most one release at the start: if and only if that one is there and visible, or nothing is expected |
| ReleaseRaces.Misfire | scripts/release.py:161-163 | among unpublished releases, any incomplete one can come to be published |
| ReleaseRaces.TwoRunsPublishIncomplete | scripts/release.py:165-199 | two runs, no release at the start, one expected file: eleven events that end with an empty release published |
| ReleaseScript.PublishComplete | scripts/release.py:165-199 | the code, cut off after any number of remote calls, with releases changing arbitrarily between them: its every call does to the releases it meets what the protocol's next step does. In terms of its calls alone: it publishes exactly after finding or creating a release, uploading what lacks, finding the names complete, and comparing every expected file's digest with the release that call met; and it fails only if one of these fails |
| ReleaseScript.UndisturbedCalls | scripts/release.py:165-199 | if every call met what the one before left, that is the undisturbed protocol run |
| ReleaseScript.FindOrCreate | scripts/release.py:166-180 | lookup, creation and at most four more lookups follow the protocol |
| ReleaseScript.UploadMissing | scripts/release.py:190-191 | the upload loop follows the protocol |
| ArgvTokenizer.ParseGuidedArgv | internal/cli/guided_try.go:924-994 | the loop computes the state machine's result |
| ArgvTokenizer.ParsesItsGrammar | internal/cli/guided_try.go:924-994 | arguments are returned if and only if some reading of the input by the token grammar spells them, none empty |
| ArgvTokenizer.WhyParsingFails | internal/cli/guided_try.go:925-992 | each error, exactly: blank input; a forbidden character after text that reads on; an empty word before anything else wrong; an open quote or escape at the end of text otherwise in order |
| ArgvTokenizer.AllowedTextReads | internal/cli/guided_try.go:941-985 | every text of allowed characters is a token list, up to one quote or escape left open |
| ArgvTokenizer.ReadingDecides | internal/cli/guided_try.go:925-994 | a complete reading decides the result: its words, or the empty-word error |
| ArgvTokenizer.JoinedLines | internal/cli/guided_try.go:971-978 | two accepted lines joined by a space give their arguments in sequence |
| ArgvTokenizer.ArgumentsComeFromInput | internal/cli/guided_try.go:942-981 | the arguments' characters are an in-order subsequence of the input |
| ArgvTokenizer.PrintedArgumentsParseBack | internal/cli/guided_try.go:924-994 | any list of non-empty arguments, each spelled in any way and joined by spaces, parses back exactly |
| ArgvTokenizer.BackslashSpells | internal/cli/guided_try.go:946-956 | escaping every allowed character spells the argument |
| ArgvTokenizer.QuoteSpells | internal/cli/guided_try.go:957-970 | single-quoting, with escaped single quotes between, spells the argument |
| PromotionChain.PromotionExpectations | internal/cli/scientific.go:687-734 | fails in the chain phase exactly on two roots or two records sharing a predecessor, and reports a cycle only for zero or repeated IDs; otherwise the tip is the last record from the root on, the champion that of the last record accepted or rolled back, and the incumbent revision that of its record |
| PromotionChain.Walk | internal/cli/scientific.go:709-722 | the walk ends within the number of records, follows the chain to its end, and folds tip and champion |
| PromotionChain.ChampionExactly | internal/cli/scientific.go:717-720 | the champion is the challenger of the last record accepted or rolled back, and zero if all are rejected |
| PromotionChain.NoRecordTwice | internal/cli/scientific.go:713-716 | with unique IDs no record is met twice |
| PromotionChain.OrderIndependent | internal/cli/scientific.go:691-708 | the chain does not depend on the order of the records |
| PromotionChain.FailureIgnoresOrder | internal/cli/scientific.go:691-708 | whether a target has two roots or two records with one predecessor does not depend on the order of the records |
| PromotionChain.AppendedRecordIsTip | internal/cli/scientific.go:717-720 | a record appended after the tip becomes the tip and changes the champion exactly if accepted or rolled back |
| PromotionChain.EveryRecordIsVisited | internal/cli/scientific.go:711-722 | if every predecessor is an earlier record of the target, every record is visited |
| PlanRequest.InspectPlanAddJSONValue | internal/cli/plan.go:426-501 | the recursive descent consumes the tokens its specification does |
| PlanRequest.InspectFields | internal/cli/plan.go:447-481 | the field loop with its two duplicate checks follows the specification |
| PlanRequest.ValidatePlanAddJSON | internal/cli/plan.go:409-424 | accepts exactly the token lists of request objects: one value, and nothing after it |
| PlanRequest.InspectTree | internal/cli/plan.go:426-501 | the inspector consumes exactly the tokens of an acceptable tree and rejects every other tree; case folding never changes the verdict |
| PlanRequest.FoldedDuplicateIsDuplicate | internal/cli/plan.go:458-464 | among allowed keys only a repeated key folds alike |
| PlanRequest.FindTree | internal/cli/plan.go:426-501 | whatever the inspector accepts is the token list of a tree |
| PlanRequest.ValidRequests | internal/cli/plan.go:390-501 | a token list is valid if and only if it is an object with distinct allowed fields, with such an object as expected payoff if present, and no other object at any depth |
| DedicatedRepository.CleanupDedicatedGitInit | internal/cli/guided_init.go:641-679 | removes the target only if this call made it, else only `.git` from the pinned directory after a listing showed nothing else |
| DedicatedRepository.VerifyDedicatedTargetPath | internal/cli/guided_init.go:598-616 | succeeds, disturbed or not, exactly if the parent path, the entry in the pinned parent, the entry at the path and the identity there were all seen to be the expected ones |
| DedicatedRepository.EnsureDedicatedRepository | internal/cli/guided_init.go:519-596 | an existing repository that matches the plan is taken. Undisturbed and with no failing call, it succeeds exactly if the plan matches and the target is a repository, or may be created and is missing or empty; an error without a cleanup error leaves the target as it was. Disturbed, an adopted directory loses at most a sole `.git`; success means that entry and identity were the same before and after and only `.git` was there |
| Fingerprints.PutUint64 | internal/cli/guided_plan.go:143 | the eight bytes are the length, wrapped to 64 bits, most significant first |
| Fingerprints.GuidedStream | internal/cli/guided_plan.go:139-148 | the loop writes every part behind its length |
| Fingerprints.StreamIsInjective | internal/cli/guided_plan.go:136-148 | equal streams come from equal lists, for parts shorter than 2^64 bytes |
| Fingerprints.GuidedAdoptParts | internal/cli/guided_try.go:907-922 | the listed parts: ID and revision if there is a document, then the parents by key |
| Fingerprints.AdoptionIsDetermined | internal/cli/guided_try.go:907-922 | with a document, the parts determine ID, revision and the parent map |
| Fingerprints.AdoptionIgnoresOrder | internal/cli/guided_try.go:913-920 | map iteration order does not matter |
| Fingerprints.AdoptionCollides | internal/cli/guided_try.go:907-922 | two adoptions have the same parts if and only if they are equal, or one has no document and its least parent is the other's document |
| Fingerprints.TypedAdoptionsDiffer | internal/cli/guided_try.go:591-639 | for a Try and Idea parents, with or without a document, the parts determine everything |
| Fingerprints.AdoptionStreamsDiffer | internal/cli/guided_try.go:907-922 | so do the bytes written to the hash |
| Fingerprints.FrameIsInjective | internal/cli/wizard.go:189 | the wizard's frame is injective when every field but the status is free of NUL |
| Fingerprints.FrameReadsOneWay | internal/cli/wizard.go:189 | no other observation has this frame if and only if no field of it contains a NUL |
| PlanRefresh.DequeuePlan | internal/cli/plan_control.go:96-119 | each partition keeps its name and the entries of other Plans, in order; the revision rises by one exactly if some partition held the Plan |
| PlanRefresh.PinDependencies | internal/cli/plan_control.go:65-76 | every dependency is pinned to its Finding's current revision and digest, or the refresh fails |
| PlanRefresh.RefreshPlan | internal/cli/plan_control.go:57-119 | succeeds exactly for refreshable Plans, with the reason if not; the changes are the Plan, its queued Idea, and then one for each Queue that held it, in order |
| PlanRefresh.DequeuedHoldsNot | internal/cli/plan_control.go:104-113 | a dequeued Queue no longer holds the Plan and a second refresh leaves it alone |
| PlanRefresh.WithoutKeepsOrder | internal/cli/plan_control.go:104-113 | what stays in a partition comes from an increasing list of places, exactly those of other Plans' entries |
| PlanRefresh.HoldingQueueIsChanged | internal/cli/plan_control.go:96-119 | every Queue that held the Plan is among the changes, dequeued |
| PlanRefresh.ChangedQueueHeld | internal/cli/plan_control.go:96-119 | every Queue change is the dequeueing of a Queue that held the Plan |

## Left out

- DisplayCodes.ResolveExactly: covers, like CodeResolves, queries without an underscore only.
- DisplayCodes.CodeResolves: covers queries without an underscore, which are all display codes and aliases; typed IDs and typed prefixes take the resolver's other branches.
- DedicatedRepository.EnsureDedicatedRepository: the inspection before creation is abstract beyond what it reports about the target, and path resolution is one parent link and one entry; a directory this call made may be removed whole under outside interference; under interference undo works in the directory whose entry was pinned, which the contract does not promise to be the planned one, because the code looks up the entry and the identity it compares with the plan in separate calls.
- ReleasePublication.LookupRules: a tag call never hits a draft while a published release is visible, nor one that is not visible yet, and its answer about a release is exact; uploads are atomic.
- PlanRequest.FindTree: a decoder syntax error is one token that nothing accepts; number formats and string escapes are not modelled.
- The sanitisers, the Unicode tables, lower-casing and SHA-256 are parameters or absent.
- Byte sequences that are not valid UTF-8 are not modelled; the label limit of 32 bytes counts UTF-8 lengths.
- `compactStrings` (dropping repeated neighbours) and `wizardStatusPaths` are left out as simple list passes.
- Checking release archives and tags before publication, and the waiting times between lookups.
- Flags, wiring, JSON envelopes, prompts and the terminal user interface.
- The record store, lifecycle, queue flow and scheduler packages.
