# Case Study Generator — a Dafny model of the block document

The Case Study Generator is a browser editor for UX case studies. A case study is:

- the project details (name, role, timeline);
- up to six outcome metrics;
- an ordered list of **blocks**: text sections (heading, raw notes, AI-expanded copy), image galleries, call-to-action links and live embeds.

This project models that document and what the app does to it:

- the block store in the editor form: add, update by id, remove by id, drag-reorder, and the metric list capped at six;
- the generate step of the app: a name guard, a no-key fallback, and the AI path;
- the AI reconciliation service: text-block selection, prompt notes, reply cleanup, and the id-keyed merge of the returned copy;
- the Medium export renderer, with its small markdown subset and its `<ul>` list state machine;
- the live preview: its visibility rules, proved to agree block for block with the export, and the clipboard's plain-text tag stripping;
- the standalone HTML download: page template, theme variables and file-name slug;
- the embed-URL normalisation, the image-gallery updates and the outline titles.

Modules follow the source files:

- `Blocks`: the document data model and the shared rules;
- `Text`: the JavaScript string operations the code relies on (`||`, `trim`, `split`, `join`, global `replace`, `toLowerCase` on ASCII);
- `Seqs`: `arrayMove` from the sortable-list library, and index removal and insertion;
- `EditorForm`, `AiService`, `ExportToMedium`, `Preview`, `ExportToHtml`, `EmbedBlock`, `ImageBlock`, `SortableBlock`;
- `CaseStudyApp`: the React state of the app as `class App`, with its handlers as methods;
- `Wrappers`: `Option` and `Result`.

Modelling conventions:

- **Falsy strings.** An empty string stands for `undefined` or `null` wherever the source only tests a string with `||` or for truthiness.
- **Missing lists.** `images` and `caption` are `Option`, because the source tells "missing" apart from "empty".
- **Raw concatenation.** HTML is produced by raw concatenation; the source escapes nothing, and neither does the model.
- **Inputs instead of effects.** The clock, the network reply, `JSON.parse`, the confirm dialog and the uploaded data URLs are all inputs.
- **State updates.** Each handler of the editor form that replaces `blocks`, `metricsData` or `projectData` is a method that changes only that field of `App`. Each such method is tied by its `ensures` to a pure function of the old value, and the properties are proved about that function. The Medium renderer accumulates `html +=` in loops, so it is an imperative method; it is proved equal to a declarative definition (`MediumHtml`), and the properties are stated about that definition.

## Model

| member | source | states |
|---|---|---|
| Blocks.ApplyPatchKeepsIdentity | src/components/EditorForm.jsx:77 | a shallow merge `{...b, ...updates}` never changes a block's id or kind |
| Blocks.ApplyPatchIdempotent | src/components/EditorForm.jsx:77 | applying the same partial object twice is applying it once |
| Blocks.ApplyPatch | src/components/EditorForm.jsx:77 | `{ ...b, ...updates }`: each field the patch names replaces the block's, every other field stays; its properties are the three lemmas below |
| Blocks.ApplyPatchCompose | src/components/EditorForm.jsx:77 | two partial updates in a row equal one update with the later fields winning |
| Blocks.DisplayCopy | src/utils/exportToMedium.js:21 | the copy shown is `generatedContent` when that is non-empty, and exactly `content` when it is empty |
| Blocks.ValidMetrics | src/utils/exportToMedium.js:2 | no longer than the input; a metric of the input is in the result iff it has a value or label, and every kept metric comes from the input |
| Blocks.ValidMetricsAppend | src/utils/exportToMedium.js:2 | the filter of a concatenation is the concatenation of the filters, so order and repetitions are kept |
| Blocks.ValidMetricsSingle | src/utils/exportToMedium.js:2 | a single metric is kept exactly when it has a value or a label, and dropped otherwise |
| Blocks.ValidMetricsEmptyIff | src/components/Preview.jsx:13 | no metric survives the filter iff every metric has neither value nor label |
| Blocks.Ids | src/components/EditorForm.jsx:89-90 | the id list has one entry per block, in order |
| Blocks.DistinctIdsFromIds | src/services/ai.js:58-66 | a list with the same id sequence as a list of unique ids has unique ids |
| Seqs.RemoveAt | src/components/EditorForm.jsx:91 | removing index i shifts the later elements down by one and keeps the earlier ones |
| Seqs.InsertAt | src/components/EditorForm.jsx:91 | inserting at i puts x there and shifts the later elements up by one |
| Seqs.ArrayMove | src/components/EditorForm.jsx:91 | the moved element lands at the target index, the others keep their relative order, and the result is a permutation |
| Seqs.ArrayMoveInPlace | src/components/EditorForm.jsx:87 | moving an element to its own index changes nothing |
| Seqs.WithoutIndex | src/components/blocks/ImageBlock.jsx:28 | `filter((_, i) => i !== index)` drops exactly entry i, or nothing when i is out of range |
| EditorForm.BlocksWithAdded | src/components/EditorForm.jsx:60-74 | exactly one blank block of the chosen kind with the given id is appended; the old list is an unchanged prefix |
| EditorForm.AddKeepsIdsDistinct | src/components/EditorForm.jsx:61 | with a fresh id, adding keeps ids unique |
| EditorForm.SameTickCollides | src/components/EditorForm.jsx:61 | two adds at the same clock reading produce two blocks with the same id |
| EditorForm.BlocksWithUpdate | src/components/EditorForm.jsx:76-78 | length kept; blocks with other ids unchanged; the matching block is the shallow merge, with id and kind kept |
| EditorForm.UpdateKeepsIds | src/components/EditorForm.jsx:76-78 | the ids are unchanged, and an unknown id gives back an equal list |
| EditorForm.UpdateTwice | src/components/EditorForm.jsx:76-78 | two updates of one id equal one combined update |
| EditorForm.BlocksWithout | src/components/EditorForm.jsx:80-82 | a block is kept iff it was there and its id differs |
| EditorForm.RemoveDistributes | src/components/EditorForm.jsx:81 | removal works segment by segment, so the survivors keep their relative order |
| EditorForm.RemoveAbsentIsIdentity | src/components/EditorForm.jsx:81 | removing an id not in the list changes nothing |
| EditorForm.RemoveKeepsIdsDistinct | src/components/EditorForm.jsx:81 | removal keeps ids unique |
| EditorForm.RemoveAtKeepsIdsDistinct | src/components/EditorForm.jsx:91 | removing an index keeps ids unique, and the removed id is gone |
| EditorForm.InsertAtKeepsIdsDistinct | src/components/EditorForm.jsx:91 | inserting a block with a new id keeps ids unique |
| EditorForm.InsertRemoveAt | src/components/EditorForm.jsx:91 | re-inserting a removed element at its index restores the list |
| EditorForm.FindIndex | src/components/EditorForm.jsx:89-90 | `findIndex` is -1 iff the id is absent; otherwise it is the first index with that id |
| EditorForm.Reordered | src/components/EditorForm.jsx:84-94 | same length and multiset; unchanged when `over` is missing or equals `active`; otherwise the active block lands at the target's old index and the rest keep their order |
| EditorForm.ReorderKeepsIdsDistinct | src/components/EditorForm.jsx:84-94 | reordering keeps ids unique |
| EditorForm.MetricsWithAdded | src/components/EditorForm.jsx:43-47 | below six an empty metric is appended; at six or more the list is unchanged |
| EditorForm.AddMetricBounded | src/components/EditorForm.jsx:43-47 | any number of adds from at most six metrics stops exactly at six |
| EditorForm.MetricsWithout | src/components/EditorForm.jsx:49-52 | only entry i is deleted, the rest in order; an out-of-range index changes nothing |
| EditorForm.MetricsWithChange | src/components/EditorForm.jsx:54-58 | only field f of entry i changes |
| EditorForm.ProjectWithChange | src/components/EditorForm.jsx:38-41 | only the named project field changes |
| EditorForm.AddBlock | src/components/EditorForm.jsx:60-74 | the store's blocks become `BlocksWithAdded` of the old blocks; ids stay unique |
| EditorForm.UpdateBlock | src/components/EditorForm.jsx:76-78 | the store's blocks become `BlocksWithUpdate` of the old blocks; ids stay unique |
| EditorForm.RemoveBlock | src/components/EditorForm.jsx:80-82 | the store's blocks become `BlocksWithout` of the old blocks; ids stay unique |
| EditorForm.HandleDragEnd | src/components/EditorForm.jsx:84-94 | the store's blocks become `Reordered` of the old blocks; ids stay unique |
| EditorForm.AddMetric | src/components/EditorForm.jsx:43-47 | the metrics become `MetricsWithAdded` of the old metrics |
| EditorForm.RemoveMetric | src/components/EditorForm.jsx:49-52 | the metrics become `MetricsWithout` of the old metrics |
| EditorForm.HandleMetricChange | src/components/EditorForm.jsx:54-58 | the metrics become `MetricsWithChange` of the old metrics |
| EditorForm.HandleProjectChange | src/components/EditorForm.jsx:38-41 | the project becomes `ProjectWithChange` of the old project |
| AiService.TextBlocks | src/services/ai.js:3 | exactly the text blocks are selected |
| AiService.TextBlocksAppend | src/services/ai.js:3 | selection distributes over concatenation, so list order is kept |
| AiService.TextBlocksIdempotent | src/services/ai.js:3 | selecting twice selects nothing more |
| AiService.Note | src/services/ai.js:5 | one text block's note: "Block ID: ", the id, "\nHeading: ", the heading, "\nNotes: ", the notes |
| AiService.Notes | src/services/ai.js:5 | one note per text block, in order |
| AiService.JoinSnoc | src/services/ai.js:5 | `join` of a list grown by one element adds the separator and that element |
| AiService.FormattedNotes | src/services/ai.js:3-5 | the notes of the text blocks joined with a blank line; `FormattedNotesSnoc` and `FormattedNotesWithoutText` state its behaviour |
| AiService.FormattedNotesSnoc | src/services/ai.js:3-5 | appending a block adds its "Block ID/Heading/Notes" entry after a blank line if it is text, and nothing otherwise |
| AiService.FormattedNotesWithoutText | src/services/ai.js:3-5 | non-text blocks contribute no notes |
| AiService.Prompt | src/services/ai.js:7-25 | the prompt text: the fixed introduction, the three project fields, the formatted notes and the fixed rules |
| AiService.BuildRequest | src/services/ai.js:7-43 | the request sent: endpoint, api key, model name, token limit, system instruction and the prompt as the single user message |
| AiService.RequestSeesOnlyTextBlocks | src/services/ai.js:3-25 | the request built from the document equals the one built from its text blocks alone |
| AiService.Find | src/services/ai.js:60 | `find` answers with a matching entry, or says no entry matches and none is `null`, or throws on `null` |
| AiService.FindFirst | src/services/ai.js:60 | `find` answers with the first matching entry |
| AiService.MergeBlock | src/services/ai.js:59-65 | one block of the merge: non-text blocks pass, a text block with a match takes its `generatedContent`, a lookup that meets `null` or a non-array mapping throws; `MergeBlockShape` states this |
| AiService.Merge | src/services/ai.js:58-66 | the merge succeeds iff no block's lookup throws; it then handles each block independently and keeps the length |
| AiService.MergeShape | src/services/ai.js:58-66 | same length, ids and order; non-text and unmatched blocks unchanged; a matched block changes only `generatedContent`, taken from the first match |
| AiService.MergeBlockShape | src/services/ai.js:59-65 | one merged block keeps its id and kind; only a matched text block changes, and only in `generatedContent` |
| AiService.MergeIdempotent | src/services/ai.js:58-66 | merging twice with the same mapping is merging once |
| AiService.MergeFailsIff | src/services/ai.js:58-66 | the merge throws iff some text block meets a non-array mapping or a `null` element |
| AiService.MergeTotalWithoutNull | src/services/ai.js:58-66 | an array with no `null` element never makes the merge throw |
| AiService.FindNeverThrows | src/services/ai.js:60 | `find` over an array without `null` does not throw |
| AiService.MergeEmptyIsIdentity | src/services/ai.js:51 | the empty array leaves the blocks unchanged |
| AiService.MergeWithoutTextBlocks | src/services/ai.js:58-66 | without text blocks any parsed value is accepted and the blocks are unchanged |
| AiService.Cleanup | src/services/ai.js:54 | the cleaned text has no code fence and no outer whitespace |
| AiService.CleanupOfCleanText | src/services/ai.js:54 | text with no fence and no outer whitespace passes through unchanged |
| AiService.LongerPatternAbsent | src/services/ai.js:54 | when the bare fence is absent, the longer `json` fence pattern is absent too |
| AiService.NoPatternNoReplace | src/services/ai.js:54 | a global replace of an absent pattern changes nothing |
| AiService.TrimOfTrimmed | src/services/ai.js:54 | `trim` of trimmed text changes nothing |
| AiService.RequestErrorMessage | src/services/ai.js:45-48 | the provider's message when present, else "API Error: status statusText" |
| AiService.GenerateCaseStudyText | src/services/ai.js:1-72 | success only on a delivered reply, with the same length and ids as the input blocks |
| AiService.RepliedOutcome | src/services/ai.js:51-72 | a delivered reply whose cleaned text parses succeeds iff the merge does, with the merged blocks; every failure then is the invalid-format error |
| AiService.EmptyReplyKeepsBlocks | src/services/ai.js:51 | an empty reply defaults to `[]`, and the blocks come back unchanged |
| AiService.CleanupBrackets | src/services/ai.js:51-54 | cleanup leaves `[]` as it is |
| AiService.UnparseableReplyFails | src/services/ai.js:53-72 | a reply that does not parse gives the invalid-format error |
| AiService.NonArrayReplyFails | src/services/ai.js:53-72 | with a text block, a parsed non-array gives the invalid-format error |
| AiService.NotOkFails | src/services/ai.js:45-48 | a non-ok response fails with the provider's message, or with an "API Error: " status line |
| CaseStudyApp.DefaultMetrics | src/App.jsx:31 | one metric with neither value nor label |
| CaseStudyApp.DefaultBlocks | src/App.jsx:20-30 | the starting document for a clock reading: ids are a fixed prefix plus the reading; `DefaultBlocksShape` states its shape |
| CaseStudyApp.DefaultBlocksShape | src/App.jsx:20-30 | six blocks: empty text sections headed 'Overview', 'The Challenge', 'Process & Discovery', 'The Solution' and 'Results & Impact', with an empty gallery in fifth place; ids pairwise distinct for every clock reading |
| CaseStudyApp.PrefixLetters | src/App.jsx:23-28 | the id prefixes differ at the positions that tell them apart |
| CaseStudyApp.NoKeyBlocks | src/App.jsx:76 | each text block gets `generatedContent := content`; other blocks, length and ids unchanged |
| CaseStudyApp.NoKeyBlocksShowNotes | src/App.jsx:74-77 | afterwards every text block displays its raw notes, and the mapping is idempotent |
| CaseStudyApp.InvokeService | src/services/ai.js:1-3 | a call binds parameters by position; a non-array third argument throws at `blocks.filter`; well-typed arguments run the service |
| CaseStudyApp.AsWrittenAlwaysFails | src/App.jsx:84 | the four-argument call as written fails for every key, project, block list and reply |
| CaseStudyApp.CorrectedCallCanSucceed | src/App.jsx:84 | the call in declared order can succeed |
| CaseStudyApp.App.constructor | src/App.jsx:7-46 | edit mode, not generating, empty key; each setting is the saved value or its default ('gemini-1.5-flash', 'minimalist', empty project, starter outline, one empty metric) |
| CaseStudyApp.App.ToggleViewMode | src/App.jsx:101 | the view switches between edit and preview |
| CaseStudyApp.App.HandleClearData | src/App.jsx:57-66 | only when confirmed, project, blocks and metrics are reset to the defaults; theme, model and key are never touched |
| CaseStudyApp.App.HandleGenerate | src/App.jsx:68-93 | with no name: the alert and no change; with no key: the raw notes are shown in preview; with a key: the blocks are replaced and preview shown only on success, the failure alert carries the error message, and generating is off afterwards |
| ExportToMedium.IndexOf | src/utils/exportToMedium.js:36-40 | a position at or after the start index that holds the character, or the end of the text |
| ExportToMedium.IndexOfFirst | src/utils/exportToMedium.js:36-40 | no occurrence of the character lies before the position `IndexOf` finds, so it is the first one (what the `[^\]]+`, `[^)]+` and `[^*]+` groups stop at) |
| ExportToMedium.IndexOfAt | src/utils/exportToMedium.js:36-40 | an occurrence with none before it is the position `IndexOf` finds |
| ExportToMedium.MatchAt | src/utils/exportToMedium.js:36-40 | a match (link, bold or italic) starts with its trigger character and lies inside the text; the `...Replaced` lemmas below state the groups it captures |
| ExportToMedium.InlineMarkdown | src/utils/exportToMedium.js:34-40 | the three inline rules in source order: links, then bold, then italics, each replacing every leftmost match; `InlineLink`, `InlineBold` and `InlineItalic` state what it produces, the pass-through lemmas what it leaves alone |
| ExportToMedium.RuleLeavesPlainText | src/utils/exportToMedium.js:36-40 | a rule leaves text without its trigger character unchanged |
| ExportToMedium.RulePlainPrefix | src/utils/exportToMedium.js:36-40 | text free of the rule's opening character is copied in front of the rewrite of what follows it |
| ExportToMedium.ConsStep | src/utils/exportToMedium.js:36-40 | a character that cannot open the rule's match is copied and the search moves on |
| ExportToMedium.LinkReplaced | src/utils/exportToMedium.js:36 | `[t](u)` with non-empty `t` free of `]` and non-empty `u` free of `)` becomes `<a href="u">t</a>`, and the rule goes on after the `)` |
| ExportToMedium.BoldReplaced | src/utils/exportToMedium.js:38 | `**t**` with non-empty `t` free of `*` becomes `<strong>t</strong>`, and the rule goes on after the closing pair |
| ExportToMedium.ItalicReplaced | src/utils/exportToMedium.js:40 | `*t*` with non-empty `t` free of `*` becomes `<em>t</em>`, and the rule goes on after the closing star |
| ExportToMedium.InlineLink | src/utils/exportToMedium.js:34-40 | over the whole pass, a link at the front of a line becomes the anchor, followed by the pass over the rest of the line |
| ExportToMedium.InlineBold | src/utils/exportToMedium.js:34-40 | over the whole pass, bold text at the front of a line becomes `<strong>`, followed by the pass over the rest |
| ExportToMedium.InlineItalic | src/utils/exportToMedium.js:34-40 | over the whole pass, `*t*` at the front of a line becomes `<em>` when the rest does not start with `*`, followed by the pass over the rest |
| ExportToMedium.BoldSkipsSingleStar | src/utils/exportToMedium.js:38 | the bold rule leaves `*t*` alone when the next character is not `*` |
| ExportToMedium.PlainLineUnchanged | src/utils/exportToMedium.js:34-40 | a line without `[` or `*` is unchanged by the markdown pass |
| ExportToMedium.RuleHead | src/utils/exportToMedium.js:36-40 | a rule keeps the first character, or starts the result with a tag |
| ExportToMedium.MarkdownHead | src/utils/exportToMedium.js:34-40 | the markdown pass keeps the first character, or starts the result with a tag |
| ExportToMedium.MarkdownCons | src/utils/exportToMedium.js:34-40 | a leading character that is neither `[` nor `*` passes through |
| ExportToMedium.ListMarkerKept | src/utils/exportToMedium.js:34-42 | a line starting with "- " still starts with it after the markdown pass |
| ExportToMedium.ListMarkerNotCreated | src/utils/exportToMedium.js:34-42 | the markdown pass never creates a leading "- " |
| ExportToMedium.ListMarkerOnRawLine | src/utils/exportToMedium.js:42-47 | the transformed line starts with "- " iff the raw line does, and the item text is the transformed rest |
| ExportToMedium.KeepNonBlank | src/utils/exportToMedium.js:30 | no more lines than the input; a line of the input is kept iff it is not blank, and every kept line comes from the input |
| ExportToMedium.KeepNonBlankAppend | src/utils/exportToMedium.js:30 | the filter of a concatenation is the concatenation of the filters, so order and repetitions are kept |
| ExportToMedium.KeepNonBlankSingle | src/utils/exportToMedium.js:30 | a single line is kept exactly when it is not blank |
| ExportToMedium.CopyLinesShape | src/utils/exportToMedium.js:30 | every paragraph is a non-blank, newline-free piece of the copy split on '\n', and every non-blank piece is a paragraph |
| ExportToMedium.CopyLinesFirstLine | src/utils/exportToMedium.js:30 | the paragraphs follow the copy's order: the first line, unless blank, is the first paragraph, then the paragraphs of the remaining lines |
| ExportToMedium.CopyLinesNonEmpty | src/utils/exportToMedium.js:30 | non-blank copy gives at least one paragraph |
| ExportToMedium.JoinOfBlank | src/utils/exportToMedium.js:30 | joining blank pieces with a blank separator is blank |
| ExportToMedium.Transformed | src/utils/exportToMedium.js:33-40 | one transformed line per kept line, in order |
| ExportToMedium.LinePieces | src/utils/exportToMedium.js:31-58 | the pieces emitted for the kept lines of one copy: list items opened and closed as `inList` changes, paragraphs otherwise, a closing `</ul>` at the end; `LinePiecesWellFormed` and `OnePiecePerLine` state its shape |
| ExportToMedium.LinePieceOfRawLine | src/utils/exportToMedium.js:42-53 | a "- " line yields one `<li>` of the rest; any other line yields one `<p>` |
| ExportToMedium.LinePiecesWellFormed | src/utils/exportToMedium.js:31-58 | `<ul>` and `</ul>` alternate, items sit only inside a list, paragraphs only outside, and the list is closed at block end |
| ExportToMedium.OnePiecePerLine | src/utils/exportToMedium.js:33-55 | leaving the list tags aside, each line yields exactly one item or paragraph, in order |
| ExportToMedium.PayloadsAppend | src/utils/exportToMedium.js:33-55 | the item-and-paragraph view distributes over concatenation |
| ExportToMedium.LinePiecesRenderNonEmpty | src/utils/exportToMedium.js:33-58 | a non-empty paragraph list renders to non-empty HTML |
| ExportToMedium.PayloadIndex | src/utils/exportToMedium.js:33-55 | where an item or paragraph exists, a position holding it is found |
| ExportToMedium.NonEmptyStrings | src/utils/exportToMedium.js:7 | `filter(Boolean)` keeps only non-empty strings from the list |
| ExportToMedium.MetaCases | src/utils/exportToMedium.js:7 | the meta is role, timeline, or both joined by ' • ' |
| ExportToMedium.StartsWithTitle | src/utils/exportToMedium.js:4 | the output starts with `<h1>` holding the name, or 'Untitled Project' |
| ExportToMedium.MetaLine | src/utils/exportToMedium.js:6-9 | the `<h2>` appears iff role or timeline is non-empty, and holds the non-empty ones joined by ' • ' |
| ExportToMedium.MetricsSectionIff | src/utils/exportToMedium.js:11-17 | the metrics section appears iff some metric has a value or label |
| ExportToMedium.TextHtml | src/utils/exportToMedium.js:20-60 | a text block's output: nothing when heading and copy are both empty, otherwise the heading element then the copy lines |
| ExportToMedium.BlockHtml | src/utils/exportToMedium.js:19-79 | one block's output by kind: text, gallery, link, embed, nothing for other kinds |
| ExportToMedium.MediumHtml | src/utils/exportToMedium.js:1-82 | the export: title, meta line, metrics section of the valid metrics, then every block in order; `GenerateMediumHtml` is proved to compute it |
| ExportToMedium.BlockHtmlNonEmptyIff | src/utils/exportToMedium.js:19-79 | a block emits something iff it is shown and is not a heading-less text block with blank copy |
| ExportToMedium.TextHtmlNonEmptyIff | src/utils/exportToMedium.js:20-60 | a text block emits something iff it has a heading, or copy that is not blank |
| ExportToMedium.BlankCopyHasNoLines | src/utils/exportToMedium.js:30 | blank copy yields no paragraphs |
| ExportToMedium.SplitPieceIsBlank | src/utils/exportToMedium.js:30 | every piece of blank text split on '\n' is blank |
| ExportToMedium.SplitPieces | src/utils/exportToMedium.js:30 | every character of a split piece comes from the input |
| ExportToMedium.LinePiecesStep | src/utils/exportToMedium.js:33-55 | the state machine consumes one line at a time |
| ExportToMedium.RenderSnoc | src/utils/exportToMedium.js:33-58 | rendering one more piece appends its HTML |
| ExportToMedium.AppendCopy | src/utils/exportToMedium.js:31-58 | the line loop with its `inList` flag appends exactly the rendering of the declarative pieces |
| ExportToMedium.AppendImages | src/utils/exportToMedium.js:62-68 | one `<img>` per image in order, then `<br/>` |
| ExportToMedium.AppendText | src/utils/exportToMedium.js:20-60 | the text branch appends the declarative text HTML |
| ExportToMedium.AppendBlock | src/utils/exportToMedium.js:20-78 | one loop iteration appends that block's declarative HTML |
| ExportToMedium.AppendBlocks | src/utils/exportToMedium.js:19-79 | the blocks loop appends each block's HTML in order |
| ExportToMedium.AppendMetrics | src/utils/exportToMedium.js:11-17 | the header, one `<li>` per valid metric in order, and the closing tags |
| ExportToMedium.GenerateMediumHtml | src/utils/exportToMedium.js:1-82 | the imperative renderer returns exactly the declarative `MediumHtml` |
| Preview.HeroMetaShape | src/components/Preview.jsx:92-96 | the hero meta shows role and timeline when set, with the '•' separator only when both are set |
| Preview.HeroTitleMatchesExport | src/components/Preview.jsx:91 | the hero title is non-empty and is the title the export puts in `<h1>` |
| Preview.HeroMetaMatchesExport | src/components/Preview.jsx:92-96 | the hero meta, joined with spaces, is the export's meta line |
| Preview.MetricCell | src/components/Preview.jsx:104-107 | cells are never empty: the value or '-', the label or 'Metric' |
| Preview.MetricCells | src/components/Preview.jsx:103 | one cell per valid metric, in order |
| Preview.MetricsBarIff | src/components/Preview.jsx:101-110 | the bar shows iff some metric has a value or label, iff the export has its metrics section; one cell per valid metric |
| Preview.PreviewBlock | src/components/Preview.jsx:114-190 | the section one block renders, or none; `TextSectionRules` and `OtherSectionRules` state when each kind shows |
| Preview.PreviewSections | src/components/Preview.jsx:114 | one section, or none, per block, in order |
| Preview.TextSectionRules | src/components/Preview.jsx:115-137 | a text block is hidden iff it has no heading and no copy; its heading is shown only when set |
| Preview.OtherSectionRules | src/components/Preview.jsx:139-190 | galleries only when non-empty, links and embeds only with a url (label fallback 'View Link'), unknown kinds never |
| Preview.VisibilityParity | src/components/Preview.jsx:114-190 | preview visibility equals the shared visibility rule; whatever the export emits is previewed; they differ only for a heading-less text block with non-empty blank copy |
| Preview.SkipTag | src/components/Preview.jsx:43 | skipping a tag leaves a suffix of the input |
| Preview.StripTags | src/components/Preview.jsx:43 | the stripped text has no '<' and is no longer than the input |
| Preview.StripTagsKeepsPlain | src/components/Preview.jsx:43 | text without '<' is unchanged |
| Preview.StripTagsIdempotent | src/components/Preview.jsx:43 | stripping twice is stripping once |
| Preview.StripTagsDropsTag | src/components/Preview.jsx:43 | a whole `<...>` run is removed |
| Preview.SkipToClose | src/components/Preview.jsx:43 | skipping a tag stops just after its '>' |
| Preview.StripTagsPlainPrefix | src/components/Preview.jsx:43 | a plain prefix passes through and the rest is stripped |
| Preview.ClipboardText | src/components/Preview.jsx:40-43 | the plain-text payload has no '<' |
| Preview.PlainTitle | src/components/Preview.jsx:43 | the plain text of the export title is the name, or 'Untitled Project' |
| ExportToHtml.ThemeVariables | src/utils/exportToHTML.js:20-41 | the CSS variables set for the theme name; `ThemeSelection` states the choice |
| ExportToHtml.ThemeSelection | src/utils/exportToHTML.js:20-41 | 'dark' and 'editorial' each select their own set; every other theme selects the minimalist set |
| ExportToHtml.DocumentTitle | src/utils/exportToHTML.js:112 | the title is the project name when that is non-empty, and exactly 'Case Study' when it is empty |
| ExportToHtml.FullHtml | src/utils/exportToHTML.js:107-120 | the page template around title, stylesheet and body; `FullHtmlParts` and `HeadShowsTitle` state how they are recovered |
| ExportToHtml.FullHtmlParts | src/utils/exportToHTML.js:107-120 | the page is the head, then exactly the body, then the closing tail |
| ExportToHtml.HeadShowsTitle | src/utils/exportToHTML.js:107-112 | the head opens with the title element holding the title |
| ExportToHtml.HyphenateWhitespace | src/utils/exportToHTML.js:127 | the result has no whitespace |
| ExportToHtml.HyphenateNoWhitespace | src/utils/exportToHTML.js:127 | text without whitespace is unchanged |
| ExportToHtml.HyphenateRun | src/utils/exportToHTML.js:127 | a maximal whitespace run becomes a single '-' |
| ExportToHtml.HyphenateSplit | src/utils/exportToHTML.js:127 | the runs are replaced one by one, left to right |
| ExportToHtml.DownloadFilename | src/utils/exportToHTML.js:127 | the lowercased name, or "case-study", with whitespace runs hyphenated, plus ".html"; `FilenameShape` and `UnnamedFilename` state its shape |
| ExportToHtml.FilenameShape | src/utils/exportToHTML.js:127 | the file name ends in ".html" and has no whitespace |
| ExportToHtml.UnnamedFilename | src/utils/exportToHTML.js:127 | an empty name gives "case-study.html" |
| ExportToHtml.LowerOfLower | src/utils/exportToHTML.js:127 | lowercasing text with no upper-case letter changes nothing |
| ExportToHtml.DownloadHtml | src/utils/exportToHTML.js:3-127 | the page wraps the Medium export under the title and theme stylesheet, and is saved under the slug |
| EmbedBlock.Utf8 | src/components/blocks/EmbedBlock.jsx:21 | one to four UTF-8 bytes per character, one exactly for ASCII |
| EmbedBlock.PercentBytes | src/components/blocks/EmbedBlock.jsx:21 | each byte becomes '%' and two hex digits |
| EmbedBlock.EncodeUriComponent | src/components/blocks/EmbedBlock.jsx:21 | the encoding holds only unreserved characters and '%', and is at least as long as the input |
| EmbedBlock.EncodeKeepsUnreserved | src/components/blocks/EmbedBlock.jsx:21 | unreserved text is unchanged |
| EmbedBlock.EncodeAppend | src/components/blocks/EmbedBlock.jsx:21 | the encoding works character by character |
| EmbedBlock.EncodeDelimiters | src/components/blocks/EmbedBlock.jsx:21 | ':' and '/' become "%3A" and "%2F" |
| EmbedBlock.SrcValueAtIff | src/components/blocks/EmbedBlock.jsx:14 | at a position, `src="v"` matches iff v is non-empty and quote-free and is followed by a quote |
| EmbedBlock.FindSrc | src/components/blocks/EmbedBlock.jsx:14 | the leftmost match position, or none anywhere |
| EmbedBlock.NormalizeEmbedUrl | src/components/blocks/EmbedBlock.jsx:9-22 | the url stored for a pasted value: an iframe's first src value, a figma embed link, or the value itself; `IframeBranch` and `FigmaBranch` state the cases |
| EmbedBlock.IframeBranch | src/components/blocks/EmbedBlock.jsx:13-18 | iframe input becomes its first non-empty src value, or is kept as it is |
| EmbedBlock.FigmaBranch | src/components/blocks/EmbedBlock.jsx:20-22 | otherwise a figma file/design/proto link becomes the embed prefix plus the encoded input, and anything else passes unchanged |
| EmbedBlock.EmbedBaseSlashes | src/components/blocks/EmbedBlock.jsx:21 | the embed base has slashes only at its three fixed positions |
| EmbedBlock.EmbedQueryPlain | src/components/blocks/EmbedBlock.jsx:21 | the embed query holds neither '/' nor '<' |
| EmbedBlock.RewrittenShape | src/components/blocks/EmbedBlock.jsx:21 | a rewritten url has slashes only at those positions and no '<' |
| EmbedBlock.FigmaPathSlashes | src/components/blocks/EmbedBlock.jsx:20 | a figma path match needs slashes after the host and after the path word |
| EmbedBlock.NoFigmaLink | src/components/blocks/EmbedBlock.jsx:20 | text with slashes only at those positions contains no figma link |
| EmbedBlock.FigmaRewriteIdempotent | src/components/blocks/EmbedBlock.jsx:20-21 | normalising a rewritten figma url again changes nothing |
| EmbedBlock.UrlChange | src/components/blocks/EmbedBlock.jsx:24 | the update is for this block's id |
| EmbedBlock.UrlChangeOnlySetsUrl | src/components/blocks/EmbedBlock.jsx:9-24 | through the store, only this embed's url changes, to the normalised value |
| ImageBlock.RemoveImage | src/components/blocks/ImageBlock.jsx:27-30 | only `images` of this block is set: without entry i, the rest in order, unchanged for an out-of-range index |
| ImageBlock.AppendUploads | src/components/blocks/ImageBlock.jsx:20-23 | only `images` of this block is set: the existing images (or none), then the uploads in file order |
| ImageBlock.CaptionChange | src/components/blocks/ImageBlock.jsx:67 | only `caption` of this block is set |
| ImageBlock.UploadsAccumulate | src/components/blocks/ImageBlock.jsx:20-23 | two uploads equal one upload of both batches |
| ImageBlock.RemoveUndoesUpload | src/components/blocks/ImageBlock.jsx:20-30 | removing the image just uploaded restores the previous list |
| ImageBlock.ImagesUpdateEffect | src/components/blocks/ImageBlock.jsx:21-29 | through the store, only the image list of that block changes |
| ImageBlock.CaptionUpdateEffect | src/components/blocks/ImageBlock.jsx:67 | through the store, only the caption of that block changes |
| SortableBlock.Title | src/components/blocks/SortableBlock.jsx:27-38 | a title is never empty |
| SortableBlock.TitleRules | src/components/blocks/SortableBlock.jsx:28-33 | a link title carries the icon iff it has a label, followed by that label; a text title is its heading (as the preview shows it), or 'Untitled Text Section' |
| Text.OrElse | src/utils/exportToMedium.js:4 | `s \|\| fallback` is s when s is non-empty, and exactly the fallback when s is empty |
| Text.Trim | src/services/ai.js:54 | `trim` is no longer than its input and has no whitespace at either end |
| Text.TrimEnds | src/services/ai.js:54 | `trim` leaves no outer whitespace and removes only whitespace |
| Text.TrimEmptyIffBlank | src/utils/exportToMedium.js:30 | `trim` is empty iff the text is blank |
| Text.Split | src/utils/exportToMedium.js:30 | `split` gives at least one piece, none holding the separator |
| Text.Join | src/services/ai.js:5 | the parts with the separator between each two neighbours; `SplitJoin` and `AiService.JoinSnoc` state its behaviour |
| Text.SplitLine | src/utils/exportToMedium.js:30 | splitting text whose first line is separator-free gives that line, then the pieces of the rest |
| Text.SplitJoin | src/utils/exportToMedium.js:30 | joining the pieces with the separator gives back the text |
| Text.ReplaceAll | src/services/ai.js:54 | `replace(/pat/g, rep)`: each leftmost non-overlapping occurrence of the pattern replaced; `RemoveFenceLeavesNone` and `AiService.NoPatternNoReplace` state its behaviour |
| Text.RemoveFenceLeavesNone | src/services/ai.js:54 | removing every "```" leaves none |
| Text.NatToString | src/services/ai.js:47 | a status number prints as a non-empty digit string |
| Text.NatToStringValue | src/services/ai.js:47 | read back as a decimal numeral, the printed digits give the number itself |
| Text.ToLowerAscii | src/utils/exportToHTML.js:127 | character by character, `A`-`Z` become `a`-`z` and every other character is kept; so no upper-case ASCII letter is left and a character is whitespace iff its image is |
| Text.ConcatAppend | src/utils/exportToMedium.js:19 | the strings produced by a loop over a list split in two are the strings of its two parts |

## Left out

- React rendering, JSX markup, styles, icons and the drag sensors are presentation. Text and link form fields are not modelled either: `LinkBlock`/`TextBlock` only send `{label}`, `{url}`, `{heading}` or `{content}` partial updates, which `EditorForm.BlocksWithUpdate` covers.
- The network request in `src/services/ai.js:27-43` is not modelled: its answer is the `Reply` parameter, and `JSON.parse` is the `parse` parameter. `AiService.BuildRequest` records what would be sent.
- `localStorage` reads and writes, including the auto-save effect, are left out. The saved values are the constructor's `Saved` parameter, and saved JSON is assumed to parse.
- `window.confirm` becomes the `confirmed` parameter. `alert` becomes the returned message. `console.error` is left out.
- The Clipboard API write and the "Copied!" status are left out; only the plain-text payload (`Preview.ClipboardText`) is modelled.
- The Blob, object URL and anchor click of the download are left out. `ExportToHtml.DownloadHtml` returns the file name and the page text.
- The stylesheet text itself is a parameter (`styleSheet`); only the theme variables are modelled.
- `FileReader` reading uploads and `Promise.all` are left out; the upload handler receives the data URLs in file order.
- ReactMarkdown rendering of the preview copy is left out; only whether a section appears is modelled. `renderTextWithLinks` is never called in the source and is not modelled.
- `Date.now()` is a parameter (`now`, `ts`).
- The `isGenerating` loading overlay and the async timing are left out. `HandleGenerate` states only the before and after states.
- The settings inputs (key, model and theme fields) are not modelled: they only call their setters.
- Text.ToLowerAscii: lowercases ASCII letters only, not the full Unicode `toLowerCase`. `ExportToHtml.DownloadFilename` and `ExportToHtml.FilenameShape` inherit this.
- EditorForm.HandleDragEnd: requires both ids to be present, as they are for items of the sortable list. A drop outside the list (`over` null) makes the source throw a TypeError at `over.id` inside the event handler, which leaves the blocks as they were. The model returns the list unchanged for `None` and does not model the thrown error.
- EditorForm.HandleMetricChange: the source writes the field of the shared metric object in place. The model replaces the list with a new value, so aliasing between the old and new list is not captured.
- Preview.VisibilityParity: the parity is not exact. A text block without a heading whose copy is non-empty but whitespace-only gets an empty preview section, while the export emits nothing for it; the lemma states exactly this difference.
- AiService.Cleanup: the first pattern of the source matches a backslash followed by `n`, not a line break. The model reproduces this exactly, so a "```json" line is reduced by the bare-fence removal and the trim only.
- CaseStudyApp.App.HandleGenerate: calls the service with the arguments in their declared order. The call as written is modelled separately (see Findings).
- Metric fallbacks differ on purpose: the preview shows '-' and 'Metric', the export shows empty strings. Only visibility is proved to agree, not the strings.

## Findings

| source | as written | input that shows it | evidently intended | confidence | as-written member | corrected member |
|---|---|---|---|---|---|---|
| src/App.jsx:84 vs src/services/ai.js:1 | `generateCaseStudyText(apiKey, aiModel, projectData, blocks)` is called, but the function declares `(apiKey, projectData, blocks)`, so `projectData` binds the model name and `blocks` binds the project object; `blocks.filter` throws a TypeError | any non-empty project name with any non-empty API key: generation always fails with "blocks.filter is not a function" | the call `generateCaseStudyText(apiKey, projectData, blocks)` | not executed | CaseStudyApp.AsWrittenAlwaysFails | CaseStudyApp.CorrectedCallCanSucceed |
