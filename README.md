# ClouSec documentation core, modelled in Dafny

This project models the documentation subsystem of the ClouSec site, together with the small page-level rules around it.

The backend keeps a tree of documentation pages in Postgres. There are two tables:

- `documents`: a title, an optional `parent_id` and an `order_index`;
- `document_blocks`: content blocks owned by a document.

Both foreign keys cascade on delete.

## What is modelled

**Document store: `DocumentStore`, `DocumentTree`, `DocumentPath`.**

- The two tables are maps in a `Store` class, with fresh-id counters in place of `SERIAL`.
- The schema constraints are the class invariant, and every query of `documents.js` is a function or method on it.
- Tree assembly is the two-loop algorithm of `getDocumentTree`.
- Cascade delete is a worklist loop that computes the descendants of a document.
- The breadcrumb query is the recursive CTE, written as a walk up the `parent_id` chain.

**Seeding: `DocumentSeed`, `SeedStructure`.**

- `seed-documentation.js` first inserts the root pages.
- It then repeats passes over the remaining pages until a pass inserts nothing.
- Finally it creates one `rich-text` block per inserted page.
- The eight pages the script ships are a constant. Their shape is proved sound.

**Editor and sidebar: `DocumentEditor`, `DocumentSidebar`.**

- The editor's block list is a class whose methods call the store. The methods cover append, update, delete and swap-move.
- The sidebar's React state is modelled as pure functions from the state before an event to the state after it: the expansion map, the add guard, the selection after a delete, and the rendered outline of rows.

**Utilities and pages: `TaskScheduler`, `Preview`, `BlogPage`, `CaseStudyPage`, `TeamCarousel`, `JsString`, `Common`.**

- The chunked map of `taskScheduler.ts`. The rescheduled callbacks become the iterations of an outer loop.
- `truncateText`: HTML-tag stripping and truncation.
- The other-posts filters, the blog comment form and its captcha.
- The case-study id check and PDF download name.
- The About Us team carousel.
- The JavaScript string primitives these rely on: `trim`, `\s`, `parseInt` and number-to-string.

**Inputs the model receives as parameters:**

- the browser window width;
- the captcha's random operands;
- the server's reply to a comment submission;
- whether the sidebar's document-tree reload after a create or delete succeeds;
- whether the sidebar's delete request succeeds (`deleted` in `AfterDelete`): `Store.DeleteDocument` never fails, so a failed delete stands for an HTTP or network failure;
- the user's confirmation;
- the number of timer ticks.

## Model

| member | source | states |
|---|---|---|
| DocumentStore.Store.constructor | backend/src/db/documents.js:8-29 | an empty database satisfies the schema invariant: every `parent_id` and every block's `document_id` names a stored document, and keys stay below the counters |
| DocumentStore.Store.RootDocuments | backend/src/db/documents.js:39-47 | exactly the stored documents with no parent, each once, in non-decreasing `order_index` |
| DocumentStore.Store.ChildDocuments | backend/src/db/documents.js:54-62 | exactly the stored documents whose parent is the given id, each once, in non-decreasing `order_index` |
| DocumentStore.Store.GetDocumentById | backend/src/db/documents.js:69-92 | `None` exactly when the id is absent; otherwise the stored row and exactly the blocks with that `document_id`, each once, in non-decreasing `order_index` |
| DocumentStore.BlocksOfDocument | backend/src/db/documents.js:83-87 | the block query yields exactly the stored blocks of the document, each once, in non-decreasing `order_index` |
| DocumentStore.Column | backend/src/db/documents.js:8-29 | the value a `VARCHAR(n)` column holds is a prefix of the value written, of length at most n, and for an accepted value everything cut off is spaces |
| DocumentStore.FitsExactly | backend/src/db/documents.js:8-29 | a value fits `VARCHAR(n)` exactly when every character past the n-th is a space |
| DocumentStore.StoredStable | backend/src/db/documents.js:8-29 | a stored value fits again and is stored unchanged |
| DocumentStore.ExcessAtLimit | backend/src/db/documents.js:8-29 | a value one character over the limit is accepted, and cut back to the limit, exactly when that character is a space |
| DocumentStore.Store.CreateDocument | backend/src/db/documents.js:134-143 | fails exactly when the title does not fit `VARCHAR(255)`, that is when some character past the 255th is not a space (value too long), or the parent does not exist (foreign key); otherwise adds a row with the next id, the title with any spaces past the 255th character cut off, and `parent_id`/`order_index` defaulting to null/0; blocks are untouched |
| DocumentStore.Store.UpdateDocument | backend/src/db/documents.js:150-160 | no row for an absent id; otherwise only `title` and `order_index` change and `parent_id` is kept; a title with a non-space character past the 255th is refused and leaves the table unchanged, and excess spaces are cut off |
| DocumentStore.Store.MoveDocument | backend/src/db/documents.js:167-177 | no row for an absent id; a missing new parent is a foreign key error; otherwise only `parent_id` and `order_index` change and the title is kept |
| DocumentStore.Store.DeleteDocument | backend/src/db/documents.js:184-188 | returns true even for an absent id; removes the document's whole subtree and every block owned by a removed document; no remaining document has the deleted id as an ancestor |
| DocumentStore.Descendants | backend/src/db/documents.js:11 | the worklist loop over the finite table computes exactly the subtree of a document (the documents whose `parent_id` chain reaches it), and terminates even on cyclic tables |
| DocumentStore.Store.CreateDocumentBlock | backend/src/db/documents.js:195-204 | fails exactly when the type has a non-space character past the 50th or the document does not exist; otherwise stores a block with the next id, the type with excess spaces cut off, and the given content and order |
| DocumentStore.Store.UpdateDocumentBlock | backend/src/db/documents.js:211-221 | no row for an absent id; a type with a non-space character past the 50th is refused and leaves the table unchanged; otherwise type (excess spaces cut off), content and order are replaced and the owner is kept |
| DocumentStore.Store.DeleteDocumentBlock | backend/src/db/documents.js:228-232 | removes exactly that block and returns true |
| DocumentStore.Store.TreeRows | backend/src/db/documents.js:101-104 | the rows of `ORDER BY parent_id NULLS FIRST, order_index`: every stored document once, sorted by that key, every parent among the rows |
| DocumentStore.SortBy | backend/src/db/documents.js:103 | a sorted permutation of its input |
| DocumentTree.AssembleTree | backend/src/db/documents.js:108-128 | fails exactly when some row's parent is not among the rows (the dereference of `undefined` at line 122), naming the first such row; otherwise returns the forest `TreeOf(rows)` |
| DocumentTree.TreeOf | backend/src/db/documents.js:111-124 | every row is a node; the roots are the ids of the parentless rows and each node's children are the ids of the rows naming it, both in input order |
| DocumentTree.PlacedOnce | backend/src/db/documents.js:116-124 | each row appears exactly once in the sibling list of its own parent (the forest for a null parent) and nowhere else |
| DocumentTree.SiblingsSorted | backend/src/db/documents.js:103-124 | with the SQL order, every sibling list is in non-decreasing `order_index` |
| DocumentTree.ForestOrdered | backend/src/db/documents.js:103-124 | in the assembled forest every sibling list names stored nodes in non-decreasing `order_index` |
| DocumentTree.GetDocumentTree | backend/src/db/documents.js:99-131 | on a store that satisfies the schema the tree never fails and equals the forest built from the ordered rows |
| DocumentPath.Climb | backend/src/db/documents.js:242-256 | the CTE walk ends in a root-level row whose arrays form a parent chain; no row means a missing parent; non-termination means a cycle |
| DocumentPath.CteChain | backend/src/db/documents.js:242-256 | the CTE's row runs from a root to the requested id; an absent id gives no row; in a schema-valid table an existing id never gives `NoRow`: it gives a row when the table is acyclic, and otherwise the query may diverge |
| DocumentPath.AcyclicEnds | backend/src/db/documents.js:242-256 | on an acyclic table the recursive query terminates |
| DocumentPath.GetDocumentPath | backend/src/db/documents.js:239-276 | `[]` for an absent id; otherwise starts with the target, each next entry is the previous one's parent, titles match the table, and the last entry has no parent |
| DocumentPath.ChainTrail | backend/src/db/documents.js:268-271 | zipping the CTE's arrays gives a root-first trail of stored ids and titles |
| DocumentPath.ReversedChainTrail | backend/src/db/documents.js:264-271 | the reversed zip starts at the target and climbs one parent per step |
| DocumentPath.MoveUnderDescendantMakesCycle | backend/src/db/documents.js:167-177 | moving a document under one of its own descendants makes the table cyclic |
| DocumentPath.CurrentCrumb | src/components/Documents/DocumentBreadcrumb.tsx:56-61 | the entry the breadcrumb marks as current is the last one, if any |
| DocumentPath.RootMarkedCurrent | backend/src/db/documents.js:262-265 | for any page below the top level, the entry marked current is a root and not the page itself |
| DocumentPath.ExampleMarksRoot | src/components/Documents/DocumentBreadcrumb.tsx:56-61 | on "Install" under "Guide" the trail is Install, Guide, and Guide is marked current |
| DocumentPath.BreadcrumbPath | backend/src/db/documents.js:242-256 | the corrected trail: root first, each entry the parent of the next, the requested page marked current |
| DocumentPath.BreadcrumbIsReversedPath | backend/src/db/documents.js:264-265 | the corrected trail is exactly the reverse of the path as written, so the reverse of the result is the root-to-target chain |
| DocumentSeed.RootPass | backend/src/scripts/seed-documentation.js:107-123 | inserts exactly the entries with no parent, in order, records each new id in `idMap`, and fails only if a title does not fit `VARCHAR(255)`; the stored titles lose any spaces past the 255th character |
| DocumentSeed.ChildPass | backend/src/scripts/seed-documentation.js:134-151 | one pass inserts a waiting entry only when `idMap` holds its parent, using `idMap[parentId]` as `parent_id`; the next batch is exactly the still-unseeded entries and never longer; a pass with no progress leaves only entries whose parent is unseeded |
| DocumentSeed.PassIds | backend/src/scripts/seed-documentation.js:137-144 | the entries inserted after a given prefix receive consecutive ids in insertion order, the `k`-th of them the prefix length plus `k` past the first id |
| DocumentSeed.RepeatPasses | backend/src/scripts/seed-documentation.js:127-154 | the while loop terminates because each continued pass strictly shortens the remaining list; on exit every remaining entry's parent is unseeded |
| DocumentSeed.InsertedGrounded | backend/src/scripts/seed-documentation.js:134-150 | every inserted entry's parent chain reaches a root entry |
| DocumentSeed.StuckNotGrounded | backend/src/scripts/seed-documentation.js:130-159 | entries left when no pass makes progress have no parent chain that reaches a root |
| DocumentSeed.Exhausted | backend/src/scripts/seed-documentation.js:130-159 | on exit an entry is seeded exactly when its parent chain reaches a root entry, so the leftovers are exactly the ungrounded entries |
| DocumentSeed.BlockPass | backend/src/scripts/seed-documentation.js:162-171 | creates one block per inserted entry with content, and no others |
| DocumentSeed.OneBlockPerEntry | backend/src/scripts/seed-documentation.js:162-171 | each such entry gets exactly one block: type `rich-text`, content `{html: content}`, `order_index` 0, owned by the entry's document |
| DocumentSeed.NoDocumentsNoBlocks | backend/src/db/documents.js:22 | by the schema, an empty documents table has no blocks |
| DocumentSeed.SeedDocumentation | backend/src/scripts/seed-documentation.js:81-180 | skips, changing nothing, exactly when the table already has rows; a title that does not fit `VARCHAR(255)` stops it with an error; otherwise it seeds every root, exactly the grounded entries, and their blocks |
| SeedStructure.StructureKeysDistinct | backend/src/scripts/seed-documentation.js:11-76 | the shipped pages have distinct ids |
| SeedStructure.StructureTitlesFit | backend/src/scripts/seed-documentation.js:11-76 | every shipped title fits in 255 characters, so the column stores it unchanged |
| SeedStructure.StructureParentsEarlier | backend/src/scripts/seed-documentation.js:11-76 | every page's parent is listed before it |
| SeedStructure.StructureGrounded | backend/src/scripts/seed-documentation.js:11-76 | every shipped page hangs below a root, so seeding an empty table leaves nothing behind |
| SeedStructure.StructureContentPresent | backend/src/scripts/seed-documentation.js:11-76 | with non-empty bodies every page has content, so every page gets a block |
| SeedStructure.FirstBodiesPresent | backend/src/scripts/seed-documentation.js:11-43 | the first four shipped bodies are non-empty |
| SeedStructure.MiddleBodiesPresent | backend/src/scripts/seed-documentation.js:44-59 | the Ubuntu and API reference bodies are non-empty |
| SeedStructure.LastBodiesPresent | backend/src/scripts/seed-documentation.js:60-75 | the authentication and users API bodies are non-empty |
| DocumentEditor.FirstIndex | src/components/Documents/DocumentEditor.tsx:91 | the index of the first block with the id, or -1 exactly when there is none |
| DocumentEditor.Editor.FindBlock | src/components/Documents/DocumentEditor.tsx:137 | the `findIndex` loop returns `FirstIndex` |
| DocumentEditor.UpdatedBlocks | src/components/Documents/DocumentEditor.tsx:91-101 | changes nothing when the block is absent; otherwise only the matching block's content becomes `{html}`, with id, type, owner and order kept; length and every other block unchanged |
| DocumentEditor.MoveTarget | src/components/Documents/DocumentEditor.tsx:137-143 | a swap happens exactly when the block exists and its neighbour in that direction is within `[0, length)` |
| DocumentEditor.MovedBlocks | src/components/Documents/DocumentEditor.tsx:137-153 | unchanged without a target; otherwise the two blocks swap and take their new positions as `order_index`, every other position kept |
| DocumentEditor.SwapIsMove | src/components/Documents/DocumentEditor.tsx:145-153 | the step-by-step swap and renumbering of the copy is `MovedBlocks` for the target found |
| DocumentEditor.BlockWrite | backend/src/db/documents.js:211-222 | one `updateDocumentBlock` write fails exactly for a missing row or a type with a non-space character past the 50th; otherwise only that row changes, taking the content and order sent and the type with excess spaces cut off |
| DocumentEditor.SavedIsWrite | backend/src/db/documents.js:211-222 | the store's update succeeds exactly when `BlockWrite` does, and leaves the table `BlockWrite` describes |
| DocumentEditor.MovePermutes | src/components/Documents/DocumentEditor.tsx:146-149 | moving permutes the block ids |
| DocumentEditor.MoveUpThenDown | src/components/Documents/DocumentEditor.tsx:140-149 | moving up and then down restores the sequence of block ids and every block up to its `order_index` |
| DocumentEditor.DeleteKeepsOthers | src/components/Documents/DocumentEditor.tsx:125-126 | the delete filter keeps exactly the blocks with another id, in relative order |
| DocumentEditor.Editor.AddBlock | src/components/Documents/DocumentEditor.tsx:68-88 | with an open document, a `rich-text` block with `order_index` equal to the current length is created under the next block id and appended; with no document nothing happens; a failed create leaves the list and the store and shows the error; the documents and the document counter never change |
| DocumentEditor.Editor.UpdateBlock | src/components/Documents/DocumentEditor.tsx:90-114 | the list becomes `UpdatedBlocks` and the error is kept; an unlisted block leaves the store untouched; a listed one is written back with `BlockWrite`, a failed write leaving the table as it was; documents and counters never change |
| DocumentEditor.Editor.DeleteBlock | src/components/Documents/DocumentEditor.tsx:116-134 | without confirmation nothing happens; otherwise exactly that block row is deleted, the block filtered out of the list and the error cleared; documents and counters never change |
| DocumentEditor.Editor.MoveBlock | src/components/Documents/DocumentEditor.tsx:136-185 | the list becomes `MovedBlocks`; without a target nothing is sent; with one, the neighbour that now sits at the moved block's old position (`newBlocks[blockIndex]`) is written first, then the moved block at its new position; the second write is sent only if the first succeeds; the error is cleared exactly when both succeed, and the table is the result of the writes that succeeded; documents and counters never change |
| DocumentSidebar.ToggleNode | src/components/Documents/DocumentSidebar.tsx:48-53 | flips only the node's own expanded value, a missing entry counting as collapsed, and keeps every other entry |
| DocumentSidebar.ToggleTwice | src/components/Documents/DocumentSidebar.tsx:48-53 | toggling twice restores whether every node is expanded |
| DocumentSidebar.AddRequest | src/components/Documents/DocumentSidebar.tsx:55-59 | no request exactly when the typed title is empty or only white space; otherwise the untrimmed title under the given parent |
| DocumentSidebar.ReloadError | src/components/Documents/DocumentSidebar.tsx:34-46 | the awaited tree reload always rewrites the error: cleared exactly when the fetch succeeds, the load-failure message otherwise |
| DocumentSidebar.AfterAdd | src/components/Documents/DocumentSidebar.tsx:60-67 | success clears the title and the add-form target, shows the success alert and leaves the error the reload writes; failure keeps the form and shows the create error |
| DocumentSidebar.AddDocument | src/components/Documents/DocumentSidebar.tsx:55-69 | a blank title changes nothing; otherwise the store creates the document, with excess spaces past the 255th character cut off, exactly when the untrimmed title fits `VARCHAR(255)` and the parent exists, and the sidebar state is `AfterAdd` of that outcome and of the reload |
| DocumentSidebar.SelectionAfterDelete | src/components/Documents/DocumentSidebar.tsx:79-82 | as written: the selection is cleared exactly when it is the deleted id itself |
| DocumentSidebar.DeleteKeepsRemovedSelection | src/components/Documents/DocumentSidebar.tsx:75-82 | a selected child of a deleted root is cascade-deleted but stays selected |
| DocumentSidebar.SelectionAfterReload | src/components/Documents/DocumentSidebar.tsx:76-82 | corrected: the selection survives exactly when its document is still stored |
| DocumentSidebar.ReloadClearsRemoved | src/components/Documents/DocumentSidebar.tsx:76-82 | after a cascade delete the corrected selection never names a removed document, keeps a surviving one, and clears it whenever the code as written does |
| DocumentSidebar.AfterDelete | src/components/Documents/DocumentSidebar.tsx:76-88 | the success or failure alert; on success the error the reload writes, on failure the delete error; expansion and form unchanged |
| DocumentSidebar.SuccessClearsError | src/components/Documents/DocumentSidebar.tsx:60-88 | an earlier create or delete failure is no longer shown after a later success whose reload succeeds |
| DocumentSidebar.Indent | src/components/Documents/DocumentSidebar.tsx:102 | the indentation is 8 pixels plus a whole number of 16-pixel steps |
| DocumentSidebar.ChildIndented | src/components/Documents/DocumentSidebar.tsx:102-176 | each child of an expanded node starts with its own entry, indented 16 pixels more than its parent's |
| DocumentSidebar.Render | src/components/Documents/DocumentSidebar.tsx:93-179 | the first row is the node's entry at its level, selected exactly when it is the selected id, with a chevron exactly when it has children |
| DocumentSidebar.RenderOutline | src/components/Documents/DocumentSidebar.tsx:93-179 | the rows of a node form an outline: they start at its level, never go above it, and go at most one level deeper per row |
| DocumentSidebar.RenderAllOutline | src/components/Documents/DocumentSidebar.tsx:172-176 | rendered siblings form an outline at their common level |
| DocumentSidebar.CollapsedHidesChildren | src/components/Documents/DocumentSidebar.tsx:172-176 | a collapsed or childless node shows only its entry and at most its add form |
| DocumentSidebar.ExpandedShowsChildren | src/components/Documents/DocumentSidebar.tsx:172-176 | an expanded node shows each child's whole rendering, one level deeper, in order |
| TaskScheduler.ChunkEnd | src/utils/taskScheduler.ts:93 | a chunk never ends past `total`, and a non-empty chunk makes progress |
| TaskScheduler.ChunkEndsShape | src/utils/taskScheduler.ts:97-103 | the reported `processed` values strictly increase, each is the previous chunk end, and the last is `total` |
| TaskScheduler.EmptyInputOneReport | src/utils/taskScheduler.ts:104-111 | an empty list reports 0 once and completes after the first call |
| TaskScheduler.ProcessChunk | src/utils/taskScheduler.ts:95-98 | one chunk extends the results by the mapped items of `[start, end)`, in index order |
| TaskScheduler.ProcessInChunks | src/utils/taskScheduler.ts:81-117 | completes with `results[i] == processItem(items[i])` for every item, and the progress reports are exactly the chunk ends |
| TaskScheduler.ProcessBatch | src/utils/taskScheduler.ts:14-54 | resolves with `items.map(operation)` |
| TaskScheduler.ZeroChunkStalls | src/utils/taskScheduler.ts:93-108 | with a chunk size of 0 or less, `processed` never grows and the start never advances, whatever the number of callbacks |
| Preview.StripTags | src/components/Blog/BlogDetail.tsx:160 | the stripped text contains no `<` and is never longer |
| Preview.StripTag | src/components/Blog/BlogDetail.tsx:160 | a `<`, the following non-`>` characters and the closing `>` are removed; an unterminated tag removes the rest |
| Preview.StripKeepsText | src/components/Blog/BlogDetail.tsx:160 | a prefix containing no `<` is kept, unchanged, in front of the stripped rest: stripping `a + rest` gives `a` followed by stripping `rest` |
| Preview.StripIdempotent | src/components/Blog/BlogDetail.tsx:160 | stripping twice is stripping once |
| Preview.TruncateText | src/components/Blog/BlogDetail.tsx:158-164 | no `<` in the result; the stripped text when it fits; otherwise its first `maxLength` characters plus `...`, of length `maxLength + 3` for a non-negative `maxLength`; a negative `maxLength` counts as 0 (`substring`), so the result is just `...` |
| Preview.TruncateShortPlain | src/components/CaseStudy/CaseStudyDetail.tsx:100-105 | a short text without tags is shown as it is |
| JsString.Trim | src/components/Blog/BlogDetail.tsx:100 | the text with the leading and trailing white space cut off, neither end white space |
| JsString.TrimBlank | src/components/Blog/BlogDetail.tsx:100 | the trimmed text is empty exactly when the text is all white space |
| JsString.ParseInt | src/components/CaseStudy/CaseStudyDetail.tsx:23-26 | `NaN` exactly when no digit follows the white space, the sign and any `0x`; a negative result needs a minus sign |
| JsString.DecimalString | src/components/Blog/BlogDetail.tsx:79 | `toString` of a natural number: non-empty decimal digits, without a leading zero |
| JsString.DecimalStringValue | src/components/Blog/BlogDetail.tsx:79 | the digits of the string have the number's value |
| JsString.ParseDecimalString | src/components/Blog/BlogDetail.tsx:79 | `parseInt` of the decimal string is the number back again |
| JsString.DecimalStringInjective | src/components/Blog/BlogDetail.tsx:79 | different numbers have different decimal strings |
| BlogPage.OtherBlogsExact | src/components/Blog/BlogDetail.tsx:38 | the other posts are exactly the listed ones with another id, in listed order; a non-numeric id keeps them all |
| BlogPage.GenerateCaptcha | src/components/Blog/BlogDetail.tsx:75-80 | the question reads `a + b = ?` and the answer is the one- or two-digit decimal string of the sum |
| BlogPage.CaptchaExact | src/components/Blog/BlogDetail.tsx:106-111 | only the exact digits of the sum pass the captcha: a padded or zero-prefixed answer is refused |
| BlogPage.ChangeField | src/components/Blog/BlogDetail.tsx:83-93 | only the edited field changes, and both messages are cleared |
| BlogPage.SubmitComment | src/components/Blog/BlogDetail.tsx:96-138 | the comment list changes exactly when the name and comment are non-blank, the captcha matches, the route has an id and the server created the comment; the comment is then prepended, the form emptied and success shown |
| BlogPage.SubmitBlank | src/components/Blog/BlogDetail.tsx:100-103 | a blank name or comment only sets the required-fields error |
| BlogPage.SubmitWrongCaptcha | src/components/Blog/BlogDetail.tsx:106-111 | a wrong answer keeps the comments, sets the captcha error, draws a new captcha and clears the answer field |
| BlogPage.SubmitServerFails | src/components/Blog/BlogDetail.tsx:115-137 | an accepted form for a route with an id that the server refuses keeps the comments and the form, shows the submit-failure message and draws a new captcha |
| BlogPage.SubmitRenewsCaptcha | src/components/Blog/BlogDetail.tsx:137 | a submission past the blank check always draws a new captcha, whatever the server replies |
| CaseStudyPage.LoadCaseStudy | src/components/CaseStudy/CaseStudyDetail.tsx:16-45 | nothing happens exactly for a missing or empty id; a fetch happens exactly when `parseInt` gives a number, and for that number; otherwise the load-failure message |
| CaseStudyPage.NonNumericIdFails | src/components/CaseStudy/CaseStudyDetail.tsx:23-26 | an id with no leading digits fails before any fetch |
| CaseStudyPage.OtherCaseStudiesExact | src/components/CaseStudy/CaseStudyDetail.tsx:35 | the other case studies are exactly those with another id, in listed order |
| CaseStudyPage.DashSpaces | src/components/CaseStudy/CaseStudyDetail.tsx:69 | the result has no white space and is never longer |
| CaseStudyPage.DashSpacesRun | src/components/CaseStudy/CaseStudyDetail.tsx:69 | a whole run of white space becomes a single `-` |
| CaseStudyPage.DashSpacesPlain | src/components/CaseStudy/CaseStudyDetail.tsx:69 | text without white space is kept as it is |
| CaseStudyPage.ToLower | src/components/CaseStudy/CaseStudyDetail.tsx:69 | the same length, each character lower-cased |
| CaseStudyPage.ToLowerIdempotent | src/components/CaseStudy/CaseStudyDetail.tsx:69 | lower-casing twice is lower-casing once |
| CaseStudyPage.PdfFileName | src/components/CaseStudy/CaseStudyDetail.tsx:69 | the dashed, lower-cased title followed by `-case-study.pdf`, with no white space and no capital letter |
| CaseStudyPage.DownloadPdf | src/components/CaseStudy/CaseStudyDetail.tsx:57-80 | the not-available message exactly when there is no case study or `pdfUrl` is missing or empty; otherwise the URL under the derived file name |
| TeamCarousel.CardsPerView | src/Pages/AboutUs.tsx:70-75 | 1 exactly below 640 pixels, 2 exactly from 640 below 1024, 3 exactly from 1024 |
| TeamCarousel.CardsPerViewMonotonic | src/Pages/AboutUs.tsx:70-75 | wider windows never show fewer cards |
| TeamCarousel.Advance | src/Pages/AboutUs.tsx:84-88 | the new index stays in `[0, n)`; from an in-range index it moves on by one page, wrapping once past the end |
| TeamCarousel.AfterTicks | src/Pages/AboutUs.tsx:84-88 | after any number of ticks the index is still in range |
| TeamCarousel.Slice | src/Pages/AboutUs.tsx:93-95 | `slice` with its end clamped to the length |
| TeamCarousel.VisibleMembers | src/Pages/AboutUs.tsx:92-96 | `cardsPerView` members, the j-th being `teamMembers[(currentIndex + j) % n]` |
| TeamCarousel.VisibleNoWrap | src/Pages/AboutUs.tsx:93-96 | a window that fits before the end is a plain slice |
| TeamCarousel.TeamWindowFull | src/Pages/AboutUs.tsx:64-96 | with four members, at every width and from every index below four (so also after a resize changes the step) the window holds `cardsPerView` cards, the i-th from position `Slot(c, i)`, and no position is shown twice |
| TeamCarousel.Slot | src/Pages/AboutUs.tsx:92-96 | the list position shown in a window card is always within the four members |
| TeamCarousel.DesktopRepeatsMember | src/Pages/AboutUs.tsx:15-96 | the page's own list repeats two people, so a desktop window shows John Doe, Jane Smith and John Doe |
| Common.FilterMembers | src/components/Blog/BlogDetail.tsx:38 | `filter` keeps exactly the elements satisfying the predicate |
| Common.FilterIsSubsequence | src/components/Blog/BlogDetail.tsx:38 | `filter` keeps the relative order |

## Left out

- Timestamps (`created_at`, `updated_at`) come from the clock and are not modelled.
- JSONB `content` is an opaque value compared only for equality.
- The 32-bit range of `order_index` and the ids is not modelled; ids are unbounded.
- In Postgres a failed insert still advances the `SERIAL` sequence; the model's counter advances only on success, so ids are consecutive.
- Rows with equal `order_index` have no defined order in SQL. The model lists rows by id and sorts stably, but only non-decreasing order is proved.
- DocumentPath.GetDocumentPath assumes Postgres accepts the recursive query as written; the column types of the CTE's two terms are not modelled. The non-recursive term builds `ARRAY[title]` from the `VARCHAR(255)` column while the recursive term's `d.title || dp.titles` has an unconstrained `varchar[]` type, and Postgres may refuse that mismatch, in which case every call raises an error and the breadcrumb shows an empty trail.
- DocumentPath.GetDocumentPath requires that the recursive query terminates, rather than modelling the SQL query running forever on a cyclic table. `moveDocument` performs no cycle check; `MoveUnderDescendantMakesCycle` shows how a cycle arises.
- DocumentPath.Climb promises only that the last element of the path is kept, not that the whole path is a suffix of the result; the callers need no more.
- DocumentStore.Descendants requires every key to lie below a bound (the id counter), which the store invariant provides.
- Express routes, the `isAdmin` check, the HTTP and fetch wrappers, and 404 mapping are I/O glue; the store's methods are called directly.
- The Postgres pool, query execution and DDL, the seeding script's table-exists check, `process.exit`, console output and `pool.end()` are left out.
- DocumentSeed.SeedDocumentation requires the entries to have distinct keys, which the shipped structure has (`StructureKeysDistinct`); the script's raw `INSERT`s are modelled by the store's create methods.
- DocumentSeed.ChildPass does not state the order of the inserts within one pass, so which id each child seeded in that pass receives is unstated; root ids follow list order (`RootPass`) and ids are consecutive in insertion order (`PassIds`), but the invariant that fixes the within-pass order makes the pass's proof too costly.
- DocumentSeed.BlockPass assumes an empty blocks table, which holds after seeding into an empty documents table (`NoDocumentsNoBlocks`).
- The seeding sequence is not atomic. A failure mid-way is modelled as stopping with the partially seeded state, not as a rollback.
- SeedStructure.StructureContentPresent is stated over any non-empty bodies. The shipped bodies are proved non-empty in three separate lemmas rather than in one statement about the whole structure, because the long literal bodies make one combined proof too costly.
- DocumentEditor.Editor.MoveBlock models the list on values: the source assigns `order_index` on block objects shared with the previous React state (aliasing). After a failed save the source starts `loadDocument()` without awaiting it; that reload, which replaces the list with the stored blocks and, on success, clears the error again, is not modelled. The contract gives the list and the error as they are when the handler itself returns.
- `handleSaveDocument`, `loadDocument` and the editor's TipTap and DOM code are left out.
- Loading flags, `isAdmin`-only buttons, confirmation dialogs and navigation are UI and are not modelled. The confirmation is a boolean parameter where it guards a change.
- JavaScript strings count UTF-16 code units; the model counts characters, so `substring` and `length` differ for text outside the Basic Multilingual Plane.
- JsString.ParseInt reads unbounded integers; JavaScript numbers lose precision beyond 2^53.
- CaseStudyPage.ToLower lower-cases only the ASCII letters A to Z; `toLowerCase` also maps other scripts.
- `setTimeout`, `requestIdleCallback`, `setInterval` and the delays between chunks are modelled as iterations of a loop or as a tick count. The optional `onProgress` and `onComplete` callbacks are modelled as the returned progress sequence and result.
- TaskScheduler.ProcessInChunks and TaskScheduler.ProcessBatch require a chunk size of at least 1, because with 0 the source never completes; `ZeroChunkStalls` states that case.
- TeamCarousel.AfterTicks states only that the index stays in range; no closed form of the index after many ticks is given.
- The captcha question is empty until the page first draws one; the model starts from a drawn captcha.
- The blog and case-study data loading (`getBlogById`, `getComments`, the network errors they catch) is left out apart from the id checks.

## Findings

| source | as written | input that shows it | evidently intended | confidence | as-written member | corrected member |
|---|---|---|---|---|---|---|
| backend/src/db/documents.js:262-265 | the CTE's arrays already run root first; `.reverse()` turns the trail into target-to-root, and DocumentBreadcrumb.tsx:61 marks the last entry, a root, as the current page | documents 1 "Guide" (root) and 2 "Install" (child of 1), path of 2: trail Install, Guide with Guide marked current | the breadcrumb lists root to target and marks the requested page as current; the defect shows only if Postgres accepts the query's column types (see "## Left out") | medium, not executed | DocumentPath.ExampleMarksRoot | DocumentPath.BreadcrumbPath |
| src/components/Documents/DocumentSidebar.tsx:79-82 | after a delete the selection is cleared only if it is the deleted id itself, though the delete cascades to descendants | documents 1 (root) and 2 (child of 1), document 2 selected, delete 1: 2 is removed but stays selected | the selection is cleared whenever the selected document has been removed | medium, not executed | DocumentSidebar.DeleteKeepsRemovedSelection | DocumentSidebar.SelectionAfterReload |
