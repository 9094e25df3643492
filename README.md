# Blog admin: posts, publication state and images

This project models the administration side of a Firebase-backed blog and proves properties of that model.

**Posts.** A post lives under its slug in four Firestore collections:

| collection | holds |
|---|---|
| `blogMetaCollection` | the meta view: title, author, featured image, slug, `isPublic`, `isPublished`, `publishedDate`, `lastUpdated` |
| `blogMDXContentCollection` | the Markdown source and its rendered HTML |
| `blogContentCollection` | the rendered HTML |
| `blogReadCountCollection` | the read counter |

**The write form** (`WriteForm`) does the following:
- validates its input with the content schema (`Schema`);
- derives a slug from the title;
- in edit mode, loads an existing post;
- fans a submission out over the collections: four `setDoc`s to create, three `updateDoc`s to edit.

The form's Markdown editor is a wrapper around an editor instance (`EditorComponent`).

**The dashboard** (`Dashboard`) does the following:
- lists posts: a first page joined with the read counts, then "load more" pages;
- toggles publication with one `updateDoc`;
- deletes a post with four `deleteDoc`s;
- sums the read counts;
- formats dates.

**The image panels:**
- `ImageStore` lists the stored images newest first, through a window that grows by ten, and deletes images.
- `ImageCompUpload` renames a compressed image after the output type and uploads whichever file is at hand.

**How Firestore is modelled** (`Firestore`, `Posts`):
- A database is a map from collection names to maps from keys to documents, and a document is a map from field names to values.
- `setDoc` overwrites the document.
- `updateDoc` merges its fields into the document, and fails with "not found" when the document is absent.
- `deleteDoc` succeeds whether or not the document exists.
- Every awaited call may also fail. A per-call fault oracle says which calls fail.
- A sequence of awaited writes stops at the first failure, and the earlier writes stay.

**How the React components are modelled.** State that a component updates in place is a `class` whose methods carry `modifies` clauses. The pure helpers of each file are functions, with lemmas about them.

## The submit form against the toggle's latch

Two places in the code treat publication as a one-way latch. The dashboard toggle (`Dashboard.tsx:180-188`) never unpublishes a post, and never re-dates a post whose row shows it published. The submit handler's edit branch carries a comment saying an already published post must stay consistently published (`WriteForm.tsx:172`). `WriteForm.NextPublication` states that latch, and `WriteForm.SubmittedMetaAgainstLatch` states where the submitted meta keeps it and where it departs. The model follows the code in each case:
- **Edit of a published post** (`WriteForm.tsx:157-173`): the submitted meta always carries `publishedDate: null`, and it carries `isPublished: false` when the post is hidden. Editing therefore erases the date, and un-publishes a hidden post. The latch keeps both.
- **Create of a non-public post**: the post still gets a `publishedDate`.
- **The toggle** (`Dashboard.tsx:180-188`): it decides on the `isPublished` flag of the row on screen. A stale row that says unpublished re-dates an already published post.
- **`hasMore`**: after the first page it is true when exactly ten rows came back (`Dashboard.tsx:150`). So it is true with exactly ten posts, not only when more than ten exist (`Dashboard.FirstPageHasMore`).

## Model

| member | source | states |
|---|---|---|
| Firestore.Apply | src/components/write/WriteForm.tsx:182-189 | a `setDoc`/`updateDoc`/`deleteDoc` succeeds exactly when no fault occurs and, for an update, the document exists; a fault gives its message, otherwise the error is "not found" at the target; on success the target holds the written document (overwritten or merged, or gone) and every other document is untouched |
| Firestore.ApplyIsLocal | src/components/write/WriteForm.tsx:182-189 | whether a write succeeds, how it fails, and what it leaves at its target depend only on the target document |
| Firestore.Run | src/components/write/WriteForm.tsx:180-190 | a sequence of awaited writes reports the index of the write that failed, if any, within the sequence |
| Firestore.RunFrame | src/components/write/WriteForm.tsx:180-190 | however a sequence of awaited writes ends, it never touches a document outside its targets |
| Firestore.RunDistinct | src/components/write/WriteForm.tsx:180-190 | for writes to distinct documents: every write before the failing one succeeded and its target holds its result; the failing write's error is reported; every later target keeps its old document (no rollback) |
| Firestore.RunAfterFailure | src/pages/Dashboard.tsx:225-229 | once a prefix of awaited writes has failed, the later writes are never issued: the whole run equals that prefix's run |
| Firestore.Store.constructor | src/pages/Dashboard.tsx:25 | the shared Firestore handle `db` the components import: the store starts with the given database |
| Firestore.Store.Commit | src/pages/Dashboard.tsx:191 | one awaited write: the database becomes the write's result, or stays as it was and the error is returned |
| Firestore.Store.Step | src/components/write/WriteForm.tsx:182-185 | issuing the next awaited write of a sequence (or skipping it after a failure) extends the run of the prefix by one write |
| Firestore.Store.SumField | src/pages/Dashboard.tsx:106-110 | the aggregate `sum("readCount")` over a collection equals the field sum over its documents, with non-numeric fields counted as 0 |
| Firestore.FieldSum | src/pages/Dashboard.tsx:107-110 | the aggregate sum of a field over a collection: zero for an empty collection, and never negative when no document holds a negative number |
| Firestore.FieldSumRemove | src/pages/Dashboard.tsx:107-110 | the field sum splits into one document's value plus the sum over the rest |
| Firestore.FieldSumPut | src/pages/Dashboard.tsx:107-110 | replacing one document changes the field sum by the difference of its values |
| Posts.ParseMeta | src/components/write/WriteForm.tsx:118-129 | a meta document reads back as a post's meta exactly when it has all eight fields with the right types |
| Posts.ParseMetaDoc | src/components/write/WriteForm.tsx:157-166 | the meta object the form writes is a well-typed meta document and reads back as the same meta, whether it overwrites a document or is merged into one |
| Posts.ApplyKeepsWellFormed | src/components/write/WriteForm.tsx:180-190 | a write that keeps meta and source documents well-typed leaves a well-formed database well-formed |
| Posts.RunKeepsWellFormed | src/components/write/WriteForm.tsx:180-190 | a sequence of such writes, failing anywhere, leaves a well-formed database well-formed |
| Schema.TrimStart | src/lib/schema.ts:10 | the result is a suffix of the input, does not start with whitespace, and only whitespace was removed |
| Schema.TrimEnd | src/lib/schema.ts:10 | the result is a prefix of the input, does not end with whitespace, and only whitespace was removed |
| Schema.Trim | src/lib/schema.ts:10 | the trimmed text neither starts nor ends with whitespace |
| Schema.TrimIdempotent | src/lib/schema.ts:10 | trimming twice is trimming once |
| Schema.TrimEmpty | src/lib/schema.ts:11 | a text trims to empty exactly when every character is whitespace |
| Schema.Utf16Length | src/lib/schema.ts:11-12 | the length `min`/`max` measure in UTF-16 code units is between the number of characters and twice that |
| Schema.ParseContent | src/lib/schema.ts:7-18 | the form parses exactly when the trimmed title has 1 to 100 code units and the trimmed author and slug are non-empty; a parsed form holds the trimmed title, author, slug and featured image, the untouched source and `isPublic` defaulting to false; a rejection carries at least one issue |
| Schema.ParseContentIdempotent | src/lib/schema.ts:7-18 | parsing an already-parsed form again gives the same result |
| Schema.ParseFeaturedImageForm | src/lib/schema.ts:3-5 | any string is accepted unchanged as the featured image URL |
| EditorComponent.ReadOnlyOption | src/components/write/EditorComponent.tsx:28 | the instance is `"nocursor"` exactly when the editor is disabled |
| EditorComponent.EditorInstance.constructor | src/components/write/EditorComponent.tsx:42-44 | an instance shows its text and starts editable |
| EditorComponent.Editor.constructor | src/components/write/EditorComponent.tsx:13-15 | the buffer starts as `initialValue` with no instance attached |
| EditorComponent.Editor.OnChange | src/components/write/EditorComponent.tsx:17-19 | an edit becomes the buffered text |
| EditorComponent.Editor.GetValue | src/components/write/EditorComponent.tsx:33 | `getValue` returns the buffered text |
| EditorComponent.Editor.SetValue | src/components/write/EditorComponent.tsx:34-39 | `setValue` replaces the buffer and the attached instance's text, leaving its read-only option |
| EditorComponent.Editor.HandleEditorInstance | src/components/write/EditorComponent.tsx:42-45 | attaching an instance loads the buffered text into it |
| EditorComponent.Editor.SyncReadOnly | src/components/write/EditorComponent.tsx:26-30 | the effect sets the instance's read-only option from `disabled` and leaves its text |
| WriteForm.LowerChar | src/components/write/WriteForm.tsx:58 | a character lowers to one or two characters, none a letter `A`-`Z`, and a slug character is its own lower case |
| WriteForm.LowerCase | src/components/write/WriteForm.tsx:58 | `toLowerCase` leaves no letter `A`-`Z` and at most doubles the length |
| WriteForm.HyphenateSpaces | src/components/write/WriteForm.tsx:59 | `replace(/ /g, "-")` keeps the length, puts a hyphen at every space and keeps every other character in place |
| WriteForm.Slugify | src/components/write/WriteForm.tsx:57-59 | a generated slug holds only `a`-`z`, `0`-`9` and `-`, and no space |
| WriteForm.LowerCaseAppend | src/components/write/WriteForm.tsx:58 | lower-casing distributes over concatenation |
| WriteForm.HyphenateSpacesAppend | src/components/write/WriteForm.tsx:59 | replacing spaces distributes over concatenation |
| WriteForm.SlugifyAppend | src/components/write/WriteForm.tsx:57-59 | the slug of a concatenation is the concatenation of the slugs |
| WriteForm.SlugifyChar | src/components/write/WriteForm.tsx:57-59 | character by character, slugging agrees with a reference table: letters are lowered, the dotted capital I and the Kelvin sign become `i` and `k`, a space becomes `-`, and other characters are dropped |
| WriteForm.LowerCaseOfSlug | src/components/write/WriteForm.tsx:58 | lower-casing leaves a slug unchanged |
| WriteForm.HyphenateSpacesOfSlug | src/components/write/WriteForm.tsx:59 | replacing spaces leaves a text without spaces unchanged |
| WriteForm.SlugifyOfSlug | src/components/write/WriteForm.tsx:57-59 | a valid slug is its own slug |
| WriteForm.SlugifyIdempotent | src/components/write/WriteForm.tsx:57-62 | pressing "generate slug" twice gives the same slug |
| WriteForm.RemoveLineBreaks | src/components/write/WriteForm.tsx:64 | the result has no line feed and is no longer than the input |
| WriteForm.RemoveLineBreaksCounts | src/components/write/WriteForm.tsx:64 | every character other than a line feed is kept as often as before |
| WriteForm.RemoveLineBreaksAppend | src/components/write/WriteForm.tsx:64 | removing line feeds distributes over concatenation |
| WriteForm.RemoveLineBreaksIdempotent | src/components/write/WriteForm.tsx:64 | text without line feeds is unchanged, so removing them twice is removing them once |
| WriteForm.SubmittedMeta | src/components/write/WriteForm.tsx:146-173 | the meta written on submit copies title, slug, author, featured image and `isPublic`, with `lastUpdated` now; create publishes as `isPublic` and dates it now; edit of an unpublished post publishes and dates it when made public; edit of a published post sets `isPublished` to `isPublic` and the date to null |
| WriteForm.NextPublication | src/components/write/WriteForm.tsx:168-173 | the publication latch of the toggle: `isPublic` follows the request, a published post stays published with its date, and a date is only ever given to a published post |
| WriteForm.SubmittedMetaAgainstLatch | src/components/write/WriteForm.tsx:168-173 | the submitted meta agrees with the latch on `isPublic` and on first publication, and differs exactly as listed above for a non-public create and for editing a published post |
| WriteForm.SubmitWrites | src/components/write/WriteForm.tsx:180-190 | create writes meta, source, HTML and a zero read counter, in that order, with `setDoc` under the slug; edit writes the first three with `updateDoc` |
| WriteForm.SubmitWritesDistinct | src/components/write/WriteForm.tsx:180-190 | the submit writes go to distinct documents, one per written collection, under the slug |
| WriteForm.CreateOutcome | src/components/write/WriteForm.tsx:181-185 | a create stops at the first faulty call; the documents written before it hold their payloads, the later ones are untouched, and nothing outside the four documents changes |
| WriteForm.EditOutcome | src/components/write/WriteForm.tsx:186-190 | an edit stops at the first fault or missing document, reporting "not found" for the latter; the updated documents hold the old fields merged with the payload; nothing else changes |
| WriteForm.EditKeepsReadCounts | src/components/write/WriteForm.tsx:186-190 | editing never touches a read counter |
| WriteForm.PayloadLookups | src/components/write/WriteForm.tsx:175-189 | the merged source and HTML documents carry the submitted source and HTML |
| WriteForm.CreateReadBack | src/components/write/WriteForm.tsx:181-185 | after a successful create the four documents are exactly the payloads, and the meta reads back as the submitted meta |
| WriteForm.EditReadBack | src/components/write/WriteForm.tsx:186-190 | after a successful edit the meta reads back as the submitted meta and the source and HTML fields hold the submitted values |
| WriteForm.SubmitKeepsWellFormed | src/components/write/WriteForm.tsx:180-190 | a submission, failing anywhere, keeps the database well-formed |
| WriteForm.SubmitError | src/components/write/WriteForm.tsx:194 | the failure message starts "Error in", names "creating" exactly for a create, and ends with the error's message |
| WriteForm.Form.constructor | src/components/write/WriteForm.tsx:45-55 | the form starts empty, not public, with the default author |
| WriteForm.Form.GenerateSlug | src/components/write/WriteForm.tsx:57-62 | the slug field becomes the slug of the title field |
| WriteForm.Form.Fill | src/components/write/WriteForm.tsx:123-129 | a loaded post fills title, slug, author, visibility, featured image and source; the editor's buffer and the same attached instance show the source, with its read-only option kept |
| WriteForm.Form.LoadPost | src/components/write/WriteForm.tsx:108-141 | outside edit mode nothing happens; a failed read sets only "Failed to fetch post."; a missing document sets only "Post not found."; on those paths the form fields, the editor and the current post are unchanged; otherwise the current post is the merged meta and source and the form shows the stored meta and source |
| WriteForm.Form.Issue | src/components/write/WriteForm.tsx:180-190 | issuing the submit writes one by one leaves the store as the run of the whole sequence does, and returns its failure |
| WriteForm.Form.OnSubmit | src/components/write/WriteForm.tsx:143-199 | editing without a loaded post throws before anything is written, leaving the form submitting; otherwise the store becomes the run of the submit writes for the submitted meta, the editor's source and its rendered HTML without line feeds; success navigates to the dashboard, failure sets "Error in creating/editing post: <message>"; submitting ends |
| Dashboard.FindById | src/pages/Dashboard.tsx:138-140 | `find` returns a document exactly when some snapshot has the id, and then the first such one |
| Dashboard.FindByIdInListing | src/pages/Dashboard.tsx:130-140 | looking up a post in a complete listing of the read counters gives its counter document, or nothing |
| Dashboard.ToDate | src/pages/Dashboard.tsx:142-145 | a falsy date becomes null, a timestamp stays, and anything else throws |
| Dashboard.JoinRow | src/pages/Dashboard.tsx:134-147 | a first-page row throws exactly when a date does not convert; otherwise it holds both converted dates, every other stored field, the id and the read count of the post's counter document unless a stored field overrides them, and no other field |
| Dashboard.MoreRow | src/pages/Dashboard.tsx:256-260 | a "load more" row throws unless `publishedDate` is a timestamp; otherwise its fields are the stored ones plus `id`, with the id unless a field overrides it |
| Dashboard.MapRows | src/pages/Dashboard.tsx:134-147 | mapping a page succeeds exactly when every snapshot converts, and then row `i` is the conversion of snapshot `i` |
| Dashboard.JoinRowOfMeta | src/pages/Dashboard.tsx:134-147 | a well-typed meta document joins into a row with its id, its read count (or none), and every stored field |
| Dashboard.LastOf | src/pages/Dashboard.tsx:151-155 | the cursor is the last snapshot of a non-empty page and null for an empty one |
| Dashboard.FirstPageHasMore | src/pages/Dashboard.tsx:123-127 | for an honest first page, "has more" holds exactly when at least ten posts exist |
| Dashboard.ToggleFields | src/pages/Dashboard.tsx:178-188 | a published post gets `isPublic` flipped and `lastUpdated` now; an unpublished one is made public and published and dated now |
| Dashboard.ToggleKeepsLatch | src/pages/Dashboard.tsx:180-191 | the stored meta after the toggle: visibility as chosen, `lastUpdated` now, a published flag stays set, a first publication is dated now, a published post keeps its flag and date, and every other field is kept |
| Dashboard.ToggleKeepsWellFormed | src/pages/Dashboard.tsx:191 | the toggle update keeps meta documents well-typed |
| Dashboard.ToggleRow | src/pages/Dashboard.tsx:194-208 | the row on screen gets the stored fields except the publication date |
| Dashboard.ToggleRowFields | src/pages/Dashboard.tsx:194-208 | the toggled row keeps its id and date, shows the chosen visibility, and shows published after a first publication |
| Dashboard.ToggleRows | src/pages/Dashboard.tsx:194-208 | only rows with the toggled id change, and they change as `Dashboard.ToggleRow` states |
| Dashboard.DeleteWrites | src/pages/Dashboard.tsx:225-229 | delete removes meta, HTML, read counter and source, in that order |
| Dashboard.DeleteOutcome | src/pages/Dashboard.tsx:224-244 | a delete stops at the first fault; documents before it are gone, the later ones are untouched, and nothing outside the four documents changes |
| Dashboard.DeleteRetryCompletes | src/pages/Dashboard.tsx:224-229 | retrying a partly failed delete without faults removes all four documents and nothing else |
| Dashboard.DeleteClearsReadCount | src/pages/Dashboard.tsx:228 | a successful delete removes exactly the post's read counter |
| Dashboard.DeleteLowersTotalReads | src/pages/Dashboard.tsx:104-114 | after a successful delete the stored read total, which the next `updateTotalReads` would return, drops by the post's count; the displayed total is not recomputed after a delete |
| Dashboard.WithoutPost | src/pages/Dashboard.tsx:231 | the filtered list is no longer than before and holds only listed rows without the id |
| Dashboard.WithoutPostDropsOnlyIt | src/pages/Dashboard.tsx:231 | the post list loses every row with the id and keeps every other row as often as before |
| Dashboard.DecimalString | src/pages/Dashboard.tsx:69 | `String(n)` is non-empty, starts with a minus exactly for a negative number, and is otherwise all digits |
| Dashboard.PadStart2 | src/pages/Dashboard.tsx:69 | `padStart(2, "0")` gives at least two characters: the text itself, preceded by zeros up to length two |
| Dashboard.LastTwo | src/pages/Dashboard.tsx:85 | `slice(-2)` is the suffix of length two, or the whole text when shorter |
| Dashboard.MonthName | src/pages/Dashboard.tsx:70-84 | a month from 0 to 11 gets its three-letter name from the table, any other index the text `undefined` |
| Dashboard.FormatDateShort | src/pages/Dashboard.tsx:67-94 | the formatted text has at least 17 characters whatever the date parts; its exact form for a real date is `Dashboard.FormatDateShortFields` |
| Dashboard.NaturalString | src/pages/Dashboard.tsx:69 | the decimal text is all digits, ends in the last digit, and is one character long exactly below ten |
| Dashboard.PadStart2Digits | src/pages/Dashboard.tsx:69 | padding a number below 100 to two characters gives its two digits |
| Dashboard.LastTwoDigits | src/pages/Dashboard.tsx:85 | the last two characters of a year of at least two digits are its last two digits |
| Dashboard.FormatDateShortIgnoresNow | src/pages/Dashboard.tsx:89-93 | both branches of the year test give the same text |
| Dashboard.FormatDateShortFields | src/pages/Dashboard.tsx:67-94 | a date formats as `DD Mon, YY - HH:MM`, 18 characters long |
| Dashboard.Page.constructor | src/pages/Dashboard.tsx:97-102 | the dashboard starts with no posts, fetching, "has more", no cursor and no reads |
| Dashboard.Page.UpdateTotalReads | src/pages/Dashboard.tsx:104-114 | the total is the sum of the stored read counts, or unchanged when the aggregate query fails |
| Dashboard.Page.FetchPosts | src/pages/Dashboard.tsx:119-166 | a successful fetch shows the joined rows, "has more" exactly at ten rows, and the last snapshot as cursor; a failure changes none of them; fetching always ends |
| Dashboard.Page.FetchMorePosts | src/pages/Dashboard.tsx:246-269 | a successful fetch appends the rows, keeps "has more" only on a full page, advances the cursor only past a non-empty page, and ends fetching; a failure throws and leaves the page fetching |
| Dashboard.Page.TogglePublish | src/pages/Dashboard.tsx:171-222 | the stored meta gets the toggle fields and the rows are toggled, or on failure neither changes |
| Dashboard.Page.DeletePost | src/pages/Dashboard.tsx:224-244 | the store becomes the run of the four deletes, and the row leaves the list only when all of them succeeded |
| ImageStore.SortNewestFirst | src/components/ImageStore.tsx:49-51 | the sort orders the images by creation time, newest first, and is a permutation |
| ImageStore.Window | src/components/ImageStore.tsx:60-63 | the shown images are a prefix of the list, of length the smaller of the window size and the list length |
| ImageStore.WithoutPath | src/components/ImageStore.tsx:92-93 | the filtered list is no longer than before and holds only listed images with another path |
| ImageStore.WithoutPathDropsOnlyIt | src/components/ImageStore.tsx:92-93 | deleting removes every image with the path and keeps every other image as often as before |
| ImageStore.WithoutPathLength | src/components/ImageStore.tsx:92-94 | with unique paths the list shrinks by one exactly when the path was listed, so the unconditional count decrement matches only then |
| ImageStore.DeleteThenMount | src/components/ImageStore.tsx:60-71 | the filtered window right after a delete is a prefix of the window the next mount shows |
| ImageStore.Gallery.constructor | src/components/ImageStore.tsx:29-33 | the panel starts empty with a window of six |
| ImageStore.Gallery.FetchImages | src/components/ImageStore.tsx:35-58 | a successful listing becomes the list, sorted newest first and a permutation of the listing, with its count; a failure keeps both; refreshing always ends; the window stays six plus a number of tens |
| ImageStore.Gallery.MountImages | src/components/ImageStore.tsx:60-63 | the shown images become the window of the list; the window size is kept |
| ImageStore.Gallery.OffersLoadMore | src/components/ImageStore.tsx:154-158 | with the count of the fetched list and the window mounted, "Load 10 More" is offered exactly when the window hides images |
| ImageStore.Gallery.LoadMore | src/components/ImageStore.tsx:155 | the window grows by exactly ten and stays six plus a number of tens |
| ImageStore.Gallery.DeleteImage | src/components/ImageStore.tsx:85-99 | a successful delete filters the path out of both lists and lowers the count by one; a failure changes nothing; the window size is kept |
| ImageCompUpload.SizeUnitOf | src/components/ImageCompUpload.tsx:83-87 | bytes below 1024, KB below 1024·1024, MB otherwise |
| ImageCompUpload.SizeUnitMonotone | src/components/ImageCompUpload.tsx:83-87 | a larger size is never shown in a smaller unit |
| ImageCompUpload.Extension | src/components/ImageCompUpload.tsx:121 | the extension pattern matches at a position exactly when a dot there is followed to the end by at least one character other than dot and slash, and that position is unique |
| ImageCompUpload.Subtype | src/components/ImageCompUpload.tsx:121 | the subtype holds no slash and is `undefined` for a type without a slash |
| ImageCompUpload.AfterFirstSlash | src/components/ImageCompUpload.tsx:121 | splitting at `/`: everything after the first slash follows the first piece |
| ImageCompUpload.UpToSlashWhole | src/components/ImageCompUpload.tsx:121 | a piece without a slash is taken whole |
| ImageCompUpload.WebpSubtype | src/components/ImageCompUpload.tsx:40 | the default output type `image/webp` gives the subtype `webp` |
| ImageCompUpload.Renamed | src/components/ImageCompUpload.tsx:121 | a name with an extension has it replaced by a dot and the subtype; any other name is unchanged |
| ImageCompUpload.RenamedKeepsStem | src/components/ImageCompUpload.tsx:121 | the text before the replaced extension is kept, and the name ends in the new extension |
| ImageCompUpload.RenamedIdempotent | src/components/ImageCompUpload.tsx:121 | for a non-empty subtype without a dot, renaming a renamed file changes nothing |
| ImageCompUpload.RenamedWithoutExtension | src/components/ImageCompUpload.tsx:121 | a name without a dot is unchanged |
| ImageCompUpload.UploadPath | src/components/ImageCompUpload.tsx:162 | the upload goes to `images/` followed by the file name |
| ImageCompUpload.UploadPathInjective | src/components/ImageCompUpload.tsx:162 | two files share a storage path exactly when they share a name |
| ImageCompUpload.Uploader.constructor | src/components/ImageCompUpload.tsx:24-49 | the panel starts with no files, no resolutions, no progress, the `image/webp` output type, not uploading and no URL |
| ImageCompUpload.Uploader.SelectFileType | src/components/ImageCompUpload.tsx:40 | the output type becomes the selected one |
| ImageCompUpload.Uploader.HandleImageChange | src/components/ImageCompUpload.tsx:51-56 | picking a file makes it the image and clears the compressed file, its resolution and the progress |
| ImageCompUpload.Uploader.ClearInput | src/components/ImageCompUpload.tsx:89-94 | clearing resets image, compressed file, both resolutions and the progress |
| ImageCompUpload.Uploader.HandleCompress | src/components/ImageCompUpload.tsx:100-142 | with no image nothing happens; a successful compression becomes the compressed file, renamed after and typed with the output type; a failure keeps the old one |
| ImageCompUpload.Uploader.HandleUpload | src/components/ImageCompUpload.tsx:155-177 | the compressed file is uploaded when present, else the image, to `images/<name>`; the URL is recorded on success and uploading ends; with neither file nothing is uploaded and uploading never ends |

## Left out

- Firestore and Storage themselves are not modelled. Each call is a sequential step over the map model above, and faults come from an oracle parameter.
- The query engine is not modelled: the `orderBy`, `limit` and `startAfter` clauses. Pages arrive as parameters. `Dashboard.FirstPageOf` says that an honest first page holds distinct meta documents, and how many, but not which ones or in what order.
- Promises are not modelled: awaiting, `Promise.all`, the one-second delay in `fetchMorePosts`, and racing React state updates. Each awaited call is one step, in program order.
- Toasts, `console` output, JSX rendering, `document.title` and the router are not modelled. Navigation is a recorded target path.
- The Markdown renderer (`micromark`) is a function parameter `render`.
- Clock reads are a parameter `now`. One value stands for every `new Date()` in a handler.
- Timestamps are integers, and their conversion with `toDate` is the identity.
- Date parts in `formatDateShort` are integer parameters. Time zones and the `Date` object are not modelled.
- WriteForm.LowerChar: lowers exactly only the characters whose lower case can survive the slug filter (`A`-`Z`, the dotted capital I, the Kelvin sign); every other character, such as `É` or `Σ`, is kept as it is, so `WriteForm.LowerCase` is not the full Unicode `toLowerCase`. The slug is the same either way, because the filter drops both results.
- WriteForm.Form.LoadPost: requires the loaded meta, where it exists, to be a full meta document (all eight fields, each of its type), and the MDX document to have a string `mdxContent`, although the load reads only five meta fields. The program's own writers keep every database so (`WriteForm.SubmitKeepsWellFormed`, `Dashboard.ToggleKeepsWellFormed`). A document missing a field would fill the form with `undefined`, which the model's typed fields cannot hold.
- `WriteForm.tsx:66-106`: the featured-image handlers (`clearFeaturedImage`, `handleUrlChange`, `handleImageMount`, `handleFileUpload`) are not modelled. They only set the image URL, upload through Storage, and show messages.
- The project path in Firestore error messages is not modelled. An error's message is a plain string.
- `ImageStore.tsx`: the listing's URL and metadata requests are not modelled. Neither is copying to the clipboard (73-83). The listing arrives already resolved.
- ImageStore.SortNewestFirst: does not model the stability of `Array.prototype.sort`. Its contract says only "ordered and a permutation", so the relative order of images with equal creation times is open.
- `ImageCompUpload.tsx`: resolution probing through `FileReader` and `Image` is not modelled (58-68, 128-138), so the resolutions are never set by the model. Also not modelled: the compression library, its progress callback, object URLs, and saving to the device (144-153).
- ImageCompUpload.SizeUnitOf: models the unit choice only, not the `toFixed(2)` figure.
- ImageCompUpload.Renamed: does not model `$` substitution patterns in the replacement text. The subtypes offered by the type select contain no `$`.
- The compression options other than `fileType` are not modelled: maximum size, maximum dimension, quality and EXIF.
- `src/pages/Edit.tsx`, `src/pages/Write.tsx` and the other pages and components only compose the modelled ones, and are not part of this model.
