# Dream video and styleguide app — Dafny model

A model of the logic of a small React app backed by a hosted Postgres
store with blob storage. A user describes a dream, optionally with a
photo. The dreams service stores it as a row of the `dreams` table. A
viewer component shows the dream as a "generating", "failed" or video
screen depending on the row's `video_status`. A placeholder video-generation
service wraps a description in a fixed cinematic prompt, always answers
with one sample clip, and always reports "completed". A separate
styleguide page lists the design tokens of the `styles` table, filtered
by category and grouped per category.

The store is modelled as data. Each table is a `seq` of immutable rows
(`Records.Dream`, `Records.Style`). Each service operation is a pure
function from the table and its inputs to the table afterwards plus a
`Result` that holds the resolved value or the thrown value. The world
outside the table is passed in as parameters:

- the blob store is an oracle from (bucket, path) to a public URL or an error;
- `Date.now()` and `new Date().toISOString()` are clock parameters;
- the key and timestamp the store gives a new row are a parameter;
- any error the store raises on a statement is a parameter.

Thrown values are `Records.Exception`. It tells an `Error` instance from
a plain error object, so that the `err instanceof Error ? err.message : fallback`
pattern of the catch blocks is modelled.

The code has no video-generation lifecycle. No file of the app writes
`video_status`, `video_prompt` or `error_message`, and `createDream` sets
neither a status nor a prompt. No background task exists, and nothing
calls the generator from the dreams service. So the model has no
generation state machine; the only meaning `video_status` has is the
viewer's three-way classification. Three further facts of the code the
model keeps:

- the dreams service does not validate the title; only the form does;
- deleting an unknown id is not an error;
- updating an unknown id fails only through the store's single-row check.

Update and delete take a table whose keys are distinct, the `id`
primary key of both tables. Every operation that writes a table keeps
that invariant: `DreamsService.CreateKeepsKeysUnique` and
`StylesService.CreateStyleKeepsKeysUnique` for the inserts, and the
contracts of `UpdateDream`, `UpdateStyle`, `DeleteDream` and
`DeleteStyle` for the rest.

Modules, one file each: `Wrappers` (Option, Result), `Text` (string
order, `trim`, decimal rendering), `Records` (row types, exceptions),
`Seqs` (order-preserving filter), `Tables` (keyed rows, the result of a
statement, the `.eq('id', id)` selection), `VideoGeneration`, `DreamsService`,
`StyleOrder` (the `order(...)` chains and an insertion sort realising
them), `StylesService`, `Styleguide`, `ImmersiveDreamVideo`,
`DreamUploadForm`.

## Model

| member | source | states |
|---|---|---|
| VideoGeneration.EnrichPrompt | src/services/videoGenerationService.ts:7-16 | The prompt starts with "Create a cinematic, inspirational video showing: ", holds the description verbatim right after it, ends with the quality directive line, and is the description's length plus a fixed amount (so strictly longer). |
| VideoGeneration.RecoverDescription | src/services/videoGenerationService.ts:8-13 | The inverse of the template: when it recovers a description, the prompt is exactly that description's length plus the template's. |
| VideoGeneration.RecoverEnriched | src/services/videoGenerationService.ts:8-13 | Stripping the template from an enriched prompt gives back the original description. |
| VideoGeneration.EnrichRecovered | src/services/videoGenerationService.ts:8-13 | Any text from which a description is recovered is exactly that description's enriched prompt. |
| VideoGeneration.EnrichInjective | src/services/videoGenerationService.ts:7-16 | Equal prompts come from equal descriptions. |
| VideoGeneration.GenerateVideo | src/services/videoGenerationService.ts:18-28 | The generator answers with the fixed sample-clip URL. |
| VideoGeneration.GenerateVideoIgnoresInput | src/services/videoGenerationService.ts:18-28 | Any two requests, whatever their descriptions and photo URLs, get the same non-empty URL. |
| VideoGeneration.ParseStatusText | src/services/videoGenerationService.ts:30 | Each of the four statuses is read back from its stored text. |
| VideoGeneration.StatusTextParsed | src/services/videoGenerationService.ts:30 | Text that reads as a status is that status's stored text. |
| VideoGeneration.PollGenerationStatus | src/services/videoGenerationService.ts:30-32 | The poller reports "completed" for every dream. |
| DreamsService.Latest | src/services/dreamsService.ts:5-10 | None exactly for an empty table; otherwise a row of the table whose `created_at` no other row exceeds. |
| DreamsService.GetUserDream | src/services/dreamsService.ts:4-14 | A store error is rethrown. Otherwise the result is the latest dream by `created_at`, or none exactly when the table is empty. |
| DreamsService.CreateDream | src/services/dreamsService.ts:16-63 | It succeeds iff both uploads (when files are given) and the insert succeed, and every failure leaves the table unchanged. A failed photo upload throws that error; otherwise a failed video upload throws its error; otherwise a store error on the insert is rethrown. On success exactly one row is appended. That row has the assigned key and time, the given title and no user. It has no status, prompt or error message. Its photo URL is present iff a photo was given, and then equals the uploaded URL; the same holds for the video. |
| DreamsService.UploadPathInjective | src/services/dreamsService.ts:21 | Two upload paths are equal exactly when the clock readings and the file names are, so uploads at different milliseconds never share a path. |
| DreamsService.CreateKeepsKeysUnique | src/services/dreamsService.ts:50-59 | Inserting a row with a fresh key keeps the table's keys distinct. |
| DreamsService.UpdateDream | src/services/dreamsService.ts:65-112 | On a table with distinct keys, it succeeds iff the uploads succeed, the store raises nothing and the id exists. The photo upload error, then the video upload error, then the store error is thrown, and an unknown id throws the single-row error. Every failure leaves the table unchanged. Keys stay as they were and stay distinct, and rows with other ids stay unchanged. The matching row always gets the new title, keeps every column except title, photo_url and video_url, and is the row returned. A media URL is replaced only by a non-empty newly uploaded URL, and otherwise kept. |
| DreamsService.UpdateWithoutFilesIdempotent | src/services/dreamsService.ts:99-108 | Repeating an update that uploads no files leaves the table as the first update left it. |
| DreamsService.DeleteDream | src/services/dreamsService.ts:114-121 | A store error is rethrown with the table unchanged. Otherwise, on a table with distinct keys, the row with that id is removed and every other row stays, in order. Deleting an unknown id changes nothing and is not an error. The keys stay distinct. |
| DreamsService.DeleteUndoesCreate | src/services/dreamsService.ts:114-118 | Creating a dream in a table with distinct keys keeps them distinct, and deleting that dream restores the previous table. |
| DreamsService.CreatedDreamIsCurrent | src/services/dreamsService.ts:4-14 | A dream created later than every existing row becomes the one `getUserDream` returns. |
| Tables.IndexOfKey | src/services/dreamsService.ts:106 | The `.eq('id', id)` selection finds a row exactly when some row has that key. The position it gives holds that key, and no earlier row does. |
| Text.BelowTransitive | src/services/stylesService.ts:8-9 | The strict text order used by `order(...)` is transitive. |
| Text.BelowTotal | src/services/stylesService.ts:8-9 | Of two different texts, one sorts strictly before the other. |
| Text.NotAfterAntisymmetric | src/services/stylesService.ts:8-9 | Two texts that each sort no later than the other are equal. |
| Seqs.Filter | src/pages/Styleguide.tsx:33-35 | Filtering keeps exactly the elements that pass the test and never lengthens the list. |
| Seqs.FilterIsSubsequence | src/pages/Styleguide.tsx:33-35 | What filtering keeps appears in the input in the same order. |
| Seqs.FilterDropsOne | src/services/stylesService.ts:62-65 | When exactly one element fails the test, filtering removes exactly that element and keeps the rest in order. |
| StyleOrder.PrecedesTransitive | src/services/stylesService.ts:8-9 | The (category, name) order and the name order are transitive. |
| StyleOrder.PrecedesTotal | src/services/stylesService.ts:8-9 | Any two rows are comparable in either order. |
| StyleOrder.Insert | src/services/stylesService.ts:8-9 | Inserting into a sorted sequence keeps it sorted and adds exactly the one row. |
| StyleOrder.Sort | src/services/stylesService.ts:8-9 | The result is sorted by the requested key and is a permutation of the input. |
| StylesService.GetAllStyles | src/services/stylesService.ts:4-16 | A store error becomes an `Error` with "Failed to fetch styles: " and the store's message, and null data yields the empty list. Otherwise the result is a permutation of the table, sorted by category and then by name. |
| StylesService.GetStylesByCategory | src/services/stylesService.ts:18-30 | The errors and null data are handled as in `getAllStyles`, with "Failed to fetch styles by category: ". Otherwise the result is sorted by name and holds every row of that category as often as the table does, and no other row. |
| StylesService.CreateStyleKeepsKeysUnique | src/services/stylesService.ts:32-44 | Inserting a style under a fresh key keeps the table's keys distinct, whether or not the insert fails. |
| StylesService.CreateStyle | src/services/stylesService.ts:32-44 | A store error is wrapped as "Failed to create style: …" with the table unchanged. Otherwise exactly one row is appended, carrying the supplied columns and the assigned key and timestamps. |
| StylesService.CreatedStyleListed | src/services/stylesService.ts:18-44 | A newly created style appears in the listing of its own category. |
| StylesService.UpdateStyle | src/services/stylesService.ts:46-59 | On a table with distinct keys, it succeeds iff the store raises nothing and the id exists. Errors are wrapped as "Failed to update style: …", and an unknown id gives the single-row error. Failures leave the table unchanged. Keys stay as they were and stay distinct, and other rows stay unchanged. The matching row is the one returned. It keeps its id and created_at, takes each supplied column, keeps each omitted one, and has updated_at set to the clock. |
| StylesService.UpdateStyleIdempotent | src/services/stylesService.ts:46-52 | Applying the same partial update twice at the same instant equals applying it once. |
| StylesService.DeleteStyle | src/services/stylesService.ts:61-70 | A store error is wrapped as "Failed to delete style: …" with the table unchanged. Otherwise, on a table with distinct keys, the row with that id is removed and every other row stays, in order; an unknown id changes nothing. The keys stay distinct. |
| StylesService.DeletedStyleNotListed | src/services/stylesService.ts:61-65 | After a delete, no listed style has the deleted id. |
| StylesService.FirstIndex | src/services/stylesService.ts:82 | The position found holds the value, and no earlier position does. |
| StylesService.Dedupe | src/services/stylesService.ts:82 | Building a `Set` and spreading it back keeps exactly the values of the input, each once. A non-decreasing input comes out strictly ascending. |
| StylesService.DedupeKeepsFirstOccurrenceOrder | src/services/stylesService.ts:82 | The distinct values come out in the order of their first occurrences. |
| StylesService.CategoryColumn | src/services/stylesService.ts:73-76 | The category column ordered by category is non-decreasing and holds exactly the categories present in the table. |
| StylesService.GetCategories | src/services/stylesService.ts:72-84 | The errors and null data are handled as above, with "Failed to fetch categories: ". Otherwise the result holds every category of the table exactly once, strictly ascending. |
| Styleguide.FilterStyles | src/pages/Styleguide.tsx:33-35 | With "all" selected the list is unchanged. Otherwise it holds exactly the styles of the selected category, each as many times as in the input and none of any other category, as a subsequence of the input in its order. |
| Styleguide.GroupStyles | src/pages/Styleguide.tsx:37-43 | No group is empty. |
| Styleguide.GroupHoldsItsCategory | src/pages/Styleguide.tsx:37-43 | The group of each category is exactly the filtered styles of that category, in list order. So every style lands in its own category's group, in its original relative order. |
| Styleguide.GroupKeysAreCategories | src/pages/Styleguide.tsx:37-43 | A group exists exactly for each category present in the filtered list, and it is non-empty. |
| Styleguide.GroupSizesSumToLength | src/pages/Styleguide.tsx:37-43 | The group sizes add up to the filtered list's length, so no style is lost or duplicated. |
| Styleguide.SingleCategoryGroupsOnce | src/pages/Styleguide.tsx:37-43 | A list whose styles all have one category produces no group under any other key. |
| Styleguide.SelectedCategoryGroupsOnce | src/pages/Styleguide.tsx:33-43 | With a specific category selected there is at most one group, keyed by that category. |
| Styleguide.GroupStylesAsWritten | src/pages/Styleguide.tsx:37-43 | When the reduction into `{}` does not throw, no group key is a name inherited from `Object.prototype`. |
| Styleguide.AsWrittenGroupingFailsOnInheritedNames | src/pages/Styleguide.tsx:37-43 | The code as written throws exactly when some category is a name inherited from `Object.prototype`. Otherwise it agrees with the intended grouping. |
| Styleguide.ConstructorCategoryCrashes | src/pages/Styleguide.tsx:37-43 | One style of category "constructor" makes the code as written throw, while the intended grouping puts it in its own group. |
| Styleguide.LoadStarted | src/pages/Styleguide.tsx:18-19 | While loading, the loading flag is set, the error is cleared and nothing else changes. |
| Styleguide.LoadStyles | src/pages/Styleguide.tsx:16-31 | Loading always ends with the flag down, and the selection is kept. The error is clear iff both calls succeed, and then styles and categories are what they returned. On failure the previous lists are kept. A failing styles call puts its wrapped message in the error. When only the categories call fails, its wrapped message is used instead. |
| Styleguide.LoadedPageIsConsistent | src/pages/Styleguide.tsx:16-31 | After a successful load the styles are a permutation of the table, and the category buttons are exactly the categories of the loaded styles. |
| Styleguide.Render | src/pages/Styleguide.tsx:45-116 | The page with the intended grouping. The loading screen shows exactly while loading. The error screen shows exactly when not loading with a non-empty error, and shows that error. The empty notice shows exactly when neither holds and no style is loaded; otherwise the catalogue shows, grouping the filtered list. |
| Styleguide.FirstRenderIsLoading | src/pages/Styleguide.tsx:6-10 | The page as first rendered, with empty lists, loading set and "all" selected, shows the loading screen. Even as written it does not throw, because its list is empty. |
| Styleguide.RenderAsWritten | src/pages/Styleguide.tsx:33-116 | As written, the grouping runs before the loading and error checks. So the render throws exactly when the filtered list holds a category inherited from `Object.prototype`, whatever screen was due. Otherwise it shows what the intended render shows. |
| Styleguide.LoadingScreenCrashesOnInheritedName | src/pages/Styleguide.tsx:37-45 | A page that is reloading with "all" selected and a kept style of an inherited category shows the loading screen in the intended render, and throws as written. |
| ImmersiveDreamVideo.SelectView | src/components/ImmersiveDreamVideo.tsx:30-33 | The generating view is chosen iff the status is "generating" or "pending". The failed view is chosen iff it is "failed". The video view is chosen iff neither holds. |
| ImmersiveDreamVideo.GeneratingAndFailedDisjoint | src/components/ImmersiveDreamVideo.tsx:30-31 | No status is both generating and failed, so testing "failed" first would choose the same view. |
| ImmersiveDreamVideo.ViewOfKnownStatus | src/components/ImmersiveDreamVideo.tsx:30-33 | "pending" and "generating" show the generating screen, "failed" the failed screen, and "completed" the video screen. |
| ImmersiveDreamVideo.UnknownStatusShowsVideo | src/components/ImmersiveDreamVideo.tsx:100 | A missing status, or text that is none of the four statuses, shows the video screen. |
| ImmersiveDreamVideo.PolledStatusShowsVideo | src/services/videoGenerationService.ts:30-32 | The status the poller reports always selects the video screen. |
| ImmersiveDreamVideo.Render | src/components/ImmersiveDreamVideo.tsx:33-174 | The screen follows the view. The error panel exists only on the failed screen, exactly when the error message is non-empty, and shows it. The video element exists only on the video screen, exactly when the video URL is non-empty. Titles are shown as stored. The edit and retry buttons appear exactly when a callback was passed. |
| ImmersiveDreamVideo.Toggle | src/components/ImmersiveDreamVideo.tsx:16 | Every tick changes the breathing phase. |
| ImmersiveDreamVideo.ToggleTwiceIsIdentity | src/components/ImmersiveDreamVideo.tsx:16 | Two ticks restore the phase. |
| ImmersiveDreamVideo.PhaseFollowsParity | src/components/ImmersiveDreamVideo.tsx:12-17 | Starting from "inhale", the phase is "inhale" exactly after an even number of ticks. |
| ImmersiveDreamVideo.PhaseLabel | src/components/ImmersiveDreamVideo.tsx:150 | "Breathe In" is shown exactly when inhaling, and "Breathe Out" exactly when exhaling. |
| Text.BlankIffAllWhitespace | src/components/DreamUploadForm.tsx:32 | `trim()` yields the empty string exactly when every character is JavaScript whitespace. |
| Text.TrimStart | src/components/DreamUploadForm.tsx:32 | The result is a suffix of the input. Everything removed is whitespace, and what remains does not start with whitespace. |
| Text.TrimEnd | src/components/DreamUploadForm.tsx:32 | The result is a prefix of the input. Everything removed is whitespace, and what remains does not end with whitespace. |
| Text.Decimal | src/services/dreamsService.ts:21 | The clock in an upload path is a non-empty string of digits whose decimal value is the clock, with a leading zero only for zero. |
| DreamUploadForm.HandlePhotoChange | src/components/DreamUploadForm.tsx:17-27 | Choosing no file leaves the form unchanged. Otherwise the first chosen file becomes the photo and nothing else changes. |
| DreamUploadForm.SubmitStarted | src/components/DreamUploadForm.tsx:38-39 | While submitting, loading is set, the error is cleared, and the title and photo are kept. |
| DreamUploadForm.HandleSubmit | src/components/DreamUploadForm.tsx:29-47 | A whitespace-only title sets "Please describe your dream", makes no call and changes nothing else. Otherwise `createDream` is called with the untrimmed title and the chosen photo, and loading ends false. On success the dream is handed on and the error stays clear. On failure the error is the thrown message, or "Failed to create dream" for a non-`Error`. |
| DreamUploadForm.UntouchedFormIsRejected | src/components/DreamUploadForm.tsx:11-15 | Submitting the form as first rendered, with its empty title, makes no service call, leaves the table unchanged and only sets the validation message. |
| DreamUploadForm.BlankTitleNeverReachesStore | src/components/DreamUploadForm.tsx:32-35 | A title that trims to nothing leaves the dreams table untouched and shows the validation message. |
| DreamUploadForm.SubmittedDreamIsStored | src/components/DreamUploadForm.tsx:37-41 | A submit with a non-blank title, a photo upload that succeeds (or no photo) and an insert that succeeds appends one dream with the untrimmed title, no video, and a photo URL exactly when a photo was chosen; it clears the error and the spinner and hands that dream on. |
| DreamUploadForm.FailedSubmitLeavesStore | src/components/DreamUploadForm.tsx:42-43 | A submit that delivers nothing leaves the table unchanged and shows an error. |

## Left out

- Client construction and the environment-variable check in `src/lib/supabase.ts` are left out, because they are configuration. Only the `Style` and `Dream` interfaces are modelled.
- The store's query engine and the blob store are left out. Tables are sequences, and an upload is an oracle returning a public URL or an error. Column defaults and triggers are not visible. So a new dream has no status, prompt or error message, and `updateDream` does not touch `updated_at`.
- The store's text collation is not modelled. Ordering is plain character-by-character lexicographic order.
- JavaScript strings are modelled as sequences of Unicode code points. A lone surrogate cannot be represented, and lengths count code points, not UTF-16 code units. No modelled rule depends on the difference: the prompt template and the upload-path digits are ASCII, and every character `trim` removes is a single code unit.
- Ties in `order(...)` are not modelled: the store may return rows with equal sort keys in any order. `DreamsService.Latest` picks the first such row in table order, and `StyleOrder.Sort` picks insertion sort's order. Their contracts state only what every admissible order satisfies.
- The blob store is an oracle, so the model does not show that an uploaded photo stays behind when a later video upload or the insert fails.
- Store errors are one optional error per statement. The text of the single-row error (`Records.NoSingleRow`) and whether the store's error objects are `Error` instances depend on client versions; the model fixes one text and lets errors be either kind.
- The 3-second delay and the log line in `generateVideo` are left out; the call is instantaneous.
- `Styleguide.LoadStyles` answers both queries from one table state. The app sends two separate requests, which could see different states if the table changes between them, so `Styleguide.LoadedPageIsConsistent` relies on that single-snapshot assumption.
- `DreamsService.Latest` and `DreamsService.CreatedDreamIsCurrent` compare `created_at` as text, while the store orders it as a timestamp. The two orders agree for timestamps in one uniform UTC format, which is what the store returns; mixed offsets or precisions are not modelled.
- Update and delete on a table with repeated keys are not modelled. The `id` column is the primary key, so the store never holds such a table; update and delete therefore require distinct keys.
- `Styleguide.Render` is the page with the intended grouping; `Styleguide.RenderAsWritten` is the page as written, which throws before any screen when a category is an inherited name.
- `Promise.all` in `loadStyles` is concurrency. The two calls are sequential in the model. When both fail, the model reports the styles error, while the app reports whichever rejects first.
- JSX markup, CSS classes, hover state, autoplay, the `FileReader` preview and the 4-second `setInterval` timing are left out. The breathing timer is modelled as a count of ticks.
- The order in which groups are rendered is left out. `Object.entries` lists integer-like keys first, and groups are modelled as a map.
- `onDreamCreated` throwing, `onCancel` and `setSelectedCategory` are left out; they are caller callbacks and a plain setter.
- `src/App.tsx` (routing) and `src/pages/Home.tsx` (a static feature list) are left out; they have no logic to model.
- No video-generation lifecycle, background task, status write or last-write-wins race is modelled, because none exists in the code.

## Findings

| source | as written | input that shows it | evidently intended | confidence | as-written member | corrected member |
|---|---|---|---|---|---|---|
| src/pages/Styleguide.tsx:37-43 | The reduce starts from `{}`, so `acc[style.category]` finds members inherited from `Object.prototype`. For such a category `!acc[...]` is false, the group is never created, and `.push` throws a TypeError during render. | One style whose category is "constructor" (or "toString", "valueOf", "__proto__", …) | That style is grouped under its own category like any other | high; not executed | Styleguide.GroupStylesAsWritten | Styleguide.GroupStyles |
