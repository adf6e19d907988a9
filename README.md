# Instantshare core, modelled in Dafny

Instantshare is a React front end over a hosted backend. An admin creates
an event, and the event gets a URL slug made from its name. The admin then
uploads photos into named folders and hands out a QR code pointing to the
event's public gallery. Guests open the gallery, find the event by its slug
and see the photos grouped by folder.

This project models the logic of that front end:

- `generateSlug`;
- the folder key of a storage path and the grouping of photos by folder;
- the folder dropdown;
- the storage path of an upload and its round trip through the grouping;
- the sequential upload loop;
- the photo delete flow;
- the QR link;
- the public lookup key and the `ilike` match;
- the event-creation flow;
- the gallery's fetch flow, render precedence and image preview;
- the admin route guard.

Every backend call is an input to the model: its answer (a row, an error
message, or an exception) is passed in. The writes a flow sends are returned
as a list of `Request`s, so the contracts can say which writes happen and in
what order.

Modules:

- `Text`: JavaScript string primitives.
  - The `\s` class and `trim()`, as ECMAScript's WhiteSpace and
    LineTerminator code points.
  - ASCII `toLowerCase`.
  - `split` on one character, and `join`.
  - The decimal rendering of `Date.now()`.
- `Seqs`: subsequences, duplicate-free lists, and `Array.from(new Set(xs))`
  as first-occurrence de-duplication.
- `Records`: the `events` and `photos` rows, and the backend writes.
- `Slug`: `generateSlug` as its three steps (lower-case, collapse each
  whitespace run into `-`, delete what is not `[a-z0-9-]`), with its
  properties.
- `Folders`: the folder key `path.split('/')[1] || label` and the
  `groupedPhotos` reduce.
  - The reduce is written as a loop over a map of buckets, and it is proved
    equal to a functional grouping.
  - That grouping is proved to be a partition that keeps order.
  - The dropdown is the list of group keys.
- `EventDetail`: the admin event page.
  - The upload path and its round trip.
  - The upload loop, as the method `SendFiles` proved against the function
    `Batch`.
  - The delete flow and the QR value.
  - A class holding the page state.
- `CreateEvent`: the create-event form and its `handleSubmit` flow.
- `PublicGallery`: the lookup key, the `LIKE`/`ILIKE` matcher, the fetch
  flow, the render decision and the preview state.
- `SessionGate`: `ProtectedRoute`, a two-field state and a pure render
  decision.

Four behaviours of the grouping code are worth knowing. The model follows
the code in each case:

- A path of two segments, such as `5/a.jpg`, is filed under its second
  segment `a.jpg`, because `split('/')[1]` exists
  (`Folders.FolderKeyOfTwoSegments`). Only a missing or empty second
  segment, as in `5//a.jpg`, falls back to the label.
- A folder typed with a `/` in it, such as `2024/ceremony`, is filed under
  the text before its first `/` (`EventDetail.UploadPathOfNestedFolder`),
  and the dropdown then offers `2024`.
- `Object.keys` lists integer-like keys first, so the order of the groups on
  screen is first-occurrence order only when no folder key is an array index.
  `Folders.GroupPhotos` takes that as a precondition (`NoIndexKey`).
- A folder named after an `Object.prototype` member (`constructor`,
  `__proto__`, `toString`, …) makes `acc[folderName]` truthy but without
  `push`, so the reduce throws. The model returns `None` there
  (`Folders.Grouping`). In the gallery the throw happens during render; the
  app has no error boundary, so React unmounts the tree and the page is
  blank (`RenderThrows`).

## Model

| member | source | states |
|---|---|---|
| Text.Split | src/pages/AdminEventDetail.jsx:137 | `split('/')` always yields at least one piece, no piece holds the separator, and joining the pieces gives back the text |
| Text.SplitJoin | src/pages/AdminEventDetail.jsx:137 | splitting undoes joining when no piece holds the separator |
| Text.SplitAfterPiece | src/pages/AdminEventDetail.jsx:137 | a separator-free piece followed by the separator splits off as the first piece |
| Text.Trim | src/pages/AdminEventDetail.jsx:78 | `trim()` is no longer than its input, neither starts nor ends with whitespace, and leaves text without whitespace unchanged |
| Text.TrimStart | src/pages/AdminEventDetail.jsx:78 | `trimStart` removes exactly a whitespace prefix and stops at the first other character |
| Text.TrimEnd | src/pages/AdminEventDetail.jsx:78 | `trimEnd` removes exactly a whitespace suffix and stops at the last other character |
| Text.ToLowerFacts | src/pages/AdminCreateEvent.jsx:14 | `toLowerCase` keeps the length, maps each character by itself, leaves no A-Z behind, touches nothing else, and is idempotent |
| Text.ToLowerAppend | src/pages/AdminCreateEvent.jsx:14 | lower-casing works piece by piece over a concatenation |
| Text.Decimal | src/pages/AdminEventDetail.jsx:86 | the rendered timestamp is a non-empty string of digits |
| Text.DecimalRoundTrip | src/pages/AdminEventDetail.jsx:86 | reading the rendered digits back gives the timestamp |
| Seqs.Dedup | src/pages/AdminEventDetail.jsx:25-27 | `Array.from(new Set(xs))` has no duplicates and holds exactly the elements of `xs` |
| Seqs.DedupFirstOccurrenceOrder | src/pages/AdminEventDetail.jsx:25-27 | the de-duplicated list is in order of first occurrence |
| Slug.GenerateSlug | src/pages/AdminCreateEvent.jsx:13-14 | the slug holds only `a-z`, `0-9` and `-`, and is never longer than the name |
| Slug.StripDisallowed | src/pages/AdminCreateEvent.jsx:14 | `replace(/[^a-z0-9-]/g, '')` leaves only slug characters and never lengthens |
| Slug.CollapseSpaces | src/pages/AdminCreateEvent.jsx:14 | `replace(/\s+/g, '-')` is no longer than its input; `CollapseLeavesNoSpace`, `CollapseWithoutSpaces` and `CollapseRun` prove what it does to whitespace runs |
| Slug.CollapseLeavesNoSpace | src/pages/AdminCreateEvent.jsx:14 | after `replace(/\s+/g, '-')` no whitespace is left |
| Slug.CollapseWithoutSpaces | src/pages/AdminCreateEvent.jsx:14 | text without whitespace is left unchanged by the collapse |
| Slug.CollapseRun | src/pages/AdminCreateEvent.jsx:14 | a maximal whitespace run between other characters becomes exactly one `-` |
| Slug.StripKeepsOrder | src/pages/AdminCreateEvent.jsx:14 | the kept characters stay in their relative order |
| Slug.StripKeepsCounts | src/pages/AdminCreateEvent.jsx:14 | every slug character is kept as many times as it occurs |
| Slug.SlugKeepsOrder | src/pages/AdminCreateEvent.jsx:14 | the slug is a subsequence of the lower-cased, collapsed name and keeps every slug character of it |
| Slug.GenerateSlugIdempotent | src/pages/AdminCreateEvent.jsx:13-14 | applying `generateSlug` to its own output returns that output |
| Slug.SlugSurvivesNormalisation | src/pages/AdminEventDetail.jsx:120 | a generated slug is unchanged by `trim().toLowerCase()` |
| Slug.SlugAppend | src/pages/AdminCreateEvent.jsx:14 | the slug of a concatenation is the concatenation of the slugs when the first part does not end in whitespace |
| Slug.SlugOfLeadingRun | src/pages/AdminCreateEvent.jsx:14 | a leading whitespace run becomes a single leading `-`, which is not trimmed |
| Slug.HyphensNotMerged | src/pages/AdminCreateEvent.jsx:14 | two runs around a word that is deleted entirely give `--`: hyphens are never merged |
| Slug.PlaceholderShape | src/pages/AdminCreateEvent.jsx:14 | names shaped like "John & Jane Wedding" give `john--jane-wedding` |
| Slug.OuterSpacesExample | src/pages/AdminCreateEvent.jsx:14 | `" a "` gives `"-a-"` |
| Slug.EmptySlugExample | src/pages/AdminCreateEvent.jsx:13-14 | an all-punctuation name gives the empty slug |
| Slug.SlugOfPlainWord | src/pages/AdminCreateEvent.jsx:14 | a word made of letters, digits and hyphens gives its lower-case form |
| Folders.FolderKey | src/pages/AdminEventDetail.jsx:137-138 | the key is a non-empty, slash-free second segment when there is one, and the label otherwise |
| Folders.FolderKeyOfFolderPath | src/pages/AdminEventDetail.jsx:137-138 | `{id}/{folder}/{rest}` with a non-empty, slash-free folder is filed under that folder |
| Folders.FolderKeyOfEmptySegment | src/pages/AdminEventDetail.jsx:137-138 | an empty second segment (`5//a.jpg`) falls back to the label |
| Folders.FolderKeyWithoutSlash | src/pages/AdminEventDetail.jsx:137-138 | a path without `/` falls back to the label |
| Folders.FolderKeyOfTwoSegments | src/pages/AdminEventDetail.jsx:137-138 | `5/a.jpg` is filed under `a.jpg` |
| Folders.LabelChangesOnlyDefault | src/pages/PublicGallery.jsx:47-48 | the admin and public keys of a path differ only when both are their labels |
| Folders.KeysIndex | src/pages/AdminEventDetail.jsx:26 | entry `i` of the key list is the key of photo `i` |
| Folders.GroupsFor | src/pages/AdminEventDetail.jsx:136-142 | one group per key, holding that key's bucket |
| Folders.Groups | src/pages/AdminEventDetail.jsx:136-142 | each group holds the bucket of its own key; `GroupsPartition`, `GroupContents` and `GroupOrder` prove the partition, the contents and the key order that `Object.keys` lists at line 230 |
| Folders.Grouping | src/pages/AdminEventDetail.jsx:136-142 | the reduce throws (no result) exactly when some photo's folder key names an `Object.prototype` member; otherwise it gives `Groups` |
| Folders.GroupPhotos | src/pages/AdminEventDetail.jsx:136-142 | the reduce with its map accumulator computes the functional grouping, or throws at a prototype-named key |
| Folders.StepKeys | src/pages/AdminEventDetail.jsx:139-140 | one step of the reduce appends the photo to its own key's bucket only |
| Folders.PushStep | src/pages/AdminEventDetail.jsx:139-140 | each step of the reduce keeps the accumulator equal to the buckets of the photos seen so far |
| Folders.AccumulatedGroups | src/pages/AdminEventDetail.jsx:136-142 | at the end, the accumulator listed in key order is the grouping |
| Folders.GroupKeys | src/pages/AdminEventDetail.jsx:136-142 | the group keys are the de-duplicated folder keys: no duplicates, exactly the keys of the photos |
| Folders.BucketMembers | src/pages/AdminEventDetail.jsx:139-140 | a bucket holds exactly the photos with its key |
| Folders.BucketKeepsOrder | src/pages/AdminEventDetail.jsx:139-140 | a bucket keeps the list order |
| Folders.BucketSorted | src/pages/AdminEventDetail.jsx:73 | a bucket of a list in ascending `created_at` order is in ascending order |
| Folders.BucketOfAbsentKey | src/pages/AdminEventDetail.jsx:139 | a key that no photo has gets no photos |
| Folders.BucketAndRest | src/pages/AdminEventDetail.jsx:136-142 | a bucket and the rest together hold each photo as often as the list |
| Folders.BucketOfRest | src/pages/AdminEventDetail.jsx:136-142 | removing one key's photos leaves the other buckets unchanged |
| Folders.RestKeys | src/pages/AdminEventDetail.jsx:136-142 | the rest holds only photos of other keys |
| Folders.FlattenGroupsFor | src/pages/AdminEventDetail.jsx:136-142 | the groups for distinct keys covering every photo hold each photo exactly as often as the list |
| Folders.TotalSizeIsFlatLength | src/pages/AdminEventDetail.jsx:136-142 | the sum of the bucket sizes is the length of their concatenation |
| Folders.GroupsPartition | src/pages/AdminEventDetail.jsx:136-142 | every photo is in the grouping exactly once, and the bucket sizes sum to `photos.length` |
| Folders.GroupContents | src/pages/PublicGallery.jsx:46-52 | each group holds exactly the photos of its key, in list order, ascending when the list is |
| Folders.GroupOrder | src/pages/AdminEventDetail.jsx:230 | the groups come in order of the first photo of each folder |
| Folders.NoGroupsIffNoPhotos | src/pages/PublicGallery.jsx:63 | there are no groups exactly when there are no photos |
| Folders.ExistingFolders | src/pages/AdminEventDetail.jsx:25-27 | `Array.from(new Set(...))` of the admin folder keys: no duplicates, and exactly the photos' keys; `ExistingFoldersAreGroupKeys` adds the first-occurrence order |
| Folders.ExistingFoldersAreGroupKeys | src/pages/AdminEventDetail.jsx:25-27 | the dropdown lists the admin group keys: no duplicates, exactly the photos' keys, in first-occurrence order |
| EventDetail.UploadPath | src/pages/AdminEventDetail.jsx:86 | the path starts with `{id}/` and ends with the file's name; `UploadPathRoundTrip` and `UploadPathOfNestedFolder` prove the folder it is filed under |
| EventDetail.UploadPathRoundTrip | src/pages/AdminEventDetail.jsx:86 | a path built at upload time is grouped under the trimmed folder when the id and the folder hold no `/` |
| EventDetail.UploadPathOfNestedFolder | src/pages/AdminEventDetail.jsx:86 | a folder typed with `/` is grouped under the text before its first `/`, or under the label when that text is empty |
| EventDetail.Batch | src/pages/AdminEventDetail.jsx:84-92 | when no call throws, exactly two writes per file; `BatchWithoutThrow`, `BatchStopsAtFirstThrow`, `BatchPathsInFolder` and `BatchLength` prove the rest |
| EventDetail.BatchWithoutThrow | src/pages/AdminEventDetail.jsx:85-89 | returned errors do not stop the loop: when nothing throws, every file is uploaded and inserted in order |
| EventDetail.BatchStopsAtFirstThrow | src/pages/AdminEventDetail.jsx:84-92 | the first exception stops the loop: earlier files are kept, the failing file gets the calls up to the one that threw, and its message is reported |
| EventDetail.BatchPathsInFolder | src/pages/AdminEventDetail.jsx:86-88 | every write of a batch is a non-overwriting upload or an insert for this event, on a path grouped under the trimmed folder |
| EventDetail.BatchLength | src/pages/AdminEventDetail.jsx:85-89 | at most two writes per file, and an exception is reported exactly when some call threw |
| EventDetail.BatchStep | src/pages/AdminEventDetail.jsx:85-89 | the batch from file `i` on is that file's writes, then the rest unless it threw |
| EventDetail.SendFiles | src/pages/AdminEventDetail.jsx:84-93 | the `for` loop sends upload then insert for each file and stops at the first exception, with the writes and message `Batch` gives |
| EventDetail.RemoveId | src/pages/AdminEventDetail.jsx:112 | the filtered list is no longer than the list; `RemoveIdMembers`, `RemoveIdKeepsOrder`, `RemoveIdCounts` and `RemoveIdSorted` prove what it keeps |
| EventDetail.RemoveIdMembers | src/pages/AdminEventDetail.jsx:112 | the filter keeps exactly the entries with another id |
| EventDetail.RemoveIdKeepsOrder | src/pages/AdminEventDetail.jsx:112 | the kept entries stay in list order |
| EventDetail.RemoveIdCounts | src/pages/AdminEventDetail.jsx:112 | each kept entry appears as often as before, and the removed id not at all |
| EventDetail.RemoveIdSorted | src/pages/AdminEventDetail.jsx:112 | a list in ascending `created_at` order stays so |
| EventDetail.QrValue | src/pages/AdminEventDetail.jsx:120 | empty exactly while there is no event, and otherwise starting with `{baseUrl}/event/`; `QrValueOfGeneratedSlug` proves that the rest is the stored slug when it was generated |
| EventDetail.QrValueOfGeneratedSlug | src/pages/AdminEventDetail.jsx:120 | the QR value is empty until the event loads, and then ends in the stored slug when that slug came from `generateSlug` |
| EventDetail.EventDetailPage.constructor | src/pages/AdminEventDetail.jsx:8-13 | the page starts with no event, no photos, not uploading, no error and an empty folder |
| EventDetail.EventDetailPage.SetFolder | src/pages/AdminEventDetail.jsx:185-195 | the folder box and the dropdown set the folder; the photo list keeps its invariant |
| EventDetail.EventDetailPage.EventFetched | src/pages/AdminEventDetail.jsx:60-62 | the fetched event (or none) is stored; the photo list keeps its invariant |
| EventDetail.EventDetailPage.PhotosFetched | src/pages/AdminEventDetail.jsx:68-75 | `data \|\| []` is stored, and the list holds this event's photos in ascending order |
| EventDetail.EventDetailPage.UploadFiles | src/pages/AdminEventDetail.jsx:77-95 | an empty trimmed folder sets "Please enter a folder name." with no writes and `uploading` untouched; otherwise the batch's writes are sent, its exception message is shown, a refetch starts only when nothing threw, and `uploading` ends false; the photo list keeps its invariant |
| EventDetail.EventDetailPage.HandleDelete | src/pages/AdminEventDetail.jsx:103-116 | declining changes nothing; a storage error stops before the row delete and leaves the list; a row error leaves the list; on success the list loses exactly that id, in order |
| CreateEvent.SubmitRequests | src/pages/AdminCreateEvent.jsx:21-40 | the insert comes first with a slug of `a-z0-9-`; a second write exactly after a successful insert with a cover, and it is the overwriting upload to `{id}/cover.jpg`; no other storage write; nothing is removed or deleted |
| CreateEvent.CreateEventForm.constructor | src/pages/AdminCreateEvent.jsx:7-11 | the form starts empty, not loading, with no error |
| CreateEvent.CreateEventForm.SetName | src/pages/AdminCreateEvent.jsx:65 | the name input sets the name |
| CreateEvent.CreateEventForm.SetEventDate | src/pages/AdminCreateEvent.jsx:80 | the date input sets the date |
| CreateEvent.CreateEventForm.SetCoverFile | src/pages/AdminCreateEvent.jsx:93 | the file input sets the cover, or none |
| CreateEvent.CreateEventForm.HandleSubmit | src/pages/AdminCreateEvent.jsx:16-48 | the writes are `SubmitRequests`; navigation to `/admin/events/{id}` happens exactly when the insert succeeded and there was no cover or its upload succeeded; otherwise the error holds the message; `loading` ends false |
| PublicGallery.LookupKey | src/pages/PublicGallery.jsx:24 | the lookup key is no longer than the route's slug and holds no upper-case letter |
| PublicGallery.LiteralLike | src/pages/PublicGallery.jsx:24 | a pattern without `%`, `*`, `_` or `\` matches exactly the text equal to it |
| PublicGallery.LiteralILike | src/pages/PublicGallery.jsx:24 | with such a pattern, `ilike` is case-insensitive equality |
| PublicGallery.QrLinkFindsEvent | src/pages/PublicGallery.jsx:24 | the QR route of a generated slug finds that event and no event with another generated slug |
| PublicGallery.LookupIgnoresCase | src/pages/PublicGallery.jsx:24 | a route slug without pattern characters finds a stored slug exactly when they agree up to letter case |
| PublicGallery.UpperCaseRouteFindsSlug | src/pages/PublicGallery.jsx:24 | `/event/A-B` finds the slug `a-b` |
| PublicGallery.Render | src/pages/PublicGallery.jsx:42-64 | loading, then a non-empty error (even with an event set), then a missing event; with an event, the render throws exactly when a folder key is an `Object.prototype` name, and otherwise shows the gallery; the empty-gallery text exactly when there are no photos; the preview exactly when a non-empty URL is selected |
| PublicGallery.GalleryGroups | src/pages/PublicGallery.jsx:46-52 | the gallery's groups hold every photo exactly once, each its folder's photos, ascending when fetched so |
| PublicGallery.GalleryPage.constructor | src/pages/PublicGallery.jsx:6-11 | the page starts loading, with no event, photos, error or selection |
| PublicGallery.GalleryPage.FetchEventAndPhotos | src/pages/PublicGallery.jsx:17-40 | the `ilike` pattern is the route's slug, trimmed and lower-cased; the answers are stored as `StoredAnswers` says; `loading` ends false, so a stored error is what the page shows |
| PublicGallery.GalleryPage.StoreAnswers | src/pages/PublicGallery.jsx:21-37 | a lookup error is stored and no photo query is made; a missing row stores no event and the engine's message; a found event is stored and its photos are queried by its id; a photos error is stored, otherwise the rows (or none) replace the list and the earlier error stays |
| PublicGallery.GalleryPage.SelectImage | src/pages/PublicGallery.jsx:81 | a click selects the image URL, and the preview shows when the URL is non-empty |
| PublicGallery.GalleryPage.ClosePreview | src/pages/PublicGallery.jsx:104 | Close clears the selection and hides the preview |
| SessionGate.Decide | src/components/ProtectedRoute.jsx:16-22 | nothing while loading; after that, a history-replacing redirect to `/admin` exactly when there is no session; otherwise the children, unchanged |
| SessionGate.Gate.constructor | src/components/ProtectedRoute.jsx:6-7 | the gate starts loading with no session |
| SessionGate.Gate.Resolve | src/components/ProtectedRoute.jsx:9-14 | the resolved session is stored and loading ends; the gate's invariant, no session while loading, holds before and after |

## Left out

- Backend calls are not modelled, only their answers, which are inputs. This covers the queries, storage upload and remove, `getPublicUrl`, auth, and `.single()` failing on zero or several rows. The cover URL of the admin page is therefore not modelled.
- The `ilike` lookup is modelled as a matcher, not as a query over a table. Backslash escapes in `LIKE` patterns are not modelled: every lemma about the matcher requires a pattern without `\`. PostgreSQL's locale-dependent case folding is taken as ASCII lower-casing.
- Rendering is not modelled: JSX, styling, hook scheduling, the drag-and-drop listeners, the file-input handler's empty check, and the QR canvas and its PNG download.
- The admin page's loading text shown before the event arrives is not modelled.
- `toLowerCase` covers ASCII A–Z only. Full Unicode case mapping, which can turn a non-ASCII letter into a kept `a-z` letter, is not modelled.
- Folders.GroupPhotos: requires that no folder key is an array index. `Object.keys` would list such keys first in numeric order, so group order on screen is first-occurrence order only under that condition.
- PublicGallery.Render: uses the grouping in first-occurrence order. It does not reorder integer-like folder keys as `Object.keys` would.
- The user's answer to the delete confirmation dialog is an input (`confirmed`), and `alert` is the returned message.
- `Date.now()` is an input: each file's timestamp is a field of `FileAttempt`. `toLocaleDateString` is not modelled.
- The base URL of the QR link (`VITE_APP_BASE_URL`) is a parameter.
- When the looked-up event row is missing, reading its `id` throws a `TypeError`. The engine's message for that error is the parameter `nullRead`.
- Races between concurrent admins and the non-cascading event delete are not modelled.
- `fetchPhotos` after an upload is not awaited; the model returns only whether it was started.
- AdminLogin, AdminLayout, Home, App (the router table) and AdminEvents are not part of this model.
- Slug.PlaceholderShape: states the "John & Jane Wedding" case for any three words made of letters, digits and hyphens, rather than for that literal name.
- EventDetail.EventDetailPage.UploadFiles: gives the state after the whole loop. The intermediate `uploading` state while files are being sent is only set, not observed.
