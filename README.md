# SecureStreamVault, modelled in Dafny

SecureStreamVault is a private video library: an Express server that stores
uploaded video files on disk, keeps their rows (and a folder tree) in a
PostgreSQL database, streams them with HTTP range requests behind a session or
bearer-token gate and reports statistics about the library and the live
streams; and a React client with a dashboard, a video list, a folder browser,
upload and new-folder dialogs, and analytics, scalability and settings pages.

This project models the server's storage layer, its route handlers, its
request logger and error handler, the in-memory registry of live streams, and
the client-side logic of those pages and dialogs: every computation they
perform on the data, and the state their handlers update. It proves what each
of them promises about its result.

Layout, one module per source file:

- `Schema`: the tables (`folders`, `videos`, `users`) as datatypes, the insert and patch shapes, and the table invariants (serial ids, unique `customId`/`username`, 32-bit integer columns).
- `Storage`: `DatabaseStorage` as a class whose fields are the three tables and their serial counters. Its queries are functions and its writes are methods.
- `Routes`: the authentication gate, the `Session`, and one function or method per endpoint over the store. The uploads directory is a `Disk` value (file name to size).
- `StreamRange`: Range-header parsing and the response head.
- `StreamTracker`: the `ActiveStreams` registry, a class holding the Map's records and their insertion order, plus `totalBandwidthUsed`.
- `Server`: the logging middleware and the error handler.
- `UploadModal`, `FolderModal`, `FolderNav`, `VideoCard`, `VideosPage`, `DashboardPage`, `AnalyticsPage`, `ScalabilityPage`, `SettingsPage`: the client components. Dialog and page state the handlers update are classes; the derived values are functions.
- `Common`, `Text`, `Numbers`, `Sorting`, `Clock`: the JavaScript built-ins the code relies on. These are written out with JavaScript's semantics:
  - `parseInt`, including its radix detection;
  - `%`, which truncates;
  - `String.prototype.split`, `replace`, `trim`, `padStart` and case mapping;
  - `Array.prototype.sort`.
  `Clock` reads a formatted duration back as numbers, so that the formatters can be proved to print the value they were given.

Plain JavaScript objects used as dictionaries are modelled as sequences of `(key, amount)` entries in insertion order. A key's share is the sum of the amounts filed under it, so shares do not depend on the order of the entries.

## Model

| member | source | states |
|---|---|---|
| Schema.NewFolder | shared/schema.ts:6-11 | the inserted folder row carries the given name and parent, the new serial id and the insertion time |
| Schema.NewVideo | shared/schema.ts:13-25 | the inserted video row carries exactly the insert's columns, a new id, the insertion time and no view count |
| Schema.PatchFolder | server/storage.ts:87-94 | `SET updates` overwrites exactly the supplied folder columns and keeps id and createdAt |
| Schema.PatchVideo | server/storage.ts:134-141 | `SET updates` overwrites exactly the supplied video columns and keeps id, createdAt and views |
| Schema.PatchVideoLaws | server/storage.ts:134-141 | an empty video patch changes nothing; applying a patch twice is applying it once |
| Schema.PatchFolderLaws | server/storage.ts:87-94 | an empty folder patch changes nothing; applying a patch twice is applying it once |
| Schema.FolderTableAllowsCycles | shared/schema.ts:27-34 | parentId is not a foreign key: tables with a folder that is its own parent, a two-folder cycle or a dangling parent satisfy every constraint |
| Schema.FolderTableAppend | shared/schema.ts:7 | inserting a row with the next serial id keeps the folders table's invariant |
| Schema.FolderTableReplace | shared/schema.ts:7 | replacing a row by one with the same id keeps the folders table's invariant |
| Schema.FolderTableRemove | shared/schema.ts:7 | deleting a row keeps the invariant and leaves exactly the rows with other ids |
| Schema.VideoTableAppend | shared/schema.ts:14-15 | inserting a row with the next id and an unused customId keeps the videos table's invariant |
| Schema.VideoTableReplace | shared/schema.ts:14-15 | replacing a row by one with the same id and a customId no other row has keeps the invariant |
| Schema.VideoTableRemove | shared/schema.ts:14-15 | deleting a video row keeps the invariant and leaves exactly the rows with other ids |
| Schema.UserTableAppend | shared/schema.ts:59-63 | inserting a user with the next id and an unused username keeps the users table's invariant |
| Storage.FolderIndex | server/storage.ts:66-69 | None exactly when no folder has the id, otherwise the position of one that has it |
| Storage.VideoIndex | server/storage.ts:108-111 | None exactly when no video has the id, otherwise the position of one that has it |
| Storage.CustomIdIndex | server/storage.ts:113-116 | None exactly when no video has the customId, otherwise the position of one that has it |
| Storage.UserIndex | server/storage.ts:43-46 | None exactly when no user has the id, otherwise the position of one that has it |
| Storage.UsernameIndex | server/storage.ts:48-51 | None exactly when no user has the name, otherwise the position of one that has it |
| Storage.Bumped | server/storage.ts:150-157 | the row with that id gets `COALESCE(views, 0) + 1`; every other row is unchanged |
| Storage.DatabaseStorage.constructor | server/storage.ts:41 | a new store has empty tables and satisfies the table invariants |
| Storage.DatabaseStorage.GetUser | server/storage.ts:43-46 | undefined iff no user has the id, else a stored user with that id |
| Storage.DatabaseStorage.GetUserByUsername | server/storage.ts:48-51 | undefined iff no user has the name, else a stored user with that name |
| Storage.DatabaseStorage.CreateUser | server/storage.ts:53-59 | refused iff the username is taken, which still uses up the next serial id; otherwise appends the row with the next id and changes no other table |
| Storage.DatabaseStorage.GetAllFolders | server/storage.ts:62-64 | all folders (as a multiset), ordered by name |
| Storage.DatabaseStorage.GetFolderById | server/storage.ts:66-69 | undefined iff no folder has the id, else a stored folder with that id |
| Storage.DatabaseStorage.GetFoldersByParentId | server/storage.ts:71-77 | exactly the folders whose parent is the given one (`IS NULL` for none), ordered by name |
| Storage.DatabaseStorage.CreateFolder | server/storage.ts:79-85 | refused iff an integer column leaves 32 bits; otherwise appends the row with the next id; other tables unchanged |
| Storage.DatabaseStorage.UpdateFolder | server/storage.ts:87-94 | undefined and no change for an unknown id; otherwise that row patched in place, or refused when a column leaves 32 bits |
| Storage.DatabaseStorage.DeleteFolder | server/storage.ts:96-101 | true iff a row had the id; exactly that row is gone; videos and child folders stay |
| Storage.DatabaseStorage.GetAllVideos | server/storage.ts:104-106 | all videos (as a multiset), newest first |
| Storage.DatabaseStorage.GetVideoById | server/storage.ts:108-111 | undefined iff no video has the id, else a stored video with that id |
| Storage.DatabaseStorage.GetVideoByCustomId | server/storage.ts:113-116 | undefined iff no video has the customId, else the only row that has it |
| Storage.DatabaseStorage.GetVideosByFolderId | server/storage.ts:118-124 | exactly the videos in that folder (`IS NULL` for the top level), newest first |
| Storage.DatabaseStorage.CreateVideo | server/storage.ts:126-132 | refused iff the customId is taken or a column leaves 32 bits; a taken customId still uses up the next serial id, an out-of-range value does not; otherwise appends the row with the next id |
| Storage.DatabaseStorage.UpdateVideo | server/storage.ts:134-141 | undefined and no change for an unknown id; otherwise that row patched, or refused on a customId clash or a 32-bit overflow |
| Storage.DatabaseStorage.DeleteVideo | server/storage.ts:143-148 | true iff a row had the id; exactly that row is gone |
| Storage.DatabaseStorage.IncrementVideoViews | server/storage.ts:150-157 | every row is `Bumped`: only the row with the id gains one view; an unknown id changes nothing |
| Server.Truncate | server/index.ts:49-51 | at most 80 characters; a short line is kept; a long one becomes its first 79 characters and "…" |
| Server.TruncateKeepsPrefix | server/index.ts:49-51 | truncation keeps the first 79 characters of the line |
| Server.FullLogLine | server/index.ts:43-46 | the line starts with method, path, status and "in", and ends with "ms", or with " :: " and the captured body when there is one |
| Server.LogLine | server/index.ts:41-55 | a line is logged iff the path starts with "/api"; a full line of at most 80 characters is logged whole, a longer one as its first 79 characters and "…" |
| Server.LogCapture.constructor | server/index.ts:33 | no body is captured before `res.json` is called |
| Server.LogCapture.Json | server/index.ts:36-39 | the wrapped `res.json` remembers the last body sent |
| Server.LogCapture.Finish | server/index.ts:41-55 | the finish listener logs `LogLine` of the last captured body |
| Server.ErrorStatus | server/index.ts:65 | `err.status`, else `err.statusCode`, else 500, skipping falsy values; never 0 |
| Server.ErrorMessage | server/index.ts:66 | `err.message` unless missing or empty, else "Internal Server Error"; never empty |
| Routes.RequireAuth | server/routes.ts:49-55 | the route runs iff the session is authenticated or the header minus its first "Bearer " is the fixed token; otherwise 401 |
| Routes.NotContainsMissingChar | server/routes.ts:50 | a header lacking a character of "Bearer " does not contain it (so `replace` leaves it unchanged) |
| Routes.BearerRemoved | server/routes.ts:50 | removing "Bearer " from "Bearer t", or from a t without a space, gives t |
| Routes.BearerHeadersAdmitted | server/routes.ts:50 | "Bearer yourBearerTokenHere" and the bare token are both admitted without a session |
| Routes.PlainHeaderNeedsToken | server/routes.ts:50 | a header without "Bearer " is admitted iff it is the token; a missing or empty header is refused |
| Routes.UnanchoredBearerAdmitted | server/routes.ts:50 | "Bearer " spliced anywhere into the token is also admitted, since the replace is not anchored |
| Routes.Session.constructor | server/routes.ts:59-67 | a new session is not authenticated |
| Routes.Session.Login | server/routes.ts:70-79 | the session is authenticated with 200 iff the secret key equals the configured key; otherwise 401 and no change |
| Routes.Session.Logout | server/routes.ts:82-90 | the session is cleared with 200, or 500 and no change when destroying it fails |
| Routes.Session.Status | server/routes.ts:93-95 | 200 with the session's authentication flag |
| Routes.DbInt | server/routes.ts:102 | the id parseInt reads from the text, when it fits the 32-bit column; None when parsing or the query fails |
| Routes.DbIntOfIntToString | server/routes.ts:121 | a 32-bit id written in decimal reaches the database unchanged |
| Routes.ListingOf | server/routes.ts:100-103 | an absent or empty parameter lists the top level; otherwise the parsed id, or a failing query |
| Routes.ListingEncodings | server/routes.ts:100-103 | absent and "" list the top level; the decimal text of an id lists that folder |
| Routes.ListFolders | server/routes.ts:98-108 | 500 on a bad query; otherwise 200 with the folders under that parent, by name |
| Routes.ListAllFolders | server/routes.ts:110-117 | 200 with every folder, by name |
| Routes.ShowFolder | server/routes.ts:119-129 | 500 on a bad id, 404 when absent, else 200 with the stored folder of that id |
| Routes.PostFolder | server/routes.ts:131-139 | 400 without a name or when the insert is refused; otherwise 201 with the row created by `CreateFolder` |
| Routes.RemoveFolder | server/routes.ts:141-151 | 500 on a bad id, 404 when no row went, else 200 with exactly that row deleted |
| Routes.ListVideos | server/routes.ts:154-164 | 500 on a bad query; otherwise 200 with the videos in that folder, newest first |
| Routes.ListAllVideos | server/routes.ts:166-173 | 200 with every video, newest first |
| Routes.ShowVideo | server/routes.ts:175-185 | 500 on a bad id, 404 when absent, else 200 with the stored video of that id |
| Routes.IntakeOf | server/routes.ts:32-45 | multer stores a file iff its type starts with "video/" and it is within 10000 MiB; otherwise the matching refusal message |
| Routes.UploadFolderId | server/routes.ts:214 | no folder for a missing or empty field; otherwise parseInt of it, None when that is NaN |
| Routes.UploadRow | server/routes.ts:207-218 | the inserted row takes the file's name, type and size and the form's customId, title and folder, with no duration or metadata |
| Routes.UploadVideo | server/routes.ts:187-228 | 400 without a file, without customId or title (the saved file stays on disk), or for a taken customId; 500 for a multer refusal or a failed insert; a taken customId or a failed insert unlinks the saved file; 201 appends the new row |
| Routes.ColumnSmallerThanLimit | server/routes.ts:42-44 | a file between 2^31 bytes and the 10000 MiB limit passes multer but cannot be stored in the 32-bit size column |
| Routes.RemoveVideo | server/routes.ts:230-252 | 500 on a bad id; 404 when absent; else the file leaves the disk if present and exactly that row is deleted |
| Routes.Admit | server/routes.ts:281-290 | the stream is recorded under its id with no bytes sent and the video's views go up by one, nothing else changing |
| Routes.ServeFound | server/routes.ts:274-384 | registers the stream, bumps the video's views, then answers with the head the Range header set up, or 500 with the record removed when the read stream rejected the range |
| Routes.StreamVideo | server/routes.ts:263-384 | 404 for an unknown customId or a missing file, changing nothing; otherwise `ServeFound` with the setup `SetupStream` gives for the Range header |
| Routes.StreamAnalyticsReply | server/routes.ts:387-399 | 200 with the live stream count, the limit 250, and one detail per live stream in insertion order: the stream id up to its first '-', the time since it started and its client |
| Routes.AverageDuration | server/routes.ts:410-412 | `Math.round` of the mean duration, missing durations counted as 0; 0 for no videos |
| Routes.AverageDurationWithin | server/routes.ts:410-412 | when every duration lies between lo and hi, so does the rounded average |
| Routes.StatsOf | server/routes.ts:402-482 | counts, total size, rounded average, live stream count and bandwidth of the store and the registry |
| StreamRange.RequestedRange | server/routes.ts:309-311 | a range iff the start parses and a non-empty end parses; an empty end is the file's last byte |
| StreamRange.SetupStream | server/routes.ts:308-350 | without a Range header, 206 over the whole file; with one, 206 with `bytes start-end/size` and length end-start+1 when the read stream accepts it, otherwise a failure |
| StreamRange.ParsedRangeServed | server/routes.ts:308-320 | a header whose parts parse to an accepted range is served with that Content-Range |
| StreamRange.HeaderServed | server/routes.ts:308-320 | a header a client builds is served from its first byte to the last byte it asks for, or to the file's last byte when it names none |
| StreamRange.ClosedRangeServed | server/routes.ts:308-320 | `bytes=a-b` with a <= b is served as exactly bytes a to b |
| StreamRange.OpenRangeServedToEnd | server/routes.ts:311 | `bytes=a-` inside the file is served up to byte fileSize - 1 |
| StreamRange.OpenRangePastEndFails | server/routes.ts:311-314 | `bytes=a-` at or past the end fails in the read stream instead of answering 416 |
| StreamRange.SuffixRangeFails | server/routes.ts:309-314 | a suffix range `bytes=-n` has no parsable start, so the request fails |
| StreamRange.HeaderParts | server/routes.ts:309 | removing "bytes=" and splitting at "-" gives back the two numerals of the header |
| StreamRange.ParseNat | server/routes.ts:310 | parseInt with radix 10 reads back a printed natural number |
| StreamTracker.ClientId | server/routes.ts:283 | `req.ip` unless missing or empty, else "unknown" |
| StreamTracker.RemoveKey | server/routes.ts:333 | exactly the other ids, in order, still distinct |
| StreamTracker.RemoveKeyIdempotent | server/routes.ts:333 | deleting an id twice is deleting it once |
| StreamTracker.SumAgree | server/routes.ts:255-261 | the bytes summed over the listed ids depend only on the listed records |
| StreamTracker.SumAppend | server/routes.ts:281-286 | appending an id adds its record's bytes to the sum |
| StreamTracker.SumUpdate | server/routes.ts:323-329 | changing one listed record changes the sum by the change in its bytes |
| StreamTracker.SumRemove | server/routes.ts:333 | removing a record takes exactly its bytes out of the sum |
| StreamTracker.DistinctCard | server/routes.ts:255 | a listing without repeats has as many distinct ids as entries |
| StreamTracker.ActiveStreams.constructor | server/routes.ts:255-261 | the registry starts empty with no bandwidth counted |
| StreamTracker.ActiveStreams.Register | server/routes.ts:281-286 | `set` records the stream with no bytes yet, listed after the others unless its id was already live; bandwidth unchanged |
| StreamTracker.ActiveStreams.OnChunk | server/routes.ts:323-329 | a chunk of a live stream adds its length to the record and to the total; for a removed stream nothing changes |
| StreamTracker.ActiveStreams.Remove | server/routes.ts:333 | `delete` drops exactly that record and its listing entry; the total is kept |
| StreamTracker.ActiveStreams.OnEvent | server/routes.ts:323-376 | a chunk is counted; end, error and close remove the record; the total bandwidth never decreases |
| StreamTracker.ActiveStreams.SizeIsListed | server/routes.ts:476 | `activeStreams.size` is the number of listed records |
| StreamTracker.ActiveStreams.Snapshot | server/routes.ts:387-398 | one detail per live record in insertion order, with id = stream id up to its first '-', elapsed time and client |
| StreamTracker.DetailIdOfStreamId | server/routes.ts:264 | the reported id is the customId up to its first '-', and equals the customId iff it has no '-' |
| StreamTracker.DashedCustomIdTruncated | server/routes.ts:389 | a stream of "my-video" is reported as "my" |
| StreamTracker.ActiveStreams.CustomIdSnapshot | server/routes.ts:387-398 | the snapshot with each detail named by the record's customId |
| StreamTracker.CustomIdSnapshotNamesVideo | server/routes.ts:285 | each detail of the corrected snapshot names the video the stream serves |
| UploadModal.LastIndexOf | client/src/components/upload-modal.tsx:116 | None iff the character is absent; otherwise its last position |
| UploadModal.StripExtension | client/src/components/upload-modal.tsx:116 | a prefix of the name; the name when it has no '.'; otherwise the name minus a final ".ext" whose ext has no '.' or '/' |
| UploadModal.StripExtensionOf | client/src/components/upload-modal.tsx:116 | `base.ext` with a non-empty ext free of '.' and '/' gives back base |
| UploadModal.Dashify | client/src/components/upload-modal.tsx:122 | every character outside `[a-z0-9]` becomes '-', the length is kept |
| UploadModal.CollapseDashes | client/src/components/upload-modal.tsx:123 | no double dash remains, no new character appears, the ends are kept |
| UploadModal.CollapseFixed | client/src/components/upload-modal.tsx:123 | text without a double dash is left unchanged |
| UploadModal.TrimDashes | client/src/components/upload-modal.tsx:124 | one dash is dropped at each end; from text without double dashes, no dash remains at the ends |
| UploadModal.DeriveCustomId | client/src/components/upload-modal.tsx:118-126 | the derived customId uses only `[a-z0-9]` and single inner dashes |
| UploadModal.DeriveIdempotent | client/src/components/upload-modal.tsx:118-126 | deriving from a derived customId gives it back |
| UploadModal.WellFormedFixed | client/src/components/upload-modal.tsx:118-126 | every well-formed customId is left unchanged by the derivation |
| UploadModal.FolderSelection | client/src/components/upload-modal.tsx:24 | "root" iff no current folder, otherwise text parseInt reads back as that folder |
| UploadModal.UploadDialog.constructor | client/src/components/upload-modal.tsx:21-27 | no file, empty fields and the current folder selected |
| UploadModal.UploadDialog.ResetForm | client/src/components/upload-modal.tsx:101-109 | back to the initial state |
| UploadModal.UploadDialog.HandleFileChange | client/src/components/upload-modal.tsx:111-128 | a picked file is kept; title and customId are derived from its name only where empty; no file changes nothing |
| UploadModal.UploadDialog.Submit | client/src/components/upload-modal.tsx:130-154 | a submission iff a file, customId and title are set; folderId only when set and not "root", description only when non-empty |
| UploadModal.UploadDialog.HandleClose | client/src/components/upload-modal.tsx:156-161 | closes and resets iff no upload is pending |
| UploadModal.SelectedFolderReachesRow | client/src/components/upload-modal.tsx:146-148 | a folder chosen in the dialog becomes the folderId of the inserted row |
| UploadModal.XhrOutcome | client/src/components/upload-modal.tsx:55-61 | resolves iff the status is 2xx; rejects with the body, or "Upload failed" when it is empty |
| UploadModal.UploadAnswersSettle | client/src/components/upload-modal.tsx:55-61 | the server's 201 resolves and its 400 and 500 reject |
| FolderModal.ParentOf | client/src/components/folder-modal.tsx:79 | no parent for "" and "root", else parseInt of the selection |
| FolderModal.SelectionReachesParent | client/src/components/folder-modal.tsx:62 | a selected folder's id is sent as parent; the root selections send null |
| FolderModal.FolderDialog.constructor | client/src/components/folder-modal.tsx:20-21 | an empty name and the current folder (or "") selected |
| FolderModal.FolderDialog.ResetForm | client/src/components/folder-modal.tsx:60-63 | empty name and the current folder, or "root" |
| FolderModal.FolderDialog.Submit | client/src/components/folder-modal.tsx:65-81 | no request iff the name is all whitespace; otherwise the trimmed, non-empty name and the parsed parent |
| FolderModal.FolderDialog.SubmitDisabled | client/src/components/folder-modal.tsx:142 | disabled while pending, and otherwise exactly when submitting would be refused |
| FolderModal.FolderDialog.HandleClose | client/src/components/folder-modal.tsx:83-88 | closes and resets iff no create is pending |
| FolderNav.Enter | client/src/pages/folders.tsx:81-84 | the trail gains the folder at its end and the folder becomes current |
| FolderNav.Back | client/src/pages/folders.tsx:86-98 | nothing at the root; otherwise the last folder is dropped and the one before (or the root) is current |
| FolderNav.Home | client/src/pages/folders.tsx:100-103 | empty trail, no current folder |
| FolderNav.Crumb | client/src/pages/folders.tsx:139-143 | the trail up to and including the crumb, which becomes current |
| FolderNav.BackUndoesEnter | client/src/pages/folders.tsx:81-98 | Back after entering a folder restores the previous state |
| FolderNav.LastCrumbStays | client/src/pages/folders.tsx:139-143 | clicking the last crumb changes nothing |
| FolderNav.BackReachesRoot | client/src/pages/folders.tsx:86-98 | pressing Back once per folder on the trail reaches the root |
| FolderNav.BackUndoesEntering | client/src/pages/folders.tsx:81-98 | pressing Back n times undoes entering n folders |
| FolderNav.EnterAll | client/src/pages/folders.tsx:81-84 | entering folders in turn lengthens the trail by their number and keeps it consistent |
| FolderNav.FolderQuery | client/src/pages/folders.tsx:30 | the empty parameter iff the current folder is falsy |
| FolderNav.QueryListsCurrent | client/src/pages/folders.tsx:30-41 | the page's listings are those of the current folder, and of the top level at the root |
| FolderNav.BackShownIffInside | client/src/pages/folders.tsx:150 | the Back button shows iff the trail is non-empty and its last folder's id is not 0 |
| FolderNav.FolderBrowser.constructor | client/src/pages/folders.tsx:21-23 | the page starts at the root with an empty trail |
| FolderNav.FolderBrowser.NavigateToFolder | client/src/pages/folders.tsx:81-84 | the state becomes `Enter` of the old state |
| FolderNav.FolderBrowser.NavigateBack | client/src/pages/folders.tsx:86-98 | the state becomes `Back` of the old state |
| FolderNav.FolderBrowser.NavigateToRoot | client/src/pages/folders.tsx:100-103 | the state becomes the root |
| FolderNav.FolderBrowser.ClickCrumb | client/src/pages/folders.tsx:139-143 | the state becomes `Crumb` of the old state |
| FolderNav.FolderBrowser.BackShown | client/src/pages/folders.tsx:150 | shown iff the trail is non-empty and ends in a folder with a non-zero id |
| VideoCard.FormatDuration | client/src/components/video-card.tsx:67-72 | "N/A" iff the duration is missing or 0; a positive one reads back as its seconds |
| VideoCard.BadgeAsWritten | client/src/components/video-card.tsx:98-102 | nothing for a missing duration, a stray "0" for 0, otherwise the badge |
| VideoCard.ZeroDurationShowsStrayText | client/src/components/video-card.tsx:98 | a zero duration renders the text "0" on the card |
| VideoCard.DurationBadge | client/src/components/video-card.tsx:98-102 | a badge iff the duration is set and non-zero, never stray text; its caption reads back as the duration |
| VideoCard.BadgeAgreesExceptZero | client/src/components/video-card.tsx:98-102 | the corrected badge agrees with the code on every duration but 0 |
| VideoCard.FileExtension | client/src/components/video-card.tsx:74-77 | a subtype iff the MIME type has a '/', otherwise the call throws |
| VideoCard.ExtensionOfMime | client/src/components/video-card.tsx:74-77 | "type/sub" gives sub in upper case |
| VideoCard.StreamPathSegments | client/src/components/video-card.tsx:138 | a customId without '/' is the last segment of `/api/stream/customId` |
| VideoCard.DerivedIdStreamPath | client/src/components/video-card.tsx:41 | every customId the upload dialog derives fits in one path segment of the link |
| VideosPage.Search | client/src/pages/videos.tsx:74-77 | exactly the videos whose lower-cased title or customId contains the lower-cased term |
| VideosPage.SearchKeepsOrder | client/src/pages/videos.tsx:74-77 | the search keeps the library's order |
| VideosPage.EmptySearchKeepsAll | client/src/pages/videos.tsx:74-77 | an empty term keeps every video, in order |
| VideosPage.TotalsOf | client/src/pages/videos.tsx:79-82 | the total size, duration and views with missing values as 0, and the rounded average shown |
| VideosPage.TotalsMatchStats | client/src/pages/videos.tsx:79-82 | the page's totals equal the stats endpoint's whatever the listing order |
| VideosPage.FormatDuration | client/src/pages/videos.tsx:92-102 | "h:mm:ss" from an hour on, "m:ss" below, each reading back as the seconds given |
| VideosPage.HoursMinutesSeconds | client/src/pages/videos.tsx:94-96 | hours, minutes of the hour and seconds of the minute recompose the duration |
| VideosPage.RowDurationReads | client/src/pages/videos.tsx:327 | a row's duration text reads back as the video's duration, or 0 |
| VideosPage.CopiedLink | client/src/pages/videos.tsx:104-105 | the origin followed by the video's stream path |
| VideosPage.DownloadName | client/src/pages/videos.tsx:115 | the title followed by four characters |
| VideosPage.DownloadNameGivesTitleBack | client/src/pages/videos.tsx:115 | uploading a downloaded file again proposes the video's title |
| DashboardPage.AverageCard | client/src/pages/dashboard.tsx:181 | "0:00" for a falsy average, otherwise the average as "m:ss" |
| DashboardPage.AverageCardReads | client/src/pages/dashboard.tsx:88-92 | the card reads back as the average, or 0 when there is none |
| DashboardPage.RootListings | client/src/pages/dashboard.tsx:40 | at the root the dashboard's listings ask for the top level |
| AnalyticsPage.ShareIsEntry | client/src/pages/analytics.tsx:113-117 | in a dictionary with distinct keys, an entry holds its key's share, and an absent key has share 0 |
| AnalyticsPage.DistinctIffOnce | client/src/pages/analytics.tsx:113-117 | keys are distinct iff each occurs at most once |
| AnalyticsPage.ReorderedDictionary | client/src/pages/analytics.tsx:120-122 | reordering the entries keeps keys distinct and every share and the total unchanged |
| AnalyticsPage.AddTo | client/src/pages/analytics.tsx:117 | adding w under a key adds w to that key's share only and to the total, keeps keys distinct, and adds the key if it was new |
| AnalyticsPage.VideosByFormat | client/src/pages/analytics.tsx:88-95 | fails iff a MIME type lacks '/'; otherwise one entry per format, whose count is the number of videos of that format, totalling the number of videos |
| AnalyticsPage.FolderName | client/src/pages/analytics.tsx:116 | never empty; "Root" when no folder matches the video |
| AnalyticsPage.FolderNameOfFolder | client/src/pages/analytics.tsx:116 | a video in a folder is filed under its name, or "Root" when that name is empty |
| AnalyticsPage.StorageByFolder | client/src/pages/analytics.tsx:112-123 | one entry per folder name holding the bytes of the videos filed under it, largest first, totalling the library's size |
| AnalyticsPage.LargestVideos | client/src/pages/analytics.tsx:106-110 | min(5, n) of the videos, largest first |
| AnalyticsPage.LargestAreLargest | client/src/pages/analytics.tsx:106-110 | no video left out is larger than one shown |
| AnalyticsPage.RecentUploads | client/src/pages/analytics.tsx:97-104 | at most the number of videos, and 0 iff no video was created after the cutoff |
| AnalyticsPage.RecentActivity | client/src/pages/analytics.tsx:389-391 | min(5, n) of the videos, newest first |
| AnalyticsPage.NewestAreNewest | client/src/pages/analytics.tsx:389-391 | no video left out is newer than one shown |
| AnalyticsPage.RecentUploadsMonotone | client/src/pages/analytics.tsx:97-104 | a later cutoff counts no more uploads |
| AnalyticsPage.AllRecent | client/src/pages/analytics.tsx:97-104 | every video counts iff all were created after the cutoff |
| AnalyticsPage.VideosPerFolder | client/src/pages/analytics.tsx:178 | 0 without videos, the video count without folders, otherwise the rounded mean |
| AnalyticsPage.FormatDuration | client/src/pages/analytics.tsx:78-86 | from an hour on, "Hh Mm" reads as whole hours and minutes of the hour; below, "m:ss" reads back as the seconds |
| AnalyticsPage.HourFormIsWholeMinutes | client/src/pages/analytics.tsx:82-83 | the hour form denotes the duration in whole minutes |
| ScalabilityPage.FormatDuration | client/src/pages/scalability.tsx:43-52 | "Hh Mm" from an hour on, "Mm Ss" below, with the matching quotients of the milliseconds |
| ScalabilityPage.FormatDurationReadsBack | client/src/pages/scalability.tsx:43-52 | the hour form denotes the whole minutes, the short form the whole seconds |
| ScalabilityPage.PerformanceStatus | client/src/pages/scalability.tsx:54-64 | unknown iff data is missing; high iff some load exceeds 0.8; low iff none exceeds 0.6 |
| ScalabilityPage.StatusMonotone | client/src/pages/scalability.tsx:54-64 | more streams or higher CPU or memory never lowers the status |
| ScalabilityPage.StreamLoadGrows | client/src/pages/scalability.tsx:57 | a load above a threshold stays above it as streams are added |
| ScalabilityPage.StreamThresholds | client/src/pages/scalability.tsx:57-62 | with the limit 250, the stream load is high iff more than 200 streams and medium or more iff more than 150 |
| SettingsPage.UptimeString | client/src/pages/settings.tsx:66-79 | "0m" without uptime; "Dd Hh Mm" from a day, "Hh Mm" from an hour, "Mm" below, each field the right quotient |
| SettingsPage.UptimeBranches | client/src/pages/settings.tsx:72-77 | the day form is chosen iff a day has passed, the hour form iff an hour has |
| SettingsPage.UptimeReadsBack | client/src/pages/settings.tsx:66-79 | the text denotes the uptime in whole minutes |
| SettingsPage.Gauge | client/src/pages/settings.tsx:60-64 | at most 100; NaN iff the limit is unparsable, or both the limit and the usage are 0 |
| SettingsPage.StoragePercentage | client/src/pages/settings.tsx:60-64 | `min(used / (GB * 2^30) * 100, 100)` with the same NaN cases |
| SettingsPage.GaugeAgainstLimit | client/src/pages/settings.tsx:60-64 | for a positive limit, within 0..100; 100 iff full; above 90 iff 10 used > 9 limit; above 75 iff 4 used > 3 limit |
| SettingsPage.RatioAbove | client/src/pages/settings.tsx:63 | used / limit exceeds t iff used exceeds t times the limit |
| SettingsPage.Bar | client/src/pages/settings.tsx:391-394 | red iff above 90 (the "Nearly full" note), yellow iff above 75 up to 90, indigo otherwise, including NaN |
| SettingsPage.HandleSettingChange | client/src/pages/settings.tsx:110-115 | that key takes the new value; every other key is kept |
| SettingsPage.LaterChangeWins | client/src/pages/settings.tsx:110-115 | two changes to a key leave the later value |
| SettingsPage.ChangesCommute | client/src/pages/settings.tsx:110-115 | changes to different keys commute |
| SettingsPage.SameValueKeepsSettings | client/src/pages/settings.tsx:110-115 | setting a key to its own value changes nothing |
| Text.ReplaceFirstLength | server/routes.ts:50 | `replace` with a string pattern replaces exactly one occurrence when there is one, so the length changes by the difference of the two strings, and not at all otherwise |
| Text.ReplaceFirstPrefix | server/routes.ts:50 | `replace` with a string pattern at the start of the text replaces that occurrence only |
| Text.ReplaceFirstAbsent | server/routes.ts:50 | `replace` leaves a text without the pattern unchanged |
| Text.ReplaceFirstAfter | server/routes.ts:50 | text before the first occurrence is kept by `replace` |
| Text.ContainsIffOccurs | server/routes.ts:50 | the text contains the pattern iff it occurs at some index |
| Text.SplitJoin | client/src/pages/analytics.tsx:91 | joining the parts of `split` with the separator gives the text back |
| Text.BeforeFirst | server/routes.ts:389 | `split(sep)[0]`: the prefix before the first separator, the whole text iff there is none |
| Text.PadStart2 | client/src/pages/videos.tsx:99 | `padStart(2, '0')`: unchanged from two characters on, otherwise zeros in front up to two |
| Text.ToLowerAppend | client/src/pages/videos.tsx:75 | `toLowerCase` works character by character |
| Text.TrimEmptyIffAllWhitespace | client/src/components/folder-modal.tsx:68 | `trim()` is empty iff the text is all whitespace |
| Text.TrimIdempotent | client/src/components/folder-modal.tsx:78 | trimming twice is trimming once |
| Numbers.ParseIntOutcomes | server/routes.ts:121 | blank text and text starting with neither a digit nor a sign are NaN; decimal text starting with a digit reads as a non-negative number |
| Numbers.ParseIntOfDigits | server/routes.ts:121 | text made of decimal digits reads as their value, with or without an explicit radix |
| Numbers.ParseIntOfNegatedDigits | server/routes.ts:121 | a minus sign before decimal digits negates their value |
| Numbers.ParseIntOfIntToString | server/routes.ts:121 | `parseInt` reads back every printed integer |
| Numbers.JsRem | client/src/pages/settings.tsx:69 | `%` truncates: the Euclidean remainder for non-negative operands, its negation mirrored otherwise |
| Numbers.RoundedMean | server/routes.ts:471 | `Math.round(total / n)`: the integer nearest the mean, halves rounding up |
| Sorting.SortDesc | client/src/pages/analytics.tsx:107-108 | a permutation of the input |
| Sorting.SortDescSorted | client/src/pages/analytics.tsx:107-108 | the result is ordered by the key, largest first |
| Sorting.SortDescStable | client/src/pages/analytics.tsx:107-108 | stable: the elements of each key come out in their input order |
| Sorting.TopKIsTop | client/src/pages/analytics.tsx:106-110 | `sort(...).slice(0, k)` keeps min(k, n) elements of the input, largest first, and none left out is larger than one kept |
| Sorting.SortAsc | server/storage.ts:63 | a permutation of the input |
| Sorting.SortAscSorted | server/storage.ts:63 | the result is ordered by name |
| Sorting.SortAscStable | server/storage.ts:63 | stable: rows of equal name come out in their input order |
| Clock.MinutesSeconds | client/src/pages/dashboard.tsx:88-92 | "m:ss" for a non-negative duration reads back as minutes and seconds and as the duration |

## Left out

- File system, database and network I/O: the store is an in-memory model of the three tables, and the uploads directory is a map from file name to size. `fs.statSync` gives the file's size as an input.
- Express, express-session and multer plumbing. Sessions are modelled only as their `authenticated` flag; the session cookie, its secret and its 24-hour lifetime are not modelled.
- Rate limiting in server/rateLimit.ts is not part of this model.
- Clustering: the primary process forking one worker per CPU and restarting dead ones. Each worker has its own registry of live streams, and the model covers one worker.
- Timers. The 5 s, 1 s and 2 s delays before a stream record is removed are events; the time between them is not modelled.
- The clock (`Date.now()`), `Math.random()` in stream ids, and the OS probes in the stats route (`du`, `/proc/meminfo`, the CPU sample and their random fallbacks). These are parameters: cpu and memory usage are real-valued inputs, and uptime and disk usage are optional integers.
- Floating point. `formatBytes` and the percentage and size texts with `toFixed` are not modelled. Loads and the storage gauge are exact reals. JavaScript numbers beyond 2^53 are taken as exact integers.
- AnalyticsPage.FormatDuration: it takes integer seconds, while the page's average-duration card passes a fractional mean.
- SettingsPage.UptimeString: the uptime is taken as whole seconds, while `process.uptime()` is fractional.
- AnalyticsPage.RecentUploads: the cutoff of thirty days ago is a parameter; `setDate` and its daylight-saving effects are not modelled.
- AnalyticsPage.StorageByFolder: the order among folders of equal size is not stated. The sorts are stable (`Sorting.SortDescStable`), but the order of `Object.entries` going in is not: integer-like folder names come first, in numeric order. The same holds for the top-five lists with equal keys. The page displays the first five entries, and that slice is not modelled.
- AnalyticsPage.VideosByFormat: the order of `Object.entries` is not stated. In particular, integer-like format names would be listed first, in numeric order.
- Text.ToLower: only ASCII letters and U+0130 / U+212A are mapped; other non-ASCII characters are left unchanged.
- Text.ToUpper: only ASCII letters are mapped. JavaScript's `toUpperCase` maps all of Unicode, some characters to several ("ß" to "SS", "ſ" to "S"). This reaches `VideoCard.FileExtension` and the keys of `AnalyticsPage.VideosByFormat`.
- VideoCard.FileExtension: upper-cases ASCII letters only, so a MIME subtype with other letters ("video/ß") is not shown as JavaScript shows it.
- AnalyticsPage.AddTo and AnalyticsPage.StorageByFolder: the dictionary starts with no keys, while the source's `{}` inherits the members of `Object.prototype`. A folder named "constructor", "toString", "valueOf" or "hasOwnProperty" starts from that member, so `|| 0` does not apply and `+` yields a string. An assignment under "__proto__" stores nothing. Folders with those names are outside the model. `VideosByFormat` is not affected, since its keys are upper-cased.
- Server.Truncate: lengths are counted in characters, while `length` and `slice` count UTF-16 code units. A line with characters outside the Basic Multilingual Plane is cut later in the model than in JavaScript, and JavaScript's cut can split a surrogate pair. `Server.LogLine` inherits this.
- Storage.DatabaseStorage.GetAllFolders and Storage.DatabaseStorage.GetFoldersByParentId: names are ordered by code point, with equal names in insertion order. The database orders by its collation, and the order of equal names is unspecified.
- The `views` column is read and incremented by the store, but shared/schema.ts does not declare it. The model gives every video an optional view count.
- Routes.Session.Login: it compares two optional strings, as `===` does. When the `KEY` environment variable is unset, a request without `secretKey` logs in.
- React rendering, hooks, query caching, toasts, the clipboard, download links and the video player are not modelled.
- The upload progress bar is not modelled.
- The description field is sent by the upload dialog but ignored by the server.

## Findings

| source | as written | input that shows it | evidently intended | confidence | as-written member | corrected member |
|---|---|---|---|---|---|---|
| server/routes.ts:389 | the stream-analytics detail id is the stream id up to its first '-' | a stream of customId "my-video" is reported as "my" | the customId of the video being streamed, which the record holds | not executed | StreamTracker.DashedCustomIdTruncated | StreamTracker.CustomIdSnapshotNamesVideo |
| client/src/components/video-card.tsx:98 | `{video.duration && (...)}` renders the number 0 for a zero duration | a video whose duration is 0 shows a stray "0" on its card | no badge for a missing or zero duration; the app's own upload route stores a null duration (server/routes.ts:215), so only rows written by other means carry 0 | not executed | VideoCard.ZeroDurationShowsStrayText | VideoCard.BadgeAgreesExceptZero |
