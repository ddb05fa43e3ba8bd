# three-good-things — a Dafny model of the journal's utilities and data hooks

"Three Good Things" is a journaling web application. Each day a user writes
down three good things and one thing they are grateful for, tags entries with
`#hashtags`, follows other users, likes their entries and receives
notifications. This project models the application's logic in Dafny and
proves properties of the model:

- **Pure utilities** (`src/lib/utils`) become functions with lemmas. These are:
  - hashtag extraction and tag filtering;
  - JSON / CSV export, including CSV escaping;
  - e-mail, password and entry-form validation;
  - image and avatar file checks.
- **Data hooks** (`src/lib/hooks`) become classes:
  - `useFollows`, `useLikes`, `useSearch` and `useNotifications` are modelled.
  - The hosted database tables they query become `seq` fields of the class. The signed-in user is a field too.
  - The React state that each hook keeps (`loading`, `error`, search `results`) also becomes fields.
  - Every modelled hook function becomes a method. Its contract states the method's result and the class's new state, stated through specification functions over the tables.
  - Lemmas about those functions state what follow/unfollow, like/unlike and mark-as-read do to the counts and queries.

The backend's failures are inputs to the model:
- A `fault: Option<Fault>` parameter stands for a failed insert, delete, update or query. A `Fault` is either an `Error` with a message or a thrown non-`Error` value.
- A `fails` flag stands for a failed count or lookup.

Each method then states the error message that the hook shows in either case.

Shared modules:

| module | contents |
|---|---|
| `Wrappers` | `Option` |
| `Text` | JavaScript whitespace and `trim`, ASCII `toLowerCase`, `includes`, `join`, UTF-16 `length` |
| `Seqs` | filter, `new Set` de-duplication in first-occurrence order, `flatMap`, `new Map` |
| `Order` | UTF-16 code-unit string order and a stable sort |
| `Backend` | exact counts, `.single()`, `.range()`, the `catch` message rule and the toggle rule |
| `Types` | the records |

## Model

| member | source | states |
|---|---|---|
| Backend.MessageOf | src/lib/hooks/useFollows.ts:122 | an `Error` shows its own message, any other thrown value shows the hook's fallback text |
| Backend.Count | src/lib/hooks/useFollows.ts:47-53 | an exact count never exceeds the table size and is zero exactly when no row passes the filters |
| Backend.CountAppend | src/lib/hooks/useFollows.ts:112-117 | inserting a row raises a count by one exactly when the new row matches its filters |
| Backend.CountConcat | src/lib/hooks/useFollows.ts:47-53 | counts add up over two parts of a table |
| Backend.CountSplit | src/lib/hooks/useFollows.ts:142-146 | the count of a filter splits into the counts of two disjoint filters that cover it |
| Backend.SingleIffExists | src/lib/hooks/useFollows.ts:82-90 | with at most one matching row, `.single()` finds a row exactly when one matches |
| Backend.Single | src/lib/hooks/useFollows.ts:87-90 | `.single()` returns a row only when some row passes the filters |
| Backend.Range | src/lib/hooks/useNotifications.ts:29 | `.range(offset, offset+limit-1)` yields the rows at positions from `offset` on, none past the end; there are exactly `limit` of them when that many exist, as many as remain when fewer do, and none when `offset` is past the end |
| Backend.NewState | src/lib/hooks/useFollows.ts:165-171 | after a successful inverse mutation the reported state flips; after a failure it stays as the caller said |
| Text.TrimStart | src/lib/utils/validationUtils.ts:32 | the result is a suffix and everything dropped is whitespace, and it does not start with whitespace |
| Text.TrimEnd | src/lib/utils/validationUtils.ts:32 | the result is a prefix and everything dropped is whitespace, and it does not end with whitespace |
| Text.TrimEmptyIffAllWhitespace | src/lib/utils/validationUtils.ts:32 | `s.trim()` is empty exactly when every character of `s` is whitespace |
| Text.Trim | src/lib/utils/validationUtils.ts:32 | `s.trim()` neither starts nor ends with whitespace |
| Text.ToLower | src/lib/hooks/useSearch.ts:50-54 | lower-casing keeps the length and maps each character on its own |
| Text.ContainsIffOccurs | src/lib/hooks/useSearch.ts:52-54 | `includes` holds exactly when the needle occurs at some position |
| Text.Contains | src/lib/hooks/useSearch.ts:52-54 | a string includes the empty string, and never a longer one |
| Text.JoinSnoc | src/lib/utils/exportUtils.ts:29-32 | joining one more string appends the separator and that string |
| Text.Join | src/lib/utils/exportUtils.ts:29-32 | joining no strings gives the empty string; otherwise the result starts with the first string |
| Text.Utf16Length | src/lib/utils/validationUtils.ts:16 | JavaScript's `length` is between the number of code points and twice it |
| Seqs.Filter | src/lib/utils/tagUtils.ts:33-35 | `filter` keeps exactly the elements that pass, and no more of them |
| Seqs.FilterAppend | src/lib/utils/tagUtils.ts:33-35 | filtering distributes over concatenation |
| Seqs.FilterMultiplicity | src/lib/hooks/useSearch.ts:51 | `filter` keeps each kept element as often as the input holds it, and drops the rest entirely |
| Seqs.Dedup | src/lib/utils/tagUtils.ts:9 | `Array.from(new Set(xs))` has no duplicates and the same elements as `xs` |
| Seqs.DedupFirstOccurrenceOrder | src/lib/utils/tagUtils.ts:9 | a `Set` keeps its elements in the order they first occur |
| Seqs.Flatten | src/lib/utils/tagUtils.ts:16 | `flatMap` holds exactly the elements of the parts |
| Seqs.NoDuplicatesPermutation | src/lib/utils/tagUtils.ts:25 | re-ordering a duplicate-free list leaves it duplicate-free |
| Seqs.IndexBy | src/lib/hooks/useNotifications.ts:47-48 | `new Map(rows.map(r => [r.id, r]))` holds exactly the ids of the rows, each mapped to a row carrying that id |
| Order.StrLeTotal | src/lib/utils/tagUtils.ts:25 | the default sort order on strings is total |
| Order.StrLeTrans | src/lib/utils/tagUtils.ts:25 | the default sort order on strings is transitive |
| Order.StrLe | src/lib/utils/tagUtils.ts:25 | a prefix sorts no later than the string it begins |
| Order.SortBy | src/lib/hooks/useSearch.ts:27 | a sort returns a permutation of its input, ordered by the key in the requested direction |
| Order.FilterKeepsSorted | src/lib/hooks/useSearch.ts:49-56 | filtering an ordered list keeps it ordered |
| TagUtils.TagEnd | src/lib/utils/tagUtils.ts:7 | the run of tag characters from a position ends at the first non-tag character or the end of the text |
| TagUtils.MatchAtIsMaximalTag | src/lib/utils/tagUtils.ts:7 | every match of the hashtag pattern is a `#` with a maximal run of word or Japanese characters |
| TagUtils.MatchesFromComplete | src/lib/utils/tagUtils.ts:7-8 | the global match finds every match that starts at or after the scan position |
| TagUtils.MatchesFrom | src/lib/utils/tagUtils.ts:7-8 | every match the scan reports is a hashtag match starting at or after the scan position |
| TagUtils.RegexMatches | src/lib/utils/tagUtils.ts:7-8 | `text.match` with the global hashtag pattern reports exactly the strings that match at some position |
| TagUtils.ExtractTags | src/lib/utils/tagUtils.ts:6-10 | the tags are duplicate-free, and a string is a tag exactly when the pattern matches it somewhere in the text; each is a maximal `#` run |
| TagUtils.ExtractTagsFirstOccurrenceOrder | src/lib/utils/tagUtils.ts:8-9 | tags come out in the order they first appear in the text |
| TagUtils.NoTagStartNoTags | src/lib/utils/tagUtils.ts:8-9 | no tags exactly when no `#` is followed by a tag character |
| TagUtils.ExtractTagsFromTexts | src/lib/utils/tagUtils.ts:15-18 | the tags of several texts are duplicate-free and are exactly the tags of some text |
| TagUtils.ExtractTagsFromTextsReorder | src/lib/utils/tagUtils.ts:15-18 | the set of tags does not depend on the order of the texts |
| TagUtils.GetUniqueTags | src/lib/utils/tagUtils.ts:23-26 | the tags of all entries are duplicate-free, sorted in code-unit order and exactly the tags some entry carries |
| TagUtils.FilterByTags | src/lib/utils/tagUtils.ts:31-36 | an empty tag list keeps all entries; otherwise an entry is kept exactly when it carries one of the tags |
| TagUtils.EmptyTagListSharesNothing | src/lib/utils/tagUtils.ts:32-34 | the early return for an empty list is needed: `some` over no tags is false |
| TagUtils.FilterByTagsAppend | src/lib/utils/tagUtils.ts:33-35 | filtering by tags distributes over concatenation and keeps the order |
| TagUtils.FilterByTagsSingle | src/lib/utils/tagUtils.ts:31-36 | a single entry is kept exactly when the tag list is empty or it shares a tag |
| ExportUtils.ToJsonRecord | src/lib/utils/exportUtils.ts:7-11 | an entry exports its date, its three things in order and its tags |
| ExportUtils.JsonProjection | src/lib/utils/exportUtils.ts:6-13 | one record per entry, in order |
| ExportUtils.DoubleQuotes | src/lib/utils/exportUtils.ts:42 | doubling quotes never shortens a field and leaves a quote-free field unchanged |
| ExportUtils.EscapeCsvUnchanged | src/lib/utils/exportUtils.ts:40-45 | a field is left unchanged exactly when it has no comma, quote or newline |
| ExportUtils.EscapeCsvReadsBack | src/lib/utils/exportUtils.ts:40-45 | an escaped field reads back as the original text, followed by the rest of the line |
| ExportUtils.ReadQuotedDoubled | src/lib/utils/exportUtils.ts:42 | a quoted field with doubled quotes reads back as the original text |
| ExportUtils.ReadQuotedKeeps | src/lib/utils/exportUtils.ts:42 | reading a quoted field keeps a leading character that is not a quote |
| ExportUtils.ReadBarePlain | src/lib/utils/exportUtils.ts:44 | a field needing no quotes reads back as itself |
| ExportUtils.EscapedRecordReadsBack | src/lib/utils/exportUtils.ts:31 | a comma-joined row of escaped fields parses back into the fields |
| ExportUtils.CsvRows | src/lib/utils/exportUtils.ts:20-26 | one row per entry, in order |
| ExportUtils.ConvertToCsv | src/lib/utils/exportUtils.ts:29-34 | the export starts with the byte-order mark and the header line |
| ExportUtils.HeaderReadsBack | src/lib/utils/exportUtils.ts:19 | the header line parses into the five column names |
| ExportUtils.ConvertToCsvEmpty | src/lib/utils/exportUtils.ts:29-34 | with no entries the export is the byte-order mark and the header line alone |
| ExportUtils.ConvertToCsvAppend | src/lib/utils/exportUtils.ts:20-34 | one more entry appends a newline and its row |
| ExportUtils.CsvRowReadsBackAsJsonRecord | src/lib/utils/exportUtils.ts:7-11 | a CSV row parses back into the entry's JSON record: its date, its three things and its tags as columns |
| ExportUtils.JsonRecordColumns | src/lib/utils/exportUtils.ts:7-11 | an entry's CSV columns are its JSON record's date, things and tag columns, in that order |
| ExportUtils.JoinSplit | src/lib/utils/exportUtils.ts:31 | a comma-join splits at any element boundary |
| ValidationUtils.IndexOf | src/lib/utils/validationUtils.ts:7 | the first position of a character, or the length when it does not occur |
| ValidationUtils.ValidateEmailIffMatch | src/lib/utils/validationUtils.ts:6-9 | an address is accepted exactly when the regular expression matches it: one or more non-space, non-`@` characters, `@`, more of them, a `.` and more of them |
| ValidationUtils.ValidateEmail | src/lib/utils/validationUtils.ts:6-9 | an accepted address has at least five characters and starts and ends with a character other than whitespace and `@` |
| ValidationUtils.ValidEmailShape | src/lib/utils/validationUtils.ts:7 | an accepted address has exactly one `@` and no whitespace |
| ValidationUtils.ValidatePassword | src/lib/utils/validationUtils.ts:15-20 | a password is valid exactly when its JavaScript length is at least 8; an invalid one carries the message, a valid one none |
| ValidationUtils.EightCharactersSuffice | src/lib/utils/validationUtils.ts:16 | eight characters always pass |
| ValidationUtils.IsBlank | src/lib/utils/validationUtils.ts:32 | `!s \|\| s.trim().length === 0` holds exactly when `s` is all whitespace |
| ValidationUtils.ValidateEntry | src/lib/utils/validationUtils.ts:25-52 | the errors record has the date key exactly when the date is empty and each text key exactly when that text is blank, each with its message; valid exactly when the record is empty |
| ImageUtils.ValidateImage | src/lib/utils/imageUtils.ts:9-25 | valid exactly when the type is JPEG, PNG, GIF or WebP and the size is at most 5 MB; a bad type reports the format message, a big allowed file the size message |
| ImageUtils.SizeBoundary | src/lib/utils/imageUtils.ts:3 | 5242880 bytes pass and 5242881 bytes report the size message |
| ImageUtils.TypeCheckFirst | src/lib/utils/imageUtils.ts:10-15 | a bad type is reported whatever the size |
| AvatarUtils.ValidateAvatar | src/lib/utils/avatarUtils.ts:9-25 | the same checks with a 2 MB limit and its own size message |
| AvatarUtils.SizeBoundary | src/lib/utils/avatarUtils.ts:3 | 2097152 bytes pass and 2097153 bytes report the size message |
| AvatarUtils.AvatarAcceptedImpliesImageAccepted | src/lib/utils/avatarUtils.ts:3-4 | every accepted avatar is an accepted image, the type checks agree, and a 3 MB PNG passes as an image but not as an avatar |
| UseFollows.Unfollowed | src/lib/hooks/useFollows.ts:142-146 | the delete removes exactly the rows for this follower and target and keeps every other row |
| UseFollows.UnfollowedIsFilter | src/lib/hooks/useFollows.ts:142-146 | the delete is the filter `not (follower and target)`, so the rows stay in order |
| UseFollows.FollowCounts | src/lib/hooks/useFollows.ts:45-74 | a follow raises the target's follower count and the follower's following count by one, and no other count |
| UseFollows.UnfollowCounts | src/lib/hooks/useFollows.ts:45-74 | an unfollow lowers those two counts by the removed rows, and no other count |
| UseFollows.FollowThenUnfollowRestores | src/lib/hooks/useFollows.ts:112-117 | a follow that is not yet present, undone by an unfollow, gives back the original table |
| UseFollows.FollowStateQueries | src/lib/hooks/useFollows.ts:77-95 | after a new follow `checkIsFollowing` is true; after an unfollow it is false |
| UseFollows.FollowerCount | src/lib/hooks/useFollows.ts:45-58 | the number of rows naming the user as the followed one is at most the table size and is zero exactly when no row names them |
| UseFollows.FollowingCount | src/lib/hooks/useFollows.ts:61-74 | the number of rows naming the user as the follower is at most the table size and is zero exactly when no row names them |
| UseFollows.IsFollowing | src/lib/hooks/useFollows.ts:82-90 | a user is reported as following a target only when that follow row is in the table |
| UseFollows.FollowScenario | src/lib/hooks/useFollows.ts:98-158 | a user with no followers has one after being followed and none after the unfollow |
| UseFollows.FollowsHook.constructor | src/lib/hooks/useFollows.ts:7-10 | the hook starts not loading and without an error |
| UseFollows.FollowsHook.FetchFollowerCount | src/lib/hooks/useFollows.ts:45-58 | the number of rows naming the user as the followed one, or 0 when the query fails |
| UseFollows.FollowsHook.FetchFollowingCount | src/lib/hooks/useFollows.ts:61-74 | the number of rows naming the user as the follower, or 0 when the query fails |
| UseFollows.FollowsHook.CheckIsFollowing | src/lib/hooks/useFollows.ts:77-95 | true exactly when someone is signed in, the query succeeds and exactly one row links them to the target |
| UseFollows.FollowsHook.FollowUser | src/lib/hooks/useFollows.ts:98-129 | succeeds exactly when signed in, not following oneself, and the insert succeeds; the row is then appended, otherwise the table is unchanged; each failure sets its own message, and loading ends |
| UseFollows.FollowsHook.UnfollowUser | src/lib/hooks/useFollows.ts:132-158 | succeeds exactly when signed in and the delete succeeds, which then removes the follow rows; each failure sets its message, and loading ends |
| UseFollows.FollowsHook.ToggleFollow | src/lib/hooks/useFollows.ts:161-172 | calls the inverse of the current state: it succeeds exactly when someone is signed in, there is no fault and it is not a follow of oneself, and otherwise leaves that call's message; on success the table has the follow exactly when the new state says so |
| UseLikes.Unliked | src/lib/hooks/useLikes.ts:90-94 | the delete removes exactly this user's likes of this entry and keeps every other row |
| UseLikes.UnlikedIsFilter | src/lib/hooks/useLikes.ts:90-94 | the delete is an order-preserving filter |
| UseLikes.LikeCounts | src/lib/hooks/useLikes.ts:13-26 | a like raises that entry's like count by one and no other entry's |
| UseLikes.UnlikeCounts | src/lib/hooks/useLikes.ts:13-26 | an unlike lowers that entry's like count by the removed rows and no other entry's |
| UseLikes.LikeCount | src/lib/hooks/useLikes.ts:13-26 | an entry's like count is at most the table size and is zero exactly when no row names the entry |
| UseLikes.HasLiked | src/lib/hooks/useLikes.ts:34-42 | a user is reported as having liked an entry only when that like row is in the table |
| UseLikes.LikeThenUnlikeRestores | src/lib/hooks/useLikes.ts:60-65 | a like that is not yet present, undone by an unlike, gives back the original table |
| UseLikes.LikeStateQueries | src/lib/hooks/useLikes.ts:29-47 | after a new like `checkUserLiked` is true; after an unlike it is false |
| UseLikes.LikesHook.constructor | src/lib/hooks/useLikes.ts:7-10 | the hook starts not loading and without an error |
| UseLikes.LikesHook.FetchLikeCount | src/lib/hooks/useLikes.ts:13-26 | the number of likes of the entry, or 0 when the query fails |
| UseLikes.LikesHook.CheckUserLiked | src/lib/hooks/useLikes.ts:29-47 | true exactly when signed in, the query succeeds and exactly one like by the user on the entry exists |
| UseLikes.LikesHook.LikeEntry | src/lib/hooks/useLikes.ts:50-77 | succeeds exactly when signed in and the insert succeeds, which appends the like; failures set their messages, and loading ends |
| UseLikes.LikesHook.UnlikeEntry | src/lib/hooks/useLikes.ts:80-106 | succeeds exactly when signed in and the delete succeeds, which removes the likes; failures set their messages, and loading ends |
| UseLikes.LikesHook.ToggleLike | src/lib/hooks/useLikes.ts:109-123 | calls the inverse of the current state: it succeeds exactly when someone is signed in and there is no fault, and otherwise leaves that call's message; then it re-counts, and the new count is the entry's number of likes in the new table, or 0 when counting fails |
| UseSearch.QueryRows | src/lib/hooks/useSearch.ts:23-44 | the database query returns exactly the user's entries within the date bounds and sharing a filter tag, each as often as in the table, newest date first |
| UseSearch.MatchesQuery | src/lib/hooks/useSearch.ts:26-40 | only the user's own entries match, and with no date bounds and no tags every one of them does |
| UseSearch.TextMatches | src/lib/hooks/useSearch.ts:51-55 | an empty search term matches every entry |
| UseSearch.FiltersText | src/lib/hooks/useSearch.ts:49 | the text filter applies exactly when a query is given and is not all whitespace |
| UseSearch.LowerKeepsBlank | src/lib/hooks/useSearch.ts:49-50 | lower-casing a query does not change whether the text filter applies |
| UseSearch.TextFilter | src/lib/hooks/useSearch.ts:49-56 | a missing or blank query keeps every row; otherwise a row stays exactly when one of its three things contains the lower-cased query, and a date-sorted input stays sorted |
| UseSearch.TextFilterIsFilter | src/lib/hooks/useSearch.ts:49-56 | when the text filter runs it is `filter` over the rows, so the kept rows stay in their order and each appears as often as in the input |
| UseSearch.BlankQueryKeepsAll | src/lib/hooks/useSearch.ts:49 | a whitespace-only query filters nothing |
| UseSearch.QueryCaseInsensitive | src/lib/hooks/useSearch.ts:50 | a query and its lower-cased form find the same entries |
| UseSearch.SearchResultsExact | src/lib/hooks/useSearch.ts:23-59 | an entry is a search result exactly when it is the user's, passes every filter and matches the text, and the results are newest first |
| UseSearch.SearchResultsMultiplicity | src/lib/hooks/useSearch.ts:23-56 | every entry that passes all the filters is returned as often as the table holds it, and no other entry is returned |
| UseSearch.SearchHook.constructor | src/lib/hooks/useSearch.ts:7-11 | the hook starts with no results, not loading and without an error |
| UseSearch.SearchHook.SearchEntries | src/lib/hooks/useSearch.ts:13-67 | when signed in and the query succeeds, the text-filtered rows are returned and stored as results; otherwise `[]` is returned, the results are kept and the message is set; loading ends |
| UseNotifications.Feed | src/lib/hooks/useNotifications.ts:24-28 | exactly the user's notifications, each as often as in the table, newest first |
| UseNotifications.Page | src/lib/hooks/useNotifications.ts:24-29 | the feed's notifications from position `offset` on: exactly `limit` when that many remain, all that remain when fewer do, none when `offset` is past the end; all the user's and newest first |
| UseNotifications.UnreadCount | src/lib/hooks/useNotifications.ts:74-81 | the number of the user's unread notifications is at most the table size and is zero exactly when none is unread |
| UseNotifications.ActorIds | src/lib/hooks/useNotifications.ts:35 | the distinct actor ids of the page |
| UseNotifications.EntryIds | src/lib/hooks/useNotifications.ts:36 | the distinct non-empty entry ids of the page |
| UseNotifications.LookupProfiles | src/lib/hooks/useNotifications.ts:40 | the profiles whose id is among the requested ids, or none when the lookup fails |
| UseNotifications.LookupEntries | src/lib/hooks/useNotifications.ts:41-43 | the entries whose id is requested; no query and no rows for an empty id list or a failed lookup |
| UseNotifications.Join | src/lib/hooks/useNotifications.ts:51-55 | each notification in order with its actor's profile and, when it names an entry, that entry, when the maps hold them |
| UseNotifications.Fetched | src/lib/hooks/useNotifications.ts:24-57 | one result per notification of the page, in order, and every attached profile or entry has the notification's id |
| UseNotifications.FetchedActors | src/lib/hooks/useNotifications.ts:39-53 | with unique profile ids and a successful lookup, each notification carries exactly its actor's profile when one exists |
| UseNotifications.FetchedEntries | src/lib/hooks/useNotifications.ts:41-54 | with unique entry ids and a successful lookup, each notification that names an entry carries it when it exists |
| UseNotifications.MarkRead | src/lib/hooks/useNotifications.ts:99-103 | marks read exactly the rows with this id addressed to the user and changes nothing else |
| UseNotifications.MarkAllRead | src/lib/hooks/useNotifications.ts:128-132 | marks read every unread row addressed to the user and changes nothing else |
| UseNotifications.MarkReadScoped | src/lib/hooks/useNotifications.ts:99-103 | marking one notification never touches another user's unread count and never raises the user's |
| UseNotifications.MarkReadIdempotent | src/lib/hooks/useNotifications.ts:99-103 | marking the same notification twice is the same as once |
| UseNotifications.MarkAllReadClears | src/lib/hooks/useNotifications.ts:128-132 | afterwards the user's unread count is zero |
| UseNotifications.MarkAllReadScoped | src/lib/hooks/useNotifications.ts:128-132 | other users' unread counts do not change |
| UseNotifications.NotificationsHook.constructor | src/lib/hooks/useNotifications.ts:7-10 | the hook starts not loading and without an error |
| UseNotifications.NotificationsHook.FetchNotifications | src/lib/hooks/useNotifications.ts:13-66 | when signed in and the query succeeds, returns the joined page; otherwise `[]` and the message; the tables are unchanged and loading ends |
| UseNotifications.NotificationsHook.FetchUnreadCount | src/lib/hooks/useNotifications.ts:69-86 | the user's unread notifications, or 0 when signed out or the query fails |
| UseNotifications.NotificationsHook.MarkAsRead | src/lib/hooks/useNotifications.ts:89-115 | succeeds exactly when signed in and the update succeeds, which then marks the one notification; failures set their messages, and loading ends |
| UseNotifications.NotificationsHook.MarkAllAsRead | src/lib/hooks/useNotifications.ts:118-144 | succeeds exactly when signed in and the update succeeds, after which the user's unread count is zero; failures set their messages, and loading ends |

## Left out

- `fetchFollowers` and `fetchFollowing` (`useFollows`): they return the joined profile rows of a foreign-key embed, and the model has no profile join for follows.
- `resizeImage`, `uploadImage`, `deleteImage` and `getThumbnailUrl`; `resizeAvatar`, `uploadAvatar` and `deleteAvatar`: canvas drawing and storage calls are browser and network I/O.
- `downloadFile`: browser I/O.
- `convertToJSON` is modelled up to its records. `JSON.stringify` with two-space indentation is serialisation, so it is not modelled.
- `dateUtils`, the `.tsx` pages and components, and the `useEntries`, `useUsers` and `useProfile` hooks are not part of this model.
- `Promise.all` in `fetchNotifications` is modelled as two independent lookups. Concurrency is not modelled.
- The hooks' intermediate states are not modelled; only the final state after `finally` is. Those states are `loading` set to true and `error` reset to null at the start of a call.
- `auth.getUser()` is modelled by the `currentUser` field. A failing auth call reads as "not signed in".
- `ToLower`: only ASCII letters are lower-cased. JavaScript's full Unicode case mapping is not modelled.
- Date and timestamp filters and orders compare strings in UTF-16 code-unit order. This matches ISO dates and timestamps, but not Postgres collation of arbitrary text.
- `Order.SortBy` is stable. The database's order among rows with the same sort key is unspecified.
- Inserted rows hold only the two ids. The `id` and `created_at` that the database generates for a follow or like row are not modelled.
- Uniqueness constraints and row-level security are not modelled. Any rejection of an insert, delete or update is the `fault` parameter.
- A `null` count from the backend and a thrown count query are both the `fails` flag.
- `limit` and `offset` are `nat`, so negative values are not modelled. Their defaults, 20 and 0, are kept as default parameters of `FetchNotifications`.
- The `console.error` logging in every `catch` block is not modelled. It writes output only and changes no state or result.
- `ValidateEntry`: the errors record is a map keyed by the `Field` enumeration. `Field.Key` names the record's property for each field. The insertion order of the object's keys is not modelled.
- `ConvertToCsv`: it states the header rather than the whole text. The whole text is given by `ConvertToCsvEmpty` and `ConvertToCsvAppend`.
- `CsvRowReadsBackAsJsonRecord`: it requires that the date and the tags need no quoting, because the source does not escape those columns. A tag containing a comma therefore does not read back.
