# Video catalog: a Dafny model

The application is a small video catalog. A React front end lists entries twelve per page. Visitors can search by title or filter by one tag, sign in, and (as admins) add entries. Three serverless Python handlers sit behind it: the catalog endpoint, the account endpoint and a seeding endpoint.

This project models the sequential logic underneath the HTTP and UI glue and proves what it promises:

- `Pagination` models the page bar: its row of page buttons and "..." gaps, and when Prev and Next are disabled.
- `VideoTable` models the `videos` table as a class holding a sequence of rows and an id counter. It also models the queries the handlers send: listing order, `COALESCE(MAX(position), 0)`, INSERT and DELETE.
- `VideosHandler` models the catalog endpoint:
  - GET filters, orders and pages the entries.
  - POST adds an entry, behind the admin header.
  - DELETE removes an entry by id, behind the admin header.
  - OPTIONS answers 200; any other method gets 405.
- `AuthHandler` models the account endpoint over a `users` table keyed by username. It covers validation, the action dispatch, and register, login and verify.
- `SeedHandler` models the seeding endpoint and its twelve fixed entries.
- `AuthClient` models the browser's session store in `localStorage` and the login and register requests.
- `VideosClient` models the catalog requests the browser builds: the query string, the `X-Is-Admin` header, the add body and the delete id.
- `IndexPage` models the catalog page as a class of state cells and the handlers that update them.
- `AdminPanel` and `LoginDialog` model the two forms' submit handlers. Each is split at its `await` into a `BeginSubmit` and a `FinishSubmit` that emits the toasts and callbacks in order.
- Shared modules:
  - `Text`: stripping, splitting, ASCII lower-casing, and decimal printing and parsing.
  - `Wire`: the user and entry records.
  - `Wrappers`: `Option` and `Lookup`.

Three things that the code cannot compute are parameters of the model:
- the SHA-256 password hash (`hash`);
- the random session token (`token`);
- PostgreSQL's `ILIKE` (`ilike`).

An exception that escapes a Python handler is modelled as the response `Fault`. For the catalog listing, the page's reload then fails (`IndexPage.FetchOf`; see "## Left out" for the assumption this rests on).

The database schema is not part of this model. The `id` column of `videos` is taken to be a `SERIAL`, that is a 32-bit `integer`. LIMIT and OFFSET are `bigint`, as PostgreSQL defines them.

Two facts about the code that shape the page bar:
- A search with no matches gets `total_pages` 0. The bar is then hidden, because 0 is at most 1.
- Neither the handler's `page` parameter nor the page's `currentPage` is ever clamped to the page count. `Pagination.NextEnabledPastTheEnd` shows a Next button still enabled past the last page.

## Model

| member | source | states |
|---|---|---|
| Text.Strip | backend/videos/index.py:37-38 | `strip()`: the result has no whitespace at either end, and it is empty exactly when the input is all whitespace |
| Text.StripIsInfix | backend/videos/index.py:95-100 | stripping only removes whitespace: the result sits inside the input with nothing but whitespace before and after it |
| Text.StripOfStripped | backend/auth/index.py:38-39 | text without whitespace at either end is left unchanged by stripping |
| Text.StripNonEmpty | backend/auth/index.py:41 | text starting with a non-space character does not strip to nothing |
| Text.Split | src/components/AdminPanel.tsx:49 | `split(',')` always yields at least one piece |
| Text.SplitPiecesLackSep | src/components/AdminPanel.tsx:49 | no piece of a split holds the separator |
| Text.JoinSplit | src/components/AdminPanel.tsx:49 | joining the pieces with the separator gives back the original text |
| Text.LowerAscii | backend/videos/index.py:83 | lower-casing keeps the length |
| Text.LowerIsTrue | backend/videos/index.py:83 | `lower() == 'true'` holds exactly for the sixteen letter-case spellings of "true" |
| Text.DigitChar | src/lib/videos.ts:24 | a digit value below 10 prints as a decimal digit |
| Text.NatDigits | src/lib/videos.ts:24 | a natural number prints as at least one digit with no leading zero |
| Text.DigitsValueOfNatDigits | backend/videos/index.py:33 | reading the printed digits of n gives n |
| Text.ParseInt | backend/videos/index.py:33 | `int()` fails on text that strips to nothing |
| Text.IntToStringUnstripped | src/lib/videos.ts:24 | a printed integer has no whitespace to strip |
| Text.ParseSignedIntToString | backend/videos/index.py:33 | a printed integer reads back as itself |
| Text.ParseIntToString | backend/videos/index.py:33 | `int(str(n)) == n`: what the client prints, the server reads back |
| Pagination.RenderPageButtons | src/components/Pagination.tsx:16-82 | the push-by-push construction yields exactly the row `Window` describes |
| Pagination.PushPages | src/components/Pagination.tsx:21-32 | each `for` loop appends one button per page from `lo` to `hi`, in order |
| Pagination.Render | src/components/Pagination.tsx:14-108 | nothing is rendered iff there is at most one page; Prev is disabled iff the current page is 1; Next iff it equals the page count |
| Pagination.WindowPagesOrdered | src/components/Pagination.tsx:49-63 | every button's page lies in 1..totalPages, and pages strictly increase along the row |
| Pagination.SmallWindowListsAllPages | src/components/Pagination.tsx:20-32 | up to seven pages, the row is exactly the buttons 1..totalPages |
| Pagination.LargeWindowShape | src/components/Pagination.tsx:34-78 | above seven pages: 1 first; totalPages last; leading gap iff current > 3; trailing gap iff current < totalPages - 2; at most 5 buttons and 2 gaps |
| Pagination.LargeWindowLayout | src/components/Pagination.tsx:45-78 | above seven pages: where each button and gap sits in the row |
| Pagination.WindowShowsCurrentOnce | src/components/Pagination.tsx:45-78 | an in-range current page has exactly one button |
| Pagination.WindowGapsMarkMissingPages | src/components/Pagination.tsx:45-78 | adjacent buttons are consecutive pages, and every gap sits between two buttons and hides at least one page |
| Pagination.LargeNeighboursConsecutive | src/components/Pagination.tsx:49-63 | above seven pages, adjacent buttons are consecutive pages |
| Pagination.LargeGapsHidePages | src/components/Pagination.tsx:45-67 | above seven pages, each gap stands for at least one missing page |
| Pagination.WindowRepresentsAllPages | src/components/Pagination.tsx:45-78 | every page 1..totalPages has a button or lies inside a gap |
| Pagination.ClickStaysInRange | src/components/Pagination.tsx:86-108 | from an in-range page, every enabled click asks for a page in 1..totalPages |
| Pagination.ClickStaysPositive | src/components/Pagination.tsx:86-108 | from a page of at least 1, every enabled click asks for a page of at least 1 |
| Pagination.NextEnabledPastTheEnd | src/components/Pagination.tsx:100-105 | for every current page past a page count above 1, Next is enabled and asks for a page further out |
| VideoTable.InsertInOrder | backend/videos/index.py:61 | inserting into a listing-ordered sequence keeps it ordered and adds exactly that row |
| VideoTable.Ordered | backend/videos/index.py:61 | `ORDER BY position DESC, created_at DESC`: ordered, and a permutation of the rows |
| VideoTable.HighestPositionListsFirst | backend/videos/index.py:61 | a row whose position beats all others is listed first |
| VideoTable.MaxPosition | backend/videos/index.py:111-112 | `COALESCE(MAX(position), 0)`: 0 for no rows, else the largest position present |
| VideoTable.WithoutId | backend/videos/index.py:155 | `DELETE ... WHERE id`: rows with that id are gone; every other row keeps its multiplicity |
| VideoTable.Table.Count | backend/seed-data/index.py:38-39 | `COUNT(*)` is the number of rows |
| VideoTable.Table.Insert | backend/videos/index.py:114-119 | appends one row with a fresh id taken from the sequence |
| VideoTable.WithoutIdTwice | backend/videos/index.py:155 | deleting an id a second time removes nothing more |
| VideoTable.Table.DeleteWhereId | backend/videos/index.py:155-156 | the rows become `WithoutId` of the old rows; the sequence is untouched |
| VideosHandler.Select | backend/videos/index.py:40-57 | each row is kept, with its multiplicity, exactly when it matches both filters; an empty filter imposes nothing |
| VideosHandler.MatchingIsSelect | backend/videos/index.py:51-57 | a WHERE clause that agrees with the filters row by row selects exactly the matching rows |
| VideosHandler.WhereClauses | backend/videos/index.py:40-51 | the assembled clauses (at most two, joined by AND, TRUE when none) hold exactly for the rows the filters select |
| VideosHandler.PageSlice | backend/videos/index.py:59-64 | `LIMIT/OFFSET`: at most `limit` rows, each the row at `offset + k`, and a full page when enough rows remain |
| VideosHandler.QueryPage | backend/videos/index.py:53-77 | the two queries produce the listing body for that page |
| VideosHandler.List | backend/videos/index.py:31-79 | the GET branch answers as `ListResponse`: a fault for a page that does not parse, is below 1, or whose OFFSET `(page - 1) * 12` exceeds a `bigint`; else 200 with the listing |
| VideosHandler.NoFilterKeepsAll | backend/videos/index.py:43-51 | with no search text and no tag, every row is listed |
| VideosHandler.ListingContents | backend/videos/index.py:53-64 | a page holds at most 12 matching rows of the table in listing order; `total` counts all matches whatever the page |
| VideosHandler.PageCountIsCeiling | backend/videos/index.py:77 | `total_pages` is the ceiling of total / 12, and 0 exactly when nothing matches |
| VideosHandler.PageOfEntry | backend/videos/index.py:33-35 | entry k lies on page k / 12 + 1, which is within `total_pages` |
| VideosHandler.SliceHoldsEntry | backend/videos/index.py:35 | entry k is entry k % 12 of the slice at offset (k / 12) * 12 |
| VideosHandler.EveryMatchOnItsPage | backend/videos/index.py:33-77 | every match, in listing order, appears on its page, and that page is within `total_pages` |
| VideosHandler.MissingRequiredMeans | backend/videos/index.py:95-102 | a required field is missing exactly when its key is absent or its text is all whitespace |
| VideosHandler.NewRowListsFirst | backend/videos/index.py:111-119 | the new row's position beats every existing one (1 on an empty table), so it lists first |
| VideosHandler.Add | backend/videos/index.py:81-128 | the response and the new table are `AddOutcome`: no admin header: 403, table unchanged; a blank required field: 400, table unchanged; else 200 with the next id and one row appended with stripped texts and the next position |
| VideosHandler.Delete | backend/videos/index.py:130-165 | the response and the new table are `DeleteOutcome`: no admin header: 403; no id: 400; an id that is not a numeral or lies outside the 32-bit id column: fault, table unchanged; else 200 and exactly the rows with that id removed |
| VideosHandler.OnlyAdminsWrite | backend/videos/index.py:82-92 | without the admin header, POST and DELETE both answer 403 and leave the table as it was |
| VideosHandler.UnfilteredFirstPage | backend/videos/index.py:31-38 | a GET without parameters asks for page 1 with no filters and is answered with that listing |
| VideosHandler.UnfilteredFirstEntry | backend/videos/index.py:53-64 | page 1 of an unfiltered listing starts with the first row in listing order, and `total` counts every row |
| VideosHandler.AddedEntryListsFirst | backend/videos/index.py:94-128 | an admin's POST changes the table iff every required field is filled; the new entry then heads the unfiltered first page and the total grows by one |
| VideosHandler.DeletedEntryGone | backend/videos/index.py:143-165 | an admin's DELETE of an id the column can hold answers 200, keeps exactly the rows with another id, and a repeat changes nothing |
| VideosHandler.Handle | backend/videos/index.py:13-174 | the method (default GET) picks the branch: OPTIONS: 200; GET: `ListResponse`; POST: `AddOutcome`; DELETE: `DeleteOutcome`; any other method: 405; only POST and DELETE change the table |
| SeedHandler.Unsplash | backend/seed-data/index.py:50-99 | every photo URL is visible text |
| SeedHandler.ExampleUrl | backend/seed-data/index.py:50-99 | every demo link is visible text |
| SeedHandler.SampleVideos | backend/seed-data/index.py:50-99 | there are twelve sample entries |
| SeedHandler.InsertSamples | backend/seed-data/index.py:101-107 | the loop appends one row per sample, in order, with consecutive ids |
| SeedHandler.Handle | backend/seed-data/index.py:13-115 | the handler's response and the table after it are as `Outcome` describes |
| SeedHandler.SeedMessageSaysTwelve | backend/seed-data/index.py:114 | the message is "Added 12 sample videos" |
| SeedHandler.OnlyEmptyPostSeeds | backend/seed-data/index.py:13-48 | the table changes iff the method is POST (the default) and the table is empty |
| SeedHandler.SeedTwiceIsSeedOnce | backend/seed-data/index.py:38-48 | seeding is idempotent: a second call at any time changes nothing more |
| SeedHandler.SamplePosition | backend/seed-data/index.py:50-99 | sample k sits at position k + 1 |
| SeedHandler.SampleTitleVisible | backend/seed-data/index.py:50-99 | no sample title is blank |
| SeedHandler.FirstTitlesVisible | backend/seed-data/index.py:51-74 | the first six titles are not blank |
| SeedHandler.LastTitlesVisible | backend/seed-data/index.py:75-98 | the last six titles are not blank |
| SeedHandler.SampleFilled | backend/seed-data/index.py:50-99 | every sample has all five required texts filled |
| SeedHandler.SeedingReportsTwelve | backend/seed-data/index.py:101-115 | on an empty table a POST answers 200 with the twelve-entry message and appends the seeded rows |
| SeedHandler.SeedingInsertsTwelve | backend/seed-data/index.py:50-115 | on an empty table exactly twelve rows go in, with consecutive fresh ids and positions 1 to 12 |
| SeedHandler.SeedRowsNumbered | backend/seed-data/index.py:50-107 | the seeded rows take consecutive ids and positions 1 to 12, in order |
| SeedHandler.SeededPositionsDistinct | backend/seed-data/index.py:50-99 | seeded positions strictly increase, so they are pairwise distinct |
| SeedHandler.VisibleNotBlank | backend/videos/index.py:95-102 | visible text does not strip to nothing |
| SeedHandler.FilledPassesValidation | backend/videos/index.py:102 | a filled sample passes the add request's required-field check |
| SeedHandler.SamplesPassValidation | backend/seed-data/index.py:50-99 | every seeded entry would pass the add request's required-field check |
| AuthHandler.UserTable.Insert | backend/auth/index.py:55-85 | a new name gets a non-admin row with the next id; a taken name leaves the rows as they were; the id sequence advances either way |
| AuthHandler.UserTable.FindByCredentials | backend/auth/index.py:90-94 | finds a user iff the name is stored with that password hash |
| AuthHandler.UserTable.FindByName | backend/auth/index.py:130-134 | finds a user iff the name is stored |
| AuthHandler.VerbOf | backend/auth/index.py:15-34 | classifies OPTIONS, POST and every other method |
| AuthHandler.ActionOf | backend/auth/index.py:52-155 | classifies "register", "login", "verify" and every other action |
| AuthHandler.Handle | backend/auth/index.py:9-159 | the handler's response and the table after it are as `Outcome` describes |
| AuthHandler.Perform | backend/auth/index.py:52-159 | dispatch on the action; an unknown action gets 400 "Invalid action" |
| AuthHandler.SignUp | backend/auth/index.py:52-85 | the register branch answers and updates the table as `RegisterOutcome` describes |
| AuthHandler.LogIn | backend/auth/index.py:87-116 | the login branch answers as `LoginReply` describes |
| AuthHandler.VerifySession | backend/auth/index.py:118-153 | the verify branch answers as `VerifyReply` describes |
| AuthHandler.BlankCredentialsRefused | backend/auth/index.py:38-46 | a blank stripped username or password gets 400 with the table untouched, whatever the action |
| AuthHandler.OnlyRegisterAddsUsers | backend/auth/index.py:52-76 | the users change iff a register brings a new name; then one row is added: the stripped name, the hash of the stripped password, not an admin |
| AuthHandler.DuplicateRegistrationRefused | backend/auth/index.py:77-85 | registering a taken name gets 409 and keeps every row |
| AuthHandler.LoginSucceedsIff | backend/auth/index.py:87-104 | login gets 200 iff the name is stored with the hash of the password; else 401 |
| AuthHandler.RegisterThenLogin | backend/auth/index.py:53-94 | register, then login with the same credentials, succeeds with the same user |
| AuthHandler.VerifyIgnoresToken | backend/auth/index.py:118-153 | any two non-blank session tokens get the same answer, 200 iff the name is stored |
| AuthHandler.VerifyNeedsPassword | backend/auth/index.py:38-46 | verify with a blank password is refused with 400 |
| AuthHandler.RegisteredUsersAreNotAdmins | backend/auth/index.py:56-58 | a registration never returns an admin |
| AuthClient.IndexOf | src/lib/auth.ts:41 | the first position of a character, or none iff it is absent |
| AuthClient.EncodeUser | src/lib/auth.ts:48 | a serialised user is never the empty string, so it counts as stored |
| AuthClient.NoSeparatorInNumber | src/lib/auth.ts:48 | a printed id holds no separator |
| AuthClient.DecodeEncodeUser | src/lib/auth.ts:41-48 | reading back a stored user gives the same user |
| AuthClient.EncodeUserInjective | src/lib/auth.ts:48 | distinct users are stored as distinct texts |
| AuthClient.GetStoredAuth | src/lib/auth.ts:36-45 | `getStoredAuth` reads the stored session as `StoredAuth` describes |
| AuthClient.SaveAuth | src/lib/auth.ts:47-50 | `saveAuth` writes the serialised user and the token under their keys |
| AuthClient.ClearAuth | src/lib/auth.ts:52-55 | `clearAuth` removes the two keys |
| AuthClient.StoredAuthPresentIff | src/lib/auth.ts:36-44 | a session is found iff both entries are present and non-empty |
| AuthClient.LoadAfterSave | src/lib/auth.ts:36-50 | after saving a non-empty token, loading gives back the same user and token; an empty token gives nothing |
| AuthClient.LoadAfterClear | src/lib/auth.ts:40-55 | after clearing, no session is found |
| AuthClient.OtherKeysUntouched | src/lib/auth.ts:47-55 | save and clear leave every other key as it was |
| AuthClient.LastSaveWins | src/lib/auth.ts:47-50 | the last save wins, and saving the same session twice equals saving once |
| AuthClient.ClearAfterSave | src/lib/auth.ts:47-55 | clearing forgets whatever was saved |
| AuthClient.LoginRequestChecksCredentials | src/lib/auth.ts:16-24 | the server answers the login request with the credential check on the stripped texts, or 400, without changing the table |
| AuthClient.RegisterRequestCreatesUser | src/lib/auth.ts:26-34 | the register request under a new name creates a non-admin user under the stripped name |
| VideosClient.FetchVideosParams | src/lib/videos.ts:23-26 | the appends build the page (default 1), then search, then tag, each only when non-empty |
| VideosClient.QueryParamsShape | src/lib/videos.ts:23-26 | the page comes first; search and tag follow only when non-empty, in that order |
| VideosClient.QueryReadsBack | src/lib/videos.ts:23-28 | the server reads back the printed page, the search text and the tag |
| VideosClient.FetchVideosIsAnswered | src/lib/videos.ts:23-30 | for a page of at least 1 whose OFFSET fits a `bigint` the server answers with that page for the stripped filters; for any other page its query fails |
| VideosClient.AdminHeaderUnderstood | src/lib/videos.ts:47 | the server grants admin access to the client's header iff `isAdmin` |
| VideosClient.AddBodyRefusedIff | src/lib/videos.ts:49 | the server refuses the add body iff one of the five texts is all whitespace |
| VideosClient.DeleteQueryCarriesId | src/lib/videos.ts:56 | the server finds the id in `id` and reads back the same number; the database takes it iff it fits the 32-bit id column |
| AdminPanel.StripKeepsOut | src/components/AdminPanel.tsx:49 | stripping brings in no new character |
| AdminPanel.SplitWithoutComma | src/components/AdminPanel.tsx:49 | text without a comma is one piece |
| AdminPanel.KeepTagsWellFormed | src/components/AdminPanel.tsx:49 | pieces without commas leave only well-formed tags |
| AdminPanel.ParseTags | src/components/AdminPanel.tsx:49 | every tag is non-empty, comma-free and has no whitespace at either end |
| AdminPanel.SplitAppend | src/components/AdminPanel.tsx:49 | text, a comma and more text split into the pieces of each side |
| AdminPanel.KeepTagsAppend | src/components/AdminPanel.tsx:49 | trimming and filtering work piece by piece |
| AdminPanel.ParseTagsAppend | src/components/AdminPanel.tsx:49 | tag parsing keeps the order of the text |
| AdminPanel.ParseTagsOfBlank | src/components/AdminPanel.tsx:49 | an empty or all-whitespace tag text gives no tags |
| AdminPanel.ParseTagsJoin | src/components/AdminPanel.tsx:49 | well-formed tags joined with commas parse back to themselves |
| Text.MessageOr | src/components/AdminPanel.tsx:78 | `result.error` if present and non-empty, else the fallback (the same rule gives "Login failed" in the sign-in dialog) |
| AdminPanel.Panel.constructor | src/components/AdminPanel.tsx:24-32 | the dialog starts with an empty form and not loading |
| AdminPanel.Panel.Fill | src/components/AdminPanel.tsx:106-161 | typing sets the form and nothing else |
| AdminPanel.Panel.BeginSubmit | src/components/AdminPanel.tsx:34-58 | an empty required field gives one error toast and no request; else loading is set and the entry is posted with `isAdmin` true |
| AdminPanel.Panel.FinishSubmit | src/components/AdminPanel.tsx:60-90 | success: success toast, then form cleared, reload, close; the dialog closes and the list reloads iff the result is a success. Refusal: `result.error` or "Failed to add video". Thrown error: "Network error". Form kept on failure; loading ends false |
| AdminPanel.BlankFieldPassesFormOnly | src/components/AdminPanel.tsx:37 | an all-whitespace required field passes the form's check but is refused by the server |
| AdminPanel.EndpointAcceptedPassesForm | src/components/AdminPanel.tsx:37 | whatever the server accepts passes the form's check |
| LoginDialog.Dialog.constructor | src/components/LoginDialog.tsx:24-26 | the dialog starts with empty fields and not loading |
| LoginDialog.Dialog.Fill | src/components/LoginDialog.tsx:84-95 | typing sets the two fields and nothing else |
| LoginDialog.Dialog.BeginSubmit | src/components/LoginDialog.tsx:28-43 | an empty field gives one error toast and no request; else loading is set and `login` is sent the texts as typed |
| LoginDialog.Dialog.FinishSubmit | src/components/LoginDialog.tsx:42-67 | with success, a user and a non-empty token: hand over, close, success toast. Otherwise `result.error` or "Login failed". Thrown error: "Network error". The close happens iff the answer is accepted, and the sign-in callback only then. Loading ends false |
| LoginDialog.DecodedLoginAnswer | src/components/LoginDialog.tsx:45-58 | the dialog accepts the server's login answer iff the credentials match; otherwise it shows the server's message |
| LoginDialog.DialogAcceptsIffEndpointDoes | src/components/LoginDialog.tsx:43-58 | against the account endpoint, the dialog signs in iff the stripped name is stored with the hash of the stripped password |
| LoginDialog.BlankNamePassesDialogOnly | src/components/LoginDialog.tsx:31 | a name of blanks passes the dialog's check but is refused by the server with 400 |
| IndexPage.Page.constructor | src/pages/Index.tsx:17-25 | no user, no entries, page 1 of 1, no filters, dialogs closed; the invariant holds |
| IndexPage.Page.Restore | src/pages/Index.tsx:27-32 | a stored session sets the user; otherwise nothing changes, and a malformed stored user throws |
| IndexPage.Page.LoadVideos | src/pages/Index.tsx:38-46 | a listing replaces the entries and page count together; a failure changes nothing |
| IndexPage.Page.HandleLoginSuccess | src/pages/Index.tsx:48-51 | sets the user and saves the session |
| IndexPage.Page.HandleLogout | src/pages/Index.tsx:53-56 | forgets the user, clears the session, hides the admin controls |
| IndexPage.Page.HandleSearch | src/pages/Index.tsx:58-62 | search text set, tag cleared, back to page 1; the invariant is kept |
| IndexPage.Page.HandleTagClick | src/pages/Index.tsx:64-68 | tag set, search cleared, back to page 1; the invariant is kept |
| IndexPage.Page.ClearTag | src/pages/Index.tsx:99-102 | tag cleared, back to page 1, search kept |
| IndexPage.Page.ChangePage | src/pages/Index.tsx:118-122 | goes to the page the click asks for, stays at least 1, and stays within the count when it started there |
| IndexPage.Page.HandleVideoClick | src/pages/Index.tsx:70-76 | signed in: navigate to the entry's link; else open the subscribe dialog and navigate nowhere |
| IndexPage.Page.OpenLogin | src/pages/Index.tsx:82 | opens the sign-in dialog and changes nothing else |
| IndexPage.Page.OpenAdmin | src/pages/Index.tsx:110-111 | opens the add-entry dialog, offered only to an admin |
| IndexPage.OneFilterSent | src/pages/Index.tsx:34-40 | a page with exclusive filters asks the server for at most one of them |
| IndexPage.ReloadShowsServerPage | src/pages/Index.tsx:38-46 | for a page the handler can list, the reload shows the server's page for the stripped filter, with `total_pages` 0 iff nothing matches |
| IndexPage.ReloadOutOfRangeFails | src/pages/Index.tsx:38-46 | a page below 1, or one whose OFFSET overflows a `bigint`, makes the reload fail |
| IndexPage.SignInSurvivesReload | src/pages/Index.tsx:27-32 | a saved session is restored with the same user, so admin controls return exactly for an admin |

## Left out

- HTTP transport, `fetch`, psycopg2 connections, SQL text and the CORS headers are not modelled. Each request is one atomic step on an in-memory table, and OPTIONS is a 200 with no body.
- SHA-256 and `secrets.token_urlsafe` are parameters (`hash`, `token`), because hashing and randomness are outside the model.
- PostgreSQL's `ILIKE`, with its case folding and `%`/`_` wildcards, is the parameter `ilike`.
- JSON encoding and decoding are not modelled:
  - Request bodies arrive already decoded, with an absent key as `None`.
  - A body that is not JSON, or that holds non-string values, is not modelled.
  - The stored user record uses an encoding of the model's own with a proved round trip. This stands in for `JSON.stringify`/`JSON.parse`.
- Percent-encoding by `URLSearchParams` and decoding by the gateway are taken to cancel out.
- Header names are taken to arrive lower-cased from the gateway; case-insensitive header matching itself is not modelled.
- Whitespace is the six ASCII whitespace characters. Python's `strip()` and JavaScript's `trim()` also remove Unicode spaces, and the two differ there. Python's `strip()` also removes the four ASCII separators U+001C to U+001F, which `trim()` keeps.
- `int()` is modelled as whitespace, an optional sign and decimal digits. Underscores and non-ASCII digits are not accepted. PostgreSQL's cast of the delete id to the `integer` column reads the same syntax and, in addition, fails outside the 32-bit range (`VideosHandler.IdCast`). The underscores, hexadecimal and octal forms that newer PostgreSQL versions accept are not modelled.
- `created_at` is a number standing for the database timestamp. The seeded rows share one, since they go in within one transaction.
- Rows that tie on both position and `created_at` are listed in one fixed order, where the database leaves their order unspecified.
- React rendering, toasts, i18n, dialog animations and `window.open` are not modelled. They appear as event values and the `navigation` result.
- The header component only forwards the search text and switches language. It is not part of this model.
- The subscribe dialog is plain UI. It is not part of this model.
- The image carousel timer of the entry card is not part of this model.
- Effect scheduling is not modelled: the reload after a change of page, search or tag is the pair `FetchParams` and `LoadVideos`.
- Overlapping reloads, where a stale answer can overwrite a newer one, are not modelled. Each reload is one atomic transition.
- IndexPage.ReloadOutOfRangeFails: rests on `FetchOf`, which assumes the gateway answers a handler that raised with a body that is not JSON, so `response.json()` throws and the reload fails. If that body is a JSON error object, `loadVideos` instead sets the entries and the page count to `undefined`. The model does not represent that state.
- VideoTable.Table.Insert: the id sequence is taken never to run out. A `SERIAL` sequence raises once it passes 2^31-1, so an INSERT beyond that point (a POST, a seeding, a registration) would escape as a fault. The model hands out the next id instead, and no operation in it faults for that reason.
- The thrown error of a malformed stored user is reported as a flag. It does not abort the page.
- IndexPage.Page.ChangePage: modelled only for the clicks the bar offers; a click the bar does not render cannot happen.
- AdminPanel.Panel.Fill: sets the whole form at once; each input's handler changes one field.
