# Code time capsule: a verified model of its rules

The application lets a signed-in user seal a piece of code in a *capsule*:

- The code is encrypted in the browser with a passphrase.
- The server wraps it again with its own secret and stores it together with an unlock date.
- The capsule opens once that date has passed.
- Capsules are private, shared with a list of email addresses, or public. Public capsules that have opened appear in a paged feed.

This project models the rules inside the route handlers and pages and proves what they promise:

- **Envelope codec** (module `Encryption`): the client passphrase layer and the server secret layer. The cipher, `JSON.parse` and `JSON.stringify` are function parameters, each with a stated law.
- **Capsule listing** (module `CapsuleList`): the owner's capsules, newest first, plus the lazy unlock pass. The pass marks due capsules unlocked in the store and patches the returned array in place.
- **Capsule creation** (module `CapsuleCreate`): the request schema, including the "at least tomorrow" rule, the insert of the server-wrapped payload, and the share grants.
- **Public feed** (module `Feed`): the filter, the two orderings, the page window and the page count.
- **Dashboard** (module `Dashboard`): the sort-column state machine as a class, the icons, the time-remaining buckets, the status badge, the search filter and the column sort.
- **Capsule form** (module `CreateForm`): the ordered checks, the shared-address scan and the request body it sends.
- **Registration** (modules `RegisterRoute` and `RegisterForm`): the route's schema, conflict rule and account creation, and the sign-up page's checks and error messages.

Shared pieces:

- `Db`: the records and an in-memory `Store` class standing in for the database.
- `Lists`: `filter`, a stable `sort`, and the skip/take window.
- `Text`: trim, split, join, ASCII lower-casing, `includes`, and a string order.
- `Validation`: the "first failing check wins" chain.
- `Wrappers`: `Option` and `Result`.

Modelling choices:

- **Times** are integer milliseconds. The current instant and the server's "start of tomorrow" are inputs.
- **Foreign code becomes parameters.** This covers the cipher, the JSON codec, zod's email check and bcrypt's `hash`. The session becomes an optional user id.
- **The cipher's law** (`Encryption.Lawful`) is the only thing assumed about it: decrypting with the key that encrypted gives the text back, and a ciphertext is never empty.
- **Where the doc comments and the code differ, the model follows the code:**
  - The doc comment of `decryptData` (src/utils/encryption.ts:20-26) promises the decrypted data and an error only when decryption fails. The code also reads an empty decrypted text as a wrong passphrase, so the empty string never comes back (`Encryption.EmptyTextNeverOpens`). For the same reason the server layer refuses the empty text (`Encryption.ServerRoundTrip`).
  - The doc comment of `serverDecrypt` (src/utils/encryption.ts:66-71) promises the decrypted data. The code throws 'Server decryption failed' only when decryption yields empty text. A decryption that fails outright raises the cipher library's own error (`CipherFault`).

Source quirks that the model states as lemmas:

- The create form's date picker offers, as its earliest date, a day that its own check refuses unless the moment is exactly 00:00 UTC (`CreateForm.EarliestOfferedRefused`).
- `handleSubmit`'s own checks let an empty SHARED address box through, and it would then send one empty address, which the server refuses (`CreateForm.EmptySharedInputSendsBlank`). The textarea's `required` attribute stops the browser from submitting such a form, so users do not reach this path.
- The sign-up page accepts passwords of 4 to 11 characters that the route refuses (`RegisterForm.ShortPasswordPassesClientOnly`).
- When one user holds the name and another the address, the conflict reported depends on table order (`RegisterRoute.EmailReportedBeforeName`).

## Model

| member | source | states |
|---|---|---|
| Encryption.EnvelopeHolds | src/utils/encryption.ts:10-18 | a string is sealed unchanged; any other value is sealed as its JSON text |
| Encryption.EncryptData | src/utils/encryption.ts:10-18 | under a lawful cipher the envelope is non-empty and decrypts with the passphrase to the serialised data |
| Encryption.DecryptData | src/utils/encryption.ts:28-47 | every failure is the one 'Decryption failed - incorrect passphrase' error; it fails exactly when the cipher fails or yields empty text; a parse failure returns the raw text, never an error |
| Encryption.TextRoundTrip | src/utils/encryption.ts:10-47 | a non-empty string decrypts to its JSON value when it parses and to itself otherwise |
| Encryption.ValueRoundTrip | src/utils/encryption.ts:10-47 | a non-string value decrypts to itself, given that parse inverts stringify |
| Encryption.EmptyTextNeverOpens | src/utils/encryption.ts:31-36 | the sealed empty string is refused even with the right passphrase |
| Encryption.ServerEncrypt | src/utils/encryption.ts:56-64 | fails with the missing-secret error exactly when the secret is absent or empty, otherwise encrypts under the secret |
| Encryption.ServerDecrypt | src/utils/encryption.ts:72-87 | the missing-secret error comes before the cipher is used; empty decrypted text is 'Server decryption failed'; a success is never empty and is the decrypted text unparsed |
| Encryption.ServerRoundTrip | src/utils/encryption.ts:56-87 | with a configured secret, unwrap(wrap(e)) == e for non-empty e, and the empty text is refused |
| Encryption.TwoLayerRoundTrip | src/utils/encryption.ts:56-87 | unwrapping a wrapped client envelope gives back that envelope exactly |
| Db.ToSummary | src/app/api/capsules/route.ts:36-46 | the listing's projection keeps the id, the flag and the unlock date |
| Db.Store.constructor | prisma/netlify.js:5-11 | the model's store starts empty, which satisfies the row invariant; every handler is proved for any store satisfying `Valid()`, not only one built by the constructor |
| Db.Store.InsertCapsule | src/app/api/capsules/create/route.ts:72-84 | appends one row with the next id; nothing else changes |
| Db.Store.SetUnlocked | src/app/api/capsules/route.ts:59-62 | sets `isUnlocked` on one row; nothing else changes |
| Db.Store.AddShares | src/app/api/capsules/create/route.ts:88-94 | adds the grants as a set union, so duplicates collapse |
| Db.Store.InsertUser | src/app/api/auth/register/route.ts:70-76 | appends one user with the next id; nothing else changes |
| Lists.Filter | src/app/api/capsules/route.ts:51-53 | the result holds exactly the elements that pass, and no more copies of any element than the input |
| Lists.FilterCounts | src/app/api/capsules/route.ts:51-53 | any value occurs in the result as often as in the input when it passes, and not at all otherwise |
| Lists.FilterIsSubsequence | src/app/dashboard/page.tsx:166-169 | a filter keeps the input order |
| Lists.SortBy | src/app/dashboard/page.tsx:172-185 | the sort result is a permutation of its input |
| Lists.SortBySorted | src/app/dashboard/page.tsx:172-185 | with a consistent comparator the result is ordered |
| Lists.SortByAllTies | src/app/dashboard/page.tsx:184 | a comparator that ties everything leaves the order unchanged (stability) |
| Lists.Window | src/app/api/feed/route.ts:41-42 | skip/take gives element i as input element skip+i; exactly `take` elements when they fit, the length minus skip that remain on a partial page, none past the end |
| Lists.WindowSorted | src/app/api/feed/route.ts:38-42 | a window of an ordered list is ordered |
| Text.Trim | src/app/capsule/create/page.tsx:141 | neither end of a trimmed string is white space |
| Text.TrimIsMiddle | src/app/capsule/create/page.tsx:141 | the trimmed string is a slice s[i..j] of the input with only white space before i and after j |
| Text.Split | src/app/capsule/create/page.tsx:141 | split yields one more piece than there are separators, and no piece holds the separator |
| Text.JoinSplit | src/app/capsule/create/page.tsx:141 | joining the pieces of a split with the separator gives back the input |
| Text.Lower | src/app/dashboard/page.tsx:167-168 | lower-casing keeps the length and maps each character |
| Text.LowerIdempotent | src/app/dashboard/page.tsx:167-168 | lower-casing twice is lower-casing once |
| Text.ContainsAt | src/app/dashboard/page.tsx:167-168 | `includes` holds exactly when the term occurs at some position |
| Text.Compare | src/app/dashboard/page.tsx:176-178 | the three-way comparison is non-positive exactly when a <= b, non-negative exactly when b <= a, and zero exactly for equal strings |
| Text.LexLeTotal | src/app/dashboard/page.tsx:176-178 | any two strings are comparable |
| Text.LexLeTransitive | src/app/dashboard/page.tsx:176-178 | the string order is transitive |
| Validation.FirstFailure | src/app/capsule/create/page.tsx:89-137 | no error exactly when every check passes; otherwise the error of the first failing check |
| Validation.Reports | src/app/capsule/create/page.tsx:89-137 | run from a check that every earlier one passes, the chain reports nothing only when all pass, and otherwise the error of the first failing check |
| Validation.FirstFailureAt | src/app/auth/register/page.tsx:21-44 | when check k is the first to fail, its error is the one reported |
| CapsuleList.Project | src/app/api/capsules/route.ts:36-46 | the selection projects each row in place |
| CapsuleList.Mine | src/app/api/capsules/route.ts:28-32 | the `where`: in table order, exactly the rows owned by the user and not deleted |
| CapsuleList.Owned | src/app/api/capsules/route.ts:28-47 | the selected rows, projected, as a permutation ordered newest first |
| CapsuleList.MineRows | src/app/api/capsules/route.ts:28-32 | each selected row is owned by the user and not deleted |
| CapsuleList.ProjectUnique | src/app/api/capsules/route.ts:28-47 | the selection lists no capsule twice |
| CapsuleList.SortedUnique | src/app/api/capsules/route.ts:33-35 | sorting keeps ids unique |
| CapsuleList.OwnedListing | src/app/api/capsules/route.ts:28-47 | the listing is exactly the owner's non-deleted capsules, each once, newest first |
| CapsuleList.UnlockDue | src/app/api/capsules/route.ts:50-72 | after the pass: only `isUnlocked` changes, length and order are kept, every due entry is unlocked, no flag goes from true to false, and later-dated entries are untouched |
| CapsuleList.UnlockIdempotent | src/app/api/capsules/route.ts:51-56 | a second pass at the same instant finds nothing to unlock and changes nothing |
| CapsuleList.UnlockRows | src/app/api/capsules/route.ts:56-64 | in the store only `isUnlocked` changes, only the owner's due rows change, and none goes back to locked |
| CapsuleList.UnlockRowsComplete | src/app/api/capsules/route.ts:50-64 | every listed row that is due is unlocked in the store; a second pass leaves the store alone |
| CapsuleList.FindIndex | src/app/api/capsules/route.ts:68 | `findIndex`: the first position with that id, or -1 when there is none |
| CapsuleList.PatchList | src/app/api/capsules/route.ts:67-72 | the in-place patch marks exactly the entries whose id is to be unlocked |
| CapsuleList.PatchedCopy | src/app/api/capsules/route.ts:66-72 | the returned array is the listing with exactly the entries to unlock marked |
| CapsuleList.MarkDueIsUnlock | src/app/api/capsules/route.ts:51-72 | patching by the ids of the due entries is the unlock pass |
| CapsuleList.UnlockInStore | src/app/api/capsules/route.ts:57-64 | the store updates mark exactly the rows whose ids are to be unlocked |
| CapsuleList.StoreEffect | src/app/api/capsules/route.ts:51-64 | the updates by id amount to unlocking the owner's due rows |
| CapsuleList.ListingFacts | src/app/api/capsules/route.ts:28-72 | the listing's ids are unique and name rows; both patches equal the unlock pass |
| CapsuleList.NothingToMark | src/app/api/capsules/route.ts:56 | nothing to unlock means nothing changes |
| CapsuleList.Get | src/app/api/capsules/route.ts:19-75 | 401 with no read or write when signed out; otherwise 200 with the list after the unlock pass, the store updated to match, and the other tables untouched |
| CapsuleCreate.ParseAccessMode | src/app/api/capsules/create/route.ts:15 | defaults to PRIVATE; invalid exactly when the mode is not one of the three names |
| CapsuleCreate.EmailIssues | src/app/api/capsules/create/route.ts:27 | no issue exactly when every address passes the email check; each issue names a failing index |
| CapsuleCreate.EmailIssueReported | src/app/api/capsules/create/route.ts:27 | every refused address is reported by its index |
| CapsuleCreate.Issues | src/app/api/capsules/create/route.ts:9-28 | no issue exactly when every field rule of the schema holds |
| CapsuleCreate.Validate | src/app/api/capsules/create/route.ts:9-28 | succeeds exactly when title is 1..100, description <= 500, note <= 2000, hint <= 100, the mode is valid, the unlock date is no earlier than the start of tomorrow, and every address is an email; a failure lists its issues; a success carries the fields and the defaults |
| CapsuleCreate.UnlockDateEdge | src/app/api/capsules/create/route.ts:17-26 | any instant before the start of tomorrow is refused; tomorrow at 00:00 passes |
| CapsuleCreate.Grants | src/app/api/capsules/create/route.ts:87-95 | grants exist only for SHARED, one for each address of this capsule |
| CapsuleCreate.NewCapsule | src/app/api/capsules/create/route.ts:72-84 | the new row has the given id, the session user as owner, the wrapped payload, the parsed unlock date and mode, both flags false and `createdAt` now |
| CapsuleCreate.DuplicateGrantsCollapse | src/app/api/capsules/create/route.ts:88-94 | a repeated address yields one grant |
| CapsuleCreate.Message | src/app/api/capsules/create/route.ts:35-110 | every reply carries a non-empty message |
| CapsuleCreate.Post | src/app/api/capsules/create/route.ts:30-104 | 401 before validation; 400 with the issues and nothing stored; a missing secret stores nothing; otherwise one row owned by the session user holding the server-wrapped payload, plus the grants |
| CapsuleCreate.StoredPayloadUnwraps | src/app/api/capsules/create/route.ts:69-84 | the stored payload unwraps to the submitted one; the row starts locked and not deleted, owned by the user |
| Feed.SortOf | src/app/api/feed/route.ts:12 | popular exactly when the query says 'popular' |
| Feed.PageOf | src/app/api/feed/route.ts:13 | the page is the one the query gives, and 1 when it gives none |
| Feed.Where | src/app/api/feed/route.ts:18-23 | only public, unlocked, non-deleted capsules; with a language, exactly those in it; with no language or an empty one, all of them |
| Feed.OrderIsTotalPreorder | src/app/api/feed/route.ts:26-35 | both orderings are consistent comparators |
| Feed.Pages | src/app/api/feed/route.ts:71 | ceil(total/12): (pages-1)*12 < total <= pages*12, and pages == 0 exactly when total == 0 |
| Feed.Get | src/app/api/feed/route.ts:8-82 | 500 exactly when the page is below 1; otherwise at most 12 entries, page size 12, the current page, and the page count of the total |
| Feed.Items | src/app/api/feed/route.ts:43-61 | one entry per selected capsule, in the same order, each with its fields and comment count |
| Feed.PageItems | src/app/api/feed/route.ts:38-65 | the page's entries are the window's capsules as entries, and the total equals the number of ordered matches |
| Feed.PageContents | src/app/api/feed/route.ts:15-65 | the page is the window at skip = (page-1)*12 of the ordered matches; every entry is public, unlocked, not deleted and in the language asked for; the total counts the same filter |
| Feed.MatchesPass | src/app/api/feed/route.ts:18-42 | every capsule in the ordered matches passes the feed's filter |
| Feed.GetOrdered | src/app/api/feed/route.ts:26-42 | entries follow the chosen order: comment count then unlock date, or unlock date then creation time, all descending |
| Feed.PageCoverage | src/app/api/feed/route.ts:38-71 | pages 1..pages are non-empty, pages before the last are full, and later pages are empty |
| Dashboard.Flip | src/app/dashboard/page.tsx:67 | flipping always changes the direction |
| Dashboard.SortState.constructor | src/app/dashboard/page.tsx:27-28 | the page starts sorted by createdAt, descending |
| Dashboard.SortState.HandleSort | src/app/dashboard/page.tsx:64-73 | the clicked column becomes active; the same column flips its direction, a new one starts descending |
| Dashboard.SortState.SortIcon | src/app/dashboard/page.tsx:75-78 | the double arrow exactly for inactive columns, the up arrow exactly for the active ascending one, the down arrow exactly for the active descending one |
| Dashboard.DoubleClick | src/app/dashboard/page.tsx:64-73 | two clicks on the active column restore its direction; on a new column they leave it ascending |
| Dashboard.TimeRemaining | src/app/dashboard/page.tsx:90-115 | ready exactly when the date has come; otherwise the count is the whole number of units left: years (of 365 days) from 366 days on, 1..12 months (of 30 days) from 31 to 365 days, 1..30 days, else 0..23 hours under a day |
| Dashboard.LastHour | src/app/dashboard/page.tsx:113-114 | under an hour to go reads as 0 hours |
| Dashboard.Label | src/app/dashboard/page.tsx:95-114 | the text is 'Ready to unlock' exactly for the ready case |
| Dashboard.CountedSingular | src/app/dashboard/page.tsx:100-114 | the unit is singular exactly for a count of 1 |
| Dashboard.AccessModeLabel | src/app/dashboard/page.tsx:118-129 | each mode has its own label |
| Dashboard.Status | src/app/dashboard/page.tsx:343-355 | Unlocked exactly when the flag is set; Ready exactly when locked and due; Sealed exactly when locked and not due |
| Dashboard.StatusAgreesWithRemaining | src/app/dashboard/page.tsx:339-355 | for a locked capsule the badge is Ready exactly when the remaining time reads 'Ready to unlock' |
| Dashboard.EditOnlyWhenLocked | src/app/dashboard/page.tsx:369-376 | the Edit link shows exactly when the badge is not Unlocked |
| Dashboard.NoReadyAfterListing | src/app/dashboard/page.tsx:343-355 | a list fresh from the listing handler shows no Ready badge at that instant |
| Dashboard.SearchKeepsMatches | src/app/dashboard/page.tsx:166-169 | the search keeps, in order, exactly the rows whose lower-cased title or description includes the lower-cased term, every copy of each |
| Dashboard.EmptySearchKeepsAll | src/app/dashboard/page.tsx:166-169 | an empty term keeps every row |
| Dashboard.SearchIgnoresCase | src/app/dashboard/page.tsx:166-169 | the case of the term does not matter |
| Dashboard.SortCapsules | src/app/dashboard/page.tsx:172-185 | the sorted list is a permutation of the searched list |
| Dashboard.OrderIsTotalPreorder | src/app/dashboard/page.tsx:172-185 | every column comparator is consistent |
| Dashboard.SortedByText | src/app/dashboard/page.tsx:173-178 | title and description columns are ordered by lower-cased text, a missing description as the empty string, in either direction |
| Dashboard.SortedByDate | src/app/dashboard/page.tsx:179-182 | date columns are ordered by time, in either direction |
| Dashboard.OtherFieldKeepsOrder | src/app/dashboard/page.tsx:184 | any other column leaves the order as it was |
| CreateForm.EarliestOffered | src/app/capsule/create/page.tsx:65-68 | the picker's minimum is a UTC midnight, within the day before `tomorrow` |
| CreateForm.EmailPatternIsShape | src/app/capsule/create/page.tsx:142 | the address pattern holds exactly when there is no white space, exactly one '@', not first, and a dot after it that is neither next to it nor last |
| CreateForm.Parts | src/app/capsule/create/page.tsx:141 | one trimmed part per comma-separated piece |
| CreateForm.FirstBad | src/app/capsule/create/page.tsx:144-149 | the first address that does not fit the pattern, or none when all fit |
| CreateForm.ScanEmails | src/app/capsule/create/page.tsx:144-149 | the loop stops at the first address that does not fit the pattern, and finds none only when all fit |
| CreateForm.EmailCheck | src/app/capsule/create/page.tsx:139-150 | fails exactly for SHARED with a non-empty box holding a part that misses the pattern, and then names such a part |
| CreateForm.Checks | src/app/capsule/create/page.tsx:88-150 | the eleven checks in order, the address check last |
| CreateForm.ErrorText | src/app/capsule/create/page.tsx:90-146 | every error has a non-empty text to show |
| CreateForm.Validate | src/app/capsule/create/page.tsx:88-150 | the checks run in order and the error set is that of the first one that fails, none when all pass |
| CreateForm.StopsAt | src/app/capsule/create/page.tsx:89-146 | when every check before check k passes and check k fails, the chain reports check k's error |
| CreateForm.PassesAll | src/app/capsule/create/page.tsx:89-150 | when all eleven checks pass, the chain reports no error |
| CreateForm.PassedChecks | src/app/capsule/create/page.tsx:88-137 | a form that passes every check has a title of 1..100, description <= 500, hint <= 100, note <= 2000, an unlock instant no earlier than `tomorrow`, and a confirmed passphrase of at least 8 |
| CreateForm.LanguageName | src/app/capsule/create/page.tsx:163 | an id missing from the map is sent as it is |
| CreateForm.LanguageMapMatchesList | src/app/capsule/create/page.tsx:18-45 | the map gives every listed language its display name |
| CreateForm.ModeNameRoundTrip | src/app/capsule/create/page.tsx:166 | the server reads back the mode the form sends |
| CreateForm.Payload | src/app/capsule/create/page.tsx:157-170 | the body keeps the title, description, note and unlock instant, carries the passphrase hint and the language name from `LANGUAGE_MAP` (the raw id when unmapped), sends a mode the server reads back as the form's, the trimmed parts for SHARED and none otherwise, and a non-empty sealed code |
| CreateForm.HandleSubmit | src/app/capsule/create/page.tsx:85-170 | the first failing check's error and nothing sent; an invalid date fails with 'Invalid time value'; otherwise the body is sent |
| CreateForm.EarliestOfferedRefused | src/app/capsule/create/page.tsx:109-112 | the picker's earliest date is refused unless the moment is exactly 00:00 UTC |
| CreateForm.ClientAcceptedServerAccepts | src/app/capsule/create/page.tsx:89-170 | a body the form sends passes the server schema, given that the addresses pass the server's email check |
| CreateForm.WithinLimitsAccepted | src/app/capsule/create/page.tsx:157-170 | a form within the field limits, with an unlock instant no earlier than the server's start of tomorrow, sends a body the server schema accepts |
| CreateForm.EmptySharedInputSendsBlank | src/app/capsule/create/page.tsx:140-169 | SHARED with an empty box passes `handleSubmit`'s own checks and would send [""], which the server reports as a bad address |
| CreateForm.PartsOfEmpty | src/app/capsule/create/page.tsx:141 | an empty box splits into one empty part |
| CreateForm.PayloadOpens | src/app/capsule/create/page.tsx:157-164 | the body holds the sealed code, not the passphrase, and it opens with the passphrase |
| CreateForm.AfterResponse | src/app/capsule/create/page.tsx:181-191 | no error exactly on creation; a refusal shows the server's message |
| RegisterRoute.Issues | src/app/api/auth/register/route.ts:7-19 | no issue exactly when the username is 3..20 word characters, the email passes, and the password has at least 12 characters |
| RegisterRoute.ShortAndBadName | src/app/api/auth/register/route.ts:8-12 | any username shorter than 3 characters that does not match the pattern draws both messages, the length message first |
| RegisterRoute.FirstMatch | src/app/api/auth/register/route.ts:41-48 | the first user with that username or that email, or none when no user has either |
| RegisterRoute.Post | src/app/api/auth/register/route.ts:21-87 | 400 with the issues; 409 with 'Username already taken' when the first match has the name, else 'Email already registered'; otherwise one user with the hashed password and a reply without it; no write except on creation; distinct names and emails are preserved |
| RegisterRoute.EmailReportedBeforeName | src/app/api/auth/register/route.ts:50-63 | a taken name can be reported as a taken email when another user with the address comes first |
| RegisterForm.Checks | src/app/auth/register/page.tsx:21-44 | the five checks, in order |
| RegisterForm.HandleSubmit | src/app/auth/register/page.tsx:18-60 | the first failing check's message and nothing sent; otherwise the three fields are sent |
| RegisterForm.UsernameRulesAgree | src/app/auth/register/page.tsx:26-34 | the page's username rule is the route's |
| RegisterForm.ShortPasswordPassesClientOnly | src/app/auth/register/page.tsx:36-39 | a password the page accepts and that is shorter than 12 is refused by the route |
| RegisterForm.Or | src/app/auth/register/page.tsx:68 | JavaScript's `or` on strings: the first operand when it is a non-empty string, otherwise the second |
| RegisterForm.ErrorMessage | src/app/auth/register/page.tsx:64-77 | no error exactly on success; never an empty error; 409 the server message or the fallback; 400 the joined issues, else the message, else the fallback; any other failure the `error` field, else the message, else 'Registration failed' |
| RegisterForm.ShownForReply | src/app/auth/register/page.tsx:64-77 | a conflict shows the server's message; a schema refusal shows the issues joined by ', '; a new account shows nothing |

## Left out

- AES, CryptoJS key derivation and the envelope format: the cipher is a parameter with the round-trip law only. Encryption is treated as deterministic, and nothing is said about decrypting with a wrong key, so the rule "a wrong passphrase always fails" is not modelled.
- `JSON.parse` and `JSON.stringify`, zod's `.email()` and bcrypt's `hash`: each is a parameter.
- Encryption.ServerEncrypt, Encryption.ServerDecrypt: the secret is read from the environment; here it is a parameter.
- Text.Lower: lower-cases ASCII letters only, not the full Unicode mapping of `toLowerCase`.
- Text.Compare: `localeCompare` is taken as code-point lexicographic order, not the locale's collation.
- String lengths count characters, not the UTF-16 code units JavaScript counts.
- Date parsing, local time zones and daylight saving:
  - The server's "start of tomorrow" and the current instant are inputs.
  - CreateForm.Tomorrow adds exactly one day, so `setDate(+1)` across a daylight-saving change is not modelled.
  - The date input is read as 00:00 UTC of the chosen date.
  - `formatDate` and `Intl.DateTimeFormat` on the dashboard are not modelled.
- The store: Prisma, HTTP, sessions, and `request.json()` failing on a malformed body are left out.
  - Db.Store: a row's id is its position in its table (`RowsValid`), not a database-generated id.
  - CapsuleList.Owned, Feed.GetOrdered: rows that tie under `orderBy` keep their table order (the sort is stable), whereas the database leaves the order of ties unspecified.
  - The session is an optional user id.
  - Bodies arrive typed, so zod's "Required" and type issues for missing or non-string fields are not modelled.
  - `findFirst` is assumed to return the first match in table order (RegisterRoute.FirstMatch).
  - Prisma rejecting a negative `skip` is taken to give the 500 of the catch block (Feed.Get).
  - The feed's page is an integer; a non-numeric page (NaN) is not modelled.
- CreateForm.HandleSubmit: the browser's constraint validation on the markup (`required`, `minLength`, `maxLength`, `min`) runs before `handleSubmit` and is not modelled; the model starts at `handleSubmit`.
- CapsuleList.Get: the 401 reply's body `{ error: "Unauthorized" }` is not modelled; the signed-out case returns status 401 with an empty list.
- CapsuleList.UnlockInStore: the updates run in sequence, not concurrently under `Promise.all`. A store error partway through is not modelled.
- Defaults and automatic stamping in the database schema: the schema file is not part of this model. The new row's flags start false and `createdAt` and `updatedAt` are the current instant (CapsuleCreate.NewCapsule). `updatedAt` is not touched when a capsule is unlocked.
- Feed.Get: the author join (`user.username`, `user.image`) is not modelled; an entry carries the capsule fields and its comment count.
- The colour helpers (`getAccessModeColor`, `getLanguageColor`), the fetch in the dashboard, React state, effects, routing and markup are not modelled.
- The capsule detail route, the visibility rules for reading a capsule, `src/lib/auth.ts` (NextAuth configuration, with a random username suffix), the header, layout and landing pages, and the URL building of the feed page are not part of this model.
