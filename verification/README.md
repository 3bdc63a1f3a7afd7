# Cooking app core: a Dafny model

This project models the logic at the heart of a React Native cooking app
and of the Python script that backfills its recommendation fields. Each
source file of that core becomes one Dafny module. Server replies, the
clock and storage become parameters of pure functions. The properties the
code promises are proved as `ensures` clauses and lemmas.

| module | file | models |
|---|---|---|
| `Wrappers` | wrappers.dfy | `Option` and `Result` |
| `Text` | text.dfy | JavaScript `trim`, `toLowerCase`, `split`, `join`, `replace` (first match), decimal digits |
| `Migration` | migration.dfy | `types/migrate_dish_data.py`: the dish pass, the user-activity pass, index creation, the driver |
| `Dish` | dish.dfy | `types/dish.ts`: level normalisation, duration labels, `normalizeDish`, `normalizeDishList`, the Vietnamese difficulty labels |
| `SimpleCache` | simple_cache.dfy | `lib/simpleCache.ts`: a TTL cache with lazy eviction |
| `FavoriteStore` | favorite_store.dfy | `store/favoriteStore.ts`: per-dish favourite overrides |
| `AuthStore` | auth_store.dfy | `store/authStore.ts`: token, user and signed-in flag |
| `Http` | http.dfy | `lib/http.ts`: auth headers, header merging, `asJson` |
| `Responsive` | responsive.dfy | `styles/responsive.ts`: breakpoints and the size table |
| `SearchBox` | search_box.dfy | `components/Search/SearchBox.tsx`: general and multi-ingredient search |
| `EmailVerification` | email_verification.dfy | `lib/emailVerification.ts`: address check, typo suggestion, status, resend cooldown |
| `Comments` | comments.dfy | `app/detail.tsx`: the comment tree updates, the menu toggle, paging with a cached first page |
| `ViewHistory` | view_history.dfy | `app/view_history.tsx`: entry parsing, newest-first order, image and title fallbacks |
| `OtpEntry` | otp_entry.dfy | the six-box one-time-password entry shared by the two sign-in screens |
| `LoginFlow` | login_flow.dfy | `app/login.tsx`: credentials, then the code |
| `RegisterFlow` | register_flow.dfy | `app/otp-register.tsx`: details, then the code, then completion |
| `AddDish` | add_dish.dfy | `app/addDish.tsx`: editable lists, the form check, the request body |

Notes on the model:

- The comment at `types/migrate_dish_data.py:39` reads "if missing or
  outdated", but the code recomputes `average_rating` whenever the stored
  ratings are truthy, even when the stored value is already right. So a
  second run of the dish pass still issues writes:
  `Migration.DishSecondPass` and `Migration.DishRerunWritesRatedDishes`
  show that it writes exactly the dishes with truthy ratings. Those writes
  store the values already there, and `Migration.RerunAfterSuccess` proves
  that a second run leaves the database as the first one left it. The
  activity pass writes nothing the second time
  (`Migration.ActivityRerunWritesNothing`).
- Python's `round` is modelled exactly on real numbers, with ties to even.
  Binary floating point is left out.
- JavaScript numbers that hold minutes, ratings and timestamps are
  modelled as integers.

## Model

| member | source | states |
|---|---|---|
| Migration.RoundHalfEven | types/migrate_dish_data.py:43 | Python's `round` to an integer: the nearest integer, strictly nearest off a tie, and the even one on a tie |
| Migration.Round2 | types/migrate_dish_data.py:43 | `round(x, 2)` is a whole number of hundredths within half a hundredth of `x` |
| Migration.Round2OfHundredths | types/migrate_dish_data.py:43 | rounding a value that already has two decimals returns it unchanged |
| Migration.DishUpdateFailsIff | types/migrate_dish_data.py:28-63 | the dish loop body raises exactly when truthy ratings cannot be averaged, or when `like_count` is missing and `liked_by` has no length |
| Migration.DishUpdateRules | types/migrate_dish_data.py:28-56 | each field rule: `view_count`, `cook_count` and `like_count` are set only when missing; `ratings` becomes `[]` only when missing or None; `average_rating` is recomputed whenever the ratings are truthy, and otherwise set to 0 only when missing |
| Migration.DishUpdateOverwrites | types/migrate_dish_data.py:28-56 | the only existing fields a dish update overwrites are `average_rating` and a None `ratings` |
| Migration.DishSecondPass | types/migrate_dish_data.py:28-63 | a second pass over an updated dish succeeds, is empty exactly when the ratings are falsy, and rewrites the same values |
| Migration.DishSecondPassEmptyIffNoRatings | types/migrate_dish_data.py:36-45 | for list-valued ratings, the second pass writes nothing exactly when the original ratings were missing, None or empty |
| Migration.StaleAverageIsRecomputed | types/migrate_dish_data.py:40-45 | a dish whose stored average disagrees with its ratings gets the average overwritten |
| Migration.ActivityUpdate | types/migrate_dish_data.py:89-100 | an activity update writes exactly the six list fields and `updated_at` that the record lacks: `[]` for each missing list field and the current time for a missing `updated_at` |
| Migration.ActivityUpdateCompletes | types/migrate_dish_data.py:89-100 | after an activity update, every list field and `updated_at` are present, a list field is written exactly when it was missing, and every field holds its old value if it had one, else `[]`, or the current time for `updated_at` |
| Migration.ActivityIdempotent | types/migrate_dish_data.py:89-107 | an updated activity record needs no further update, whatever the clock says |
| Migration.MigrateCompleted | types/migrate_dish_data.py:24-63 | a completed pass counts every document, writes exactly the documents whose update is non-empty, and leaves each with its update applied |
| Migration.MigrateAborted | types/migrate_dish_data.py:24-63 | an aborted pass has applied the updates of the documents before the failing one, leaves the rest untouched, and reports the first document's exception |
| Migration.CanonicalCollectionUnchanged | types/migrate_dish_data.py:58-63 | a collection that needs no updates is left as it is, with nothing counted as updated |
| Migration.ActivityRerunWritesNothing | types/migrate_dish_data.py:81-107 | re-running the activity pass after a completed one writes nothing |
| Migration.DishRerunWritesRatedDishes | types/migrate_dish_data.py:24-63 | after a completed dish pass, a rerun writes a dish exactly when its ratings are truthy |
| Migration.CreateIndexes | types/migrate_dish_data.py:115-147 | index creation fails exactly when two activities share a `user_id`; the dish indexes already exist at that point; on success every declared index exists and none is lost |
| Migration.MigrateFixedPoint | types/migrate_dish_data.py:58-63 | a pass whose normaliser leaves every document as it is completes and returns the same documents |
| Migration.DishPassIsFixedPoint | types/migrate_dish_data.py:24-63 | the documents of a completed dish pass are left as they are by a second dish pass |
| Migration.Run | types/migrate_dish_data.py:149-165 | the driver runs the dish pass, the activity pass and index creation in order. The dish stage fails exactly when the dish pass aborts. A failed stage re-raises its own error and leaves the earlier stages' results and its own partial writes. Nothing after the failure is touched. On success the database holds both migrated collections and the created indexes. The counts are the collection sizes and the numbers of documents needing a write |
| Migration.RerunAfterSuccess | types/migrate_dish_data.py:149-165 | after a successful run without write failures, a second run at any later time succeeds, writes no activity, and leaves the database unchanged |
| Dish.LevelOfKey | types/dish.ts:84-108 | every accepted spelling maps to its level; unknown keys fall back to easy |
| Dish.NormalizeLevel | types/dish.ts:75-114 | a missing or empty level is easy |
| Dish.DeriveLevel | types/dish.ts:68-72 | easy exactly up to 15 minutes; hard exactly above 45 |
| Dish.DeriveLevelMonotone | types/dish.ts:68-72 | a longer cooking time never gives an easier level |
| Dish.DifficultyToEnglish | types/dish.ts:240-247 | the trimmed label "Trung bình" gives medium, "Khó" gives hard, and anything else gives easy |
| Dish.DisplayRoundTrip | types/dish.ts:230-247 | the Vietnamese label shown for a level maps back to that level, both through `mapDifficultyToEnglish` and through `normalizeLevel` |
| Dish.NameRoundTrip | types/dish.ts:75-114 | `normalizeLevel` of a level's English name is that level |
| Dish.KeyRoundTrip | types/dish.ts:75-114 | an unpadded level text normalises to the level of its lower-case form |
| Dish.ToMinutesStr | types/dish.ts:56-65 | a number or digit string gets the minutes suffix; a missing or empty value gives "0 phút"; an unrecognised text is returned unchanged |
| Dish.IsoDuration | types/dish.ts:60-61 | `PT<n>M`, in any letter case and with any leading zeros, becomes the canonical `<n> phút` |
| Dish.HourMinuteDuration | types/dish.ts:62-63 | a text starting `h:mm` or `hh:mm` becomes `60*h + mm` minutes |
| Dish.ExtractMinutes | types/dish.ts:117-123 | a number is returned as it is; otherwise the value of the first run of digits, or 0 when there is none |
| Dish.ExtractMinutesOfLabel | types/dish.ts:117-123 | `extractMinutes` reads back the number of an "n phút" label |
| Dish.ExtractMinutesUndoesToMinutes | types/dish.ts:56-123 | `extractMinutes(toMinutesStr(n)) == n` for every non-negative n |
| Dish.Coalesce | types/dish.ts:146-156 | a `??` chain yields its first present alternative, or the default when none is present |
| Dish.NormalizeDish | types/dish.ts:126-157 | every field is the first present of its alternatives. The time label comes from `time`, or else from the first present of `cooking_time` and `prep_time_min`, or 0. The level comes from `difficulty \|\| level` only |
| Dish.NormalizeDishIgnoresCookingTime | types/dish.ts:142 | changing the cooking time never changes the level; with no difficulty or level given, the dish is easy |
| Dish.NormalizeListItem | types/dish.ts:185-216 | a list entry keeps its id, name and ingredients (or none). It gets a data URI exactly when both base64 data and mime type are non-empty. Its steps are the first present of steps and instructions. Its rating is the average rating, or 0. Its time label is the cooking time, or 0, followed by " phút". It is never a favourite |
| Dish.ListItemTime | types/dish.ts:193-209 | the time label of a list entry reads back as its cooking time, or 0 when the time is missing |
| Dish.NormalizeDishList | types/dish.ts:175-227 | the list is mapped entry by entry, keeping length and order |
| SimpleCache.Get | lib/simpleCache.ts:6-14 | a hit exactly for a fresh entry; an expired entry is evicted; other keys are untouched |
| SimpleCache.Set | lib/simpleCache.ts:16-18 | the key holds the new value, time and TTL; other entries are unchanged |
| SimpleCache.Del | lib/simpleCache.ts:20-22 | exactly that key is removed |
| SimpleCache.ClearByPrefix | lib/simpleCache.ts:24-26 | exactly the keys with the prefix are removed |
| SimpleCache.GetAfterSet | lib/simpleCache.ts:6-18 | a read after a write hits within the TTL and misses after it, evicting the entry |
| SimpleCache.GetRightAfterSet | lib/simpleCache.ts:6-18 | a value is readable at the moment it is written |
| SimpleCache.GetTwice | lib/simpleCache.ts:6-14 | reading twice gives the same answer and store as reading once |
| SimpleCache.GetAfterDel | lib/simpleCache.ts:6-22 | a deleted key misses; other keys read as before |
| SimpleCache.GetAfterClear | lib/simpleCache.ts:6-26 | keys under the prefix miss after clearing; other keys read as before |
| FavoriteStore.Status | store/favoriteStore.ts:21-24 | an override is reported exactly when one was set |
| FavoriteStore.Update | store/favoriteStore.ts:13-19 | the dish gets the new status; every other dish keeps its own |
| FavoriteStore.Clear | store/favoriteStore.ts:26 | no dish has an override after clearing |
| FavoriteStore.InitialIsEmpty | store/favoriteStore.ts:11 | the store starts without overrides |
| FavoriteStore.LastWriteWins | store/favoriteStore.ts:13-19 | of two updates to one dish, the second wins |
| FavoriteStore.UpdatesCommute | store/favoriteStore.ts:13-19 | updates to different dishes commute |
| AuthStore.Initial | store/authStore.ts:22-24 | the store starts signed out, with no token and no user |
| AuthStore.Step | store/authStore.ts:25-28 | login sets all three fields; logout resets; setting a token signs in exactly when the token is truthy; setting the user touches nothing else |
| AuthStore.StepKeepsValid | store/authStore.ts:25-28 | no setter produces a signed-in state without a token |
| AuthStore.ReachableValid | store/authStore.ts:22-28 | every state reachable from a valid one is valid |
| AuthStore.LogoutResets | store/authStore.ts:26 | logout returns to the initial state from anywhere |
| AuthStore.EmptyTokenLogin | store/authStore.ts:25-27 | `login` with an empty token still signs in, while `setToken("")` signs out |
| Http.AuthHeaders | lib/http.ts:4-15 | JSON and no-cache headers are always present; the bearer header is present exactly for a usable token |
| Http.MergeHeaders | lib/http.ts:22 | the caller's headers override the defaults; no key is lost |
| Http.RequestHeaders | lib/http.ts:18-25 | a request always has a content type, and has authorization exactly when the token is usable or the caller supplies one |
| Http.AsJson | lib/http.ts:28-33 | success exactly for an OK response; a failure carries the body text, or `HTTP <status>` without one |
| Http.CallerAuthorizationWins | lib/http.ts:18-25 | a caller's authorization header wins over the token's; with no caller headers the request headers are the default ones |
| Responsive.Classify | styles/responsive.ts:16-26 | native is mobile; on the web, desktop from 1024, tablet from 768 |
| Responsive.Select | styles/responsive.ts:21-25 | the value picked is the one for the screen class |
| Responsive.ClassifyMonotone | styles/responsive.ts:10-26 | a wider window never gives a smaller class |
| Responsive.SelectMonotone | styles/responsive.ts:16-26 | for an entry that grows with the class, the size grows with the width |
| Responsive.TableGrows | styles/responsive.ts:28-58 | every numeric entry of the size table grows from mobile to desktop |
| SearchBox.CleanPieces | components/Search/SearchBox.tsx:20-23 | the kept names are trimmed and non-empty |
| SearchBox.CleanPiecesAppend | components/Search/SearchBox.tsx:20-23 | cleaning works piece by piece and keeps the order |
| SearchBox.CleanPiecesMembership | components/Search/SearchBox.tsx:20-23 | a name is kept exactly when it is the non-empty trim of some piece |
| SearchBox.IngredientsShape | components/Search/SearchBox.tsx:20-23 | names are trimmed, non-empty and comma-free, and number at most one more than the commas |
| SearchBox.Search | components/Search/SearchBox.tsx:13-46 | a blank query is refused; more than one ingredient gives an ingredient search with the names joined by commas; otherwise a general search with the trimmed text |
| SearchBox.SearchType | components/Search/SearchBox.tsx:57 | the `searchType` handed to the results screen is "multi-ingredients" or "general", and for a query that is searched it names exactly the kind of request sent |
| SearchBox.IngredientParamRoundTrip | components/Search/SearchBox.tsx:20-31 | splitting the ingredient parameter on commas gives back exactly the names |
| EmailVerification.WellFormedIffMatches | lib/emailVerification.ts:161-164 | the left-to-right scan accepts exactly the addresses the pattern matches |
| EmailVerification.Domain | lib/emailVerification.ts:173 | the domain is everything after the first '@' and contains no '@' |
| EmailVerification.Validate | lib/emailVerification.ts:155-199 | format failure exactly when the pattern fails; disposable exactly for a listed domain; a typo verdict exactly for a listed misspelling, whose suggestion is the address with the first occurrence of the lower-cased domain replaced, as the code does it |
| EmailVerification.ValidateCorrected | lib/emailVerification.ts:155-199 | the same verdicts, except that a typo verdict suggests the same local part at the corrected domain |
| EmailVerification.AsWrittenAgreesOnLowerCaseDomain | lib/emailVerification.ts:179-192 | when the domain is lower case and does not also occur earlier in the address, the check as written and the corrected one agree |
| EmailVerification.TypoSuggestion | lib/emailVerification.ts:187-192 | the intended suggestion, the corrected half of the lib/emailVerification.ts:190 finding: the local part, '@', and the corrected domain (the code computes a different string, see `EmailVerification.Validate`) |
| EmailVerification.CorrectionFacts | lib/emailVerification.ts:179-185 | every correction is a well-formed lower-case domain that is neither disposable nor itself a misspelling |
| EmailVerification.SuggestionIsValid | lib/emailVerification.ts:179-194 | the address suggested by the corrected check passes both checks |
| EmailVerification.TypoVerdict | lib/emailVerification.ts:179-192 | an address at a misspelled domain gets a typo verdict from both checks: the code's replace suggestion as written, and the local part at the corrected domain from the corrected check |
| EmailVerification.TypoSuggestionAsWrittenKeepsUpperCase | lib/emailVerification.ts:190 | for `a@GMAI.COM`, the replace as written suggests the address unchanged |
| EmailVerification.TypoSuggestionAsWrittenRewritesLocalPart | lib/emailVerification.ts:190 | for `gmai.com@gmai.com`, the replace as written rewrites the local part and keeps the typo |
| EmailVerification.CorrectedDomains | lib/emailVerification.ts:179-185 | the three corrected domains are well-formed lower-case domain names |
| EmailVerification.StatusOf | lib/emailVerification.ts:224-228 | not signed in exactly without a user; verified exactly for a verified user |
| EmailVerification.BlockIffNotVerified | lib/emailVerification.ts:224-232 | access is blocked exactly when the status is not verified |
| EmailVerification.Resend | lib/emailVerification.ts:85-102 | refused exactly within 60 seconds of the last send, with the wait rounded up to whole seconds; sent exactly when not refused and the send succeeds; only a send records the time |
| EmailVerification.WaitWithinAMinute | lib/emailVerification.ts:88-95 | a refused resend asks for a wait of 1 to 60 seconds |
| EmailVerification.SentStartsCooldown | lib/emailVerification.ts:85-102 | any resend within 60 seconds of a successful one is refused |
| Comments.UpdateMatching | app/detail.tsx:512-517 | the list keeps its length; a comment with the target id is replaced by the update; any other keeps its fields, and its defined replies are updated the same way |
| Comments.UpdateMatchingAt | app/detail.tsx:512-517 | at any depth, the first comment with the target id along a path is replaced by the update, and the path still leads there |
| Comments.UpdateMatchingKeepsShape | app/detail.tsx:512-517 | a field update of the tree keeps every id and every reply in place |
| Comments.LikeChangesOnlyLikes | app/detail.tsx:512-517 | a like changes only like counts and flags, and keeps the tree's shape |
| Comments.EditChangesOnlyContent | app/detail.tsx:607-613 | an edit changes only content and edit times, and keeps the tree's shape |
| Comments.AddReplyPlacement | app/detail.tsx:559-564 | at any depth, the new reply, with an empty reply list of its own, goes last among the parent's replies; nothing else of the parent changes |
| Comments.AddReplyToMissingParent | app/detail.tsx:559-564 | a reply to an id that is nowhere in the tree changes nothing |
| Comments.RemoveTree | app/detail.tsx:689-692 | the removed id occurs nowhere afterwards; no id is added; every reply array is defined; the top level is the old one without the target |
| Comments.RemoveTreeAppend | app/detail.tsx:689-692 | removal works comment by comment, so the kept comments keep their order |
| Comments.RemoveTreeSingle | app/detail.tsx:689-692 | a comment with the target id is dropped; any other keeps every field, and its replies are pruned the same way. With Comments.RemoveTreeAppend this fixes the result at every depth |
| Comments.RemoveAbsentKeepsTop | app/detail.tsx:689-692 | removing an id that is nowhere in the tree changes nothing but turning missing reply arrays into empty ones; a tree whose reply arrays are all defined is returned unchanged |
| Comments.MenuPress | app/detail.tsx:632-634 | pressing a comment's menu opens it unless it is the open one, which closes |
| Comments.MenuPressTwice | app/detail.tsx:632-634 | from a closed or same-menu state, pressing the same menu twice restores the state |
| Comments.DetailHeaders | app/detail.tsx:152-158 | the screen's headers carry JSON, and the bearer token exactly when it is usable |
| Comments.DetailHeadersAreSharedSubset | app/detail.tsx:152-158 | the screen's headers are the shared auth headers without the no-cache pair |
| Comments.Load | app/detail.tsx:439-492 | a reset uses a usable cached first page; loading more appends the server's page and advances the offset; a failed request leaves the view |
| Comments.ResetLoadsFirstPage | app/detail.tsx:449-486 | without a usable cached page, a reset shows the server's page and caches it for two minutes |
| Comments.FirstPage | app/detail.tsx:484-486 | the cached page is a prefix of the list of at most one page |
| Comments.Refresh | app/detail.tsx:521 | corrected refresh: after a tree update the cached first page becomes the updated list's first page, whatever the offset; other keys are untouched |
| Comments.Step | app/detail.tsx:512-773 | corrected step: a load is `Comments.Load`; a refocus deletes the cached first page and then loads with reset; like, edit, reply and delete update the tree as the helpers do and keep the offset; a reply drops the cached first page; like, edit and delete refresh it as `Comments.Refresh` does |
| Comments.StepAsWritten | app/detail.tsx:512-696 | the step as the code does it: the same view as the corrected step, the same cache for loads, refocuses and replies, and an untouched cache after a like, edit or delete once more than one page is loaded |
| Comments.StepAsWrittenAgreesOnFirstPage | app/detail.tsx:512-696 | while at most one page is loaded, the step as written and the corrected step agree |
| Comments.StepKeepsCoherent | app/detail.tsx:512-696 | with the refresh corrected, every operation keeps the cached first page a prefix of what is shown |
| Comments.LoadKeepsCoherent | app/detail.tsx:439-492 | loading keeps the cached first page a prefix of what is shown |
| Comments.RefreshAsWrittenGoesStale | app/detail.tsx:521 | with two pages loaded, the guard as written leaves a cached first page that disagrees with the list on screen after a like |
| Comments.FirstPageKey | app/detail.tsx:117 | the first-page key of any user lies under the dish's `comments:<dishId>:` prefix |
| Comments.RefocusRestoresCoherence | app/detail.tsx:769-773 | whatever the cache holds, even a stale first page, the focus effect ends with a coherent cache; when the server answers, the screen shows exactly its page |
| Comments.Remount | app/detail.tsx:788-798 | on mount or a token change every cached comment page of the dish is dropped, and the list starts empty with more to load (the dish's cached rating entries, also cleared at line 792, are outside the model's comment cache) |
| Comments.RemountClearsFirstPage | app/detail.tsx:731-741 | after a mount no user's first page is cached, so opening the comments shows the server's page and leaves the cache coherent |
| ViewHistory.KindOf | app/view_history.tsx:55-61 | exactly "dish" and "user" name a kind |
| ViewHistory.ParseString | app/view_history.tsx:55-61 | a parsed string entry has a non-empty id and no name, image or time |
| ViewHistory.ParseStringExact | app/view_history.tsx:55-61 | a string parses exactly when it is `dish:<id>` or `user:<id>` with a non-empty id, and the parse inverts that form |
| ViewHistory.ParseKnownString | app/view_history.tsx:55-61 | `<kind>:<id>` parses back to that kind and id |
| ViewHistory.ParseObject | app/view_history.tsx:63-71 | an object entry is kept exactly when its type is dish or user and its id is truthy; the id is its string form; names and images default to ""; the time stamp is kept, as its string form, exactly when truthy |
| ViewHistory.NormalizeAll | app/view_history.tsx:53-74 | every kept entry has an id, and none is invented |
| ViewHistory.NormalizeAllAppend | app/view_history.tsx:53-74 | entries are filtered one by one, in order |
| ViewHistory.NormalizeAllMembership | app/view_history.tsx:53-74 | an item is kept exactly when some raw entry normalises to it |
| ViewHistory.Insert | app/view_history.tsx:77-81 | inserting into a newest-first list keeps it newest-first and adds exactly the item |
| ViewHistory.SortNewestFirst | app/view_history.tsx:77-81 | the result is a permutation of the input, newest first |
| ViewHistory.ImageUri | app/view_history.tsx:107-114 | a data or web URI is kept; other text is read as base64 JPEG; without an image, the kind's placeholder; the result is always loadable |
| ViewHistory.ImageUriStable | app/view_history.tsx:107-114 | applying the image rule to its own output changes nothing |
| ViewHistory.Title | app/view_history.tsx:103-116 | a non-blank name is the title; otherwise `<kind> <id>`; a title is never blank |
| OtpEntry.LastChar | app/login.tsx:455 | `slice(-1)` is empty exactly for empty text, and otherwise the last character |
| OtpEntry.SetDigit | app/login.tsx:150-164 | typing sets one box and leaves the other five |
| OtpEntry.Code | app/login.tsx:162 | when every box holds one character, the code is those characters in box order |
| OtpEntry.Tick | app/login.tsx:96-101 | the countdown goes down by one second and stops at zero |
| OtpEntry.Verify | app/login.tsx:175-202 | refused after three failures; a rejection counts a failure and clears the boxes; other replies keep the state |
| OtpEntry.VerifyKeepsValid | app/login.tsx:175-202 | six boxes and at most three failures survive verification, so "attempts left" never goes negative |
| OtpEntry.ThreeStrikes | app/login.tsx:175-202 | three rejections in a row lock verification |
| LoginFlow.AfterVerify | app/login.tsx:175-229 | a locked state is unchanged; a rejection counts a failure, clears the boxes and stays on the code step; an acceptance leaves the screen with the session, if any; a reply without effect changes nothing |
| LoginFlow.Step | app/login.tsx:104-323 | accepted credentials open the code step with a 60 second countdown and change nothing else; refused credentials change nothing; resend waits for the countdown, then resets the entry and keeps the screen, and a refused resend changes nothing; back resets everything; press-verify needs all six boxes; typing sets the box and verifies exactly when the typed character is not empty and all six boxes are filled |
| LoginFlow.TypingTouchesOneBox | app/login.tsx:150-164 | typing without completing the code changes one box only |
| LoginFlow.StepKeepsValid | app/login.tsx:126-323 | every action keeps six boxes and at most three failures |
| LoginFlow.RunKeepsValid | app/login.tsx:126-323 | any sequence of actions keeps that invariant |
| RegisterFlow.DefaultName | app/otp-register.tsx:105 | the default name is the text before the first '@', which contains no '@' |
| RegisterFlow.DefaultNameSplitsAddress | app/otp-register.tsx:176 | for an address with '@', the name followed by the rest is the address and the rest starts at '@' |
| RegisterFlow.AfterVerify | app/otp-register.tsx:156-264 | a locked state is unchanged; a rejection counts a failure and clears the boxes; acceptance with a session completes registration; acceptance without one leaves for the sign-in screen; a reply without effect changes nothing |
| RegisterFlow.Step | app/otp-register.tsx:115-308 | accepted details open the code step with a 60 second countdown and change nothing else; refused details change nothing; resend waits for the countdown, then resets the entry and keeps the screen, and a refused resend changes nothing; back resets everything; typing sets the box and verifies exactly when the typed character is not empty and all six boxes are filled |
| RegisterFlow.StepKeepsValid | app/otp-register.tsx:115-308 | every action keeps six boxes and at most three failures |
| RegisterFlow.RunKeepsValid | app/otp-register.tsx:115-308 | any sequence of actions keeps that invariant |
| AddDish.AddBox | app/addDish.tsx:127-129 | one empty box is appended and the others are kept |
| AddDish.RemoveBox | app/addDish.tsx:132-137 | the box at the index is deleted unless it is the last one left; an out-of-range index deletes nothing |
| AddDish.UpdateBox | app/addDish.tsx:140-144 | typing changes exactly one box |
| AddDish.EditsKeepOneBox | app/addDish.tsx:127-144 | no edit empties a list that has a box |
| AddDish.NonBlank | app/addDish.tsx:178-185 | the kept entries are non-blank and no more than the boxes |
| AddDish.NonBlankAppend | app/addDish.tsx:178-185 | filtering is entry by entry, in order |
| AddDish.NonBlankMembership | app/addDish.tsx:178-185 | an entry is kept exactly when it is in the list and not blank |
| AddDish.SomeEntryCheck | app/addDish.tsx:178-185 | a list passes the "at least one" check exactly when some box has more than whitespace |
| AddDish.Validate | app/addDish.tsx:167-196 | the first failing check, in source order: name, cooking time, ingredients, instructions, image; none exactly when all pass |
| AddDish.CreateDish | app/addDish.tsx:199-230 | an invalid form reports its first failure; a valid one becomes a body with trimmed name, non-blank lists, positive minutes, the derived recipe name and description, and the English difficulty |
| AddDish.PayloadDifficultyFollowsLabel | app/addDish.tsx:215-230 | the level picked in the form is the level sent |
| AddDish.Submit | app/addDish.tsx:199-274 | an invalid form sends nothing; a valid one is sent, and the form resets only when the server accepts |
| AddDish.ResetFormIsRejected | app/addDish.tsx:266-274 | the reset form cannot be sent until a name is entered |
| Text.JoinSplit | app/view_history.tsx:56-57 | joining the pieces of a split restores the text |
| Text.SplitJoin | components/Search/SearchBox.tsx:20-31 | splitting a join of separator-free pieces restores the pieces |
| Text.TrimEmptyIffBlank | app/addDish.tsx:168 | a text trims to empty exactly when it is all whitespace |

## Left out

- Network, database and storage I/O: Firebase, `fetch`, MongoDB, AsyncStorage and localStorage. Server replies and write failures are parameters.
- Timers, `Date.now()` and `datetime.utcnow()`: the time is a parameter.
- Comments.Remount: the clearing of the dish's `userRating:` cache entries (app/detail.tsx:792) is not modelled, because the model's cache holds comment pages only and the rating status is not part of the comments model.
- Logging, alerts, navigation and the rendering of every screen.
- Loading and in-flight flags (`isResending`, `isVerifying`, `cmtLoading`), and the concurrency between requests.
- Floating point: `Migration.Round2` rounds exact reals, and binary representation error is not modelled.
- AddDish.Minutes: accepts decimal digit strings only, not every text that JavaScript's `Number` converts (signs, spaces, exponents, hex).
- `\s` and `toLowerCase` cover ASCII whitespace, ASCII letters and the Vietnamese capitals that occur in the labels, not all of Unicode.
- Decoding the user id from a JWT, `encodeURIComponent`, and the JSON parsing inside `asJson`.
- `Date.parse` of history timestamps is a parameter; NaN results are not modelled.
- Picking, resizing and uploading images; `checkEmailExists` and the Firebase action-code calls.
- The window width is read once, at import, in `styles/responsive.ts`; the model takes it as a parameter.
- ViewHistory.SortNewestFirst: stability is not stated. Entries with equal timestamps keep their input order in the source; the model proves only order and permutation.
- Dish.NormalizeLevel: its own contract covers only the missing and empty cases; the other spellings are stated through `Dish.LevelOfKey`, `Dish.NameRoundTrip`, `Dish.KeyRoundTrip` and `Dish.DisplayRoundTrip`.
- Migration.CreateIndexes: user ids are compared as values of the model, so `1` and `1.0` count as different; MongoDB's unique index treats them as the same key.
- RegisterFlow.Step: the registration screen verifies only automatically, once the sixth box is filled, so it has no press-verify action.

## Findings

| source | as written | input that shows it | evidently intended | confidence | as-written member | corrected member |
|---|---|---|---|---|---|---|
| lib/emailVerification.ts:190 | the suggestion is `email.replace(domain, fix)` with `domain` already lower-cased, so it replaces the first occurrence of the lower-case domain anywhere in the address | `a@GMAI.COM` gets the suggestion `a@GMAI.COM` (nothing replaced); `gmai.com@gmai.com` gets `gmail.com@gmai.com` | the local part, '@', and the corrected domain | not executed | EmailVerification.Validate (shown by EmailVerification.TypoSuggestionAsWrittenKeepsUpperCase and EmailVerification.TypoSuggestionAsWrittenRewritesLocalPart) | EmailVerification.ValidateCorrected (EmailVerification.SuggestionIsValid) |
| app/detail.tsx:521 | after a like (and likewise an edit at line 617 and a delete at line 696), the cached first page is refreshed only while `cmtSkip <= PAGE_SIZE` | with 20 comments loaded (two pages of 10), liking the first comment leaves the old like count in the cached first page, so cache and list disagree. The entry is never displayed, because every reset deletes it first (lines 772 and 791); the inconsistency is latent | refresh the cached first page from the updated list whenever it is cached | not executed | Comments.StepAsWritten (shown by Comments.RefreshAsWrittenGoesStale) | Comments.Step (Comments.StepKeepsCoherent) |
