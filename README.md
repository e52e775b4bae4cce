# personal-blog, modelled in Dafny

This project models the core logic of a personal blog and of a small "games journal" mobile app that share one repository. It has three parts.

- **Mobile data layer.** Covers the SQLite store of users, games and reviews, together with its schema rules: unique usernames and emails, foreign keys that cascade on delete, and autoincrement ids. It also covers the repositories' queries, the count-guarded seed, the services' business rules, the session store and the decision chains of the login, signup and add-review screens.
- **NestJS backend.**
  - The post table and `PostsService` with its sixty-second cache of published posts, in front of TypeORM's one-minute query-result cache.
  - The create and update DTO validators, the seeding of sample posts and of the admin user, and the login rule.
  - The upload controller's extension filter and URL, and the backup script's keep-five-newest rotation.
- **Next.js frontend.**
  - The persisted `auth` slice, the admin guard and the logout button's visibility.
  - The cache-invalidation server actions and the markdown first-image extraction with the image insertion.
  - The post ordering, the new-post form and the delete dialog.
  - The editor's upload and link decisions, the locale pick and the theme scripts.

**How each part is modelled.**
- Pure code is written as datatypes, functions and lemmas.
- Code that updates state becomes classes whose methods state their whole new state. Examples are the store, the post service, the slice, the dialog, the editor and the document element.

**Parameters.** The model does not compute these; it takes them as inputs:
- the clock, `Math.random`, uuid generation, `bcrypt` hashing and comparison, and JWT signing;
- date parsing and locale formatting;
- the outcome of network requests and of `revalidateTag`/`revalidatePath`;
- `readdirSync` order and file modification times.

**One source file models two.** `apps/frontend/src/app/page.tsx` repeats `formatDate`, `extractFirstImage` and the post sort of `apps/frontend/src/components/posts-list-client.tsx` verbatim. `FrontendPostsList` and `FrontendMarkdown` define them once for both.

**Review timestamps** are UTC: `createReview` writes them with `toISOString()`.

## Model

| member | source | states |
|---|---|---|
| MobileStore.Tables.UserInsertError | apps/mobile/src/db/setup.ts:7-8 | an insert into `users` fails exactly when the username or the email is already stored; a taken username is the error reported |
| MobileStore.Tables.InsertUser | apps/mobile/src/db/setup.ts:5-10 | a failing insert leaves every table unchanged; a successful one appends exactly one row with the next autoincrement id and keeps the schema invariant |
| MobileStore.Tables.InsertGame | apps/mobile/src/db/setup.ts:14-20 | appends one row with the next id, leaves the other tables and counters unchanged, keeps the invariant |
| MobileStore.Tables.ReviewInsertError | apps/mobile/src/db/setup.ts:26-32 | an insert into `reviews` fails exactly when the user or the game it names does not exist |
| MobileStore.Tables.InsertReview | apps/mobile/src/db/setup.ts:24-33 | a foreign-key failure changes nothing; otherwise one row with the next id is appended and the invariant is kept |
| MobileStore.Tables.DeleteUser | apps/mobile/src/db/setup.ts:31 | exactly the user with that id and exactly the reviews referring to it disappear; games and counters stay |
| MobileStore.Tables.DeleteGame | apps/mobile/src/db/setup.ts:32 | exactly the game with that id and exactly the reviews referring to it disappear; users and counters stay |
| MobileStore.Tables.UserNamed | apps/mobile/src/db/setup.ts:7 | finds a stored user with exactly that username, and finds one iff the username is taken |
| MobileStore.Tables.UserWithId | apps/mobile/src/db/setup.ts:6 | finds the stored user with that id iff one exists |
| MobileStore.Tables.GameWithId | apps/mobile/src/db/setup.ts:15 | finds the stored game with that id iff one exists |
| MobileStore.Tables.GameTitled | apps/mobile/src/db/setup.ts:16 | finds a stored game with exactly that title iff one exists |
| MobileStore.DeleteUserKeepsValid | apps/mobile/src/db/setup.ts:31 | the cascading user delete keeps uniqueness, id order and every review's references intact |
| MobileStore.DeleteUserKeepsUsers | apps/mobile/src/db/setup.ts:6-8 | after a user delete the remaining users are still unique and ordered by id |
| MobileStore.DeleteUserKeepsReviews | apps/mobile/src/db/setup.ts:25 | after a user delete the remaining reviews are still ordered by id below the counter |
| MobileStore.DeleteUserKeepsReferences | apps/mobile/src/db/setup.ts:31-32 | after a user delete every remaining review still points at an existing user and game |
| MobileStore.DeleteGameKeepsValid | apps/mobile/src/db/setup.ts:32 | the cascading game delete keeps the schema invariant |
| MobileStore.DeleteGameKeepsGames | apps/mobile/src/db/setup.ts:15 | after a game delete the remaining games are still ordered by id |
| MobileStore.DeleteGameKeepsReviews | apps/mobile/src/db/setup.ts:25 | after a game delete the remaining reviews are still ordered by id |
| MobileStore.DeleteGameKeepsReferences | apps/mobile/src/db/setup.ts:31-32 | after a game delete every remaining review still points at an existing user and game |
| MobileStore.EmptyTables | apps/mobile/src/db/setup.ts:4-34 | the freshly created schema has three empty tables and satisfies the invariant |
| MobileStore.FreshIdsNeverReused | apps/mobile/src/db/setup.ts:6 | an id handed out after a delete is larger than every id the table held, so a deleted id never comes back |
| MobileStore.DanglingReviewRejected | apps/mobile/src/db/setup.ts:31-32 | a review naming a missing user or game fails with the foreign-key error and leaves the store as it was |
| MobileStore.Database.Open | apps/mobile/src/db/setup.ts:36-37 | opening a new file gives no schema; an existing file keeps its tables |
| MobileStore.Database.CreateTables | apps/mobile/src/db/setup.ts:40-42 | `CREATE TABLE IF NOT EXISTS`: existing tables and rows are untouched, a new file gets the empty schema |
| MobileStore.Database.InsertUser | apps/mobile/src/db/setup.ts:5-10 | the statement's error and new state are those of `Tables.InsertUser`; the invariant is preserved |
| MobileStore.Database.InsertGame | apps/mobile/src/db/setup.ts:14-20 | the new state is that of `Tables.InsertGame`; the invariant is preserved |
| MobileStore.Database.InsertReview | apps/mobile/src/db/setup.ts:24-33 | the error and new state are those of `Tables.InsertReview`; the invariant is preserved |
| MobileStore.Database.DeleteUser | apps/mobile/src/db/setup.ts:31 | the new state is that of `Tables.DeleteUser`; the invariant is preserved |
| MobileStore.Database.DeleteGame | apps/mobile/src/db/setup.ts:32 | the new state is that of `Tables.DeleteGame`; the invariant is preserved |
| MobileMappers.MapGame | apps/mobile/src/db/mappers.ts:27-33 | copies id, title, platform and genre; `coverImage` is null exactly when `cover_image` is |
| MobileMappers.MapUser | apps/mobile/src/db/mappers.ts:35-40 | copies id, username and email; `avatar` is null exactly when the column is |
| MobileMappers.GameRoundTrip | apps/mobile/src/db/mappers.ts:27-33 | the row is rebuilt from the mapped game, and the game from its row |
| MobileMappers.UserRoundTrip | apps/mobile/src/db/mappers.ts:35-40 | the row is rebuilt from the mapped user, and the user from its row |
| MobileMappers.ReviewRoundTrip | apps/mobile/src/db/mappers.ts:42-49 | `mapReview` is a renaming: row and review determine each other |
| MobileUserRepository.FetchUsers | apps/mobile/src/db/repositories/userRepository.ts:12-15 | every stored user exactly once (as a multiset of rows), ordered by username ascending |
| MobileUserRepository.FetchUserById | apps/mobile/src/db/repositories/userRepository.ts:17-20 | the stored user with that id, or null exactly when there is none |
| MobileUserRepository.FetchUserByUsername | apps/mobile/src/db/repositories/userRepository.ts:22-28 | a stored user whose username equals the argument exactly, or null exactly when there is none |
| MobileUserRepository.CreateUser | apps/mobile/src/db/repositories/userRepository.ts:30-37 | the store changes as one insert with a null default avatar; a constraint failure is the error and nothing changes; on success the returned user is the inserted row, so "Failed to create user." is never reached |
| MobileUserRepository.CreatedUserIsFound | apps/mobile/src/db/repositories/userRepository.ts:31-36 | after a successful insert the re-read by username finds exactly the row just inserted |
| MobileGameRepository.GamesByTitle | apps/mobile/src/db/repositories/gameRepository.ts:13-17 | the rows, each mapped once, ordered by title ascending |
| MobileGameRepository.FetchGames | apps/mobile/src/db/repositories/gameRepository.ts:13-18 | every stored game exactly once, ordered by title ascending |
| MobileGameRepository.FetchGameById | apps/mobile/src/db/repositories/gameRepository.ts:20-26 | the stored game with that id, or null exactly when there is none |
| MobileGameRepository.SearchGames | apps/mobile/src/db/repositories/gameRepository.ts:28-37 | exactly the stored games whose title, platform or genre is LIKE `%trim(query)%`, ordered by title, never more than the table holds |
| MobileGameRepository.InGamesByTitle | apps/mobile/src/db/repositories/gameRepository.ts:13-17 | a row is among the rows exactly when its mapped game is in the ordered result |
| MobileGameRepository.SearchMembership | apps/mobile/src/db/repositories/gameRepository.ts:29-36 | a game is found exactly when its row is stored and one of its three columns matches the pattern |
| MobileGameRepository.SearchWithinFetch | apps/mobile/src/db/repositories/gameRepository.ts:28-37 | every search result is also listed by `fetchGames` |
| MobileGameRepository.LikeAnything | apps/mobile/src/db/repositories/gameRepository.ts:29-32 | `%` matches every string |
| MobileGameRepository.LikeDoublePercent | apps/mobile/src/db/repositories/gameRepository.ts:29-32 | `%%` matches every string |
| MobileGameRepository.EmptyQueryPattern | apps/mobile/src/db/repositories/gameRepository.ts:29 | an empty trimmed query gives the pattern `%%` |
| MobileGameRepository.BlankSearchListsAll | apps/mobile/src/db/repositories/gameRepository.ts:28-37 | a blank query lists exactly what `fetchGames` lists |
| MobileGameRepository.TrimUnderscore | apps/mobile/src/db/repositories/gameRepository.ts:29 | trimming keeps a lone `_` |
| MobileGameRepository.UnderscoreIsWildcard | apps/mobile/src/db/repositories/gameRepository.ts:29-32 | the query `_` is not escaped: its pattern matches every non-empty string |
| MobileGameRepository.LikeTrailingPercent | apps/mobile/src/db/repositories/gameRepository.ts:31-32 | with no wildcard in `q`, `q%` matches exactly the strings starting with `q` up to ASCII case |
| MobileGameRepository.LikeLeadingPercent | apps/mobile/src/db/repositories/gameRepository.ts:31-32 | a leading `%` matches exactly when the rest matches some suffix |
| MobileGameRepository.LowerSlice | apps/mobile/src/db/repositories/gameRepository.ts:31-32 | folding a slice is slicing the folded string |
| MobileGameRepository.LikeAtIffOccursAt | apps/mobile/src/db/repositories/gameRepository.ts:31-32 | `q%` matches the suffix at `i` exactly when folded `q` occurs at `i` in folded `s` |
| MobileGameRepository.LikeIsCaseFoldedSubstring | apps/mobile/src/db/repositories/gameRepository.ts:29-32 | with no wildcard in `q`, `%q%` matches exactly the strings containing `q` up to ASCII case |
| MobileGameRepository.SearchIsCaseFoldedSubstring | apps/mobile/src/db/repositories/gameRepository.ts:28-37 | for a wildcard-free trimmed query, a stored game is found exactly when title, platform or genre contains it ignoring ASCII case |
| MobileReviewRepository.MapJoinedReview | apps/mobile/src/db/repositories/reviewRepository.ts:24-39 | the detail's review is `mapReview` of the row, and its user and game carry the review's own `user_id`/`game_id` with the joined columns |
| MobileReviewRepository.JoinReview | apps/mobile/src/db/repositories/reviewRepository.ts:46-48 | one review joins to one row when both its user and its game exist and to none otherwise, with the referenced rows' columns |
| MobileReviewRepository.Join | apps/mobile/src/db/repositories/reviewRepository.ts:46-48 | the inner join yields no more rows than reviews, each with the columns of the rows its keys name |
| MobileReviewRepository.JoinKeepsJoinable | apps/mobile/src/db/repositories/reviewRepository.ts:46-48 | when every review's user and game exist the join drops none of them and keeps their order |
| MobileReviewRepository.JoinedReviews | apps/mobile/src/db/repositories/reviewRepository.ts:43-48 | every joined detail shows the user and game its review refers to; under the foreign keys every review is joined |
| MobileReviewRepository.NewestFirst | apps/mobile/src/db/repositories/reviewRepository.ts:49-53 | the same reviews, each once, ordered by `datetime(created_at)` descending |
| MobileReviewRepository.FetchRecentReviews | apps/mobile/src/db/repositories/reviewRepository.ts:41-54 | `min(limit, #joined)` items (all when the limit is negative), the prefix of the full newest-first list, each showing its referenced user and game |
| MobileReviewRepository.NewestFirstFrom | apps/mobile/src/db/repositories/reviewRepository.ts:53 | every listed detail is the mapping of one of the joined rows |
| MobileReviewRepository.NewestFirstReferenced | apps/mobile/src/db/repositories/reviewRepository.ts:47-53 | ordering keeps each detail's user and game the referenced rows |
| MobileReviewRepository.NewestFirstHas | apps/mobile/src/db/repositories/reviewRepository.ts:49-53 | each joined row's review appears in the ordered list |
| MobileReviewRepository.RecentAreNewest | apps/mobile/src/db/repositories/reviewRepository.ts:49-50 | a joined review the limit leaves out is no newer than any review listed: the listing is the newest reviews overall |
| MobileReviewRepository.JoinedWhere | apps/mobile/src/db/repositories/reviewRepository.ts:56-84 | exactly the joined reviews satisfying the `WHERE`, newest first, each with its referenced user and game |
| MobileReviewRepository.FetchReviewsByGameId | apps/mobile/src/db/repositories/reviewRepository.ts:56-69 | exactly the stored reviews of that game (under the foreign keys), newest first |
| MobileReviewRepository.FetchReviewsByUserId | apps/mobile/src/db/repositories/reviewRepository.ts:71-84 | exactly the stored reviews by that user (under the foreign keys), newest first |
| MobileReviewRepository.NewestOfPair | apps/mobile/src/db/repositories/reviewRepository.ts:93-100 | a stored review of that user and game that no other such review is newer than, and none exactly when there is no such review |
| MobileReviewRepository.CreateReview | apps/mobile/src/db/repositories/reviewRepository.ts:86-107 | one review insert stamped with the given clock text; a foreign-key failure is the error; on success the result is the newest review of the pair, and it is the inserted row when every older one of the pair is from an earlier second |
| MobileReviewRepository.SameSecondReReadMissesInsert | apps/mobile/src/db/repositories/reviewRepository.ts:93-100 | with an older review of the pair from the same second, the re-read returns that older row instead of the one inserted |
| MobileReviewRepository.CreateReviewById | apps/mobile/src/db/repositories/reviewRepository.ts:86-107 | the corrected re-read: on success the result is exactly the inserted review, not one stored before |
| MobileReviewRepository.ReviewWithId | apps/mobile/src/db/repositories/reviewRepository.ts:93-95 | the stored review with that id, or none exactly when there is none |
| MobileSeed.SeedInitialData | apps/mobile/src/db/seed.ts:57-98 | the store afterwards is the three guarded loops applied in order; the invariant is kept |
| MobileSeed.SeedUsersTable | apps/mobile/src/db/seed.ts:60-68 | the users loop runs exactly when the users table is empty |
| MobileSeed.SeedGamesTable | apps/mobile/src/db/seed.ts:70-78 | the games loop runs exactly when the games table is empty |
| MobileSeed.SeedReviewsTable | apps/mobile/src/db/seed.ts:80-97 | the reviews loop runs exactly when the reviews table is empty; each review is inserted only when its user and game are found |
| MobileSeed.InitializeDatabase | apps/mobile/src/db/setup.ts:36-45 | the tables are created if missing, existing rows kept, then seeded; a new file ends valid |
| MobileSeed.SeedUsersFill | apps/mobile/src/db/seed.ts:61-67 | into an empty users table both seed users go in, in list order, with the next ids |
| MobileSeed.SeedGamesFill | apps/mobile/src/db/seed.ts:71-77 | the three seed games are appended in list order with the next ids |
| MobileStore.FirstNamed | apps/mobile/src/db/seed.ts:83-85 | the username lookup finds the first row with that name |
| MobileStore.FirstTitled | apps/mobile/src/db/seed.ts:86-88 | the title lookup finds the first row with that title |
| MobileSeed.SeedReviewFound | apps/mobile/src/db/seed.ts:90-95 | a turn whose user and game are found appends exactly that review with their ids |
| MobileSeed.SeedReviewsFill | apps/mobile/src/db/seed.ts:81-96 | with the sample users and games stored, both sample reviews are inserted pointing at them |
| MobileSeed.SeedEmptyStore | apps/mobile/src/db/seed.ts:3-97 | an empty store is seeded with exactly 2 users, 3 games and 2 reviews |
| MobileSeed.SeedEmptyTablesFirst | apps/mobile/src/db/seed.ts:60-78 | from empty, the first two steps store exactly the sample users and games |
| MobileSeed.InsertSeedReviewsFrame | apps/mobile/src/db/seed.ts:82-96 | the reviews loop touches only the reviews table and adds at most one row per turn |
| MobileSeed.InsertUsersFrame | apps/mobile/src/db/seed.ts:62-67 | the users loop touches only the users table |
| MobileSeed.InsertGamesFrame | apps/mobile/src/db/seed.ts:72-77 | the games loop touches only the games table |
| MobileSeed.SeedGuardsEachTable | apps/mobile/src/db/seed.ts:60-81 | each table is checked on its own: a non-empty table keeps its rows unchanged |
| MobileSeed.SeedIdempotent | apps/mobile/src/db/seed.ts:57-98 | seeding twice has the same effect as seeding once |
| MobileUserService.ListUsers | apps/mobile/src/services/userService.ts:9 | every user once, ordered by username |
| MobileUserService.GetUserById | apps/mobile/src/services/userService.ts:11 | the user with that id, or null exactly when there is none |
| MobileUserService.LoginWithUsername | apps/mobile/src/services/userService.ts:13-14 | a read-only exact lookup: the user with that username, or null exactly when none exists |
| MobileUserService.RegisterCheck | apps/mobile/src/services/userService.ts:16-23 | 'Username and email are required.' exactly when either is empty or missing; else 'Username already taken.' exactly when the name is stored; else the call proceeds |
| MobileUserService.RegisterUser | apps/mobile/src/services/userService.ts:16-25 | a refused call leaves the store unchanged; otherwise it is one user insert: a duplicate email fails at the store, a fresh one returns the requested user and adds exactly one row |
| MobileUserService.SecondRegistrationFails | apps/mobile/src/services/userService.ts:20-24 | after one successful registration the same registration is refused as taken |
| MobileUserService.DuplicateEmailFailsAtStore | apps/mobile/src/services/userService.ts:20-24 | a new username with a stored email passes the service's checks and is refused by the UNIQUE email index, changing nothing |
| MobileUserService.BlankUsernameNotRejected | apps/mobile/src/services/userService.ts:17 | the service does not trim: a username of spaces passes its checks |
| MobileGameService.ListGames | apps/mobile/src/services/gameService.ts:13 | every stored game exactly once (the same multiset of rows), ordered by title |
| MobileGameService.SearchGamesByQuery | apps/mobile/src/services/gameService.ts:15-20 | a blank query lists all games; any other query is `searchGames` |
| MobileGameService.SearchGamesByQueryIsSearch | apps/mobile/src/services/gameService.ts:15-20 | the blank-query shortcut gives the same result as the search itself |
| MobileGameService.RatingAggregate | apps/mobile/src/services/gameService.ts:29-38 | the count is the number of that game's reviews; the average is null exactly when the count is 0 and otherwise the sum of ratings over the count |
| MobileGameService.GetGameDetails | apps/mobile/src/services/gameService.ts:22-40 | null exactly for an unknown game; otherwise the game, its reviews newest first and the aggregate |
| MobileGameService.DetailsAgreeWithReviews | apps/mobile/src/services/gameService.ts:28-38 | under the foreign keys `reviewCount` is the length of `reviews`, the average is null exactly when `reviews` is empty and otherwise the mean of the ratings in `reviews` |
| MobileReviewService.ListRecentReviews | apps/mobile/src/services/reviewService.ts:5 | the recent list with the default limit 20: at most 20 items, the newest-first prefix |
| MobileReviewService.ListReviewsByUser | apps/mobile/src/services/reviewService.ts:7-8 | exactly that user's reviews (the same multiset of rows), each showing its user and game, ordered newest first |
| MobileReviewService.CreateReviewEntry | apps/mobile/src/services/reviewService.ts:10-15 | a rating outside [1, 5] fails with 'Rating must be between 1 and 5.' and changes nothing; any other rating (2.5 included) is `createReview`: a foreign-key error changes nothing; on success exactly one more review, and the one returned is the newest review of the (user, game) pair, which is the inserted row unless an earlier review of the pair has the same second |
| MobileSession.SessionStore.constructor | apps/mobile/src/store/sessionStore.ts:11 | the initial session user is null |
| MobileSession.SessionStore.SetUser | apps/mobile/src/store/sessionStore.ts:12 | the session user becomes exactly the argument |
| MobileSession.SessionStore.Logout | apps/mobile/src/store/sessionStore.ts:13 | the session user becomes null, whatever it was, as `setUser(null)` does |
| MobileSession.LogoutTwiceIsSetUserNull | apps/mobile/src/store/sessionStore.ts:12-13 | two logouts end in the same session as one `setUser(null)` |
| MobileAddReviewScreen.SubmitCheck | apps/mobile/src/screens/AddReviewScreen.tsx:38-58 | the first failing check decides: no user gives the sign-in message, then no game the select message, then a blank comment the comment message; a passing form yields the user's id, the game, the rating and the trimmed comment |
| MobileAddReviewScreen.SubmittedCommentIsTrimmed | apps/mobile/src/screens/AddReviewScreen.tsx:57 | the comment sent is the typed one trimmed |
| MobileAddReviewScreen.PickerRatingsAccepted | apps/mobile/src/screens/AddReviewScreen.tsx:109-113 | every star value 1..5 passes the service's range check |
| MobileAddReviewScreen.RangeErrorIsDistinct | apps/mobile/src/screens/AddReviewScreen.tsx:40-48 | the service's range message is none of the screen's messages nor the foreign-key error |
| MobileAddReviewScreen.AddReviewScreen.constructor | apps/mobile/src/screens/AddReviewScreen.tsx:22-25 | the form opens with the route's game, rating 4, an empty comment and no error |
| MobileAddReviewScreen.AddReviewScreen.SelectDefaultGame | apps/mobile/src/screens/AddReviewScreen.tsx:27-31 | with no game selected and games loaded, the first game is selected; otherwise nothing changes |
| MobileAddReviewScreen.AddReviewScreen.PressGame | apps/mobile/src/screens/AddReviewScreen.tsx:93 | pressing a game selects it and changes nothing else |
| MobileAddReviewScreen.AddReviewScreen.PressStar | apps/mobile/src/screens/AddReviewScreen.tsx:109-113 | pressing star `index` sets the rating to `index + 1`, keeping it in 1..5 |
| MobileAddReviewScreen.AddReviewScreen.EditComment | apps/mobile/src/screens/AddReviewScreen.tsx:24 | typing replaces the comment only |
| MobileAddReviewScreen.AddReviewScreen.HandleSubmit | apps/mobile/src/screens/AddReviewScreen.tsx:38-63 | a failed check shows its message and makes no mutation; a passing form is one `createReviewEntry`; any failure's message is shown; the range error never comes from this screen |
| MobileLoginScreen.LoginDecision | apps/mobile/src/screens/LoginScreen.tsx:14-30 | a blank username gives 'Username is required.' without a lookup; the trimmed name found signs in that user; not found gives 'No user found. Sign up to create an account.' |
| MobileLoginScreen.LoginScreen.constructor | apps/mobile/src/screens/LoginScreen.tsx:11-12 | the form opens empty with no error |
| MobileLoginScreen.LoginScreen.EditUsername | apps/mobile/src/screens/LoginScreen.tsx:11 | typing replaces the username only |
| MobileLoginScreen.LoginScreen.HandleSubmit | apps/mobile/src/screens/LoginScreen.tsx:14-30 | a found user becomes the session user; a refusal shows its message and leaves the session unchanged; the database is only read |
| MobileSignupScreen.SignupPayload | apps/mobile/src/screens/SignupScreen.tsx:16-26 | 'Both username and email are required.' exactly when either trimmed field is empty; otherwise the credentials sent |
| MobileSignupScreen.PayloadIsTrimmed | apps/mobile/src/screens/SignupScreen.tsx:22-26 | username and email go out trimmed; the avatar is left out exactly when it is blank, else sent trimmed |
| MobileSignupScreen.PayloadPassesRequiredCheck | apps/mobile/src/screens/SignupScreen.tsx:17-26 | what the form sends never triggers the service's "required" refusal |
| MobileSignupScreen.SignupScreen.constructor | apps/mobile/src/screens/SignupScreen.tsx:11-14 | the form opens empty with no error |
| MobileSignupScreen.SignupScreen.EditFields | apps/mobile/src/screens/SignupScreen.tsx:11-13 | typing replaces the three fields only |
| MobileSignupScreen.SignupScreen.HandleSubmit | apps/mobile/src/screens/SignupScreen.tsx:16-32 | a form error or failed registration shows its message and leaves the session unchanged; success makes the returned user the session user |
| BackendPosts.Published | apps/backend/src/posts/posts.service.ts:24-29 | exactly the rows with a non-null `publishedAt`, each once, ordered by `createdAt` descending |
| BackendPosts.AllNewestFirst | apps/backend/src/posts/posts.service.ts:52-57 | every row once, drafts included, ordered by `createdAt` descending |
| BackendPosts.PostWithSlug | apps/backend/src/posts/posts.service.ts:40-44 | a stored post with that slug, or none exactly when no row has it |
| BackendPosts.PostWithId | apps/backend/src/posts/posts.service.ts:76 | a stored post with that id, or none exactly when no row has it |
| BackendPosts.InsertResult | apps/backend/src/posts/post.entity.ts:6-11 | an insert fails exactly when the id or the slug is already stored; otherwise the row is appended and ids and slugs stay unique |
| BackendPosts.UpdateResult | apps/backend/src/posts/post.entity.ts:9-11 | saving a loaded entity fails exactly when another row holds its slug; otherwise that row is replaced, all others kept, uniqueness kept |
| BackendPosts.Replaced | apps/backend/src/posts/posts.service.ts:86 | the row with the entity's id is replaced in place (or the entity appended), every other row kept |
| BackendPosts.IndexOfId | apps/backend/src/posts/posts.service.ts:76 | the first position holding that id, or the length when none |
| BackendPosts.DeleteResult | apps/backend/src/posts/posts.service.ts:99 | exactly the rows with that id disappear; uniqueness is kept |
| BackendPosts.PostTable.constructor | apps/backend/src/posts/post.entity.ts:3-31 | the table holds the given rows |
| BackendPosts.PostTable.Insert | apps/backend/src/posts/posts.service.ts:67 | a refused insert reports its constraint and changes nothing; otherwise the row is appended |
| BackendPosts.PostTable.Update | apps/backend/src/posts/posts.service.ts:86 | a slug clash reports the UNIQUE error and changes nothing; otherwise the table is `UpdateResult` |
| BackendPosts.PostTable.Delete | apps/backend/src/posts/posts.service.ts:99 | the table becomes `DeleteResult` |
| BackendPosts.CachedRead | apps/backend/src/app.module.ts:23-26 | a `.cache(true)` statement returns the table's current rows or a result stored within the last minute; a missing or expired entry is refilled with the current rows and the current instant; no other entry changes |
| BackendPosts.QueryResultCache.constructor | apps/backend/src/app.module.ts:23-26 | the cache holds the given stored results |
| BackendPosts.QueryResultCache.Read | apps/backend/src/posts/posts.service.ts:28 | the rows and new entries are those of `CachedRead` |
| BackendPosts.QueryResultCache.Clear | apps/backend/src/app.module.ts:23-26 | no stored result remains |
| BackendPosts.StaleWithinDuration | apps/backend/src/app.module.ts:23-26 | a published list read again within a minute is the stored list, which lacks a published post added to the table since |
| BackendPostsService.CreateEntity | apps/backend/src/posts/posts.service.ts:59-66 | the created post keeps the given title, slug and content, a missing summary is null, `publishedAt` is the given date when truthy and now otherwise, so it is always published; a missing slug is refused by the NOT NULL column |
| BackendPostsService.Merge | apps/backend/src/posts/posts.service.ts:80-84 | the merge keeps id and timestamps and never turns a published post back into a draft |
| BackendPostsService.Updated | apps/backend/src/posts/posts.service.ts:80-86 | `updatedAt` moves to now exactly when some column changed |
| BackendPostsService.EmptyUpdateIsNoOp | apps/backend/src/posts/dto/update-post.dto.ts:3-29 | the empty update body changes nothing, `updatedAt` included |
| BackendPostsService.MergeIdempotent | apps/backend/src/posts/posts.service.ts:80-84 | applying the same update twice equals applying it once |
| BackendPostsService.MergeFields | apps/backend/src/posts/posts.service.ts:80-84 | each given field replaces the stored one and each absent one is kept; a falsy `publishedAt` keeps the stored date |
| BackendPostsService.PostsService.constructor | apps/backend/src/posts/posts.service.ts:10-14 | a new service holds no cache and expiry 0, over the given table and query-result cache |
| BackendPostsService.PostsService.FindPublished | apps/backend/src/posts/posts.service.ts:16-36 | a held, unexpired service cache (even an empty one) is served with nothing changed; otherwise the result is the published query through TypeORM's cache (the table's current list, or a list stored there within the last minute), and the service cache is refilled with expiry now + 60000 |
| BackendPostsService.PostsService.FindBySlug | apps/backend/src/posts/posts.service.ts:38-50 | the slug query goes through TypeORM's cache; 'Post not found' exactly when the rows read are empty; with no fresh entry for the slug, the post with that slug, or not found exactly when no row has it |
| BackendPostsService.PostsService.FindAll | apps/backend/src/posts/posts.service.ts:52-57 | every row once, newest first |
| BackendPostsService.PostsService.InvalidateCache | apps/backend/src/posts/posts.service.ts:107-110 | the service cache is dropped and the expiry is 0; the query-result cache is left as it was (cleared only in the corrected service) |
| BackendPostsService.PostsService.CreateOne | apps/backend/src/posts/posts.service.ts:59-73 | a refused row is the error with table and both caches untouched; a saved one is appended and the service cache is cleared, while TypeORM's cached results stay |
| BackendPostsService.PostsService.UpdateOne | apps/backend/src/posts/posts.service.ts:75-92 | an unknown id is 'Post not found' with table and both caches untouched; otherwise the merged row is saved (unchanged `updatedAt` when nothing changed) and the service cache is cleared, while TypeORM's cached results stay |
| BackendPostsService.PostsService.DeleteOne | apps/backend/src/posts/posts.service.ts:94-105 | an unknown id is 'Post not found' with table and both caches untouched; otherwise exactly that post goes, the result is `deleted: true`, and the service cache is cleared, while TypeORM's cached results stay |
| BackendPostsService.StaleListAfterCreate | apps/backend/src/posts/posts.service.ts:18-33 | as written: a list read, a create, and a read within a minute of the first give the same list, which lacks the new published post |
| BackendPostsService.FreshListAfterCreate | apps/backend/src/posts/posts.service.ts:107-110 | corrected: with the query-result cache cleared on every write, the read after a create is the table's published list, new post included |
| BackendPostsService.CreatedPostIsListed | apps/backend/src/posts/posts.service.ts:59-67 | a stored new post is in the published list and is found by its slug |
| BackendPostsService.DeletedPostIsGone | apps/backend/src/posts/posts.service.ts:94-105 | after deletion the post is not found by id or slug and is not published |
| BackendSeedPosts.SamplePost | apps/backend/src/posts/seed-posts.service.ts:19-119 | sample `i` has the listed slug; the first three are published now, one day and two days ago, the fourth is a draft |
| BackendSeedPosts.SampleRows | apps/backend/src/posts/seed-posts.service.ts:121-125 | the first `n` samples in list order |
| BackendSeedPosts.SampleSlugsDistinct | apps/backend/src/posts/seed-posts.service.ts:19-125 | the four sample slugs are pairwise different |
| BackendSeedPosts.SampleInsertAccepted | apps/backend/src/posts/seed-posts.service.ts:121-125 | with distinct ids each sample is accepted by the table holding the earlier ones |
| BackendSeedPosts.SeedSamplePosts | apps/backend/src/posts/seed-posts.service.ts:12-128 | a table with any row is left unchanged; an empty one gets the samples in order, all four when the ids are distinct, and a refused save stops with the rows saved so far |
| BackendSeedPosts.SeededListing | apps/backend/src/posts/seed-posts.service.ts:19-125 | after seeding exactly the first three samples are published (the draft is not) and each slug finds its sample |
| BackendPostDtos.TextLength | apps/backend/src/posts/dto/create-post.dto.ts:5-6 | the validator's length count never exceeds the code-point count and equals it when no presentation selector occurs |
| BackendPostDtos.ValidateCreate | apps/backend/src/posts/dto/create-post.dto.ts:3-27 | after each string property is converted with `String(value)` (a number or boolean to its text, an object to "[object Object]", null and arrays kept), a body passes exactly when it has only declared properties, a 3..200 title, an optional 3..200 slug, content of length at least 1, an optional summary of at most 500 and an optional ISO-8601 date; the input holds the converted texts; a failure is a Bad Request |
| BackendPostDtos.ValidateUpdate | apps/backend/src/posts/dto/update-post.dto.ts:3-29 | after the same `String(value)` conversion, a body passes exactly when every present field meets its constraint and no undeclared property is present; the input holds the converted texts, null and missing fields absent |
| BackendPostDtos.PutOpt | apps/backend/src/posts/dto/create-post.dto.ts:19-26 | an optional property is present in the body exactly when it is given |
| BackendPostDtos.CreateBody | apps/backend/src/posts/dto/create-post.dto.ts:3-27 | the body a client sends holds declared properties only |
| BackendPostDtos.KeysDistinct | apps/backend/src/posts/dto/create-post.dto.ts:7-26 | the five property names are pairwise different |
| BackendPostDtos.CreateRoundTrip | apps/backend/src/posts/dto/create-post.dto.ts:3-27 | validating the body of an input gives the input back, and the body is accepted exactly when the input meets every field constraint |
| BackendPostDtos.EmptyUpdateBodyValid | apps/backend/src/posts/dto/update-post.dto.ts:3-29 | the empty body is a valid update with no fields |
| BackendPostDtos.UnknownPropertyRefused | apps/backend/src/main.ts:33-36 | an undeclared property fails both validations |
| BackendPostDtos.ImplicitConversionAccepted | apps/backend/src/main.ts:32-40 | a create body with the number 12345 as title and `true` as content is accepted as title "12345" and content "true" |
| BackendPostDtos.ObjectConverted | apps/backend/src/main.ts:32-40 | an object as summary is accepted as the text "[object Object]" |
| BackendPostDtos.ArrayRefused | apps/backend/src/posts/dto/update-post.dto.ts:4-8 | an array as title is refused |
| BackendPostDtos.ValidatedCreateWithoutSlugFails | apps/backend/src/posts/dto/create-post.dto.ts:9-13 | a body without a slug passes the DTO, yet the entity it gives is refused by the NOT NULL slug column |
| BackendUsers.UserWithEmail | apps/backend/src/users/seed.service.ts:16 | none exactly when no row has the email; otherwise a row of the table with that email |
| BackendUsers.UserWithEmailUnique | apps/backend/src/users/user.entity.ts:10-11 | with unique emails, looking up a row's email finds that row |
| BackendUsers.InsertUserRow | apps/backend/src/users/user.entity.ts:6-11 | the insert is refused exactly when the id or the email is already taken; otherwise the row is appended and ids and emails stay unique |
| BackendUsers.EnvOr | apps/backend/src/users/seed.service.ts:14-15 | an unset or empty variable gives the default, any other value is used as is |
| BackendUsers.SeedAdminResult | apps/backend/src/users/seed.service.ts:13-24 | a table that already holds the admin email is kept; otherwise the admin row is inserted |
| BackendUsers.AdminRow | apps/backend/src/users/seed.service.ts:20-21 | the admin row has the configured email, role admin and the hash of the configured password |
| BackendUsers.UserTable.constructor | apps/backend/src/users/user.entity.ts:5-24 | the table holds the given rows |
| BackendUsers.UserTable.SeedAdmin | apps/backend/src/users/seed.service.ts:13-24 | the new rows are the seed result; a refused save leaves the table as it was |
| BackendUsers.SeedAdminIdempotent | apps/backend/src/users/seed.service.ts:16-19 | seeding a second time, with any new id, leaves the table the first run made |
| BackendUsers.ExecuteLogin | apps/backend/src/auth/auth.service.ts:19-30 | an unknown email and a wrong password fail with the same "Invalid credentials"; a success signs the stored user's id and role |
| BackendUsers.StoredUserLogsIn | apps/backend/src/auth/auth.service.spec.ts:19-25 | a stored user giving a password that matches the stored hash receives the token for that user |
| BackendUsers.SeededAdminLogsIn | apps/backend/src/users/seed.service.ts:14-22 | after seeding a table without the admin, the configured password logs the admin in |
| BackendUploads.StripTrailingSlashes | apps/backend/src/uploads/uploads.controller.ts:28 | a prefix of the path, not ending in '/', with only slashes removed |
| BackendUploads.LastSegment | apps/backend/src/uploads/uploads.controller.ts:28 | a suffix of the path without '/', preceded by '/' when shorter than the path |
| BackendUploads.LastDot | apps/backend/src/uploads/uploads.controller.ts:28 | -1 or the position of a '.' with no '.' after it |
| BackendUploads.Extname | apps/backend/src/uploads/uploads.controller.ts:28-32 | empty or a '.' followed by no '.' or '/', and a suffix of the path's last segment |
| BackendUploads.UniquePrefix | apps/backend/src/uploads/uploads.controller.ts:27 | a name part of at least three characters with no '.' and no '/' |
| BackendUploads.Origin | apps/backend/src/uploads/uploads.controller.ts:40 | PUBLIC_URL when set and non-empty, otherwise the request's protocol and host |
| BackendUploads.Upload | apps/backend/src/uploads/uploads.controller.ts:23-42 | a refused extension leaves no file, so the handler fails; an accepted one over 5 MiB is too large; otherwise the reply URL is the origin plus /uploads/ plus the stored name |
| BackendUploads.LastSegmentNoSlash | apps/backend/src/uploads/uploads.controller.ts:28 | a name without '/' is its own last segment |
| BackendUploads.LastDotAt | apps/backend/src/uploads/uploads.controller.ts:28 | the last '.' is the one with no '.' after it |
| BackendUploads.ExtnameOfJoin | apps/backend/src/uploads/uploads.controller.ts:27-28 | the stored name's extension is exactly the extension appended to the unique prefix |
| BackendUploads.AllowedShape | apps/backend/src/uploads/uploads.controller.ts:15 | each whitelisted extension is '.' followed by lower-case letters |
| BackendUploads.StoredFileKeepsExtension | apps/backend/src/uploads/uploads.controller.ts:26-34 | the stored name carries the lower-cased accepted extension and would itself pass the filter |
| BackendUploads.UpperCaseExtensionAccepted | apps/backend/src/uploads/uploads.controller.ts:32-33 | the filter lower-cases before testing, so "A.PNG" is accepted |
| BackendUploads.LastExtensionOnly | apps/backend/src/uploads/uploads.controller.ts:32-33 | "photo.png.exe" and the dot-file ".png" are refused |
| BackendBackup.Dashed | apps/backend/backup-db.js:7 | same length, every ':' and '.' replaced by '-' and nothing else changed |
| BackendBackup.BackupNameRotates | apps/backend/backup-db.js:7-24 | the name written matches the rotation's filter and holds no ':' |
| BackendBackup.NewestFirst | apps/backend/backup-db.js:23-30 | exactly the listed backup files, each as often as listed, newest modification time first |
| BackendBackup.Surplus | apps/backend/backup-db.js:32-33 | only listed backup files are deleted |
| BackendBackup.BackupDir.constructor | apps/backend/backup-db.js:6 | the directory holds the given files |
| BackendBackup.BackupDir.UnlinkAll | apps/backend/backup-db.js:33-36 | exactly the named files are removed |
| BackendBackup.BackupDir.RotateBackups | apps/backend/backup-db.js:22-39 | the surplus is removed and the total printed is the number of backups capped at five |
| BackendBackup.BackupDir.RunBackup | apps/backend/backup-db.js:10-39 | without a database the status is 1 and nothing is written; otherwise the copy is added under its timestamped name and the rotation runs |
| BackendBackup.SurplusIsTail | apps/backend/backup-db.js:32-33 | the deleted names are the sorted backups after the fifth, each once |
| BackendBackup.OthersUntouched | apps/backend/backup-db.js:24 | a file that is not a backup is never deleted |
| BackendBackup.KeptAreNewest | apps/backend/backup-db.js:30-33 | every kept backup is at least as new as every deleted one |
| BackendBackup.NewestFirstNoDup | apps/backend/backup-db.js:23-30 | sorting a listing without repeats gives a list without repeats |
| BackendBackup.NewestFiveKept | apps/backend/backup-db.js:32 | the five newest backups, or all when fewer, are kept |
| BackendBackup.FreshBackupKept | apps/backend/backup-db.js:19-33 | the backup just written, newer than every other file, survives the rotation |
| Common.TrimStart | apps/mobile/src/screens/SignupScreen.tsx:23-25 | a suffix of the input whose dropped prefix is all whitespace and which does not start with whitespace |
| Common.TrimEnd | apps/mobile/src/screens/SignupScreen.tsx:23-25 | a prefix of the input whose dropped suffix is all whitespace and which does not end with whitespace |
| Common.Trim | apps/mobile/src/screens/SignupScreen.tsx:23-25 | a slice of the input with only whitespace cut on either side, neither starting nor ending with whitespace |
| Common.TrimEmptyIffBlank | apps/mobile/src/screens/SignupScreen.tsx:17 | `!s.trim()` holds exactly when every character is whitespace (the empty string included) |
| Common.BlankTrimEnd | apps/mobile/src/screens/LoginScreen.tsx:15 | a blank string trims to nothing from the end |
| Common.LowerAsciiString | apps/backend/src/uploads/uploads.controller.ts:28-32 | same length, each character lower-cased |
| Common.NatToDecimal | apps/backend/src/uploads/uploads.controller.ts:27 | a non-empty string of digits with no leading zero, as `String(n)` writes it |
| Common.DecimalRoundTrip | apps/backend/src/uploads/uploads.controller.ts:27 | reading back the decimal text of a number gives the number |
| Common.DecimalInjective | apps/backend/src/uploads/uploads.controller.ts:27 | different numbers have different decimal texts |
| FrontendJson.HexDigit | apps/frontend/src/store/slices/auth-slice.ts:36 | the digit written for a value below 16 reads back as that value |
| FrontendJson.EscapeChar | apps/frontend/src/store/slices/auth-slice.ts:36 | a character is written as itself unless it is a quote, a backslash or a control character, and the written form never starts with a quote or a control character |
| FrontendJson.Prepend | apps/frontend/src/store/slices/auth-slice.ts:18 | adding a decoded character keeps success and failure and extends the decoded text |
| FrontendJson.ParseStringBody | apps/frontend/src/store/slices/auth-slice.ts:18 | what remains after a string literal is strictly shorter than the input |
| FrontendJson.EscapeCharReadsBack | apps/frontend/src/store/slices/auth-slice.ts:17-37 | each written character reads back as itself and reading continues after it |
| FrontendJson.EscapeReadsBack | apps/frontend/src/store/slices/auth-slice.ts:17-37 | the literal written for any text reads back as that text and stops at the closing quote |
| FrontendJson.Expect | apps/frontend/src/store/slices/auth-slice.ts:18 | succeeds exactly when the input starts with the literal, giving what follows it |
| FrontendJson.ParseNullableString | apps/frontend/src/store/slices/auth-slice.ts:18 | what remains is strictly shorter than the input |
| FrontendJson.NullableStringReadsBack | apps/frontend/src/store/slices/auth-slice.ts:17-37 | a string or null reads back as itself whatever follows |
| FrontendJson.ParseBool | apps/frontend/src/store/slices/auth-slice.ts:18 | what remains is strictly shorter than the input |
| FrontendJson.BoolReadsBack | apps/frontend/src/store/slices/auth-slice.ts:17-37 | a boolean reads back as itself whatever follows |
| FrontendAuth.ParseFlagReadsBack | apps/frontend/src/store/slices/auth-slice.ts:17-37 | the written flag field closes the object and reads back the whole state |
| FrontendAuth.ParseRoleReadsBack | apps/frontend/src/store/slices/auth-slice.ts:17-37 | the written role field and what follows read back the whole state |
| FrontendAuth.ParseSerialize | apps/frontend/src/store/slices/auth-slice.ts:17-37 | every state reads back from the text `JSON.stringify` writes for it |
| FrontendAuth.InitialState | apps/frontend/src/store/slices/auth-slice.ts:9-23 | logged out without a window, without a saved value or with an empty one; in every case authenticated exactly when a non-empty token is held |
| FrontendAuth.AuthSlice.constructor | apps/frontend/src/store/slices/auth-slice.ts:25-29 | the slice starts from the restored state |
| FrontendAuth.AuthSlice.LoginSuccess | apps/frontend/src/store/slices/auth-slice.ts:31-38 | the payload's token and role, authenticated, and with a window the state saved under "auth" |
| FrontendAuth.AuthSlice.Logout | apps/frontend/src/store/slices/auth-slice.ts:39-46 | everything cleared, and with a window the saved state removed |
| FrontendAuth.LoginRestores | apps/frontend/src/store/slices/auth-slice.ts:13-37 | a login with a non-empty token is restored as the same state at the next start |
| FrontendAuth.EmptyTokenRestoresLoggedOut | apps/frontend/src/store/slices/auth-slice.ts:19 | a login with the empty token restores as not authenticated while keeping the token |
| FrontendAuth.LogoutRestoresLoggedOut | apps/frontend/src/store/slices/auth-slice.ts:14-45 | after a logout the next start is logged out |
| FrontendAuth.GarbageRestoresLoggedOut | apps/frontend/src/store/slices/auth-slice.ts:20-21 | a saved text that does not parse is ignored |
| FrontendAuth.Guard | apps/frontend/src/components/admin-guard.tsx:15-28 | the children render exactly for an authenticated admin; otherwise the route is replaced by the login page |
| FrontendAuth.ShouldShowButton | apps/frontend/src/components/auth-nav-actions.tsx:18-20 | the logout button shows exactly for a hydrated, authenticated non-admin |
| FrontendAuth.GuardAndButtonSplitSignedIn | apps/frontend/src/components/admin-guard.tsx:15-17 | once hydrated, a signed-in user passes the guard or sees the button, never both and never neither; a signed-out one gets neither |
| FrontendAuth.ReducersDriveViews | apps/frontend/src/store/slices/auth-slice.spec.ts:5-19 | an admin login passes the guard, a user login shows the button, and after a logout the guard redirects and the button is hidden |
| FrontendCacheInvalidation.MutationCalls | apps/frontend/src/lib/cache-invalidation.ts:74-98 | an error "Unknown action: ..." exactly for an action other than create, update and delete |
| FrontendCacheInvalidation.Performed | apps/frontend/src/lib/cache-invalidation.ts:10-21 | the calls before the first that throws, in order |
| FrontendCacheInvalidation.FirstError | apps/frontend/src/lib/cache-invalidation.ts:18-21 | none exactly when no call throws, otherwise the error of the first call that does |
| FrontendCacheInvalidation.PerformedAppend | apps/frontend/src/lib/cache-invalidation.ts:84-95 | running two call lists in turn performs the second only when the first did not throw |
| FrontendCacheInvalidation.PerformedIs | apps/frontend/src/lib/cache-invalidation.ts:10-21 | the calls performed are those before the first that throws |
| FrontendCacheInvalidation.RevalidationLog.constructor | apps/frontend/src/lib/cache-invalidation.ts:3 | nothing revalidated yet |
| FrontendCacheInvalidation.RevalidationLog.Revalidate | apps/frontend/src/lib/cache-invalidation.ts:12-15 | a call that does not throw is recorded, one that throws is not |
| FrontendCacheInvalidation.RevalidationLog.InvalidatePostsList | apps/frontend/src/lib/cache-invalidation.ts:9-22 | the posts-list tag then the home page, up to the first error, which is rethrown |
| FrontendCacheInvalidation.RevalidationLog.InvalidatePost | apps/frontend/src/lib/cache-invalidation.ts:29-47 | the post tags, the post page, the posts-list tag and the home page, up to the first error |
| FrontendCacheInvalidation.RevalidationLog.InvalidateAllPosts | apps/frontend/src/lib/cache-invalidation.ts:53-68 | both tags and both pages, up to the first error |
| FrontendCacheInvalidation.RevalidationLog.InvalidateCacheAfterMutation | apps/frontend/src/lib/cache-invalidation.ts:74-103 | an unknown action revalidates nothing and fails; a known one performs its calls up to the first error |
| FrontendCacheInvalidation.KnownActionsRefreshList | apps/frontend/src/lib/cache-invalidation.ts:79-95 | every known action revalidates the posts list and the home page, and an update without a slug every post page |
| FrontendCacheInvalidation.NoErrorRevalidatesPost | apps/frontend/src/lib/cache-invalidation.ts:83-95 | an update or delete with a slug, all calls succeeding, revalidates that post's tag and page together with the list |
| FrontendCacheInvalidation.ErrorsPropagate | apps/frontend/src/lib/cache-invalidation.ts:99-102 | a known action reports an error exactly when one of its calls throws |
| FrontendMarkdown.UrlEnd | apps/frontend/src/components/posts-list-client.tsx:36 | the first ')' before any line terminator, or none when there is no such ')' |
| FrontendMarkdown.AltSearch | apps/frontend/src/components/posts-list-client.tsx:36 | the lazy alt text's first closing that leads to a match, no earlier one matching, or none when no later one does |
| FrontendMarkdown.MatchFrom | apps/frontend/src/components/posts-list-client.tsx:36-37 | the leftmost match from a position, or none when no start from there matches |
| FrontendMarkdown.ExtractFirstImage | apps/frontend/src/components/posts-list-client.tsx:33-39 | null exactly when nothing matches; otherwise the URL group of the leftmost, shortest match |
| FrontendMarkdown.FirstMatchUnique | apps/frontend/src/components/posts-list-client.tsx:36-37 | there is one first match |
| FrontendMarkdown.UrlClosesUnique | apps/frontend/src/components/posts-list-client.tsx:36 | the lazy URL group closes at one place |
| FrontendMarkdown.ExtractFindsFirstMatch | apps/frontend/src/components/posts-list-client.tsx:37-38 | the URL of whatever first match there is, is what is returned |
| FrontendMarkdown.ExtractedUrlShape | apps/frontend/src/components/posts-list-client.tsx:36 | the URL holds no ')' and no line terminator |
| FrontendMarkdown.InsertImage | apps/frontend/src/app/admin/posts/new/page.tsx:28-31 | the previous content, nothing when unset, followed by the image on its own line |
| FrontendMarkdown.MatchStaysInPrefix | apps/frontend/src/components/posts-list-client.tsx:36 | text after a line terminator does not change the matches that start before it |
| FrontendMarkdown.MatchInExtension | apps/frontend/src/components/posts-list-client.tsx:36 | a match of the extended text that starts before the line terminator is a match of the prefix |
| FrontendMarkdown.MatchExtends | apps/frontend/src/components/posts-list-client.tsx:36 | a match stays a match when text is appended |
| FrontendMarkdown.AppendedImageMatches | apps/frontend/src/app/admin/posts/new/page.tsx:29 | the inserted image matches right after its line break |
| FrontendMarkdown.NoMatchBeforeAppended | apps/frontend/src/app/admin/posts/new/page.tsx:29-30 | with no image in the content, nothing matches before the appended one |
| FrontendMarkdown.InsertedImageIsExtracted | apps/frontend/src/app/admin/posts/new/page.tsx:28-31 | an image inserted into content without one becomes the preview, provided its URL has no ')' or line break |
| FrontendMarkdown.FirstMatchExtends | apps/frontend/src/components/posts-list-client.tsx:36-37 | a first match stays first when text starting with a line terminator is appended |
| FrontendMarkdown.InsertKeepsFirstImage | apps/frontend/src/app/admin/posts/new/page.tsx:28-31 | inserting into content that has an image keeps its first image |
| FrontendMarkdown.LazyAltExample | apps/frontend/src/components/posts-list-client.tsx:36 | "![a](b)](c)" gives "b" |
| FrontendMarkdown.NoMatchAcrossLines | apps/frontend/src/components/posts-list-client.tsx:36 | "![a\n](b)" has no image |
| FrontendPostsList.SortedPosts | apps/frontend/src/components/posts-list-client.tsx:95-102 | a permutation of the posts ordered by publication time, newest first, an unset date counting as 0 |
| FrontendPostsList.HomePosts | apps/frontend/src/app/page.tsx:108-120 | the sorted data, or nothing while there is none |
| FrontendPostsList.SortedPostsSameMembers | apps/frontend/src/components/posts-list-client.tsx:96-97 | a post is in the sorted list exactly when it is in the input |
| FrontendPostsList.UndatedAfterDated | apps/frontend/src/components/posts-list-client.tsx:97-100 | an undated post comes after every post dated after 1970 |
| FrontendPostsList.FormatDate | apps/frontend/src/components/posts-list-client.tsx:9-13 | empty for a null or empty date, the locale's rendering otherwise |
| FrontendPostsList.PreviewImage | apps/frontend/src/components/posts-list-client.tsx:44-78 | the first image's URL when it is non-empty, otherwise no image |
| FrontendPostsList.EmptyUrlNotShown | apps/frontend/src/components/posts-list-client.tsx:69 | "![]()" has an image with an empty URL, which is not shown |
| FrontendNewPost.Utf16Length | apps/frontend/src/app/admin/posts/new/page.tsx:13-15 | between one and two units per character, one when all are in the BMP |
| FrontendNewPost.NewPostForm.constructor | apps/frontend/src/app/admin/posts/new/page.tsx:25 | the form holds the given values |
| FrontendNewPost.NewPostForm.HandleInsertImage | apps/frontend/src/app/admin/posts/new/page.tsx:28-31 | the content becomes the image inserted after the old content; the other fields are kept |
| FrontendNewPost.InsertedImageSatisfiesSchema | apps/frontend/src/app/admin/posts/new/page.tsx:12-18 | after an insertion the content meets the schema whatever it was before |
| FrontendNewPost.FormBody | apps/frontend/src/app/admin/posts/new/page.tsx:33-34 | the date is in the body exactly when the form has one, as it is |
| FrontendNewPost.EmptyDateRefused | apps/frontend/src/app/admin/posts/new/page.tsx:17-34 | a form submitted with an empty date is refused by the backend's validation |
| FrontendNewPost.DropEmpty | apps/frontend/src/app/admin/posts/new/page.tsx:16-17 | present exactly when the input is non-empty, and then the same |
| FrontendNewPost.CorrectedEmptyDateAccepted | apps/frontend/src/app/admin/posts/new/page.tsx:12-34 | with empty inputs left out, a form within the backend's limits passes validation even with no date, and the post is published at creation |
| FrontendAdminPosts.DeleteDialog.constructor | apps/frontend/src/app/admin/posts/page.tsx:59-61 | closed with nothing selected |
| FrontendAdminPosts.DeleteDialog.HandleOpenDialog | apps/frontend/src/app/admin/posts/page.tsx:72-76 | open with the row's id and title selected |
| FrontendAdminPosts.DeleteDialog.HandleCloseDialog | apps/frontend/src/app/admin/posts/page.tsx:78-84 | closing clears the selection, opening keeps it |
| FrontendAdminPosts.DeleteDialog.HandleDelete | apps/frontend/src/app/admin/posts/page.tsx:63-70 | with a selection the delete request for it, then closed and cleared on success and unchanged on failure; without one no request |
| FrontendAdminPosts.OpenThenConfirm | apps/frontend/src/app/admin/posts/page.tsx:63-76 | opening for a post and confirming deletes exactly that post and closes the dialog |
| FrontendAdminPosts.OpenCancelConfirm | apps/frontend/src/app/admin/posts/page.tsx:63-84 | opening and cancelling, then confirming, requests no deletion |
| FrontendEditor.UploadPrecheck | apps/frontend/src/components/tiptap-editor.tsx:75-89 | skipped without a token or editor; then too large above 5 MiB; then refused for a type off the list; otherwise sent |
| FrontendEditor.SizeCheckedBeforeType | apps/frontend/src/components/tiptap-editor.tsx:79-89 | an oversized file is too large whatever its type; exactly 5 MiB passes |
| FrontendEditor.ReplyImage | apps/frontend/src/components/tiptap-editor.tsx:102-109 | an image exactly for an ok JSON reply with a non-empty url, and then that url |
| FrontendEditor.TiptapEditor.constructor | apps/frontend/src/components/tiptap-editor.tsx:34-67 | the editor holds the given content, no image, no link, not uploading |
| FrontendEditor.TiptapEditor.SyncContent | apps/frontend/src/components/tiptap-editor.tsx:69-73 | new content is pushed exactly when there is an editor and it differs from the editor's HTML |
| FrontendEditor.TiptapEditor.BeginUpload | apps/frontend/src/components/tiptap-editor.tsx:75-100 | a request exactly when the checks pass, to the API's /admin/uploads with the bearer token and the progress flag raised; the matching alert for a refused file |
| FrontendEditor.TiptapEditor.FinishUpload | apps/frontend/src/components/tiptap-editor.tsx:102-116 | the image inserted when the reply names one, the failure alert when the request failed, the flag lowered and the file input cleared |
| FrontendEditor.TiptapEditor.AddImage | apps/frontend/src/components/tiptap-editor.tsx:130-135 | a non-empty prompted URL is inserted when there is an editor |
| FrontendEditor.TiptapEditor.SetLink | apps/frontend/src/components/tiptap-editor.tsx:137-153 | a cancelled prompt changes nothing, an empty answer removes the link, another answer becomes its target |
| FrontendEditor.UploadScenario | apps/frontend/src/components/tiptap-editor.tsx:91-116 | the flag is up while the request is out and down after it, and the image appears when the reply carries its URL |
| FrontendLocaleTheme.OccursFrom | apps/frontend/src/i18n/request.ts:10 | true exactly when the substring occurs at some position from the given one |
| FrontendLocaleTheme.Locale | apps/frontend/src/i18n/request.ts:7-10 | "en" exactly when the header (empty when missing) contains "en", "tr" otherwise |
| FrontendLocaleTheme.MessagesFile | apps/frontend/src/i18n/request.ts:14 | the messages path under ../../messages/ ending in the locale's .json |
| FrontendLocaleTheme.MessagesFileIsBundled | apps/frontend/src/i18n/request.ts:10-14 | only en.json or tr.json is ever loaded |
| FrontendLocaleTheme.LocaleExamples | apps/frontend/src/i18n/request.ts:5-10 | English headers get "en"; no header, "tr-TR" and the upper-case "EN" get "tr" |
| FrontendLocaleTheme.ThemeRule | apps/frontend/src/components/theme-script.tsx:8-10 | no stored theme follows the system, "dark" is dark, "system" follows the system, anything else is light |
| FrontendLocaleTheme.DocumentElement.constructor | apps/frontend/src/app/layout.tsx:115 | the element holds the given classes |
| FrontendLocaleTheme.DocumentElement.ApplyInlineScript | apps/frontend/src/app/layout.tsx:121-126 | adds dark when the rule says so; never removes it, and a throwing storage changes nothing |
| FrontendLocaleTheme.DocumentElement.ApplyThemeScript | apps/frontend/src/components/theme-script.tsx:6-15 | with readable storage, dark is set exactly when the rule says so and no other class changes; a throwing storage aborts the effect and changes nothing |
| FrontendLocaleTheme.InlineScriptOnLightPage | apps/frontend/src/app/layout.tsx:118-126 | on a page served without the class and with readable storage, dark is set exactly when the rule says so and no other class changes; throwing storage leaves the page light |
| FrontendLocaleTheme.InlineNeverRemovesDark | apps/frontend/src/app/layout.tsx:121-125 | a page that already has dark keeps it, even with "light" stored, which the rule calls light |

## Left out

- React and React Native rendering, styling and animation are left out; only the state the handlers change is modelled.
- HTTP routing, the NestJS module wiring and the RTK Query and react-query wrappers are left out: they only connect the modelled parts.
- The SQLite and TypeORM engines are replaced by in-memory row sequences. `PRAGMA foreign_keys = ON` is taken as given. TypeORM's query-result cache is a map from statement to stored rows and instant; its storage as a database table is not modelled.
- The clock, `Math.random`, uuids, `bcrypt`, JWT signing, `new Date(iso).getTime()`, `toLocaleDateString()` and `@IsISO8601()` are parameters or uninterpreted functions.
- Floating point: the average rating is a `real`. SQLite's `AVG` rounding and the star display's rounding are left out.
- Concurrency: the check-then-insert race in `registerUser`, where two calls with the same new username could both pass the check, cannot arise in a sequential model.
- BackendPostsService.PostsService.FindPublished: each call is one atomic step. A write that lands during the `await` between reading the clock and storing the result, which could leave a stale list cached for a minute, is not modelled.
- BackendPostDtos.ValidateCreate: a JSON number carries the text `String(n)` gives for it; JavaScript's number-to-text conversion is not computed.
- FrontendLocaleTheme.DocumentElement.ApplyThemeScript: no file of the app renders `ThemeScript`, so it is modelled as a component on its own. next-themes' `ThemeProvider`, which themes the page after hydration, is not modelled.
- The `mkdirSync` calls of the upload controller and the backup script, `copyFileSync`'s bytes and the console output are I/O. The backup directory is a map from file name to modification time.
- The upload route's JWT and role guards are left out; only the controller body and the multer options are modelled.
- Paths follow Node's POSIX `path` rules; Windows separators are not modelled.
- `seedSamplePosts` is registered as a provider, but nothing in the repository calls it. It is modelled as an operation that a caller could invoke.
- The repositories require `db.hasSchema`: the app waits for `initializeDatabase` before any screen runs.
- The tiptap editor's document is reduced to its HTML, the inserted image sources and the selected link. Tiptap's HTML normalisation is not modelled.
- `next-intl`'s loading of the message bundle is reduced to the file name it imports.
- FrontendAuth.InitialState: `JSON.parse` is modelled for the text `JSON.stringify` writes for an `AuthState`. Any other saved text counts as unparsable, so JSON with extra whitespace, other key orders or `\u` escapes of surrogate pairs is treated as garbage rather than read.
- FrontendPostsList.SortedPosts: the order of posts with equal publication times is not stated.
- BackendBackup.NewestFirst: the order of backups with equal modification times is not stated.
- FrontendJson.ParseStringBody: its own contract only bounds what remains; what it reads is stated by FrontendJson.EscapeReadsBack.
- The admin login page and its spec are left out, because zod and react-hook-form perform their checks.

## Findings

| source | as written | input that shows it | evidently intended | confidence | as-written member | corrected member |
|---|---|---|---|---|---|---|
| apps/mobile/src/db/repositories/reviewRepository.ts:93-106 | `createReview` re-reads the newest review of the (user, game) pair by `ORDER BY datetime(created_at) DESC LIMIT 1`. `datetime()` drops milliseconds, and ties keep rowid order. | a pair that already has a review stamped in the same second as the new one; the re-read returns the older review | return the row just inserted, for example by re-reading it by `last_insert_rowid()` | not executed | MobileReviewRepository.SameSecondReReadMissesInsert | MobileReviewRepository.CreateReviewById |
| apps/backend/src/posts/posts.service.ts:107-110 | `invalidateCache` drops only the service's own fields. The published and slug queries also use TypeORM's one-minute query-result cache, which no write clears. | `findPublished` at 0 s, `createOne` at 1 s, `findPublished` at 2 s: the second list lacks the new post, and the service keeps that list until 62 s | a write makes the next read see it, for example by clearing the query-result cache in `invalidateCache` | not executed | BackendPostsService.StaleListAfterCreate | BackendPostsService.FreshListAfterCreate |
| apps/frontend/src/app/admin/posts/new/page.tsx:17-34 | the form sends every registered input, so an empty Published At field is sent as `publishedAt: ""`. The backend's `@IsISO8601()` refuses it. | a valid form with the Published At field left empty | leave empty optional inputs out, so the backend publishes the post at the moment of creation | not executed | FrontendNewPost.EmptyDateRefused | FrontendNewPost.CorrectedEmptyDateAccepted |
