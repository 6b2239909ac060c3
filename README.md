# GameBase rules, modelled in Dafny

GameBase is a Streamlit front end over a Firestore document store for a catalogue of party, card and board games.
Most of the application is form rendering and store calls.
This project models the plain rules inside that glue and proves what they guarantee:

- **Catalogue search** (`pages/view_games.py`):
  - a case-insensitive substring search over name, type, explanation and list-valued materials;
  - an exact difficulty match;
  - a player-count range test with defaults 0 and 999;
  - the player slider's upper bound and its clamped initial value.
- **Add-game form** (`pages/change_database/add_game.py`):
  - required-field validation;
  - parsing of the comma-separated materials and expansions lists;
  - rejection of duplicate names;
  - the insert;
  - the `add_status` session field and the buttons that reset it.
- **Game-type registry** (`game_types.py`):
  - seeding six defaults into an empty collection;
  - listing by the `order` field;
  - adding a type at order max + 1;
  - deleting any type except "Other".
- **Game-idea form** (`pages/contact.py`): at most five suggestions per session and day, rejection of blank ideas, stripped stored fields, and clearing the form's session keys.
- **Add-user form** (`pages/change_database/add_user.py`): lower-cased, required and unique usernames, with only a password hash stored.
- **Administrator login** (`login.py`): the `logged_in` / `username` session state machine.
- **Duration formatter** (`utils/helpers.py`): `"min"` becomes `" minutes"`.

Layout:

- one module per source file: `ViewGames`, `AddGame`, `GameTypes`, `Contact`, `AddUser`, `Login` and `Helpers`;
- three shared modules:
  - `Wrappers`, which holds `Option`;
  - `Seqs`, which models a list comprehension `[x for x in xs if p(x)]` as `Filter`;
  - `Text`, which models Python's `lower`, `in`, `strip`, `split` and `join`.
- A Firestore collection is a `seq` of documents in insertion order.
- A page that writes the store or the session state is a `class` whose fields are that collection and those session keys.
- Each such class method's `ensures` ties its new state to a pure function: `AddGame.SubmitAll`, `Contact.Step`, `AddUser.Step`, `Login.Check`, and `GameTypes.OrderBy` for listing. The registry's add and delete methods state the new collection outright, and the add-game page's `AddAnother`, `DismissValidation` and `DismissDuplicate` state their session fields outright. The properties that span several runs of a page are lemmas about those functions.
- Each run of a page is modelled as one call, one after the other.

Store document ids are modelled as natural numbers that the store hands out from a counter (`GameTypeRegistry.nextId`).
Firestore's `order_by("order")` is modelled this way:
- it leaves out documents that have no `order` field;
- it sorts the rest by `order`, breaking ties by document id.

## Model

| member | source | states |
|---|---|---|
| Seqs.Filter | pages/view_games.py:45-55 | A list comprehension keeps only elements of the input that pass the test, and keeps every element that passes. |
| Seqs.FilterIsSubsequence | pages/view_games.py:25-41 | The comprehension's result is an order-preserving subsequence of its input. |
| Seqs.FilterMultiplicity | pages/view_games.py:25-41 | The comprehension keeps each passing element exactly as often as the input holds it, and drops the rest. |
| Seqs.FilterIdempotent | pages/view_games.py:45-55 | Applying the same comprehension twice gives the result of applying it once. |
| Text.Lower | pages/view_games.py:22 | Lower-casing keeps the length and maps every character through the ASCII lower-case map. |
| Text.LowerIdempotent | pages/change_database/add_user.py:9 | Lower-casing an already lower-cased string changes nothing. |
| Text.LowerEmpty | pages/change_database/add_user.py:9-15 | A lower-cased string is empty exactly when the typed one is. |
| Text.ContainsAt | pages/view_games.py:27-29 | `needle in hay` holds exactly when the needle occurs as a contiguous slice at some index of the hay. |
| Text.Strip | pages/contact.py:36-46 | `strip()` yields a slice of its input with only whitespace removed at both ends. The result starts and ends with non-whitespace, and is empty exactly when the input is all whitespace. |
| Text.StripIdempotent | pages/contact.py:43-46 | Stripping a stripped value changes nothing. |
| Text.Split | pages/change_database/add_game.py:80 | `split(',')` yields at least one piece, and no piece contains the separator. |
| Text.JoinSplit | pages/change_database/add_game.py:80 | Joining the pieces of a split with the separator rebuilds the original text. |
| Text.SplitJoin | pages/change_database/add_game.py:80 | Splitting a separator-joined list of separator-free pieces gives back those pieces. |
| Text.StripNonEmpty | pages/change_database/add_game.py:80 | The comprehension over split pieces keeps only non-empty stripped items, and never more items than pieces. |
| Text.StripEach | pages/change_database/add_game.py:80 | `item.strip()` applied to every piece yields one stripped piece per piece, at the same position. |
| Text.StripNonEmptyIsFilter | pages/change_database/add_game.py:80 | The comprehension equals stripping every piece and then keeping the non-empty results, in their order. |
| Text.StripNonEmptyMembership | pages/change_database/add_game.py:80 | An item is kept iff it is non-empty and is the stripped form of some piece. The kept items are an order-preserving subsequence of the stripped pieces. |
| Text.ParseCommaList | pages/change_database/add_game.py:80 | A parsed comma list holds only items that are non-empty, stripped and free of commas. |
| Text.ParsePaddedList | pages/change_database/add_game.py:80 | Comma-free pieces typed joined by commas, with any padding and blanks, are stored as the stripped pieces with the blank ones dropped, in order. |
| Text.DiceCardsExample | pages/change_database/add_game.py:80 | The input "dice, cards" is stored as the two items "dice" and "cards". |
| Text.ParseJoinRoundTrip | pages/change_database/add_game.py:80 | Clean items typed joined by commas are stored as exactly those items, in order. |
| ViewGames.SearchAndFilterGames | pages/view_games.py:4-57 | The search loop with its `continue` and `break` returns exactly the staged specification `FilterGames`. A game is in the result iff it is in the catalogue and passes every active criterion. |
| ViewGames.AnyMaterialMatches | pages/view_games.py:36-39 | The inner loop with its `break` reports a match iff the lower-cased term occurs in some lower-cased material. |
| ViewGames.SearchLoop | pages/view_games.py:21-41 | The search loop with its `continue` keeps exactly the games that pass the term test, in order. |
| ViewGames.ApplyPageFilters | pages/view_games.py:137-143 | The page's call maps "All" to no difficulty and passes the slider value as both bounds. The result is the search with only the lower bound, and every shown game admits the chosen player count. |
| ViewGames.SliderMax | pages/view_games.py:111-117 | The slider bound is at least 12 and at least every integer `max_players`, and it is either 12 or some game's `max_players`. |
| ViewGames.SliderValue | pages/view_games.py:122 | The slider's value is the remembered count clamped to the bound: never above the bound, and unchanged when it already fits. |
| ViewGames.FilterGamesIsFilter | pages/view_games.py:18-57 | The four successive stages equal one filter by the conjunction of the active criteria. |
| ViewGames.GradedIsFilter | pages/view_games.py:21-46 | The search and the difficulty stage together equal one filter by both criteria. |
| ViewGames.PlayerStagesIsFilter | pages/view_games.py:49-55 | The two player-count stages together equal one filter by both bounds. |
| ViewGames.FilterGamesMembership | pages/view_games.py:18-57 | A game is shown iff it is in the catalogue and passes every active criterion. |
| ViewGames.NoCriteriaKeepsAll | pages/view_games.py:18-57 | With an empty term, difficulty missing, empty or "All", and no player counts, the catalogue is returned unchanged and in order. |
| ViewGames.FilterGamesSubsequence | pages/view_games.py:25-41 | The result keeps the catalogue's order. A game matching in several fields or materials is not repeated: it appears as often as in the catalogue, or not at all. |
| ViewGames.SearchOnly | pages/view_games.py:21-41 | Under a non-empty term alone, a game is kept iff the lower-cased term occurs in its lower-cased name, type or explanation (missing read as ""), or in one of its listed materials. |
| ViewGames.ScalarMaterialsIgnored | pages/view_games.py:34-35 | A `materials` value that is not a list never decides a match. |
| ViewGames.DifficultyExact | pages/view_games.py:44-46 | With the difficulty filter on, every result has exactly that difficulty, and no game that passes the other criteria with that difficulty is dropped. |
| ViewGames.PlayerBounds | pages/view_games.py:49-55 | Every result satisfies `min_players` (default 0) ≤ n ≤ `max_players` (default 999) for each given player count n. |
| ViewGames.SamePlayerCountTwice | pages/view_games.py:49-55 | Passing the same count as the second bound removes nothing more. |
| ViewGames.FilterGamesIdempotent | pages/view_games.py:4-57 | Searching the results again with the same criteria returns them unchanged. |
| ViewGames.SearchExample | pages/view_games.py:21-41 | On a catalogue of Uno and Chess, the term "che" finds Chess by its name and not Uno. |
| ViewGames.DifficultyAndPlayersExample | pages/view_games.py:44-55 | On the same catalogue, difficulty "Easy" and player count 5 each leave only Uno. |
| AddGame.Decide | pages/change_database/add_game.py:64-103 | A submission is invalid iff the name, the type or the explanation is empty. It is a duplicate iff it is valid and the name is taken. Otherwise it inserts a record under the submitted name, and that record is well formed whenever the widgets' bounds hold. |
| AddGame.InsertKeepsNamesUnique | pages/change_database/add_game.py:94-101 | An insert after the duplicate check keeps game names unique. |
| AddGame.SubmitAllKeepsNamesUnique | pages/change_database/add_game.py:94-101 | Any sequence of submissions keeps game names unique. |
| AddGame.SubmitAllKeepsWellFormed | pages/change_database/add_game.py:28-37 | Submissions never remove a game. Every stored game keeps 1 ≤ min ≤ max players, age ≥ 0, duration ≥ 1, a listed difficulty, and clean lists. |
| AddGame.NewGameStoresTypedLists | pages/change_database/add_game.py:80-85 | Materials and expansions typed as their items joined by commas are stored as exactly those items. |
| AddGame.AddGameSession.constructor | pages/change_database/add_game.py:10-11 | The first visit starts with `add_status` unset. |
| AddGame.AddGameSession.Submit | pages/change_database/add_game.py:64-103 | Missing field: the status is `error_validation`, the message is set, and the collection is unchanged. Taken name: the status is `error_duplicate`, `duplicate_game` holds the name, and the collection is unchanged. Otherwise: exactly the new record is appended, the status is `success`, and `added_game_name` is set. In every case the new collection is `SubmitAll` of the old one with this form, and unique names stay unique. |
| AddGame.AddGameSession.AddAnother | pages/change_database/add_game.py:116-119 | "Add Another Game" resets the status and clears `added_game_name`. Nothing else changes. |
| AddGame.AddGameSession.DismissValidation | pages/change_database/add_game.py:129-130 | The validation "OK" resets only the status. |
| AddGame.AddGameSession.DismissDuplicate | pages/change_database/add_game.py:134-136 | The duplicate "OK" resets the status and clears `duplicate_game`. Nothing else changes. |
| GameTypes.Defaults | game_types.py:10-17 | The k-th default carries the k-th of "Card Game", "Board Game", "Puzzle Game", "Adventure Game", "Party Game", "Other" as its name, and order k + 1. The ids handed out are distinct and below the next counter value. |
| GameTypes.InsertSortedCorrect | game_types.py:41 | Inserting into a list sorted by (order, id) keeps it sorted and adds exactly that one document. |
| GameTypes.SortByOrderCorrect | game_types.py:41 | The store's ordering yields a sorted permutation of its input. |
| GameTypes.OrderByContents | game_types.py:41 | `order_by("order")` streams, in ascending order, the documents that have an `order`, each exactly as often as the collection holds it, and no document without an `order`. |
| GameTypes.MaxOrder | game_types.py:97 | `max(..., default=0)` is at least every listed order, is 0 for an empty list, and is some listed order otherwise. |
| GameTypes.NewOrderAboveAll | game_types.py:97 | A new type's order is above every existing order, and is 1 when no type has an order. |
| GameTypes.RemoveUniqueId | game_types.py:77 | Deleting by a document id removes that one document and keeps all the others in order. |
| GameTypes.DeleteOfferedIff | game_types.py:68-74 | A Delete button is offered exactly for the listed types other than "Other". |
| GameTypes.GameTypeRegistry.SetupGameTypes | game_types.py:19-26 | An empty collection receives the six defaults in order. A non-empty one is untouched. |
| GameTypes.GameTypeRegistry.LoadGameTypes | game_types.py:41-47 | The copy loop returns exactly the store's ordered stream: sorted, and holding exactly the documents that have an `order`. |
| GameTypes.GameTypeRegistry.AddGameType | game_types.py:89-101 | The outcome is `EmptyName` exactly for an empty name, which adds nothing. An exactly equal listed name is rejected and changes nothing. Otherwise exactly one document is appended, with the new name, a fresh id, and order `max` of the listed orders plus 1 (so 1 in an empty registry and above every existing order). |
| GameTypes.DeleteKeepsOther | game_types.py:73-77 | Deleting a listed non-"Other" document by its id leaves exactly the other documents in order, keeps ids fresh, and keeps every "Other". |
| GameTypes.GameTypeRegistry.DeleteGameType | game_types.py:73-77 | A delete happens iff a listed type with that id is not "Other". It removes exactly that document, and every "Other" document survives. |
| Contact.CountFor | pages/contact.py:15-20 | The quota query never counts more documents than the collection holds. |
| Contact.CountForIsQuery | pages/contact.py:15-20 | The quota count equals the number of stored suggestions whose session id and date both match the query's. |
| Contact.CountAppend | pages/contact.py:15-20 | A new suggestion counts only toward its own session and date. |
| Contact.AcceptedSuggestionStored | pages/contact.py:39-48 | An accepted suggestion is appended with stripped text fields, a non-blank idea, today's date, the session id and the follow-up flag. |
| Contact.LimitReachedRejects | pages/contact.py:22-24 | A session with five suggestions today gets nothing accepted and nothing stored. |
| Contact.OthersDoNotCount | pages/contact.py:15-20 | Suggestions from other sessions or other days leave a session's outcome unchanged. |
| Contact.AnonymousSessionsShareQuota | pages/contact.py:10 | Sessions without an anonymous id share the quota of "unknown". |
| Contact.StepWithinQuota | pages/contact.py:22-39 | One run of the page keeps every (session, day) at five suggestions or fewer. |
| Contact.RunVisitsWithinQuota | pages/contact.py:22-39 | Runs one after the other never store more than five suggestions per session and day. |
| Contact.ContactPage.ClearForm | pages/contact.py:52-56 | The key-popping loop removes exactly the five form keys from the session state. |
| Contact.ContactPage.Contact | pages/contact.py:9-56 | The limit is reached exactly when five suggestions exist for this session today. A blank idea is rejected. An accepted submission appends the new suggestion and clears the form keys. Any other outcome changes nothing. The quota invariant is preserved. |
| AddUser.StepKeepsInvariant | pages/change_database/add_user.py:22-37 | One submission keeps usernames unique and lower-case. |
| AddUser.RunKeepsInvariant | pages/change_database/add_user.py:22-37 | Submissions one after the other keep usernames unique and lower-case. |
| AddUser.CaseInsensitiveUniqueness | pages/change_database/add_user.py:9-26 | For any password hash function, a username that lower-cases to a stored one is rejected, and the collection is unchanged. |
| AddUser.UserRegistry.AddUser | pages/change_database/add_user.py:9-37 | An empty username or password is rejected. An existing lower-cased username is rejected, with the collection unchanged. Otherwise exactly one user is appended, holding the lower-cased name, the hash of the password and the admin flag. Unique lower-case usernames stay so. |
| Login.CheckMeansLoggedIn | login.py:9-40 | The check returns true exactly when the session is logged in afterwards. A fresh login needs the button and an exact match, and records the configured username. |
| Login.StaysLoggedIn | login.py:9-10 | A logged-in session stays as it is, whatever is typed later. |
| Login.LoginNeedsExactMatch | login.py:25-36 | A session only becomes logged in through a pressed attempt that matches both credentials exactly. |
| Login.CaseSensitive | login.py:26 | The lower-cased form of a username with capitals is rejected: the comparison does not fold case. |
| Login.LoginSession.CheckLogin | login.py:3-42 | Already logged in: it returns true and changes nothing. Not pressed: it returns false and changes nothing. Pressed with an exact match: `logged_in` becomes true and the username is recorded. Pressed with any mismatch: `logged_in` becomes false and it returns false. |
| Helpers.FormatGameDuration | utils/helpers.py:6-10 | A non-text argument and a text without "min" are returned unchanged. Otherwise the length grows by five for each occurrence of "min" in the input. |
| Helpers.ReplaceMinLength | utils/helpers.py:9 | Replacing adds exactly five characters per occurrence. |
| Helpers.CountMinIsOccurrences | utils/helpers.py:9 | The left-to-right replacement scan replaces exactly as many times as "min" occurs in the text, counting every starting position. |
| Helpers.ReplaceFirst | utils/helpers.py:9 | The first "min" of a text is replaced where it stands by " minutes", the text before it is kept, and replacing goes on after it. Together with NoMinUnchanged this determines the result on every text. |
| Helpers.FormatReplacesFirst | utils/helpers.py:6-10 | Formatting a text whose first "min" follows the prefix `a` gives `a`, then " minutes", then the remainder with its own "min" replaced the same way. |
| Helpers.NoMinUnchanged | utils/helpers.py:8-10 | A text without "min" has no occurrence to replace and is unchanged. |
| Helpers.MinSurvives | utils/helpers.py:9 | A text with "min" has at least one occurrence replaced, and the result still contains "min". |
| Helpers.FormatNotIdempotent | utils/helpers.py:8-10 | Formatting a text that contains "min" twice differs from formatting it once. |
| Helpers.ThirtyMinutes | utils/helpers.py:9 | "30 min" becomes "30  minutes", with two spaces. |

## Left out

- Store setup and loading are not part of this model: Firestore client creation, credentials, document streaming and the demo-data fallback. The same goes for the `load_games` used by the catalogue page.
- Rendering and navigation are not modelled:
  - page layout;
  - game detail display;
  - the "View Games" button after a successful add;
  - the catalogue's "Clear Filters" button and its session defaults (empty term, "All", 4 players);
  - the success and error messages.
- Store failures are not modelled, so the `except` branches are left out. This covers the add-game status `error` with its OK button, the `False` that `setup_game_types` returns on failure, and the error paths of loading, adding and deleting types.
- The five-minute `st.cache_data` cache on `load_game_types` is time-based. The model always reads the current collection, so the rejection and order guarantees of `GameTypeRegistry.AddGameType` and the Delete-button guarantee hold for a fresh read only. For up to five minutes after an add or a delete, a stale list lets a duplicate name pass the check at game_types.py:92 and receive the same order at game_types.py:97, and a deleted type keeps its Delete button at game_types.py:74.
- The clock is a parameter: today's date for the suggestion quota is passed in, and the stored timestamp is not modelled.
- The bcrypt hash is a function parameter `hashpw`, and its random salt is a parameter of each request.
- Only sequential runs of each page are modelled. Concurrent sessions can race between the check and the insert (duplicate names, duplicate users, the daily quota), and that race is not captured.
- Text.Lower: maps only ASCII letters. Python's `str.lower()` also lowers non-ASCII letters, so the case-insensitive search and the username lower-casing are modelled for ASCII text only.
- ViewGames.SliderMax: considers integer `max_players` only. Float values, which Python compares with integers without error, are left out. The slider scan skips any value that is not a number, as the model does for a missing value. A `None` or text `min_players`/`max_players` would make the player-range comparisons at pages/view_games.py:51 and :55 raise, and that is not modelled either.
- ViewGames.FilterGamesMembership: a field that is present but not a string (on which `.lower()` would raise) is not modelled. Every present name, type, explanation and material is a string.
- AddGame.AddGameSession.Submit: requires the widget bounds (1 ≤ min players ≤ max players, age ≥ 0, duration ≥ 1, difficulty from the select box), because the form's number inputs and select box enforce them before the submit code runs.
- GameTypes.OrderBy: models Firestore's ordering as "documents with an `order` field, sorted by (order, id)". Firestore's handling of mixed value types in `order` is not modelled; orders are integers.
- Pages that write nothing or only read are outside this model:
  - the stub edit-game, delete-game and public add-game pages, which show success without writing;
  - the remove-user page, whose loop ends through the framework's rerun;
  - the login-attempt and visit dashboards;
  - routing and static pages;
  - the one-shot seed script.
