# User registry model

A Dafny model of the in-memory user registry of a small ASP.NET user API
(`api/Services/UserStore.cs`). The registry keeps one dictionary from a
generated id to an immutable `User` record and offers two operations:

- `CreateUser(input)` rejects the input when a stored user has the same email,
  compared with ordinal case-insensitive equality; then it rejects the input
  when a stored user has the same username, compared the same way. Only then
  does it build a record with a fresh id and the current UTC time and insert it.
- `GetUsers()` returns every stored user, ordered by name with the ordinal
  case-insensitive comparer.

Files and modules:

- `case_fold.dfy`, module `CaseFold`: ordinal case-insensitive equality and
  ordering of strings. .NET's `OrdinalIgnoreCase` maps characters to upper case
  before comparing code values, so `Fold` maps `a`..`z` to `A`..`Z`. This is
  why `_` sorts after every ASCII letter (`UnderscoreSortsAfterLetters`).
- `models.dfy`, module `Models`: the `User` and `UserInput` records of
  `api/Models/User.cs`. `DateTime` is an integer tick count.
- `user_store.dfy`, module `Services`: the class `UserStore` with its one
  field `users: map<string, User>` (the `ConcurrentDictionary`), the scan
  `AnyMatches` behind the two `Any(...)` checks, `CreateUser`, and `GetUsers`
  built from `ValuesOf` (`_users.Values`) and `OrderByName` (`OrderBy`).
  `CreateUser` is proved against the pure specification `Create` and `Apply`.
  The lemmas about those two state the error cases, the precedence of the
  email check, the absence of side effects on failure, and the preservation
  of uniqueness. `Replay` extends this to any sequence of creates.
- `scenarios.dfy`, module `Scenarios`: clients that replay each of the eleven
  unit tests in `api/Api.Tests/Services/UserStoreTests.cs` against the
  class's contracts and state the test's expected outcome, with fixed ids and
  timestamps standing for the generated ones (see the `Scenarios` rows below).

The two exceptions become `Failed(DuplicateEmail(email))` and
`Failed(DuplicateUsername(username))`, each carrying the value as submitted.
The store performs no trimming and no format validation, and neither does the
model.

The unit test `CreateUser_WhenUsernameConflict_RollbackEmailAllowsReuse`
(`api/Api.Tests/Services/UserStoreTests.cs:137-152`) says in its comments that
a create failing on its username has "tentatively reserved" its email and then
"rolled back" the reservation. The store has no such step: it has one
dictionary and two linear scans, and it throws before its only mutation at
`api/Services/UserStore.cs:35`. The model follows the code. "Rollback"
therefore holds trivially: a failed create leaves the dictionary untouched
(`CreateEffect`), so the email of a create that failed on its username can be
used by the next create (`FailedUsernameFreesEmail`,
`Scenarios.FailedUsernameLeavesEmailFree`).

## Model

| member | source | states |
|---|---|---|
| CaseFold.Fold | api/Services/UserStore.cs:15 | folding maps exactly the lower-case ASCII letters to upper case (code value minus 32), leaves every other character alone, never yields a lower-case letter and is idempotent |
| CaseFold.EqualsIgnoreCase | api/Services/UserStore.cs:15-21 | `Equals(..., StringComparison.OrdinalIgnoreCase)`: the two strings are equal after folding every character; identical strings are equal ignoring case, and strings equal ignoring case have the same length |
| CaseFold.EqualsIgnoreCaseCharwise | api/Services/UserStore.cs:15 | two strings are equal under `OrdinalIgnoreCase` exactly when they have equal length and agree position by position after folding |
| CaseFold.DifferentAt | api/Services/UserStore.cs:15-24 | one position whose folded characters differ makes two strings unequal ignoring case |
| CaseFold.EqualsIgnoreCaseIsEquivalence | api/Services/UserStore.cs:15 | case-insensitive equality is reflexive, symmetric and transitive |
| CaseFold.LexLeReflexive | api/Services/UserStore.cs:10 | the ordinal lexicographic order is reflexive |
| CaseFold.LexLeTotal | api/Services/UserStore.cs:10 | any two strings are comparable in the ordinal order |
| CaseFold.LexLeTransitive | api/Services/UserStore.cs:10 | the ordinal order is transitive |
| CaseFold.LexLeAntisymmetric | api/Services/UserStore.cs:10 | strings ordered both ways are equal |
| CaseFold.NameLe | api/Services/UserStore.cs:10 | `StringComparer.OrdinalIgnoreCase.Compare(a, b) <= 0`: the folded strings are in ordinal lexicographic order; the empty name sorts first and only an empty name sorts at or before it |
| CaseFold.NameLeTotal | api/Services/UserStore.cs:10 | the case-insensitive name order compares any two names |
| CaseFold.NameLeTransitive | api/Services/UserStore.cs:10 | the case-insensitive name order is transitive |
| CaseFold.NameTieIffEqualsIgnoreCase | api/Services/UserStore.cs:10 | two names tie in the order exactly when they are equal ignoring case |
| CaseFold.FirstCharDecides | api/Services/UserStore.cs:10 | differing first folded characters alone decide the order, strictly |
| CaseFold.UnderscoreSortsAfterLetters | api/Services/UserStore.cs:10 | because folding goes to upper case, "zed" sorts strictly before "_x" |
| Services.Create | api/Services/UserStore.cs:12-36 | fails with the submitted email exactly when a stored email equals it ignoring case; when the email is free, fails with the submitted username exactly when a stored username equals it ignoring case; succeeds exactly when neither clashes, with a record holding the fresh id, the time and the input's name, username and email verbatim |
| Services.TakenIffSomeValue | api/Services/UserStore.cs:15-21 | the duplicate test `_users.Values.Any(...)` holds exactly when some stored record, under whatever key, has the field equal to the value ignoring case |
| Services.Apply | api/Services/UserStore.cs:35 | `_users[user.Id] = user` after a successful create, nothing after a failed one: a failure leaves the dictionary equal, a success stores the record under its id and keeps every other key's record |
| Services.EmailCheckFirst | api/Services/UserStore.cs:15-24 | when both email and username clash, the email error is the one reported |
| Services.CreateEffect | api/Services/UserStore.cs:15-35 | a failed create leaves the dictionary equal to what it was; a successful one adds exactly one key, the fresh id, holding the new record, grows the count by one and leaves every earlier entry unchanged |
| Services.CreatePreservesInvariant | api/Services/UserStore.cs:15-35 | from a state where every user sits under its own id and no two users share an email or a username ignoring case, a create with a fresh id reaches such a state again |
| Services.FailedUsernameFreesEmail | api/Services/UserStore.cs:21-24 | after a create that failed on its username, a create with the same email and a free username succeeds |
| Services.ReplayFreshTail | api/Services/UserStore.cs:28-35 | after one create, the remaining requests' ids are still fresh and distinct |
| Services.ReplayPreservesInvariant | api/Services/UserStore.cs:15-35 | after any sequence of creates with fresh, distinct ids, no two stored users share an email or a username ignoring case |
| Services.ReplayNeverOverwrites | api/Services/UserStore.cs:28-35 | with fresh ids, every stored user survives any later sequence of creates unchanged |
| Services.CreatedIdsDiffer | api/Services/UserStore.cs:28-35 | two users created one after the other with fresh ids have different ids, and the first is still stored after the second |
| Services.InsertByName | api/Services/UserStore.cs:10 | inserting a user, after every user whose name ties with it, yields the old elements plus that user, as a multiset |
| Services.SortedTail | api/Services/UserStore.cs:10 | dropping the first user keeps a list sorted by name ignoring case |
| Services.SortedCons | api/Services/UserStore.cs:10 | a user whose name is at most every name of a sorted list can go in front and the list stays sorted |
| Services.InsertKeepsSorted | api/Services/UserStore.cs:10 | insertion into a list sorted by name ignoring case keeps it sorted |
| Services.NamedLikeAppend | api/Services/UserStore.cs:10 | appending a user extends the users whose names tie with a given name by that user exactly when it ties |
| Services.NamedLikeNone | api/Services/UserStore.cs:10 | a list none of whose names ties with a name has no users tied with it |
| Services.NoneLikeBeforeHead | api/Services/UserStore.cs:10 | no user of a sorted list ties with a name that sorts strictly before the list's head |
| Services.NamedLikeCons | api/Services/UserStore.cs:10 | a user in front contributes itself, when it ties, before the tied users of the rest |
| Services.NamedLikeKeepsHead | api/Services/UserStore.cs:10 | restoring a list's head in front of a list that extends its tail's tied users extends the list's tied users the same way |
| Services.InsertIsStable | api/Services/UserStore.cs:10 | insertion is stable: among the users whose names tie with any given name, the inserted user comes after all those already present, whose order is kept |
| Services.NamedLikeHas | api/Services/UserStore.cs:10 | every user of a list is among the users whose names tie with its own name |
| Services.NamedLikeFrom | api/Services/UserStore.cs:10 | the users tied with a name all come from the list |
| Services.StableHeadsAgree | api/Services/UserStore.cs:10 | two non-empty sorted lists that agree, for every name, on the sequence of users tied with it start with the same user |
| Services.StableTails | api/Services/UserStore.cs:10 | two lists with the same head that agree on the users tied with every name have tails that agree too |
| Services.SortedStableUnique | api/Services/UserStore.cs:10 | a stable sort by name has exactly one possible result: two sorted lists that agree, for every name, on the order of the users tied with it are equal |
| Services.SortedHeadsAgree | api/Services/UserStore.cs:10 | two sorted permutations whose names never tie start with the same user |
| Services.MultisetTails | api/Services/UserStore.cs:10 | two lists with equal multisets and equal first elements have tails with equal multisets |
| Services.SortedListingUnique | api/Services/UserStore.cs:10 | when no two names tie ignoring case, there is exactly one sorted arrangement of a set of users |
| Services.ValuesWithout | api/Services/UserStore.cs:8 | removing one key from a map where every user sits under its own id removes exactly that key's record and keeps the property |
| Services.ValuesOf | api/Services/UserStore.cs:10 | enumerating the dictionary's values yields each stored record exactly once (multiset equal to the stored values, one element per key) |
| Services.OrderByName | api/Services/UserStore.cs:10 | `OrderBy` with the case-insensitive comparer: the result is sorted by name ignoring case, is a permutation of the input, and is stable, keeping for every name the input order of the users tied with it; by `SortedStableUnique` it is the only such list |
| Services.UserStore.constructor | api/Services/UserStore.cs:8 | a new store is empty and satisfies the invariant |
| Services.UserStore.AnyMatches | api/Services/UserStore.cs:15-21 | the scan answers true exactly when some stored user's email (or username) equals the value ignoring case |
| Services.UserStore.CreateUser | api/Services/UserStore.cs:12-37 | returns the outcome `Create` prescribes for the old dictionary, leaves the dictionary as `Apply` prescribes (unchanged on failure, one new entry on success) and keeps the uniqueness invariant |
| Services.UserStore.GetUsers | api/Services/UserStore.cs:10 | returns every stored user exactly once, sorted by name ignoring case, and changes nothing |
| Scenarios.JohnEmailsMatch | api/Api.Tests/Services/UserStoreTests.cs:99-100 | "john@example.com" and "JOHN@EXAMPLE.COM" are equal ignoring case |
| Scenarios.JohnUsernamesMatch | api/Api.Tests/Services/UserStoreTests.cs:127-128 | "johndoe" and "JOHNDOE" are equal ignoring case |
| Scenarios.ThreeNamesInOrder | api/Api.Tests/Services/UserStoreTests.cs:55-57 | "Alice", "BOB", "charlie" are strictly ordered ignoring case |
| Scenarios.TitleCaseNamesInOrder | api/Api.Tests/Services/UserStoreTests.cs:36-38 | "Alice", "Bob", "Charlie" are strictly ordered ignoring case |
| Scenarios.OrderOfThree | api/Api.Tests/Services/UserStoreTests.cs:22-57 | three users whose names are strictly ordered ignoring case have only that sorted arrangement |
| Scenarios.EmptyStoreListsNothing | api/Api.Tests/Services/UserStoreTests.cs:10-19 | a new store lists no users |
| Scenarios.CreateThenList | api/Api.Tests/Services/UserStoreTests.cs:171-185 | a valid input is stored verbatim under the given id and is the only user listed |
| Scenarios.CreateWithValidInput | api/Api.Tests/Services/UserStoreTests.cs:60-78 | a valid input on a new store is accepted with a non-empty id, the input's name, username and email verbatim and the time of the call |
| Scenarios.CreateTwo | api/Api.Tests/Services/UserStoreTests.cs:27-47 | creating the "charlie" user then the "alice" user, under any names, stores both |
| Scenarios.CreateThree | api/Api.Tests/Services/UserStoreTests.cs:27-48 | creating the "charlie", "alice" and "bob" users, under any names, stores all three |
| Scenarios.ListingOrderedByName | api/Api.Tests/Services/UserStoreTests.cs:22-39 | after creating "Charlie", "Alice", "Bob", the listing holds exactly three users, named "Alice", "Bob", "Charlie" in that order |
| Scenarios.ListingIgnoresCase | api/Api.Tests/Services/UserStoreTests.cs:42-58 | after creating "charlie", "Alice", "BOB", the listing holds exactly three users, named "Alice", "BOB", "charlie" in that order |
| Scenarios.StoreWithJohn | api/Api.Tests/Services/UserStoreTests.cs:113-115 | creating John Doe on a new store succeeds |
| Scenarios.DuplicateEmailRejected | api/Api.Tests/Services/UserStoreTests.cs:80-92 | the same email again fails with a duplicate-email error carrying "john@example.com" |
| Scenarios.DuplicateEmailIgnoresCase | api/Api.Tests/Services/UserStoreTests.cs:95-106 | "JOHN@EXAMPLE.COM" after "john@example.com" fails with a duplicate-email error carrying "JOHN@EXAMPLE.COM" |
| Scenarios.DuplicateUsernameRejected | api/Api.Tests/Services/UserStoreTests.cs:108-120 | the same username with a new email fails with a duplicate-username error carrying "johndoe" |
| Scenarios.DuplicateUsernameIgnoresCase | api/Api.Tests/Services/UserStoreTests.cs:123-134 | "JOHNDOE" after "johndoe", with a fresh email, fails with a duplicate-username error carrying "JOHNDOE" |
| Scenarios.FailedUsernameLeavesEmailFree | api/Api.Tests/Services/UserStoreTests.cs:137-152 | a create failing on its username leaves its email free; the next create with that email succeeds and two users are listed |
| Scenarios.CreateGeneratesDistinctIds | api/Api.Tests/Services/UserStoreTests.cs:154-168 | two creates on a new store both succeed with different ids |

## Left out

- Concurrency: the `ConcurrentDictionary` and the race between the two scans and the insert are not modelled. Each operation runs alone, start to finish, so the model cannot show that two concurrent creates with the same email can both succeed in the source.
- `Guid.NewGuid()` and `DateTime.UtcNow` are not modelled. `CreateUser` takes the id and the timestamp as parameters instead.
- Services.UserStore.CreateUser: requires the id to be absent from the dictionary. This stands for the uniqueness of generated GUIDs. The source itself would overwrite an entry on a collision (`_users[user.Id] = user`). Nor does it require the id to be non-empty, although `Guid.NewGuid().ToString()` never is; the scenarios pass non-empty ids.
- CaseFold.Fold: maps only ASCII letters. .NET's `OrdinalIgnoreCase` also upper-cases non-ASCII letters through its simple case mapping, and that is not modelled.
- CaseFold.NameLe: strings are sequences of Unicode scalar values, and the order compares scalar values. .NET strings are UTF-16 code units and the ordinal comparer compares code units, so the two orders differ when a character above U+FFFF (a surrogate pair, D800..DBFF first) meets one in U+E000..U+FFFF. Lone surrogates, which a .NET string can hold, cannot be represented.
- Models.UserInput: its fields can never be null. In the source, `api/Program.cs:23` binds the input from JSON and passes it on unchecked, so a missing field arrives as null. A null email passes the check at `api/Services/UserStore.cs:15` and is stored. Every later create whose scan reaches that user then throws `NullReferenceException` at line 15, and a null username does the same at line 21. `api/Program.cs:30` does not catch it. Neither the null values nor this failure are modelled.
- Services.UserStore.GetUsers: does not fix the relative order of users whose names are equal ignoring case. `OrderByName` is proved stable, so they keep the order in which `ValuesOf` enumerates the dictionary, and that order, like the `ConcurrentDictionary`'s, is not specified.
- The text of the exception messages is not modelled beyond the offending value each error carries.
- HTTP routing, the mapping of errors to 409 Conflict and of success to 201 Created (`api/Program.cs`) and the web front end are not part of this model.
