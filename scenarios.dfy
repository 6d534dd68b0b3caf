/** Clients of the store that replay the registry's unit-test scenarios and
    state their outcomes, proved from the store's contracts alone. Ids and
    timestamps are fixed values standing for the generated ones. */
module Scenarios {
  import opened Models
  import opened CaseFold
  import opened Services

  lemma JohnEmailsMatch()
    ensures EqualsIgnoreCase("john@example.com", "JOHN@EXAMPLE.COM")
  {
    assert FoldString("john@example.com") == "JOHN@EXAMPLE.COM";
  }

  lemma JohnUsernamesMatch()
    ensures EqualsIgnoreCase("johndoe", "JOHNDOE")
  {
  }

  /** "Alice" < "BOB" < "charlie" ignoring case, with no ties. */
  lemma ThreeNamesInOrder(list: seq<User>)
    requires |list| == 3 && list[0].name == "Alice" && list[1].name == "BOB" && list[2].name == "charlie"
    ensures SortedByName(list) && DistinctNames(list)
  {
  }

  /** "Alice" < "Bob" < "Charlie" ignoring case, with no ties. */
  lemma TitleCaseNamesInOrder(list: seq<User>)
    requires |list| == 3 && list[0].name == "Alice" && list[1].name == "Bob" && list[2].name == "Charlie"
    ensures SortedByName(list) && DistinctNames(list)
  {
  }

  /** Three users whose names are strictly ordered have only one sorted
      arrangement. */
  lemma OrderOfThree(list: seq<User>, first: User, second: User, third: User)
    requires SortedByName([first, second, third]) && DistinctNames([first, second, third])
    requires SortedByName(list) && multiset(list) == multiset{first, second, third}
    ensures list == [first, second, third]
  {
    var expected := [first, second, third];
    assert multiset(expected) == multiset{first, second, third};
    SortedListingUnique(expected, list);
  }

  /** A fresh store lists nobody. */
  method EmptyStoreListsNothing() returns (list: seq<User>)
    ensures list == []
  {
    var store := new UserStore();
    list := store.GetUsers();
  }

  /** A valid input is stored verbatim and is the only user listed. */
  method CreateThenList() returns (r: CreateResult, list: seq<User>)
    ensures r == Created(User("id-1", "Test User", "testuser", "test@example.com", 7))
    ensures list == [r.user]
  {
    var store := new UserStore();
    r := store.CreateUser(UserInput("Test User", "testuser", "test@example.com"), "id-1", 7);
    list := store.GetUsers();
    assert store.users.Values == {r.user};
    assert list[0] in multiset(list);
  }

  /** The first two steps of the ordering tests: the "charlie" user, then the
      "alice" user, under the names given. */
  method CreateTwo(charlieName: string, aliceName: string) returns (store: UserStore)
    ensures fresh(store) && store.Valid()
    ensures store.users == map[
              "id-1" := User("id-1", charlieName, "charlie", "charlie@example.com", 1),
              "id-2" := User("id-2", aliceName, "alice", "alice@example.com", 2)]
  {
    store := new UserStore();
    var r1 := store.CreateUser(UserInput(charlieName, "charlie", "charlie@example.com"), "id-1", 1);
    DifferentAt("charlie@example.com", "alice@example.com", 0);
    DifferentAt("charlie", "alice", 0);
    var r2 := store.CreateUser(UserInput(aliceName, "alice", "alice@example.com"), "id-2", 2);
  }

  /** The arrangement of the ordering tests: the "charlie", "alice" and
      "bob" users created in that order under the names given, each accepted. */
  method CreateThree(charlieName: string, aliceName: string, bobName: string) returns (store: UserStore)
    ensures fresh(store) && store.Valid()
    ensures store.users == map[
              "id-1" := User("id-1", charlieName, "charlie", "charlie@example.com", 1),
              "id-2" := User("id-2", aliceName, "alice", "alice@example.com", 2),
              "id-3" := User("id-3", bobName, "bob", "bob@example.com", 3)]
  {
    store := CreateTwo(charlieName, aliceName);
    DifferentAt("charlie@example.com", "bob@example.com", 0);
    DifferentAt("alice@example.com", "bob@example.com", 0);
    DifferentAt("charlie", "bob", 0);
    DifferentAt("alice", "bob", 0);
    assert !Taken(store.users, Email, "bob@example.com");
    assert !Taken(store.users, Username, "bob");
    var r3 := store.CreateUser(UserInput(bobName, "bob", "bob@example.com"), "id-3", 3);
  }

  /** Creating "Charlie", "Alice", "Bob" lists them as "Alice", "Bob", "Charlie". */
  method ListingOrderedByName() returns (names: seq<string>)
    ensures names == ["Alice", "Bob", "Charlie"]
  {
    var store := CreateThree("Charlie", "Alice", "Bob");
    var list := store.GetUsers();
    var charlie, alice, bob := store.users["id-1"], store.users["id-2"], store.users["id-3"];
    assert store.users.Values == {alice, bob, charlie};
    assert multiset(store.users.Values) == multiset{alice, bob, charlie};
    TitleCaseNamesInOrder([alice, bob, charlie]);
    OrderOfThree(list, alice, bob, charlie);
    names := seq(|list|, i requires 0 <= i < |list| => list[i].name);
  }

  /** Creating "charlie", "Alice", "BOB" lists them as "Alice", "BOB", "charlie". */
  method ListingIgnoresCase() returns (names: seq<string>)
    ensures names == ["Alice", "BOB", "charlie"]
  {
    var store := CreateThree("charlie", "Alice", "BOB");
    var list := store.GetUsers();
    var charlie, alice, bob := store.users["id-1"], store.users["id-2"], store.users["id-3"];
    assert store.users.Values == {alice, bob, charlie};
    assert multiset(store.users.Values) == multiset{alice, bob, charlie};
    ThreeNamesInOrder([alice, bob, charlie]);
    OrderOfThree(list, alice, bob, charlie);
    names := seq(|list|, i requires 0 <= i < |list| => list[i].name);
  }

  /** A valid input is accepted on a new store and returned with a
      non-empty id, the input's fields verbatim and the creation time. */
  method CreateWithValidInput(now: Timestamp) returns (r: CreateResult)
    ensures r.Created? && r.user.id != ""
    ensures r.user.name == "John Doe" && r.user.username == "johndoe" && r.user.email == "john@example.com"
    ensures r.user.createdAt == now
  {
    var store := new UserStore();
    r := store.CreateUser(UserInput("John Doe", "johndoe", "john@example.com"), "id-1", now);
  }

  /** The arrangement shared by the duplicate tests: John Doe is stored. */
  method StoreWithJohn() returns (store: UserStore)
    ensures fresh(store) && store.Valid()
    ensures store.users == map["id-1" := User("id-1", "John Doe", "johndoe", "john@example.com", 1)]
  {
    store := new UserStore();
    var first := store.CreateUser(UserInput("John Doe", "johndoe", "john@example.com"), "id-1", 1);
  }

  /** The same email is a duplicate, reported with the email as submitted. */
  method DuplicateEmailRejected() returns (r: CreateResult)
    ensures r == Failed(DuplicateEmail("john@example.com"))
  {
    var store := StoreWithJohn();
    EqualsIgnoreCaseIsEquivalence("john@example.com", "john@example.com", "john@example.com");
    assert FieldOf(store.users["id-1"], Email) == "john@example.com";
    assert Taken(store.users, Email, "john@example.com");
    r := store.CreateUser(UserInput("Jane Doe", "janedoe", "john@example.com"), "id-2", 2);
  }

  /** An email that differs only in case is a duplicate, reported with the
      email as submitted. */
  method DuplicateEmailIgnoresCase() returns (r: CreateResult)
    ensures r == Failed(DuplicateEmail("JOHN@EXAMPLE.COM"))
  {
    var store := StoreWithJohn();
    JohnEmailsMatch();
    assert FieldOf(store.users["id-1"], Email) == "john@example.com";
    assert Taken(store.users, Email, "JOHN@EXAMPLE.COM");
    r := store.CreateUser(UserInput("Jane Doe", "janedoe", "JOHN@EXAMPLE.COM"), "id-2", 2);
  }

  /** The same username with a new email is a duplicate, reported with the
      username as submitted. */
  method DuplicateUsernameRejected() returns (r: CreateResult)
    ensures r == Failed(DuplicateUsername("johndoe"))
  {
    var store := StoreWithJohn();
    DifferentAt("john@example.com", "jane@example.com", 1);
    assert !Taken(store.users, Email, "jane@example.com");
    EqualsIgnoreCaseIsEquivalence("johndoe", "johndoe", "johndoe");
    assert FieldOf(store.users["id-1"], Username) == "johndoe";
    assert Taken(store.users, Username, "johndoe");
    r := store.CreateUser(UserInput("Jane Doe", "johndoe", "jane@example.com"), "id-2", 2);
  }

  /** A username that differs only in case is a duplicate, reported with the
      username as submitted. */
  method DuplicateUsernameIgnoresCase() returns (r: CreateResult)
    ensures r == Failed(DuplicateUsername("JOHNDOE"))
  {
    var store := StoreWithJohn();
    DifferentAt("john@example.com", "jane@example.com", 1);
    JohnUsernamesMatch();
    assert FieldOf(store.users["id-1"], Username) == "johndoe";
    assert Taken(store.users, Username, "JOHNDOE");
    r := store.CreateUser(UserInput("Jane Doe", "JOHNDOE", "jane@example.com"), "id-2", 2);
  }

  /** The email of a create that failed on its username is free for the
      next create, after which two users are listed. */
  method FailedUsernameLeavesEmailFree() returns (failed: CreateResult, reused: CreateResult, count: nat)
    ensures failed == Failed(DuplicateUsername("johndoe"))
    ensures reused.Created? && reused.user.email == "jane@example.com"
    ensures count == 2
  {
    var store := StoreWithJohn();
    DifferentAt("john@example.com", "jane@example.com", 1);
    assert !Taken(store.users, Email, "jane@example.com");
    EqualsIgnoreCaseIsEquivalence("johndoe", "johndoe", "johndoe");
    assert Taken(store.users, Username, "johndoe") by {
      assert FieldOf(store.users["id-1"], Username) == "johndoe";
    }
    failed := store.CreateUser(UserInput("Jane Doe", "johndoe", "jane@example.com"), "id-2", 2);
    DifferentAt("johndoe", "janedoe", 1);
    assert !Taken(store.users, Username, "janedoe");
    reused := store.CreateUser(UserInput("Jane Doe", "janedoe", "jane@example.com"), "id-3", 3);
    var list := store.GetUsers();
    count := |list|;
  }

  /** Two creates on a new store give the two users different ids. */
  method CreateGeneratesDistinctIds() returns (r1: CreateResult, r2: CreateResult)
    ensures r1.Created? && r2.Created? && r1.user.id != r2.user.id
  {
    var store := new UserStore();
    r1 := store.CreateUser(UserInput("User One", "user1", "user1@example.com"), "id-1", 1);
    DifferentAt("user1@example.com", "user2@example.com", 4);
    DifferentAt("user1", "user2", 4);
    assert !Taken(store.users, Email, "user2@example.com");
    assert !Taken(store.users, Username, "user2");
    r2 := store.CreateUser(UserInput("User Two", "user2", "user2@example.com"), "id-2", 2);
  }
}
