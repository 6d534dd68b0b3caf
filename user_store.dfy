/** The in-memory user registry: one dictionary from id to user, a
    case-insensitive duplicate check on email and then on username before
    every insert, and a listing sorted by name ignoring case. */
module Services {
  import opened Models
  import opened CaseFold

  /** The two conflicts `CreateUser` reports, each carrying the submitted value. */
  datatype Error = DuplicateEmail(email: string) | DuplicateUsername(username: string)

  datatype CreateResult = Created(user: User) | Failed(error: Error)

  /** The two fields that must be unique ignoring case. */
  datatype Field = Email | Username

  function FieldOf(u: User, f: Field): string
  {
    match f
    case Email => u.email
    case Username => u.username
  }

  /** Some stored user's field equals `value` ignoring case. */
  predicate Taken(users: map<string, User>, f: Field, value: string)
  {
    exists k :: k in users && EqualsIgnoreCase(FieldOf(users[k], f), value)
  }

  /** `Taken` is `_users.Values.Any(...)`: it holds exactly when some stored
      record, whatever its key, matches. */
  lemma TakenIffSomeValue(users: map<string, User>, f: Field, value: string)
    ensures Taken(users, f, value) <==> exists u :: u in users.Values && EqualsIgnoreCase(FieldOf(u, f), value)
  {
    if exists u :: u in users.Values && EqualsIgnoreCase(FieldOf(u, f), value) {
      var u :| u in users.Values && EqualsIgnoreCase(FieldOf(u, f), value);
      var k :| k in users && users[k] == u;
    }
  }

  /** No two stored users share the field, ignoring case. */
  predicate UniqueOn(users: map<string, User>, f: Field)
  {
    forall j, k :: j in users && k in users && EqualsIgnoreCase(FieldOf(users[j], f), FieldOf(users[k], f)) ==> j == k
  }

  /** Every user is stored under its own id. */
  predicate WellKeyed(users: map<string, User>)
  {
    forall k :: k in users ==> users[k].id == k
  }

  /** What holds between any two completed operations. */
  predicate Invariant(users: map<string, User>)
  {
    WellKeyed(users) && UniqueOn(users, Email) && UniqueOn(users, Username)
  }

  /** The outcome of `CreateUser` on the stored users, given the id and the
      time the call would generate. */
  function Create(users: map<string, User>, input: UserInput, id: string, createdAt: Timestamp): (r: CreateResult)
    // the email check: fails with the submitted email exactly on a case-insensitive clash
    ensures r == Failed(DuplicateEmail(input.email)) <==> Taken(users, Email, input.email)
    // the username check runs only when the email is free
    ensures !Taken(users, Email, input.email) ==>
              (r == Failed(DuplicateUsername(input.username)) <==> Taken(users, Username, input.username))
    // success exactly when neither clashes; the record holds the input verbatim
    ensures r.Created? <==> !Taken(users, Email, input.email) && !Taken(users, Username, input.username)
    ensures r.Created? ==> r.user == User(id, input.name, input.username, input.email, createdAt)
  {
    if Taken(users, Email, input.email) then
      Failed(DuplicateEmail(input.email))
    else if Taken(users, Username, input.username) then
      Failed(DuplicateUsername(input.username))
    else
      Created(User(id, input.name, input.username, input.email, createdAt))
  }

  /** The stored users after a call that returned `r`. */
  function Apply(users: map<string, User>, r: CreateResult): (after: map<string, User>)
    ensures r.Failed? ==> after == users
    ensures r.Created? ==> after.Keys == users.Keys + {r.user.id} && after[r.user.id] == r.user &&
                           forall k :: k in users && k != r.user.id ==> after[k] == users[k]
  {
    if r.Created? then users[r.user.id := r.user] else users
  }

  /** When both the email and the username clash, the email is reported. */
  lemma EmailCheckFirst(users: map<string, User>, input: UserInput, id: string, createdAt: Timestamp)
    requires Taken(users, Email, input.email) && Taken(users, Username, input.username)
    ensures Create(users, input, id, createdAt) == Failed(DuplicateEmail(input.email))
  {
  }

  /** A failed create changes nothing; a successful one adds exactly one
      entry under the fresh id and leaves every earlier entry as it was. */
  lemma CreateEffect(users: map<string, User>, input: UserInput, id: string, createdAt: Timestamp)
    requires id !in users
    ensures var r := Create(users, input, id, createdAt);
            var after := Apply(users, r);
            (r.Failed? ==> after == users) &&
            (r.Created? ==> after.Keys == users.Keys + {id} && |after| == |users| + 1 &&
                            after[id] == r.user &&
                            forall k :: k in users ==> after[k] == users[k])
  {
  }

  /** `CreateUser` keeps every user under its own id and keeps email and
      username unique ignoring case. */
  lemma CreatePreservesInvariant(users: map<string, User>, input: UserInput, id: string, createdAt: Timestamp)
    requires Invariant(users) && id !in users
    ensures Invariant(Apply(users, Create(users, input, id, createdAt)))
  {
  }

  /** A create that failed on its username reserved nothing: the same email
      goes through on a later call whose username is free. */
  lemma FailedUsernameFreesEmail(users: map<string, User>, first: UserInput, second: UserInput,
                                 id1: string, id2: string, t1: Timestamp, t2: Timestamp)
    requires Create(users, first, id1, t1) == Failed(DuplicateUsername(first.username))
    requires second.email == first.email && !Taken(users, Username, second.username)
    ensures Create(Apply(users, Create(users, first, id1, t1)), second, id2, t2).Created?
  {
  }

  /** A submitted call: the input with the id and the time it is given. */
  datatype Request = Request(input: UserInput, id: string, createdAt: Timestamp)

  /** Every request carries an id that is neither stored nor reused. */
  predicate FreshIds(users: map<string, User>, reqs: seq<Request>)
  {
    (forall i :: 0 <= i < |reqs| ==> reqs[i].id !in users) &&
    (forall i, j :: 0 <= i < j < |reqs| ==> reqs[i].id != reqs[j].id)
  }

  /** The stored users after the requests are submitted one after another. */
  function Replay(users: map<string, User>, reqs: seq<Request>): map<string, User>
    decreases |reqs|
  {
    if reqs == [] then users
    else
      var r := Create(users, reqs[0].input, reqs[0].id, reqs[0].createdAt);
      Replay(Apply(users, r), reqs[1..])
  }

  lemma {:induction false} ReplayFreshTail(users: map<string, User>, reqs: seq<Request>)
    requires reqs != [] && FreshIds(users, reqs)
    ensures FreshIds(Apply(users, Create(users, reqs[0].input, reqs[0].id, reqs[0].createdAt)), reqs[1..])
  {
  }

  /** Whatever sequence of creates with fresh ids is submitted, no two
      stored users ever share an email or a username ignoring case. */
  lemma {:induction false} ReplayPreservesInvariant(users: map<string, User>, reqs: seq<Request>)
    requires Invariant(users) && FreshIds(users, reqs)
    ensures Invariant(Replay(users, reqs))
    decreases |reqs|
  {
    if reqs != [] {
      CreatePreservesInvariant(users, reqs[0].input, reqs[0].id, reqs[0].createdAt);
      ReplayFreshTail(users, reqs);
      ReplayPreservesInvariant(Apply(users, Create(users, reqs[0].input, reqs[0].id, reqs[0].createdAt)), reqs[1..]);
    }
  }

  /** With fresh ids, creates never overwrite: every stored user survives
      any later sequence of creates unchanged. */
  lemma {:induction false} ReplayNeverOverwrites(users: map<string, User>, reqs: seq<Request>)
    requires FreshIds(users, reqs)
    ensures forall k :: k in users ==> k in Replay(users, reqs) && Replay(users, reqs)[k] == users[k]
    decreases |reqs|
  {
    if reqs != [] {
      var after := Apply(users, Create(users, reqs[0].input, reqs[0].id, reqs[0].createdAt));
      ReplayFreshTail(users, reqs);
      ReplayNeverOverwrites(after, reqs[1..]);
    }
  }

  /** Two users created one after the other with fresh ids have different
      ids, and the first is still stored after the second. */
  lemma CreatedIdsDiffer(users: map<string, User>, in1: UserInput, in2: UserInput,
                         id1: string, id2: string, t1: Timestamp, t2: Timestamp)
    requires id1 !in users
    requires Create(users, in1, id1, t1).Created?
    requires id2 !in Apply(users, Create(users, in1, id1, t1))
    requires Create(Apply(users, Create(users, in1, id1, t1)), in2, id2, t2).Created?
    ensures var u1 := Create(users, in1, id1, t1).user;
            var mid := Apply(users, Create(users, in1, id1, t1));
            var u2 := Create(mid, in2, id2, t2).user;
            u1.id != u2.id && Apply(mid, Create(mid, in2, id2, t2))[u1.id] == u1
  {
  }

  /** Every element's name is at most every later element's name, ignoring case. */
  predicate SortedByName(list: seq<User>)
  {
    forall i, j :: 0 <= i < j < |list| ==> NameLe(list[i].name, list[j].name)
  }

  /** Insertion of one user into a list, before the first user whose name
      it strictly precedes, so after every user whose name ties with it. */
  function InsertByName(list: seq<User>, u: User): (r: seq<User>)
    ensures multiset(r) == multiset(list) + multiset{u}
    ensures |r| == |list| + 1
  {
    if list == [] then [u]
    else if !NameLe(list[0].name, u.name) then [u] + list
    else
      assert list == [list[0]] + list[1..];
      [list[0]] + InsertByName(list[1..], u)
  }

  /** Dropping the first user keeps a list sorted. */
  lemma SortedTail(list: seq<User>)
    requires SortedByName(list) && list != []
    ensures SortedByName(list[1..])
  {
    forall i, j | 0 <= i < j < |list| - 1
      ensures NameLe(list[1..][i].name, list[1..][j].name)
    {
      assert list[1..][i] == list[i + 1] && list[1..][j] == list[j + 1];
    }
  }

  /** A user whose name is at most every name of a sorted list may go in front. */
  lemma SortedCons(x: User, rest: seq<User>)
    requires SortedByName(rest)
    requires forall y :: y in rest ==> NameLe(x.name, y.name)
    ensures SortedByName([x] + rest)
  {
  }

  lemma {:induction false} InsertKeepsSorted(list: seq<User>, u: User)
    requires SortedByName(list)
    ensures SortedByName(InsertByName(list, u))
  {
    if list == [] {
    } else if !NameLe(list[0].name, u.name) {
      NameLeTotal(u.name, list[0].name);
      forall y | y in list
        ensures NameLe(u.name, y.name)
      {
        var j :| 0 <= j < |list| && list[j] == y;
        if j > 0 {
          NameLeTransitive(u.name, list[0].name, list[j].name);
        }
      }
      SortedCons(u, list);
    } else {
      var rest := InsertByName(list[1..], u);
      InsertKeepsSorted(list[1..], u);
      forall x | x in rest
        ensures NameLe(list[0].name, x.name)
      {
        assert x in multiset(rest);
        if x != u {
          assert x in multiset(list[1..]);
          var j :| 0 <= j < |list[1..]| && list[1..][j] == x;
          assert list[j + 1] == x;
        }
      }
      SortedCons(list[0], rest);
    }
  }

  /** The users of `list` whose names equal `name` ignoring case, in the
      order they appear in `list`. */
  function NamedLike(list: seq<User>, name: string): (r: seq<User>)
    ensures |r| <= |list|
  {
    if list == [] then []
    else (if EqualsIgnoreCase(list[0].name, name) then [list[0]] else []) + NamedLike(list[1..], name)
  }

  /** Appending a user extends the tied users by that user when it ties. */
  lemma {:induction false} NamedLikeAppend(list: seq<User>, u: User, name: string)
    ensures NamedLike(list + [u], name) ==
            NamedLike(list, name) + (if EqualsIgnoreCase(u.name, name) then [u] else [])
  {
    if list != [] {
      assert (list + [u])[1..] == list[1..] + [u];
      NamedLikeAppend(list[1..], u, name);
    }
  }

  /** A list none of whose names ties with `name` has no users named like it. */
  lemma {:induction false} NamedLikeNone(list: seq<User>, name: string)
    requires forall y :: y in list ==> !EqualsIgnoreCase(y.name, name)
    ensures NamedLike(list, name) == []
  {
    if list != [] {
      assert list[0] in list;
      NamedLikeNone(list[1..], name);
    }
  }

  /** No user of a sorted list ties with a name strictly before its head. */
  lemma NoneLikeBeforeHead(list: seq<User>, u: User, name: string)
    requires SortedByName(list) && list != [] && !NameLe(list[0].name, u.name)
    requires EqualsIgnoreCase(u.name, name)
    ensures NamedLike(list, name) == []
  {
    forall y | y in list
      ensures !EqualsIgnoreCase(y.name, name)
    {
      if EqualsIgnoreCase(y.name, name) {
        EqualsIgnoreCaseIsEquivalence(y.name, name, u.name);
        NameTieIffEqualsIgnoreCase(y.name, u.name);
        var j :| 0 <= j < |list| && list[j] == y;
        if j > 0 {
          NameLeTransitive(list[0].name, y.name, u.name);
        }
        assert false;
      }
    }
    NamedLikeNone(list, name);
  }

  /** A user in front contributes itself, when it ties, before the rest. */
  lemma NamedLikeCons(x: User, list: seq<User>, name: string)
    ensures NamedLike([x] + list, name) ==
            (if EqualsIgnoreCase(x.name, name) then [x] else []) + NamedLike(list, name)
  {
    assert ([x] + list)[1..] == list;
  }

  /** Putting a list's head back in front of a list that extends its tail's
      tied users extends the list's own tied users the same way. */
  lemma NamedLikeKeepsHead(list: seq<User>, rest: seq<User>, extra: seq<User>, name: string)
    requires list != [] && NamedLike(rest, name) == NamedLike(list[1..], name) + extra
    ensures NamedLike([list[0]] + rest, name) == NamedLike(list, name) + extra
  {
    var head := if EqualsIgnoreCase(list[0].name, name) then [list[0]] else [];
    NamedLikeCons(list[0], rest, name);
    assert head + (NamedLike(list[1..], name) + extra) == (head + NamedLike(list[1..], name)) + extra;
  }

  /** Insertion is stable: among the users named like any name, the
      inserted user comes after those already in the list. */
  lemma {:induction false} InsertIsStable(list: seq<User>, u: User, name: string)
    requires SortedByName(list)
    ensures NamedLike(InsertByName(list, u), name) ==
            NamedLike(list, name) + (if EqualsIgnoreCase(u.name, name) then [u] else [])
  {
    var own := if EqualsIgnoreCase(u.name, name) then [u] else [];
    if list == [] {
      NamedLikeCons(u, [], name);
    } else if !NameLe(list[0].name, u.name) {
      NamedLikeCons(u, list, name);
      if own != [] {
        NoneLikeBeforeHead(list, u, name);
      }
    } else {
      SortedTail(list);
      InsertIsStable(list[1..], u, name);
      NamedLikeKeepsHead(list, InsertByName(list[1..], u), own, name);
    }
  }

  /** Every user of a list is among the users named like it. */
  lemma {:induction false} NamedLikeHas(list: seq<User>, u: User)
    requires u in list
    ensures u in NamedLike(list, u.name)
  {
    EqualsIgnoreCaseIsEquivalence(u.name, u.name, u.name);
    if list[0] != u {
      NamedLikeHas(list[1..], u);
    }
  }

  /** The users named like a name all come from the list. */
  lemma {:induction false} NamedLikeFrom(list: seq<User>, u: User, name: string)
    requires u in NamedLike(list, name)
    ensures u in list
  {
    if list[0] != u {
      NamedLikeFrom(list[1..], u, name);
    }
  }

  /** Two sorted lists that agree on the users named like every name start
      with the same user. */
  lemma StableHeadsAgree(l1: seq<User>, l2: seq<User>)
    requires SortedByName(l1) && SortedByName(l2) && l1 != [] && l2 != []
    requires forall name :: NamedLike(l1, name) == NamedLike(l2, name)
    ensures l1[0] == l2[0]
  {
    var a, b := l1[0], l2[0];
    NamedLikeHas(l1, a);
    NamedLikeHas(l2, b);
    assert a in NamedLike(l2, a.name);
    assert b in NamedLike(l1, b.name);
    NamedLikeFrom(l2, a, a.name);
    NamedLikeFrom(l1, b, b.name);
    assert NameLe(b.name, a.name) by {
      var i :| 0 <= i < |l2| && l2[i] == a;
      if i == 0 { LexLeReflexive(FoldString(a.name)); }
    }
    assert NameLe(a.name, b.name) by {
      var j :| 0 <= j < |l1| && l1[j] == b;
      if j == 0 { LexLeReflexive(FoldString(b.name)); }
    }
    NameTieIffEqualsIgnoreCase(b.name, a.name);
    EqualsIgnoreCaseIsEquivalence(a.name, a.name, a.name);
    assert NamedLike(l1, a.name)[0] == a;
    assert NamedLike(l2, a.name)[0] == b;
  }

  /** Lists with the same head that agree on the users named like every
      name have tails that agree too. */
  lemma StableTails(l1: seq<User>, l2: seq<User>)
    requires l1 != [] && l2 != [] && l1[0] == l2[0]
    requires forall name :: NamedLike(l1, name) == NamedLike(l2, name)
    ensures forall name :: NamedLike(l1[1..], name) == NamedLike(l2[1..], name)
  {
    forall name
      ensures NamedLike(l1[1..], name) == NamedLike(l2[1..], name)
    {
      var head := if EqualsIgnoreCase(l1[0].name, name) then [l1[0]] else [];
      var t1, t2 := NamedLike(l1[1..], name), NamedLike(l2[1..], name);
      assert NamedLike(l1, name) == head + t1;
      assert NamedLike(l2, name) == head + t2;
      assert t1 == (head + t1)[|head|..];
      assert t2 == (head + t2)[|head|..];
    }
  }

  /** Sorting and stability together leave no choice: two sorted lists
      that agree on the order of the users named like every name are equal. */
  lemma {:induction false} SortedStableUnique(l1: seq<User>, l2: seq<User>)
    requires SortedByName(l1) && SortedByName(l2)
    requires forall name :: NamedLike(l1, name) == NamedLike(l2, name)
    ensures l1 == l2
    decreases |l1|
  {
    if l1 != [] && l2 != [] {
      StableHeadsAgree(l1, l2);
      StableTails(l1, l2);
      assert SortedByName(l1[1..]) && SortedByName(l2[1..]);
      SortedStableUnique(l1[1..], l2[1..]);
      assert l1 == [l1[0]] + l1[1..] && l2 == [l2[0]] + l2[1..];
    } else if l1 != [] || l2 != [] {
      var l := if l1 == [] then l2 else l1;
      NamedLikeHas(l, l[0]);
      assert false;
    }
  }

  /** No two elements have names equal ignoring case. */
  predicate DistinctNames(list: seq<User>)
  {
    forall i, j :: 0 <= i < j < |list| ==> !EqualsIgnoreCase(list[i].name, list[j].name)
  }

  /** The first elements of two sorted permutations agree when no two
      names tie. */
  lemma SortedHeadsAgree(l1: seq<User>, l2: seq<User>)
    requires SortedByName(l1) && SortedByName(l2) && multiset(l1) == multiset(l2)
    requires DistinctNames(l1) && |l1| > 0
    ensures |l2| > 0 && l1[0] == l2[0]
  {
    assert l1[0] in multiset(l2) && l2[0] in multiset(l1);
    var j :| 0 <= j < |l2| && l2[j] == l1[0];
    var i :| 0 <= i < |l1| && l1[i] == l2[0];
    if i != 0 {
      assert NameLe(l1[0].name, l1[i].name);
      if j != 0 {
        assert NameLe(l1[i].name, l1[0].name);
      } else {
        LexLeReflexive(FoldString(l1[0].name));
      }
      NameTieIffEqualsIgnoreCase(l1[0].name, l1[i].name);
      assert false;
    }
  }

  lemma MultisetTails(l1: seq<User>, l2: seq<User>)
    requires |l1| > 0 && |l2| > 0 && l1[0] == l2[0] && multiset(l1) == multiset(l2)
    ensures multiset(l1[1..]) == multiset(l2[1..])
  {
    assert l1 == [l1[0]] + l1[1..] && l2 == [l2[0]] + l2[1..];
    assert multiset(l1[1..]) == multiset(l1) - multiset{l1[0]};
    assert multiset(l2[1..]) == multiset(l2) - multiset{l2[0]};
  }

  /** When no two names tie ignoring case, there is only one sorted order:
      the listing is fully determined by the stored users. */
  lemma {:induction false} SortedListingUnique(l1: seq<User>, l2: seq<User>)
    requires SortedByName(l1) && SortedByName(l2) && multiset(l1) == multiset(l2)
    requires DistinctNames(l1)
    ensures l1 == l2
    decreases |l1|
  {
    assert |l1| == |multiset(l1)| == |multiset(l2)| == |l2|;
    if |l1| > 0 {
      SortedHeadsAgree(l1, l2);
      MultisetTails(l1, l2);
      SortedListingUnique(l1[1..], l2[1..]);
      assert l1 == [l1[0]] + l1[1..] && l2 == [l2[0]] + l2[1..];
    }
  }

  /** Taking one key out of a well-keyed map takes out exactly its record. */
  lemma ValuesWithout(m: map<string, User>, k: string)
    requires WellKeyed(m) && k in m
    ensures WellKeyed(m - {k})
    ensures |m - {k}| == |m| - 1
    ensures multiset(m.Values) == multiset((m - {k}).Values) + multiset{m[k]}
  {
    var rest := m - {k};
    assert rest.Keys == m.Keys - {k};
    assert m[k] !in rest.Values;
    forall v | v in m.Values
      ensures v in rest.Values + {m[k]}
    {
      var j :| j in m && m[j] == v;
      if j != k {
        assert j in rest && rest[j] == v;
      }
    }
    forall v | v in rest.Values
      ensures v in m.Values
    {
      var j :| j in rest && rest[j] == v;
      assert j in m && m[j] == v;
    }
    assert m.Values == rest.Values + {m[k]};
  }

  /** `_users.Values`: the stored records, one per key, in the order the
      keys happen to be enumerated. */
  method ValuesOf(stored: map<string, User>) returns (values: seq<User>)
    requires WellKeyed(stored)
    ensures multiset(values) == multiset(stored.Values)
    ensures |values| == |stored|
  {
    values := [];
    var rest := stored;
    while rest != map[]
      invariant WellKeyed(rest)
      invariant multiset(values) + multiset(rest.Values) == multiset(stored.Values)
      invariant |values| + |rest| == |stored|
      decreases |rest|
    {
      var k :| k in rest;
      ValuesWithout(rest, k);
      values := values + [rest[k]];
      rest := rest - {k};
    }
    assert rest.Values == {};
  }

  /** `OrderBy(u => u.Name, StringComparer.OrdinalIgnoreCase)`: the users
      rearranged into ascending order of name ignoring case; the sort is
      stable, so users whose names tie keep their input order. */
  method OrderByName(values: seq<User>) returns (sorted: seq<User>)
    ensures SortedByName(sorted)
    ensures multiset(sorted) == multiset(values)
    ensures forall name :: NamedLike(sorted, name) == NamedLike(values, name)
  {
    sorted := [];
    var i := 0;
    while i < |values|
      invariant 0 <= i <= |values|
      invariant SortedByName(sorted)
      invariant multiset(sorted) == multiset(values[..i])
      invariant forall name :: NamedLike(sorted, name) == NamedLike(values[..i], name)
    {
      InsertKeepsSorted(sorted, values[i]);
      assert values[..i + 1] == values[..i] + [values[i]];
      forall name
        ensures NamedLike(InsertByName(sorted, values[i]), name) == NamedLike(values[..i + 1], name)
      {
        InsertIsStable(sorted, values[i], name);
        NamedLikeAppend(values[..i], values[i], name);
      }
      sorted := InsertByName(sorted, values[i]);
      i := i + 1;
    }
    assert values[..i] == values;
  }

  class UserStore {
    /** The dictionary from id to user. */
    var users: map<string, User>

    predicate Valid()
      reads this
    {
      Invariant(users)
    }

    constructor ()
      ensures Valid() && users == map[]
    {
      users := map[];
    }

    /** `_users.Values.Any(...)` on the email or the username: a scan that
        stops at the first case-insensitive match. */
    method AnyMatches(f: Field, value: string) returns (found: bool)
      ensures found <==> Taken(users, f, value)
    {
      found := false;
      var remaining := users.Keys;
      while remaining != {} && !found
        invariant remaining <= users.Keys
        invariant found ==> Taken(users, f, value)
        invariant !found ==> forall k :: k in users && k !in remaining ==> !EqualsIgnoreCase(FieldOf(users[k], f), value)
        decreases remaining, !found
      {
        var k :| k in remaining;
        if EqualsIgnoreCase(FieldOf(users[k], f), value) {
          found := true;
        } else {
          remaining := remaining - {k};
        }
      }
    }

    /** Rejects a duplicate email, then a duplicate username, ignoring case;
        otherwise stores a new user under the fresh `id`. `id` and
        `createdAt` stand for `Guid.NewGuid()` and `DateTime.UtcNow`. */
    method CreateUser(input: UserInput, id: string, createdAt: Timestamp) returns (r: CreateResult)
      requires Valid() && id !in users
      modifies this
      ensures Valid()
      ensures r == Create(old(users), input, id, createdAt)
      ensures users == Apply(old(users), r)
    {
      CreatePreservesInvariant(users, input, id, createdAt);
      var emailTaken := AnyMatches(Email, input.email);
      if emailTaken {
        return Failed(DuplicateEmail(input.email));
      }
      var usernameTaken := AnyMatches(Username, input.username);
      if usernameTaken {
        return Failed(DuplicateUsername(input.username));
      }
      var user := User(id, input.name, input.username, input.email, createdAt);
      users := users[user.id := user];
      r := Created(user);
    }

    /** Every stored user, ordered by name ignoring case; changes nothing. */
    method GetUsers() returns (list: seq<User>)
      requires Valid()
      ensures SortedByName(list)
      ensures multiset(list) == multiset(users.Values)
      ensures |list| == |users|
    {
      var values := ValuesOf(users);
      list := OrderByName(values);
      assert |list| == |multiset(list)| == |multiset(values)| == |values|;
    }
  }
}
