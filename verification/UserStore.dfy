/**
 * The in-memory user store (webrtc-server/pkg/models/user/user.go), run by one
 * goroutine.  Cloning a store copies its structure, maps included by
 * reference, so successive versions share their four index maps.
 */
module UserStore {
  import opened Wrappers

  datatype User = User(
    id: string,
    username: string,
    displayName: string,
    avatarURL: string,
    githubId: string,
    dn42ASN: string,
    googleId: string,
    isBot: bool)

  /** What a user can be looked up by. */
  datatype Key = ById | ByGithubId | ByUsername | ByDN42ASN

  function KeyOf(k: Key, u: User): string {
    match k
    case ById => u.id
    case ByGithubId => u.githubId
    case ByUsername => u.username
    case ByDN42ASN => u.dn42ASN
  }

  /** Linear search for the last user with this key; -1 if there is none. */
  function LastWith(us: seq<User>, k: Key, v: string): (i: int)
    ensures -1 <= i < |us|
  {
    if us == [] then -1
    else if KeyOf(k, us[|us| - 1]) == v then |us| - 1
    else LastWith(us[..|us| - 1], k, v)
  }

  lemma {:induction false} LastWithIsLast(us: seq<User>, k: Key, v: string)
    ensures var i := LastWith(us, k, v);
      && (i >= 0 ==> KeyOf(k, us[i]) == v)
      && forall j :: i < j < |us| ==> KeyOf(k, us[j]) != v
  {
    if us == [] {
    } else if KeyOf(k, us[|us| - 1]) != v {
      LastWithIsLast(us[..|us| - 1], k, v);
    }
  }

  /** The index of a list of users: their positions, entered one after the other. */
  function IndexKey(us: seq<User>, k: Key): map<string, nat> {
    if us == [] then map[] else IndexKey(us[..|us| - 1], k)[KeyOf(k, us[|us| - 1]) := |us| - 1]
  }

  /** The index sends each key some user has to the last such user, and has no other keys. */
  lemma {:induction false} IndexIsSearch(us: seq<User>, k: Key, v: string)
    ensures v in IndexKey(us, k) <==> LastWith(us, k, v) >= 0
    ensures v in IndexKey(us, k) ==> IndexKey(us, k)[v] == LastWith(us, k, v)
  {
    if us == [] {
    } else {
      IndexIsSearch(us[..|us| - 1], k, v);
    }
  }

  /** An index after the first i users have been entered in it. */
  function EnteredKey(m: map<string, nat>, us: seq<User>, k: Key, i: nat): map<string, nat>
    requires i <= |us|
  {
    if i == 0 then m else EnteredKey(m, us, k, i - 1)[KeyOf(k, us[i - 1]) := i - 1]
  }

  lemma {:induction false} EnteredKeyAt(m: map<string, nat>, us: seq<User>, k: Key, i: nat, v: string)
    requires i <= |us| && v in m
    ensures v in EnteredKey(m, us, k, i)
    ensures var n := EnteredKey(m, us, k, i)[v];
      || (n == m[v] && forall j :: 0 <= j < i ==> KeyOf(k, us[j]) != v)
      || (n < i && KeyOf(k, us[n]) == v && forall j :: n < j < i ==> KeyOf(k, us[j]) != v)
  {
    if i == 0 {
    } else {
      EnteredKeyAt(m, us, k, i - 1, v);
    }
  }

  lemma {:induction false} EnteredKeyKeys(m: map<string, nat>, us: seq<User>, k: Key, i: nat)
    requires i <= |us| && forall j :: 0 <= j < |us| ==> KeyOf(k, us[j]) in m
    ensures EnteredKey(m, us, k, i).Keys == m.Keys
  {
    if i == 0 {
    } else {
      EnteredKeyKeys(m, us, k, i - 1);
    }
  }

  lemma ReenteringRestoresAt(us: seq<User>, k: Key, v: string)
    requires v in IndexKey(us, k)
    ensures v in EnteredKey(IndexKey(us, k), us, k, |us|)
    ensures EnteredKey(IndexKey(us, k), us, k, |us|)[v] == IndexKey(us, k)[v]
  {
    EnteredKeyAt(IndexKey(us, k), us, k, |us|, v);
    IndexIsSearch(us, k, v);
    LastWithIsLast(us, k, v);
  }

  /** Entering every user again restores the index. */
  lemma ReenteringRestoresKey(us: seq<User>, k: Key)
    ensures EnteredKey(IndexKey(us, k), us, k, |us|) == IndexKey(us, k)
  {
    forall j | 0 <= j < |us|
      ensures KeyOf(k, us[j]) in IndexKey(us, k)
    {
      IndexIsSearch(us, k, KeyOf(k, us[j]));
      LastWithIsLast(us, k, KeyOf(k, us[j]));
    }
    EnteredKeyKeys(IndexKey(us, k), us, k, |us|);
    forall v | v in IndexKey(us, k)
      ensures EnteredKey(IndexKey(us, k), us, k, |us|)[v] == IndexKey(us, k)[v]
    {
      ReenteringRestoresAt(us, k, v);
    }
  }

  /** The contents of the four indexes. */
  datatype Maps = Maps(
    byId: map<string, nat>,
    byGithubId: map<string, nat>,
    byUsername: map<string, nat>,
    byDN42ASN: map<string, nat>)

  function IndexOf(us: seq<User>): Maps {
    Maps(IndexKey(us, ById), IndexKey(us, ByGithubId), IndexKey(us, ByUsername), IndexKey(us, ByDN42ASN))
  }

  function Entered(ms: Maps, u: User, i: nat): Maps {
    Maps(ms.byId[u.id := i], ms.byGithubId[u.githubId := i],
      ms.byUsername[u.username := i], ms.byDN42ASN[u.dn42ASN := i])
  }

  lemma IndexAppend(us: seq<User>, u: User)
    ensures IndexOf(us + [u]) == Entered(IndexOf(us), u, |us|)
  {
    assert (us + [u])[..|us|] == us;
  }

  function EnteredUpTo(ms: Maps, us: seq<User>, i: nat): Maps
    requires i <= |us|
  {
    if i == 0 then ms else Entered(EnteredUpTo(ms, us, i - 1), us[i - 1], i - 1)
  }

  lemma {:induction false} EnteredByKey(ms: Maps, us: seq<User>, i: nat)
    requires i <= |us|
    ensures EnteredUpTo(ms, us, i) == Maps(
      EnteredKey(ms.byId, us, ById, i), EnteredKey(ms.byGithubId, us, ByGithubId, i),
      EnteredKey(ms.byUsername, us, ByUsername, i), EnteredKey(ms.byDN42ASN, us, ByDN42ASN, i))
  {
    if i == 0 {
    } else {
      EnteredByKey(ms, us, i - 1);
    }
  }

  lemma ReenteringRestores(us: seq<User>)
    ensures EnteredUpTo(IndexOf(us), us, |us|) == IndexOf(us)
  {
    EnteredByKey(IndexOf(us), us, |us|);
    ReenteringRestoresKey(us, ById);
    ReenteringRestoresKey(us, ByGithubId);
    ReenteringRestoresKey(us, ByUsername);
    ReenteringRestoresKey(us, ByDN42ASN);
  }

  // ---------------------------------------------------------------- the store on the heap

  /** A Go map, which is a reference. */
  class IndexMap {
    var m: map<string, nat>

    constructor ()
      ensures m == map[]
    {
      m := map[];
    }
  }

  class InMemoryUserStore {
    var users: seq<User>
    var indexById: IndexMap
    var indexByGithubId: IndexMap
    var indexByUsername: IndexMap
    var indexByDN42ASN: IndexMap

    ghost function Indexes(): set<IndexMap>
      reads this
    {
      {indexById, indexByGithubId, indexByUsername, indexByDN42ASN}
    }

    ghost predicate SharesIndexesWith(other: InMemoryUserStore)
      reads this, other
    {
      && indexById == other.indexById && indexByGithubId == other.indexByGithubId
      && indexByUsername == other.indexByUsername && indexByDN42ASN == other.indexByDN42ASN
    }

    ghost function Contents(): Maps
      reads this, Indexes()
    {
      Maps(indexById.m, indexByGithubId.m, indexByUsername.m, indexByDN42ASN.m)
    }

    /** Four different maps. */
    ghost predicate Separate()
      reads this
    {
      && indexById != indexByGithubId && indexById != indexByUsername && indexById != indexByDN42ASN
      && indexByGithubId != indexByUsername && indexByGithubId != indexByDN42ASN
      && indexByUsername != indexByDN42ASN
    }

    ghost predicate Valid()
      reads this, Indexes()
    {
      Separate() && Contents() == IndexOf(users)
    }

    constructor ()
      ensures users == [] && Valid() && fresh(Indexes())
    {
      users := [];
      indexById := new IndexMap();
      indexByGithubId := new IndexMap();
      indexByUsername := new IndexMap();
      indexByDN42ASN := new IndexMap();
    }

    method UpdateIndex(u: User, i: nat)
      requires Separate()
      modifies Indexes()
      ensures Contents() == Entered(old(Contents()), u, i)
    {
      indexById.m := indexById.m[u.id := i];
      indexByGithubId.m := indexByGithubId.m[u.githubId := i];
      indexByUsername.m := indexByUsername.m[u.username := i];
      indexByDN42ASN.m := indexByDN42ASN.m[u.dn42ASN := i];
    }
  }

  /** A lookup in one of the indexes, -1 for a miss. */
  method Lookup(store: InMemoryUserStore, k: Key, v: string) returns (idx: int)
    requires store.Valid()
    ensures idx == LastWith(store.users, k, v)
  {
    var index := match k
      case ById => store.indexById
      case ByGithubId => store.indexByGithubId
      case ByUsername => store.indexByUsername
      case ByDN42ASN => store.indexByDN42ASN;
    IndexIsSearch(store.users, k, v);
    idx := if v in index.m then index.m[v] else -1;
  }

  /** The part of Clone that copies a store: every user is entered again, in the shared maps. */
  method CloneFrom(store: InMemoryUserStore) returns (newStore: InMemoryUserStore)
    requires store.Separate()
    modifies store.Indexes()
    ensures fresh(newStore) && newStore.Separate()
    ensures newStore.users == store.users
    ensures newStore.SharesIndexesWith(store)
    ensures store.Contents() == EnteredUpTo(old(store.Contents()), store.users, |store.users|)
  {
    newStore := new InMemoryUserStore();
    newStore.indexById := store.indexById;
    newStore.indexByGithubId := store.indexByGithubId;
    newStore.indexByUsername := store.indexByUsername;
    newStore.indexByDN42ASN := store.indexByDN42ASN;
    newStore.users := [];
    ghost var before := store.Contents();
    var users := store.users;
    for i := 0 to |users|
      invariant store.users == users && newStore.users == users[..i]
      invariant newStore.SharesIndexesWith(store)
      invariant newStore.Contents() == EnteredUpTo(before, users, i)
    {
      var u := users[i];
      newStore.users := newStore.users + [u];
      newStore.UpdateIndex(u, i);
    }
  }

  /** Clone: the users are copied; the index maps are the same ones, and end up as they were. */
  method Clone(store: InMemoryUserStore?) returns (newStore: InMemoryUserStore)
    requires store != null ==> store.Valid()
    modifies if store == null then {} else store.Indexes()
    ensures fresh(newStore) && newStore.Valid()
    ensures store == null ==> newStore.users == [] && fresh(newStore.Indexes())
    ensures store != null ==>
              && newStore.users == store.users
              && newStore.SharesIndexesWith(store)
              && store.Contents() == old(store.Contents())
  {
    if store == null {
      newStore := new InMemoryUserStore();
    } else {
      ReenteringRestores(store.users);
      newStore := CloneFrom(store);
    }
  }

  /** AddUser; None is the duplicated-username error. */
  method AddUser(store: InMemoryUserStore?, user: User) returns (r: Option<InMemoryUserStore>)
    requires store != null ==> store.Valid()
    modifies if store == null then {} else store.Indexes()
    ensures r.None? <==> store != null && LastWith(old(store.users), ByUsername, user.username) >= 0
    ensures r.None? ==> store.Valid() && store.users == old(store.users) && store.Contents() == old(store.Contents())
    ensures r.Some? ==>
              && fresh(r.value) && r.value.Valid()
              && r.value.users == (if store == null then [] else old(store.users)) + [user]
              && (store == null ==> fresh(r.value.Indexes()))
              && (store != null ==> r.value.SharesIndexesWith(store))
  {
    var newStore := Clone(store);
    ghost var users := newStore.users;
    var idx := Lookup(newStore, ByUsername, user.username);
    if idx >= 0 {
      return None;
    }
    var numId := |newStore.users|;
    IndexAppend(users, user);
    newStore.UpdateIndex(user, numId);
    newStore.users := newStore.users + [user];
    return Some(newStore);
  }

  /**
   * Why only sequential runs keep the invariant: the maps of a clone are not
   * private, so an AddUser whose result is discarded after a lost swap leaves
   * the version it began from, which is still published, with an entry for a
   * user it does not have.  That version stays valid exactly when AddUser
   * refuses.
   */
  method AddUserAndLoseTheSwap(store: InMemoryUserStore, user: User) returns (refused: bool)
    requires store.Valid()
    modifies store.Indexes()
    ensures refused <==> LastWith(store.users, ByUsername, user.username) >= 0
    ensures store.users == old(store.users)
    ensures refused <==> store.Valid()
    ensures !refused ==> store.indexByUsername.m == old(store.indexByUsername.m)[user.username := |store.users|]
  {
    var discarded := AddUser(store, user);
    refused := discarded.None?;
    IndexAppend(store.users, user);
    IndexIsSearch(store.users, ByUsername, user.username);
  }

  // ---------------------------------------------------------------- the manager

  datatype Outcome = Found(u: User) | Created(u: User) | UsernameDuplicated

  /** Adding a user to a list of users. */
  function Add(us: seq<User>, user: User): (seq<User>, Outcome) {
    if LastWith(us, ByUsername, user.username) >= 0 then (us, UsernameDuplicated)
    else (us + [user], Created(user))
  }

  /** Finding the user with this key, or adding one. */
  function LoadOrAdd(us: seq<User>, k: Key, user: User): (seq<User>, Outcome) {
    var i := LastWith(us, k, KeyOf(k, user));
    if i >= 0 then (us, Found(us[i])) else Add(us, user)
  }

  function WithId(u: User, freshId: string): User {
    if u.id == "" then u.(id := freshId) else u
  }

  function LastUser(us: seq<User>, k: Key, v: string): Option<User> {
    if LastWith(us, k, v) >= 0 then Some(us[LastWith(us, k, v)]) else None
  }

  class MemoryUserManager {
    var store: InMemoryUserStore?

    ghost predicate Valid()
      reads this, store, if store == null then {} else store.Indexes()
    {
      store != null ==> store.Valid()
    }

    ghost function Users(): seq<User>
      reads this, store
    {
      if store == null then [] else store.users
    }

    constructor ()
      ensures Valid() && Users() == []
    {
      store := null;
    }

    /** atomic.Pointer.CompareAndSwap */
    method CompareAndSwap(expected: InMemoryUserStore?, updated: InMemoryUserStore) returns (swapped: bool)
      modifies this
      ensures swapped <==> old(store) == expected
      ensures store == if swapped then updated else old(store)
    {
      swapped := store == expected;
      if swapped {
        store := updated;
      }
    }

    method DoAddUserByGithubId(user: User) returns (outcome: Outcome)
      requires Valid()
      modifies this, if store == null then {} else store.Indexes()
      ensures Valid() && (Users(), outcome) == LoadOrAdd(old(Users()), ByGithubId, user)
    {
      ghost var us := Users();
      var swapped := false;
      while !swapped
        invariant Valid() && (!swapped ==> store == old(store))
        invariant Users() == if swapped then us + [user] else us
        invariant swapped ==> LastWith(us, ByGithubId, user.githubId) < 0 && LastWith(us, ByUsername, user.username) < 0
        decreases !swapped
      {
        var oldStore := store;
        if oldStore != null {
          var idx := Lookup(oldStore, ByGithubId, user.githubId);
          if idx >= 0 {
            return Found(oldStore.users[idx]);
          }
        }
        var newStore := AddUser(oldStore, user);
        if newStore.None? {
          return UsernameDuplicated;
        }
        swapped := CompareAndSwap(oldStore, newStore.value);
      }
      return Created(user);
    }

    method DoAddUserByDN42ASN(user: User) returns (outcome: Outcome)
      requires Valid()
      modifies this, if store == null then {} else store.Indexes()
      ensures Valid() && (Users(), outcome) == LoadOrAdd(old(Users()), ByDN42ASN, user)
    {
      ghost var us := Users();
      var swapped := false;
      while !swapped
        invariant Valid() && (!swapped ==> store == old(store))
        invariant Users() == if swapped then us + [user] else us
        invariant swapped ==> LastWith(us, ByDN42ASN, user.dn42ASN) < 0 && LastWith(us, ByUsername, user.username) < 0
        decreases !swapped
      {
        var oldStore := store;
        if oldStore != null {
          var idx := Lookup(oldStore, ByDN42ASN, user.dn42ASN);
          if idx >= 0 {
            return Found(oldStore.users[idx]);
          }
        }
        var newStore := AddUser(oldStore, user);
        if newStore.None? {
          return UsernameDuplicated;
        }
        swapped := CompareAndSwap(oldStore, newStore.value);
      }
      return Created(user);
    }

    /** `freshId` stands for uuid.NewString(); the argument githubId of the source is not used. */
    method LoadOrCreateNewUserByGithubId(newUser: User, freshId: string) returns (outcome: Outcome)
      requires Valid()
      modifies this, if store == null then {} else store.Indexes()
      ensures Valid() && (Users(), outcome) == LoadOrAdd(old(Users()), ByGithubId, WithId(newUser, freshId))
    {
      var user := newUser;
      if user.id == "" {
        user := user.(id := freshId);
      }
      outcome := DoAddUserByGithubId(user);
    }

    method LoadOrCreateNewUserByDN42ASN(newUser: User, freshId: string) returns (outcome: Outcome)
      requires Valid()
      modifies this, if store == null then {} else store.Indexes()
      ensures Valid() && (Users(), outcome) == LoadOrAdd(old(Users()), ByDN42ASN, WithId(newUser, freshId))
    {
      var user := newUser;
      if user.id == "" {
        user := user.(id := freshId);
      }
      outcome := DoAddUserByDN42ASN(user);
    }

    method CreateUser(username: string, displayName: string, avatarURL: string, isBot: bool, freshId: string)
        returns (outcome: Outcome)
      requires Valid()
      modifies this, if store == null then {} else store.Indexes()
      ensures Valid()
      ensures (Users(), outcome)
           == Add(old(Users()), User(freshId, username, displayName, avatarURL, "", "", "", isBot))
    {
      var user := User(freshId, username, displayName, avatarURL, "", "", "", isBot);
      ghost var us := Users();
      var swapped := false;
      while !swapped
        invariant Valid() && (!swapped ==> store == old(store))
        invariant Users() == if swapped then us + [user] else us
        invariant swapped ==> LastWith(us, ByUsername, username) < 0
        decreases !swapped
      {
        var oldStore := store;
        if oldStore != null {
          var idx := Lookup(oldStore, ByUsername, username);
          if idx >= 0 {
            return UsernameDuplicated;
          }
        }
        var newStore := AddUser(oldStore, user);
        if newStore.None? {
          return UsernameDuplicated;
        }
        swapped := CompareAndSwap(oldStore, newStore.value);
      }
      return Created(user);
    }

    method GetUserById(userId: string) returns (r: Option<User>)
      requires Valid()
      ensures r == LastUser(Users(), ById, userId)
    {
      if store != null {
        var idx := Lookup(store, ById, userId);
        if idx >= 0 {
          return Some(store.users[idx]);
        }
      }
      return None;
    }

    method GetUserByUsername(username: string) returns (r: Option<User>)
      requires Valid()
      ensures r == LastUser(Users(), ByUsername, username)
    {
      if store != null {
        var idx := Lookup(store, ByUsername, username);
        if idx >= 0 {
          return Some(store.users[idx]);
        }
      }
      return None;
    }
  }

  // ---------------------------------------------------------------- sequential runs

  datatype Request =
    | LoginByGithub(user: User)
    | LoginByDN42(user: User)
    | CreateAccount(user: User)

  function Handle(us: seq<User>, r: Request): (seq<User>, Outcome) {
    match r
    case LoginByGithub(u) => LoadOrAdd(us, ByGithubId, u)
    case LoginByDN42(u) => LoadOrAdd(us, ByDN42ASN, u)
    case CreateAccount(u) => Add(us, u)
  }

  /** The users after a list of requests, and the outcome of each. */
  function Run(us: seq<User>, rs: seq<Request>): (seq<User>, seq<Outcome>) {
    if rs == [] then (us, [])
    else
      var (before, outcomes) := Run(us, rs[..|rs| - 1]);
      var (after, outcome) := Handle(before, rs[|rs| - 1]);
      (after, outcomes + [outcome])
  }

  /** A provider login sets that provider's id only, an account without a provider sets neither. */
  predicate OwnProviderOnly(r: Request) {
    && (r.LoginByGithub? ==> r.user.dn42ASN == "")
    && (r.LoginByDN42? ==> r.user.githubId == "")
    && (r.CreateAccount? ==> r.user.githubId == "" && r.user.dn42ASN == "")
  }

  ghost predicate Unique(us: seq<User>, k: Key) {
    forall i, j :: 0 <= i < j < |us| && KeyOf(k, us[i]) == KeyOf(k, us[j]) ==> k != ByUsername && KeyOf(k, us[i]) == ""
  }

  /** The users a run created, in order. */
  function CreatedUsers(outcomes: seq<Outcome>): seq<User> {
    if outcomes == [] then []
    else
      var o := outcomes[|outcomes| - 1];
      CreatedUsers(outcomes[..|outcomes| - 1]) + if o.Created? then [o.u] else []
  }

  lemma {:induction false} UsernamesAreUnique(rs: seq<Request>)
    ensures Unique(Run([], rs).0, ByUsername)
    ensures Run([], rs).0 == CreatedUsers(Run([], rs).1)
  {
    if rs == [] {
    } else {
      UsernamesAreUnique(rs[..|rs| - 1]);
      var (before, outcomes) := Run([], rs[..|rs| - 1]);
      var o := Handle(before, rs[|rs| - 1]).1;
      assert (outcomes + [o])[..|outcomes|] == outcomes;
      LastWithIsLast(before, ByUsername, rs[|rs| - 1].user.username);
    }
  }

  /** The request adds its user: the login finds nobody under its own id, and the username is free. */
  predicate Adds(us: seq<User>, r: Request) {
    && (r.LoginByGithub? ==> LastWith(us, ByGithubId, r.user.githubId) < 0)
    && (r.LoginByDN42? ==> LastWith(us, ByDN42ASN, r.user.dn42ASN) < 0)
    && LastWith(us, ByUsername, r.user.username) < 0
  }

  /** The request adds a user whose key is not empty and already held. */
  predicate Repeats(us: seq<User>, r: Request, k: Key) {
    Adds(us, r) && KeyOf(k, r.user) != "" && LastWith(us, k, KeyOf(k, r.user)) >= 0
  }

  /** One request keeps a key unique exactly when it does not add a user who repeats it. */
  lemma HandleKeepsUnique(us: seq<User>, r: Request, k: Key)
    requires Unique(us, k)
    ensures Unique(Handle(us, r).0, k) <==> !Repeats(us, r, k)
  {
    var i := LastWith(us, k, KeyOf(k, r.user));
    var after := Handle(us, r).0;
    LastWithIsLast(us, k, KeyOf(k, r.user));
    if Adds(us, r) {
      assert after == us + [r.user];
      if i >= 0 && KeyOf(k, r.user) != "" {
        assert KeyOf(k, after[i]) == KeyOf(k, after[|us|]);
      }
      LastWithIsLast(us, ByUsername, r.user.username);
    } else {
      assert after == us;
    }
  }

  /** A key that has been repeated stays repeated. */
  lemma RepeatedForEver(us: seq<User>, r: Request, k: Key)
    requires !Unique(us, k)
    ensures !Unique(Handle(us, r).0, k)
  {
    var after := Handle(us, r).0;
    assert us <= after;
    var i, j :| 0 <= i < j < |us| && KeyOf(k, us[i]) == KeyOf(k, us[j]) && (k == ByUsername || KeyOf(k, us[i]) != "");
    assert after[i] == us[i] && after[j] == us[j];
  }

  /** No request adds a user who repeats a key of the users there are when its turn comes. */
  predicate NeverRepeats(rs: seq<Request>, k: Key) {
    rs == []
    || (NeverRepeats(rs[..|rs| - 1], k) && !Repeats(Run([], rs[..|rs| - 1]).0, rs[|rs| - 1], k))
  }

  /** A run keeps a key unique exactly when none of its requests repeats it. */
  lemma {:induction false} RunKeepsUnique(rs: seq<Request>, k: Key)
    ensures Unique(Run([], rs).0, k) <==> NeverRepeats(rs, k)
  {
    if rs == [] {
    } else {
      var front, last := rs[..|rs| - 1], rs[|rs| - 1];
      var before := Run([], front).0;
      RunKeepsUnique(front, k);
      assert Run([], rs).0 == Handle(before, last).0;
      if Unique(before, k) {
        HandleKeepsUnique(before, last, k);
      } else {
        RepeatedForEver(before, last, k);
      }
    }
  }

  /** Logins that set no foreign provider id never repeat one. */
  lemma {:induction false} OwnProvidersNeverRepeat(rs: seq<Request>, k: Key)
    requires forall r :: r in rs ==> OwnProviderOnly(r)
    requires k == ByGithubId || k == ByDN42ASN
    ensures NeverRepeats(rs, k)
  {
    if rs == [] {
    } else {
      var front, last := rs[..|rs| - 1], rs[|rs| - 1];
      assert last in rs && forall r :: r in front ==> r in rs;
      OwnProvidersNeverRepeat(front, k);
    }
  }

  /**
   * In every run whose requests set no foreign provider id, each non-empty
   * GitHub id and each non-empty ASN belongs to at most one user, and so has
   * been created at most once.
   */
  lemma ProviderIdsAreUnique(rs: seq<Request>, k: Key)
    requires forall r :: r in rs ==> OwnProviderOnly(r)
    requires k == ByGithubId || k == ByDN42ASN
    ensures Unique(Run([], rs).0, k) && Unique(CreatedUsers(Run([], rs).1), k)
  {
    UsernamesAreUnique(rs);
    OwnProvidersNeverRepeat(rs, k);
    RunKeepsUnique(rs, k);
  }

  /** Without that discipline an id can be given twice: the other provider's login does not look for it. */
  lemma ForeignProviderIdMayRepeat(u: User, v: User)
    requires u.username != v.username && u.githubId == v.githubId != "" && u.dn42ASN != v.dn42ASN
    ensures !Unique(Run([], [LoginByGithub(u), LoginByDN42(v)]).0, ByGithubId)
  {
    var rs := [LoginByGithub(u), LoginByDN42(v)];
    assert rs[..1] == [LoginByGithub(u)] && rs[..1][..0] == [];
    var none: seq<User> := [];
    assert Run(none, rs[..1]).0 == none + [u];
    var us := Run(none, rs).0;
    assert us == [u, v] by {
      LastWithIsLast([u], ByDN42ASN, v.dn42ASN);
      LastWithIsLast([u], ByUsername, v.username);
    }
    assert KeyOf(ByGithubId, us[0]) == KeyOf(ByGithubId, us[1]);
  }

  // ---------------------------------------------------------------- whom a login finds

  predicate Holds(us: seq<User>, k: Key, v: string) {
    exists i :: 0 <= i < |us| && KeyOf(k, us[i]) == v
  }

  lemma HoldsIffFound(us: seq<User>, k: Key, v: string)
    ensures Holds(us, k, v) <==> LastWith(us, k, v) >= 0
  {
    LastWithIsLast(us, k, v);
  }

  /** The user found is the last of the list to hold the key. */
  ghost predicate IsLastHolder(us: seq<User>, k: Key, v: string, u: User) {
    exists i :: 0 <= i < |us| && us[i] == u && KeyOf(k, u) == v && forall j :: i < j < |us| ==> KeyOf(k, us[j]) != v
  }

  /**
   * A login finds the last user that holds its key if there is one, and then
   * changes nothing; it is refused if there is none and the username is held;
   * and otherwise the user of the request, and no other, is added at the end.
   */
  lemma LoginFinds(us: seq<User>, k: Key, user: User)
    ensures
      var (after, outcome) := LoadOrAdd(us, k, user);
      && (outcome.Found? <==> Holds(us, k, KeyOf(k, user)))
      && (outcome.Found? ==> IsLastHolder(us, k, KeyOf(k, user), outcome.u) && after == us)
      && (outcome.UsernameDuplicated? <==> !Holds(us, k, KeyOf(k, user)) && Holds(us, ByUsername, user.username))
      && (outcome.UsernameDuplicated? ==> after == us)
      && (outcome.Created? ==> outcome.u == user && after == us + [user])
  {
    HoldsIffFound(us, k, KeyOf(k, user));
    HoldsIffFound(us, ByUsername, user.username);
    LastWithIsLast(us, k, KeyOf(k, user));
  }

  /** The keys are the fields they are named after. */
  lemma KeysAreFields(u: User)
    ensures KeyOf(ById, u) == u.id && KeyOf(ByGithubId, u) == u.githubId
    ensures KeyOf(ByUsername, u) == u.username && KeyOf(ByDN42ASN, u) == u.dn42ASN
  {
  }

  /** An account is created exactly when nobody holds the username, and is the one asked for. */
  lemma AccountIsAdded(us: seq<User>, user: User)
    ensures
      var (after, outcome) := Add(us, user);
      && (outcome == UsernameDuplicated <==> Holds(us, ByUsername, user.username))
      && (outcome == UsernameDuplicated ==> after == us)
      && (outcome != UsernameDuplicated ==> outcome == Created(user) && after == us + [user])
  {
    HoldsIffFound(us, ByUsername, user.username);
  }

  /** A lookup answers with the last user that holds the key, and with nobody exactly when there is none. */
  lemma LookupFinds(us: seq<User>, k: Key, v: string)
    ensures LastUser(us, k, v).Some? <==> Holds(us, k, v)
    ensures LastUser(us, k, v).Some? ==> IsLastHolder(us, k, v, LastUser(us, k, v).value)
  {
    HoldsIffFound(us, k, v);
    LastWithIsLast(us, k, v);
  }

  /** A user without an id gets the fresh one; nothing else of it changes. */
  lemma IdIsReplaced(u: User, freshId: string)
    ensures WithId(u, freshId).id == if u.id == "" then freshId else u.id
    ensures WithId(u, freshId).(id := u.id) == u
  {
  }

  /** Each request of a run is handled in turn. */
  lemma RunOneMore(us: seq<User>, rs: seq<Request>, r: Request)
    ensures Run(us, []) == (us, [])
    ensures Run(us, rs + [r]).0 == Handle(Run(us, rs).0, r).0
    ensures Run(us, rs + [r]).1 == Run(us, rs).1 + [Handle(Run(us, rs).0, r).1]
  {
    assert (rs + [r])[..|rs|] == rs;
  }
}
