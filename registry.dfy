/** The user registry: the list of users under `user_list` in KV, refreshed every time
    a user writes to the bot (`getUsersFromKV`, `addUserToKV`). */
module Registry {
  import opened Js
  import opened Validation

  /** `CONSTANTS.MAX_USERS_LIMIT` */
  const MaxUsers: nat := 1000

  /** One stored user. `lastActive` is the time of the last message; the worker stores
      it as an ISO-8601 string and compares the instants, so an integer stands for it. */
  datatype UserRecord = UserRecord(chatId: JsValue, userName: string, username: JsValue, userId: JsValue, lastActive: int)

  /** The `userInfo` argument of `addUserToKV`. */
  datatype UserInfo = UserInfo(userName: JsValue, username: JsValue, userId: JsValue)

  /** What `JSON.parse` makes of the stored list. */
  datatype ParsedList = Unparsable | NotArray | Array(records: seq<UserRecord>)

  /** The KV value: absent (or the empty string), or a blob. */
  datatype StoredList = Absent | Blob(parsed: ParsedList)

  /** `getUsersFromKV`: the stored array, or the empty list whenever there is none to
      read (no KV binding, no value, text that does not parse, a value that is not an
      array). */
  function ReadUsers(hasStorage: bool, stored: StoredList): (users: seq<UserRecord>)
    ensures users != [] ==> hasStorage && stored.Blob? && stored.parsed.Array? && users == stored.parsed.records
    ensures hasStorage && stored.Blob? && stored.parsed.Array? ==> users == stored.parsed.records
  {
    if !hasStorage then []
    else match stored
      case Absent => []
      case Blob(Array(records)) => records
      case Blob(_) => []
  }

  /** `users.findIndex(u => u.chatId === chatId)`: the first record for the chat, or -1.
      Chat ids that pass validation are numbers or strings, for which `===` is equality
      of values. */
  function FindIndex(users: seq<UserRecord>, chatId: JsValue): (i: int)
    ensures -1 <= i < |users|
    ensures i >= 0 ==> users[i].chatId == chatId && forall j :: 0 <= j < i ==> users[j].chatId != chatId
    ensures i == -1 ==> forall j :: 0 <= j < |users| ==> users[j].chatId != chatId
  {
    if users == [] then -1
    else if users[0].chatId == chatId then 0
    else
      var k := FindIndex(users[1..], chatId);
      if k == -1 then -1 else k + 1
  }

  // ---------------------------------------------------------------- newest first

  /** Sorted by `lastActive`, newest first. */
  predicate NewestFirst(s: seq<UserRecord>) {
    forall i, j :: 0 <= i < j < |s| ==> s[i].lastActive >= s[j].lastActive
  }

  /** Places `r` before the first record that is not newer than it, so that records
      with the same time keep their order. */
  function InsertNewest(r: UserRecord, s: seq<UserRecord>): (t: seq<UserRecord>)
    ensures |t| == |s| + 1
  {
    if s == [] || s[0].lastActive <= r.lastActive then [r] + s
    else [s[0]] + InsertNewest(r, s[1..])
  }

  /** `users.sort((a, b) => time(b) - time(a))`: a stable sort, newest first. */
  function SortNewestFirst(s: seq<UserRecord>): (t: seq<UserRecord>)
    ensures |t| == |s|
  {
    if s == [] then [] else InsertNewest(s[0], SortNewestFirst(s[1..]))
  }

  lemma {:induction false} InsertPermutes(r: UserRecord, s: seq<UserRecord>)
    ensures multiset(InsertNewest(r, s)) == multiset(s) + multiset{r}
  {
    if s != [] && s[0].lastActive > r.lastActive {
      InsertPermutes(r, s[1..]);
      assert s == [s[0]] + s[1..];
    }
  }

  /** No record of `s` is newer than `x`. */
  predicate NoneNewerThan(x: int, s: seq<UserRecord>) {
    forall k :: 0 <= k < |s| ==> s[k].lastActive <= x
  }

  lemma {:induction false} InsertBounded(x: int, r: UserRecord, s: seq<UserRecord>)
    requires NoneNewerThan(x, s) && r.lastActive <= x
    ensures NoneNewerThan(x, InsertNewest(r, s))
  {
    if s != [] && s[0].lastActive > r.lastActive {
      InsertBounded(x, r, s[1..]);
    }
  }

  lemma {:induction false} InsertKeepsOrder(r: UserRecord, s: seq<UserRecord>)
    requires NewestFirst(s)
    ensures NewestFirst(InsertNewest(r, s))
  {
    if s != [] && s[0].lastActive > r.lastActive {
      var rest := InsertNewest(r, s[1..]);
      assert NewestFirst(s[1..]);
      InsertKeepsOrder(r, s[1..]);
      assert NoneNewerThan(s[0].lastActive, s[1..]);
      InsertBounded(s[0].lastActive, r, s[1..]);
      var t := [s[0]] + rest;
      forall a, b | 0 <= a < b < |t|
        ensures t[a].lastActive >= t[b].lastActive
      {
        assert t[b] == rest[b - 1];
        if a > 0 {
          assert t[a] == rest[a - 1];
        }
      }
    }
  }

  /** The sort orders the records newest first. */
  lemma {:induction false} SortSorts(s: seq<UserRecord>)
    ensures NewestFirst(SortNewestFirst(s))
  {
    if s != [] {
      SortSorts(s[1..]);
      InsertKeepsOrder(s[0], SortNewestFirst(s[1..]));
    }
  }

  /** The sort neither adds nor loses a record. */
  lemma {:induction false} SortPermutes(s: seq<UserRecord>)
    ensures multiset(SortNewestFirst(s)) == multiset(s)
  {
    if s != [] {
      SortPermutes(s[1..]);
      InsertPermutes(s[0], SortNewestFirst(s[1..]));
      assert s == [s[0]] + s[1..];
    }
  }

  /** The records of `s` whose time is `x`, in their order in `s`. */
  function AtTime(s: seq<UserRecord>, x: int): seq<UserRecord> {
    if s == [] then [] else (if s[0].lastActive == x then [s[0]] else []) + AtTime(s[1..], x)
  }

  /** Inserting `r` puts it before every record of its own time and moves no other
      record past one of the same time. */
  lemma AtTimeCons(a: UserRecord, t: seq<UserRecord>, x: int)
    ensures AtTime([a] + t, x) == (if a.lastActive == x then [a] else []) + AtTime(t, x)
  {
    assert ([a] + t)[1..] == t;
  }

  lemma {:induction false} InsertStable(r: UserRecord, s: seq<UserRecord>, x: int)
    ensures AtTime(InsertNewest(r, s), x) == (if r.lastActive == x then [r] else []) + AtTime(s, x)
  {
    if s == [] || s[0].lastActive <= r.lastActive {
      AtTimeCons(r, s, x);
    } else {
      var rest := InsertNewest(r, s[1..]);
      assert InsertNewest(r, s) == [s[0]] + rest;
      InsertStable(r, s[1..], x);
      AtTimeCons(s[0], rest, x);
      AtTimeCons(s[0], s[1..], x);
      assert [s[0]] + s[1..] == s;
    }
  }

  /** The sort is stable: the records of any one time keep their relative order. */
  lemma {:induction false} SortStable(s: seq<UserRecord>, x: int)
    ensures AtTime(SortNewestFirst(s), x) == AtTime(s, x)
  {
    if s != [] {
      SortStable(s[1..], x);
      InsertStable(s[0], SortNewestFirst(s[1..]), x);
    }
  }

  /** The records of one time in a prefix are a prefix of the records of that time. */
  lemma {:induction false} AtTimeOfPrefix(s: seq<UserRecord>, n: nat, x: int)
    requires n <= |s|
    ensures AtTime(s[..n], x) <= AtTime(s, x)
  {
    if n > 0 {
      AtTimeOfPrefix(s[1..], n - 1, x);
      assert s[..n][1..] == s[1..][..n - 1];
    }
  }

  /** `addUserToKV` keeps, of the records that share a time, the earliest ones in the
      list: past the limit, the records kept at any time are a prefix of that time's
      records in the upserted list. */
  lemma CappedKeepsEarliestOfATime(users: seq<UserRecord>, x: int)
    ensures AtTime(Capped(users), x) <= AtTime(users, x)
  {
    if |users| > MaxUsers {
      AtTimeOfPrefix(SortNewestFirst(users), MaxUsers, x);
      SortStable(users, x);
    }
  }

  /** The list as `addUserToKV` builds it: the first record of the chat replaced in
      place, or the new record appended. */
  function Upsert(users: seq<UserRecord>, rec: UserRecord): seq<UserRecord> {
    var i := FindIndex(users, rec.chatId);
    if i >= 0 then users[i := rec] else users + [rec]
  }

  /** The list as it is stored: past the limit, the newest `MaxUsers` records. */
  function Capped(users: seq<UserRecord>): seq<UserRecord> {
    if |users| > MaxUsers then SortNewestFirst(users)[..MaxUsers] else users
  }

  /** The record replaces the chat's first record and nothing else, or is appended
      after all of the old ones. */
  lemma UpsertPlaces(users: seq<UserRecord>, rec: UserRecord)
    ensures var i := FindIndex(users, rec.chatId);
      if i >= 0 then
        |Upsert(users, rec)| == |users| && Upsert(users, rec)[i] == rec
        && forall j :: 0 <= j < |users| && j != i ==> Upsert(users, rec)[j] == users[j]
      else
        Upsert(users, rec) == users + [rec] && forall j :: 0 <= j < |users| ==> users[j].chatId != rec.chatId
  {
  }

  /** The record is in the stored list whenever the list stays under the limit, and
      then it is exactly the upserted list. */
  lemma UpsertUnderLimit(users: seq<UserRecord>, rec: UserRecord)
    requires |users| < MaxUsers
    ensures Capped(Upsert(users, rec)) == Upsert(users, rec)
    ensures rec in Capped(Upsert(users, rec))
  {
    var i := FindIndex(users, rec.chatId);
    if i >= 0 {
      assert Upsert(users, rec)[i] == rec;
    } else {
      assert Upsert(users, rec)[|users|] == rec;
    }
  }

  /** The stored list never holds more than `MaxUsers` records, and it holds records of
      the upserted list only. */
  lemma CappedBound(users: seq<UserRecord>)
    ensures |Capped(users)| <= MaxUsers
    ensures multiset(Capped(users)) <= multiset(users)
  {
    if |users| > MaxUsers {
      var s := SortNewestFirst(users);
      SortPermutes(users);
      assert s == s[..MaxUsers] + s[MaxUsers..];
      assert multiset(s) == multiset(s[..MaxUsers]) + multiset(s[MaxUsers..]);
    }
  }

  /** The records dropped past the limit are none newer than any kept. */
  lemma CappedKeepsNewest(users: seq<UserRecord>)
    requires |users| > MaxUsers
    ensures var s := SortNewestFirst(users);
      multiset(s[..MaxUsers]) + multiset(s[MaxUsers..]) == multiset(users)
      && forall i, j :: 0 <= i < MaxUsers && 0 <= j < |s| - MaxUsers ==> s[..MaxUsers][i].lastActive >= s[MaxUsers..][j].lastActive
  {
    var s := SortNewestFirst(users);
    SortSorts(users);
    SortPermutes(users);
    assert s == s[..MaxUsers] + s[MaxUsers..];
    forall i, j | 0 <= i < MaxUsers && 0 <= j < |s| - MaxUsers
      ensures s[..MaxUsers][i].lastActive >= s[MaxUsers..][j].lastActive
    {
      assert s[MaxUsers..][j] == s[MaxUsers + j];
    }
  }

  // ---------------------------------------------------------------- the registry

  /** The checks `addUserToKV` makes before it reads: a valid chat id, a string name of
      at most 100 UTF-16 units and a valid user id. */
  predicate AddAccepts(chatId: JsValue, info: UserInfo) {
    IsValidChatId(chatId) && ValidateInput(info.userName, TextCheck(100)).None? && IsValidUserId(info.userId)
  }

  class UserRegistry {
    /** Whether the worker has a KV binding (`env.USER_STORAGE`). */
    const hasStorage: bool
    /** The value under `user_list`. */
    var stored: StoredList

    constructor(hasStorage: bool, stored: StoredList)
      ensures this.hasStorage == hasStorage && this.stored == stored
    {
      this.hasStorage := hasStorage;
      this.stored := stored;
    }

    /** `getUsersFromKV(env)` */
    function Users(): seq<UserRecord>
      reads this
    {
      ReadUsers(hasStorage, stored)
    }

    /** `addUserToKV(chatId, userInfo, env)` at time `now`: the chat's record replaced
        or added, the list cut to the newest `MaxUsers` past the limit, and written
        back; nothing written without KV or when a check fails. `putOk` is whether the
        `put` resolves: a rejected one is logged and swallowed, and the update is lost. */
    method AddUser(chatId: JsValue, info: UserInfo, now: int, putOk: bool)
      modifies this
      ensures !hasStorage || !AddAccepts(chatId, info) || !putOk ==> stored == old(stored)
      ensures hasStorage && AddAccepts(chatId, info) && putOk ==>
        stored == Blob(Array(Capped(Upsert(old(Users()), UserRecord(chatId, info.userName.s, info.username, info.userId, now)))))
      ensures hasStorage && AddAccepts(chatId, info) && putOk ==> |Users()| <= MaxUsers
    {
      if !hasStorage || !AddAccepts(chatId, info) {
        return;
      }
      var users := Users();
      var existingIndex := FindIndex(users, chatId);
      var userData := UserRecord(chatId, info.userName.s, info.username, info.userId, now);
      if existingIndex >= 0 {
        users := users[existingIndex := userData];
      } else {
        users := users + [userData];
      }
      ghost var upserted := users;
      assert upserted == Upsert(old(Users()), userData);
      if |users| > MaxUsers {
        users := SortNewestFirst(users)[..MaxUsers];
      }
      assert users == Capped(upserted);
      CappedBound(upserted);
      if putOk {
        stored := Blob(Array(users));
      }
    }
  }
}
