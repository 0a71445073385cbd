/** The forum-topic directory: the user id → thread id mapping kept as one JSON blob
    under `user_topic_mapping` in KV (`getUserTopicMapping`, `saveUserTopicMapping`,
    `getUserIdFromTopicId`, `getOrCreateUserTopic`). */
module Topics {
  import opened Js
  import opened Validation

  /** What `JSON.parse` makes of a stored blob: text that does not parse (the parser
      throws), a value that is not an object (a number, a string, `null`), or an
      object whose keys are user ids and whose values are thread ids. */
  datatype Parsed = Unparsable | NonObject | ObjectMap(entries: map<string, int>)

  /** The KV value: absent (or the empty string, which is as falsy), or a blob. */
  datatype Stored = Absent | Blob(parsed: Parsed)

  /** `getUserTopicMapping`: without a KV binding, for an absent value, for text that
      does not parse and for a value that is not an object, the empty mapping. */
  function ReadMapping(hasStorage: bool, stored: Stored): (m: map<string, int>)
    ensures !hasStorage || stored.Absent? ==> m == map[]
    ensures stored.Blob? && !stored.parsed.ObjectMap? ==> m == map[]
    ensures hasStorage && stored.Blob? && stored.parsed.ObjectMap? ==> m == stored.parsed.entries
  {
    if !hasStorage then map[]
    else match stored
      case Absent => map[]
      case Blob(Unparsable) => map[]
      case Blob(NonObject) => map[]
      case Blob(ObjectMap(entries)) => entries
  }

  /** The users whose entry holds thread `t`. */
  function Owners(m: map<string, int>, t: int): set<string> {
    set k | k in m && m[k] == t
  }

  /** `if (mapping[userId])`: an entry counts only when present and non-zero. */
  predicate HasTopic(m: map<string, int>, key: string) {
    key in m && m[key] != 0
  }

  /** The name of a new topic, `💬 ${userName} (${userId})`. */
  function TopicName(userName: string, userId: JsValue): string {
    "💬 " + userName + " (" + Show(userId) + ")"
  }

  /** The checks `createForumTopic` makes before it calls the API: the admin chat id and
      a name of at most 128 UTF-16 units. */
  predicate CreateAccepts(adminChatId: string, name: string) {
    IsValidChatId(Str(adminChatId)) && ValidateInput(Str(name), TextCheck(128)).None?
  }

  /** The checks `getOrCreateUserTopic` makes: forum mode on, a valid user id and a
      string name of at most 64 UTF-16 units. */
  predicate LookupAccepts(forumMode: string, userId: JsValue, userName: JsValue) {
    forumMode == "true" && IsValidUserId(userId) && ValidateInput(userName, TextCheck(64)).None?
  }

  /** What `callTelegramAPI('createForumTopic', …)` gives back: a topic with its thread
      id, or anything else (`ok: false`, or a thrown error caught as `ok: false`). */
  datatype CreateResult = Created(threadId: int) | NotCreated

  /** The configuration `getOrCreateUserTopic` reads. */
  datatype ForumEnv = ForumEnv(forumMode: string, adminChatId: string)

  /** A fresh thread id added under one key: that key is then its only owner. */
  lemma NewTopicOwner(m: map<string, int>, key: string, t: int)
    requires Owners(m, t) <= {key}
    ensures Owners(m[key := t], t) == {key}
  {
    assert key in Owners(m[key := t], t);
  }

  class TopicDirectory {
    /** Whether the worker has a KV binding (`env.USER_STORAGE`). */
    const hasStorage: bool
    /** The value under `user_topic_mapping`. */
    var stored: Stored
    /** How many `createForumTopic` requests reached the API. */
    ghost var createCalls: nat
    /** How many `put` requests for the mapping were made. */
    ghost var writes: nat

    constructor(hasStorage: bool, stored: Stored)
      ensures this.hasStorage == hasStorage && this.stored == stored
      ensures createCalls == 0 && writes == 0
    {
      this.hasStorage := hasStorage;
      this.stored := stored;
      createCalls := 0;
      writes := 0;
    }

    /** `getUserTopicMapping(env)` */
    function Mapping(): map<string, int>
      reads this
    {
      ReadMapping(hasStorage, stored)
    }

    /** `saveUserTopicMapping(mapping, env)`: a `put` of the JSON of the mapping, which
        reads back as the same mapping; nothing without a KV binding. `putOk` is whether
        the `put` resolves: a rejected one is logged and swallowed, and the stored value
        stays as it was. */
    method SaveMapping(m: map<string, int>, putOk: bool)
      modifies this
      ensures stored == if hasStorage && putOk then Blob(ObjectMap(m)) else old(stored)
      ensures hasStorage && putOk ==> Mapping() == m
      ensures writes == old(writes) + (if hasStorage then 1 else 0)
      ensures createCalls == old(createCalls)
    {
      if hasStorage {
        writes := writes + 1;
        if putOk {
          stored := Blob(ObjectMap(m));
        }
      }
    }

    /** `getUserIdFromTopicId(topicId, env)`: null for anything but a non-zero number;
        otherwise a user whose entry holds that thread id, or null when none does.
        Which of several owners the scan meets first is the order of the blob's keys,
        which the model leaves open. */
    method UserIdFromTopicId(topicId: JsValue) returns (r: Option<string>)
      ensures !(topicId.Num? && topicId.n != 0) ==> r == None
      ensures topicId.Num? && topicId.n != 0 ==>
        (r.Some? <==> Owners(Mapping(), topicId.n) != {})
        && (r.Some? ==> r.value in Owners(Mapping(), topicId.n))
    {
      if !Truthy(topicId) || !topicId.Num? {
        return None;
      }
      var m := Mapping();
      var remaining := m.Keys;
      while remaining != {}
        invariant remaining <= m.Keys
        invariant forall k :: k in m && k !in remaining ==> m[k] != topicId.n
        decreases |remaining|
      {
        var k :| k in remaining;
        if m[k] == topicId.n {
          assert k in Owners(m, topicId.n);
          return Some(k);
        }
        remaining := remaining - {k};
      }
      assert Owners(m, topicId.n) == {};
      return None;
    }

    /** `getOrCreateUserTopic(userId, userName, env)`: the user's thread when the
        mapping has one; otherwise a new topic, recorded under the user's key. Every
        failure (forum mode off, a rejected id or name, a failed creation) is null and
        writes nothing. A new thread id is returned even when its `put` is rejected
        (`putOk` false), and the mapping then does not record it. */
    method GetOrCreateUserTopic(env: ForumEnv, userId: JsValue, userName: JsValue, create: CreateResult,
                                putOk: bool)
      returns (r: Option<int>)
      modifies this
      ensures !LookupAccepts(env.forumMode, userId, userName) ==>
        r == None && stored == old(stored) && createCalls == old(createCalls) && writes == old(writes)
      ensures LookupAccepts(env.forumMode, userId, userName) && HasTopic(old(Mapping()), Show(userId)) ==>
        r == Some(old(Mapping())[Show(userId)])
        && stored == old(stored) && createCalls == old(createCalls) && writes == old(writes)
      ensures LookupAccepts(env.forumMode, userId, userName) && !HasTopic(old(Mapping()), Show(userId)) ==>
        var accepted := CreateAccepts(env.adminChatId, TopicName(userName.s, userId));
        createCalls == old(createCalls) + (if accepted then 1 else 0)
        && (r.Some? <==> accepted && create.Created?)
        && (r.Some? ==>
              r.value == create.threadId
              && stored == (if hasStorage && putOk then Blob(ObjectMap(old(Mapping())[Show(userId) := create.threadId]))
                            else old(stored))
              && writes == old(writes) + (if hasStorage then 1 else 0))
        && (r.None? ==> stored == old(stored) && writes == old(writes))
    {
      if env.forumMode != "true" {
        return None;
      }
      if ValidateInput(userId, UserIdCheck).Some? || ValidateInput(userName, TextCheck(64)).Some? {
        return None;
      }
      var mapping := Mapping();
      var key := Show(userId);
      if key in mapping && mapping[key] != 0 {
        return Some(mapping[key]);
      }
      var name := TopicName(userName.s, userId);
      if !CreateAccepts(env.adminChatId, name) {
        return None;
      }
      createCalls := createCalls + 1;
      match create
      case NotCreated =>
        return None;
      case Created(topicId) =>
        mapping := mapping[key := topicId];
        SaveMapping(mapping, putOk);
        return Some(topicId);
    }

    /** A user message that opens a topic, followed by an admin reply inside the thread
        it returned: the reply is routed back to that user whenever the thread was the
        user's already, or was created and its `put` resolved, and no other user's entry
        holds the same id. When the `put` of a new thread is rejected, the reply finds no
        user at all. */
    method CreateThenLookup(env: ForumEnv, userId: JsValue, userName: JsValue, create: CreateResult,
                            putOk: bool)
      returns (t: Option<int>, owner: Option<string>)
      modifies this
      ensures t.Some? && t.value != 0 && Owners(old(Mapping()), t.value) <= {Show(userId)}
              && (HasTopic(old(Mapping()), Show(userId)) || (hasStorage && putOk))
              ==> owner == Some(Show(userId))
      ensures t.Some? && t.value != 0 && Owners(old(Mapping()), t.value) == {}
              && !HasTopic(old(Mapping()), Show(userId)) && !putOk
              ==> owner == None
    {
      ghost var before := Mapping();
      t := GetOrCreateUserTopic(env, userId, userName, create, putOk);
      match t
      case None =>
        owner := None;
      case Some(id) =>
        if HasTopic(before, Show(userId)) {
          assert Mapping() == before;
          assert Show(userId) in Owners(before, id);
        } else if hasStorage && putOk && Owners(before, id) <= {Show(userId)} {
          assert Mapping() == before[Show(userId) := id];
          NewTopicOwner(before, Show(userId), id);
        } else if !putOk {
          assert Mapping() == before;
        }
        owner := UserIdFromTopicId(Num(id));
    }
  }
}
