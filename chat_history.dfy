/**
 * The chat-history drawer's list: chats grouped under their date, each
 * shown by its first message, cut to a short label. The locale date
 * string is a parameter (`dateKey`, applied to the chat's timestamp).
 */
module ChatHistory {
  import opened Wrappers
  import opened Strings
  import opened OrderedDict

  const DefaultLength := 25
  const Ellipsis := "..."
  const NoMessages := "No messages yet"

  /** One stored message of a chat, as the history service returns it. */
  datatype StoredEntry = StoredEntry(message: Option<string>)

  /** A chat in the user's history. */
  datatype Chat = Chat(id: string, timestamp: int, chatMessages: Option<seq<StoredEntry>>)

  function Min(a: int, b: int): int {
    if a <= b then a else b
  }

  /** `truncateMessage(message, length)`: the message if it fits, else its first `length` characters and "...". */
  function Truncate(message: string, length: nat): (r: string)
    ensures |r| == if |message| <= length then |message| else length + |Ellipsis|
    ensures r[..Min(|message|, length)] == message[..Min(|message|, length)]
    ensures |message| > length ==> r[length..] == Ellipsis
  {
    if |message| > length then message[..length] + Ellipsis else message
  }

  /** A message that fits comes back unchanged, and cutting a cut label again changes nothing. */
  lemma TruncateIdempotent(message: string, length: nat)
    ensures |message| <= length ==> Truncate(message, length) == message
    ensures Truncate(Truncate(message, length), length) == Truncate(message, length)
  {
    var r := Truncate(message, length);
    if |message| > length {
      assert r[..length] == message[..length];
      assert r == r[..length] + r[length..];
    }
  }

  /** `chat.chatMessages?.[0]?.message || 'No messages yet'`. */
  function FirstMessageLabel(chat: Chat): (text: string)
    ensures text != ""
    ensures chat.chatMessages.Some? && |chat.chatMessages.value| > 0 && Truthy(chat.chatMessages.value[0].message)
            ==> text == chat.chatMessages.value[0].message.value
    ensures chat.chatMessages.None? || |chat.chatMessages.value| == 0 || !Truthy(chat.chatMessages.value[0].message)
            ==> text == NoMessages
  {
    if chat.chatMessages.Some? && |chat.chatMessages.value| > 0 && Truthy(chat.chatMessages.value[0].message)
    then chat.chatMessages.value[0].message.value
    else NoMessages
  }

  /** What a chat item shows: never empty, and at most 28 characters. */
  lemma ItemLabelBounds(chat: Chat)
    ensures var shown := Truncate(FirstMessageLabel(chat), DefaultLength);
      shown != "" && |shown| <= DefaultLength + |Ellipsis|
  {
  }

  /** The chats of `chats` whose date key is `k`, in their order. */
  function OnDay(chats: seq<Chat>, dateKey: int -> string, k: string): (r: seq<Chat>)
    ensures |r| <= |chats|
  {
    if chats == [] then []
    else
      var init, last := chats[..|chats| - 1], chats[|chats| - 1];
      OnDay(init, dateKey, k) + (if dateKey(last.timestamp) == k then [last] else [])
  }

  /** A chat is on day `k` exactly when it is in the list and its key is `k`. */
  lemma {:induction false} OnDayMembers(chats: seq<Chat>, dateKey: int -> string, k: string)
    ensures forall c :: c in OnDay(chats, dateKey, k) <==> c in chats && dateKey(c.timestamp) == k
  {
    if chats != [] {
      var init, last := chats[..|chats| - 1], chats[|chats| - 1];
      assert chats == init + [last];
      OnDayMembers(init, dateKey, k);
    }
  }

  /** The groups the reduction builds, one chat at a time. */
  function Grouped(chats: seq<Chat>, dateKey: int -> string): Dict<seq<Chat>> {
    if chats == [] then []
    else
      var init, last := chats[..|chats| - 1], chats[|chats| - 1];
      var g := Grouped(init, dateKey);
      var k := dateKey(last.timestamp);
      Set(g, k, Get(g, k).GetOr([]) + [last])
  }

  /**
   * The group under `k` holds exactly the chats dated `k`, in their
   * order, and there is a group only for a key that occurs.
   */
  lemma {:induction false} GroupedGet(chats: seq<Chat>, dateKey: int -> string, k: string)
    ensures Get(Grouped(chats, dateKey), k) == if OnDay(chats, dateKey, k) == [] then None else Some(OnDay(chats, dateKey, k))
  {
    if chats != [] {
      var init, last := chats[..|chats| - 1], chats[|chats| - 1];
      var g := Grouped(init, dateKey);
      var key := dateKey(last.timestamp);
      GroupedGet(init, dateKey, k);
      GroupedGet(init, dateKey, key);
      GetSet(g, key, Get(g, key).GetOr([]) + [last], k);
      if k == key {
        assert Get(g, key).GetOr([]) == OnDay(init, dateKey, k);
        assert OnDay(chats, dateKey, k) == OnDay(init, dateKey, k) + [last];
      } else {
        assert OnDay(chats, dateKey, k) == OnDay(init, dateKey, k) + [];
        assert OnDay(init, dateKey, k) + [] == OnDay(init, dateKey, k);
      }
    }
  }

  /** The groups are an object: one entry per key. */
  lemma {:induction false} GroupedUnique(chats: seq<Chat>, dateKey: int -> string)
    ensures UniqueKeys(Grouped(chats, dateKey))
  {
    if chats != [] {
      var init, last := chats[..|chats| - 1], chats[|chats| - 1];
      var g := Grouped(init, dateKey);
      var key := dateKey(last.timestamp);
      GroupedUnique(init, dateKey);
      SetUnique(g, key, Get(g, key).GetOr([]) + [last]);
    }
  }

  /** Every chat is in the group of its own date and in no other. */
  lemma EachChatOneGroup(chats: seq<Chat>, dateKey: int -> string, c: Chat, k: string)
    requires c in chats
    ensures var groups := Grouped(chats, dateKey);
      && Get(groups, dateKey(c.timestamp)).Some?
      && c in Get(groups, dateKey(c.timestamp)).value
      && (Get(groups, k).Some? && c in Get(groups, k).value ==> k == dateKey(c.timestamp))
  {
    GroupedGet(chats, dateKey, dateKey(c.timestamp));
    GroupedGet(chats, dateKey, k);
    OnDayMembers(chats, dateKey, dateKey(c.timestamp));
    OnDayMembers(chats, dateKey, k);
  }

  /** Adding an empty entry for an absent key and then overwriting it is one write. */
  lemma SetNewThenSet<V>(d: Dict<seq<V>>, k: string, v: seq<V>)
    requires Get(d, k).None?
    ensures Set(Set(d, k, []), k, v) == Set(d, k, v)
  {
    assert IndexOfKey(d, k) == |d|;
    IndexOfKeyIs(Set(d, k, []), k, |d|);
  }

  /**
   * `groupByDate(chats)`: create the group of a chat's date when it is
   * missing, then push the chat onto it.
   */
  method GroupByDate(chats: seq<Chat>, dateKey: int -> string) returns (groups: Dict<seq<Chat>>)
    ensures groups == Grouped(chats, dateKey)
  {
    groups := [];
    for i := 0 to |chats|
      invariant groups == Grouped(chats[..i], dateKey)
    {
      var chat := chats[i];
      var key := dateKey(chat.timestamp);
      var before := groups;
      assert chats[..i + 1][..i] == chats[..i];
      if Get(groups, key).None? {
        groups := Set(groups, key, []);
        GetSet(before, key, [], key);
      }
      var current := Get(groups, key).value;
      assert current == Get(before, key).GetOr([]);
      if Get(before, key).None? {
        SetNewThenSet(before, key, current + [chat]);
      }
      groups := Set(groups, key, current + [chat]);
    }
    assert chats[..|chats|] == chats;
  }
}
