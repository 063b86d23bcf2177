/**
 * Browser session storage as the widget uses it (src/components/Chatbot.tsx,
 * lines 26-48 and 61-65): one entry holds the visitor's id, one entry per id
 * holds the serialised conversation. The store is a key-to-string map; the
 * JSON codec is a pair of functions passed in by the caller.
 */
module SessionStore {
  import opened Wrappers
  import opened Conversation

  /** The key under which the visitor id is kept. */
  const USER_ID_KEY: string := "adams_user_id"

  /** The key under which the conversation of visitor `id` is kept. */
  function HistoryKey(id: string): (key: string)
    ensures |key| == 14 + |id| && key[..14] == "chat_messages_" && key[14..] == id
    ensures key != USER_ID_KEY
  {
    var key := "chat_messages_" + id;
    assert key[..14] == "chat_messages_";
    assert key[0] == 'c' && USER_ID_KEY[0] == 'a';
    key
  }

  /** `sessionStorage`: a map from keys to strings that methods update in place. */
  class SessionStorage {
    var entries: map<string, string>

    constructor(initial: map<string, string>)
      ensures entries == initial
    {
      entries := initial;
    }

    /** `getItem`: the stored string, or `None` when the key is absent. */
    function GetItem(key: string): (v: Option<string>)
      reads this
      ensures v.Some? <==> key in entries
      ensures v.Some? ==> v.value == entries[key]
    {
      Lookup(entries, key)
    }

    /** `setItem`: stores `value` under `key`, replacing what was there. */
    method SetItem(key: string, value: string)
      modifies this
      ensures entries == old(entries)[key := value]
    {
      entries := entries[key := value];
    }
  }

  function Lookup(entries: map<string, string>, key: string): Option<string> {
    if key in entries then Some(entries[key]) else None
  }

  /** A stored value that JavaScript treats as true: present and not the empty string. */
  predicate Truthy(v: Option<string>) {
    v.Some? && v.value != ""
  }

  /**
   * The visitor id the widget settles on (lines 26-32): the stored one when it
   * is a non-empty string, otherwise `"user_"` followed by the random suffix.
   */
  function ResolveUserId(entries: map<string, string>, suffix: string): (id: string)
    ensures id != ""
    ensures Truthy(Lookup(entries, USER_ID_KEY)) ==> Lookup(entries, USER_ID_KEY) == Some(id)
    ensures !Truthy(Lookup(entries, USER_ID_KEY)) ==> id == "user_" + suffix
  {
    var existing := Lookup(entries, USER_ID_KEY);
    if Truthy(existing) then existing.value else "user_" + suffix
  }

  /**
   * The store after the id is settled: untouched when an id was already
   * stored, otherwise the new id is written under its key and nothing else changes.
   */
  function EntriesAfterUserId(entries: map<string, string>, suffix: string): (after: map<string, string>)
    ensures Lookup(after, USER_ID_KEY) == Some(ResolveUserId(entries, suffix))
    ensures forall key :: key != USER_ID_KEY ==> Lookup(after, key) == Lookup(entries, key)
    ensures Truthy(Lookup(entries, USER_ID_KEY)) ==> after == entries
  {
    if Truthy(Lookup(entries, USER_ID_KEY)) then entries
    else entries[USER_ID_KEY := "user_" + suffix]
  }

  /**
   * Settling the id twice is the same as settling it once: the second time
   * finds the id the first stored, whatever suffix it is offered, and leaves
   * the store as it is.
   */
  lemma {:induction false} UserIdIsStable(entries: map<string, string>, suffix: string, laterSuffix: string)
    ensures ResolveUserId(EntriesAfterUserId(entries, suffix), laterSuffix) == ResolveUserId(entries, suffix)
    ensures EntriesAfterUserId(EntriesAfterUserId(entries, suffix), laterSuffix) == EntriesAfterUserId(entries, suffix)
  {
  }

  /** A conversation key never collides with the id key, and different ids have different keys. */
  lemma {:induction false} HistoryKeysAreDistinct(id: string, other: string)
    ensures HistoryKey(id) != USER_ID_KEY
    ensures id != other ==> HistoryKey(id) != HistoryKey(other)
  {
    assert HistoryKey(id)[0] == 'c';
    assert USER_ID_KEY[0] == 'a';
    assert |"chat_messages_"| == 14;
    assert HistoryKey(id)[14..] == id;
    assert HistoryKey(other)[14..] == other;
  }

  /**
   * The load decision (lines 34-48): the decoded conversation when a non-empty
   * string is stored for the visitor and it decodes; `None` when nothing is
   * stored, the stored string is empty, or decoding fails.
   */
  function StoredHistory(entries: map<string, string>, id: string, decode: string -> Option<seq<Message>>): (log: Option<seq<Message>>)
    ensures !Truthy(Lookup(entries, HistoryKey(id))) ==> log == None
    ensures Truthy(Lookup(entries, HistoryKey(id))) ==> log == decode(entries[HistoryKey(id)])
  {
    var saved := Lookup(entries, HistoryKey(id));
    if Truthy(saved) then decode(saved.value) else None
  }

  /**
   * The store after the save effect (lines 61-65): the encoded conversation
   * replaces the visitor's entry when the conversation is non-empty; an empty
   * conversation writes nothing.
   */
  function EntriesAfterSave(entries: map<string, string>, id: string, log: seq<Message>, encode: seq<Message> -> string): (after: map<string, string>)
    ensures |log| == 0 ==> after == entries
    ensures |log| > 0 ==> Lookup(after, HistoryKey(id)) == Some(encode(log))
    ensures forall key :: key != HistoryKey(id) ==> Lookup(after, key) == Lookup(entries, key)
  {
    if |log| > 0 then entries[HistoryKey(id) := encode(log)] else entries
  }

  /** Saving a conversation never disturbs the visitor id. */
  lemma {:induction false} SaveKeepsUserId(entries: map<string, string>, id: string, log: seq<Message>, encode: seq<Message> -> string, suffix: string)
    ensures ResolveUserId(EntriesAfterSave(entries, id, log, encode), suffix) == ResolveUserId(entries, suffix)
  {
    HistoryKeysAreDistinct(id, id);
  }

  /**
   * What the save effect writes is what the load decision reads back, provided
   * the codec round-trips and encodes a non-empty conversation as a non-empty
   * string. This is about the store alone; it does not say the widget shows
   * the restored conversation after a reload.
   */
  lemma {:induction false} SaveThenLoad(entries: map<string, string>, id: string, log: seq<Message>,
                     encode: seq<Message> -> string, decode: string -> Option<seq<Message>>)
    requires |log| > 0 && encode(log) != "" && decode(encode(log)) == Some(log)
    ensures StoredHistory(EntriesAfterSave(entries, id, log, encode), id, decode) == Some(log)
  {
  }

}
