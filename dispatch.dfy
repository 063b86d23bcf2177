/**
 * The message-dispatch engine of the chat widget (src/components/Chatbot.tsx,
 * lines 14-65 and 130-213): the conversation, the typing indicator, the queue
 * of messages typed while the bot is busy, and the busy flag, changed step by
 * step by the widget's event handlers and effects.
 *
 * The asynchronous parts are split into events. A dispatch issues a gateway
 * request and records it in `inFlight`; `GatewayReturned` is the moment that
 * request is answered, and it runs the reveal loop and the completion. The
 * completion moves the queue's head into `drains`, the 2000 ms timers not yet
 * fired; `DrainFire` is the oldest of them firing.
 */
module Dispatch {
  import opened Wrappers
  import opened Strings
  import opened Conversation
  import opened Segmentation
  import opened SessionStore

  /** The typing indicator's text. */
  const TYPING_TEXT: string := "Support agent is typing..."

  /** The single bot message shown when the gateway exchange fails. */
  const CONTACT_FALLBACK: string :=
    "I apologize for the inconvenience. " + "Please contact us directly at (615)-285-6193 for immediate assistance."

  /** The body of one gateway request: `{user_id, message}`. */
  datatype Request = Request(userId: string, message: string)

  /**
   * How one gateway exchange ends: a decoded JSON object, with `None` standing
   * for a `reply` field that is missing or falsy (the source then uses `""`),
   * or a failure (network error, undecodable body, a `null` body, a truthy
   * `reply` that is not a string, or any other exception in the exchange). The
   * HTTP status is not consulted.
   */
  datatype GatewayResult = Success(reply: Option<string>) | Failure

  /**
   * The texts of the bot messages one answered request appends: the reply's
   * segments on success, the contact fallback alone on failure. There is always
   * at least one, and none is empty.
   */
  function RoundTexts(result: GatewayResult): (texts: seq<string>)
    ensures |texts| >= 1
    ensures forall t <- texts :: t != ""
    ensures result.Failure? ==> texts == [CONTACT_FALLBACK]
  {
    match result
    case Success(reply) => Segments(ReplyText(reply))
    case Failure => [CONTACT_FALLBACK]
  }

  /** What is absent from a sequence is absent from its tail. */
  lemma {:induction false} HeadlessKeepsOut<T>(q: seq<T>, x: T)
    requires q != []
    ensures x !in q ==> x !in q[1..]
  {
    if x in q[1..] {
      var i :| 0 <= i < |q[1..]| && q[1..][i] == x;
      assert q[i + 1] == x;
    }
  }

  class Chatbot {
    var screen: Screen
    var input: string
    var messages: seq<Message>
    var typing: Option<string>
    var queue: seq<string>
    var busy: bool
    var hasLoadedWelcome: bool
    const userId: string
    const storage: SessionStorage
    /** The requests issued and not yet answered, oldest first. */
    var inFlight: seq<Request>
    /** The queue heads whose 2000 ms timer has not fired yet, oldest first. */
    var drains: seq<string>

    /**
     * Queued and scheduled texts are never empty (they are trimmed non-blank
     * input), and with no request outstanding the bot is idle and shows no
     * typing indicator.
     */
    ghost predicate Valid()
      reads this
    {
      "" !in queue
      && "" !in drains
      && (inFlight == [] ==> !busy && typing == None)
    }

    /**
     * Mounting the widget: the visitor id is settled against session storage
     * (lines 26-32) and every piece of state starts empty on the chat screen.
     */
    constructor(store: SessionStorage, suffix: string)
      modifies store
      ensures storage == store
      ensures userId == ResolveUserId(old(store.entries), suffix)
      ensures store.entries == EntriesAfterUserId(old(store.entries), suffix)
      ensures screen == Chat && input == "" && messages == [] && typing == None
      ensures queue == [] && !busy && !hasLoadedWelcome && inFlight == [] && drains == []
      ensures Valid()
    {
      var existing := store.GetItem(USER_ID_KEY);
      var id: string;
      if Truthy(existing) {
        id := existing.value;
      } else {
        id := "user_" + suffix;
        store.SetItem(USER_ID_KEY, id);
      }
      storage := store;
      userId := id;
      screen := Chat;
      input := "";
      messages := [];
      typing := None;
      queue := [];
      busy := false;
      hasLoadedWelcome := false;
      inFlight := [];
      drains := [];
    }

    /** The input box's change handler (line 446). */
    method SetInput(text: string)
      modifies this`input
      ensures input == text
    {
      input := text;
    }

    /**
     * The synchronous start of `handleBotResponse` (lines 131-139): the bot
     * becomes busy, the typing indicator shows, and one request carrying the
     * visitor id and the text is issued.
     */
    method BeginRound(text: string)
      modifies this
      ensures busy && typing == Some(TYPING_TEXT)
      ensures inFlight == old(inFlight) + [Request(userId, text)]
      ensures screen == old(screen) && input == old(input) && messages == old(messages)
      ensures queue == old(queue) && drains == old(drains) && hasLoadedWelcome == old(hasLoadedWelcome)
    {
      busy := true;
      typing := Some(TYPING_TEXT);
      inFlight := inFlight + [Request(userId, text)];
    }

    /**
     * `sendMessage` (lines 186-201), reached by the send button and by Enter.
     * Blank input changes nothing. Otherwise the input is cleared and the
     * trimmed text appended as a user message; it then waits at the tail of the
     * queue when the bot is busy, and is dispatched at once when it is not.
     */
    method Send()
      requires Valid()
      modifies this
      ensures Valid()
      ensures Trim(old(input)) == "" ==> unchanged(this)
      ensures Trim(old(input)) != "" ==>
        input == "" && busy
        && messages == old(messages) + [Message(User, Trim(old(input)))]
        && (old(busy) ==> queue == old(queue) + [Trim(old(input))] && inFlight == old(inFlight) && typing == old(typing))
        && (!old(busy) ==> queue == old(queue) && inFlight == old(inFlight) + [Request(userId, Trim(old(input)))]
                            && typing == Some(TYPING_TEXT))
      ensures screen == old(screen) && drains == old(drains) && hasLoadedWelcome == old(hasLoadedWelcome)
    {
      var message := Trim(input);
      if message == "" {
        return;
      }
      Accept(message);
    }

    /** The non-blank part of `sendMessage` (lines 189-200), for the trimmed text `message`. */
    method Accept(message: string)
      requires Valid() && message != ""
      modifies this
      ensures Valid()
      ensures input == "" && busy && messages == old(messages) + [Message(User, message)]
      ensures old(busy) ==> queue == old(queue) + [message] && inFlight == old(inFlight) && typing == old(typing)
      ensures !old(busy) ==> queue == old(queue) && inFlight == old(inFlight) + [Request(userId, message)]
                             && typing == Some(TYPING_TEXT)
      ensures screen == old(screen) && drains == old(drains) && hasLoadedWelcome == old(hasLoadedWelcome)
    {
      input := "";
      messages := messages + [Message(User, message)];
      if busy {
        queue := queue + [message];
      } else {
        BeginRound(message);
      }
    }

    /**
     * `handleQuickQuestion` (lines 203-213): switch to the chat screen, append
     * the question as a user message and dispatch it, whether or not the bot is
     * busy. The 300 ms pause between the screen switch and the rest is not modelled.
     */
    method QuickQuestion(question: string)
      requires Valid()
      modifies this
      ensures Valid()
      ensures screen == Chat && messages == old(messages) + [Message(User, question)]
      ensures busy && typing == Some(TYPING_TEXT)
      ensures inFlight == old(inFlight) + [Request(userId, question)]
      ensures input == old(input) && queue == old(queue) && drains == old(drains)
      ensures hasLoadedWelcome == old(hasLoadedWelcome)
    {
      screen := Chat;
      messages := messages + [Message(User, question)];
      BeginRound(question);
    }

    /**
     * The reveal loop (lines 148-164): each text, in order, re-shows the typing
     * indicator (from the second one on), clears it, and is appended as a bot
     * message. The texts arrive trimmed (the `trim` of line 157 is part of
     * `Segments`). The 1000 ms and 200 ms pauses are not modelled.
     */
    method RevealReplies(texts: seq<string>)
      requires |texts| >= 1
      modifies this
      ensures messages == old(messages) + BotMessages(texts)
      ensures typing == None
      ensures busy == old(busy) && queue == old(queue) && inFlight == old(inFlight) && drains == old(drains)
      ensures screen == old(screen) && input == old(input) && hasLoadedWelcome == old(hasLoadedWelcome)
    {
      ghost var before := messages;
      ghost var shown := BotMessages(texts);
      for i := 0 to |texts|
        invariant messages == before + shown[..i]
        invariant i > 0 ==> typing == None
        invariant busy == old(busy) && queue == old(queue) && inFlight == old(inFlight) && drains == old(drains)
        invariant screen == old(screen) && input == old(input) && hasLoadedWelcome == old(hasLoadedWelcome)
      {
        if i > 0 {
          typing := Some(TYPING_TEXT);
        }
        typing := None;
        assert shown[..i + 1] == shown[..i] + [Message(Bot, texts[i])];
        messages := messages + [Message(Bot, texts[i])];
      }
      assert shown[..|texts|] == shown;
    }

    /**
     * The end of every round (lines 176-183): the bot is no longer busy, and
     * the queue loses its head, which is scheduled for dispatch 2000 ms later
     * when it is a non-empty string.
     */
    method FinishRound()
      modifies this
      ensures messages == old(messages) && typing == old(typing) && inFlight == old(inFlight)
      ensures screen == old(screen) && input == old(input) && hasLoadedWelcome == old(hasLoadedWelcome)
      ensures "" !in old(queue) && "" !in old(drains) ==> "" !in queue && "" !in drains
      ensures !busy
      ensures old(queue) == [] ==> queue == [] && drains == old(drains)
      ensures old(queue) != [] ==>
                queue == old(queue)[1..] && drains == old(drains) + (if old(queue)[0] != "" then [old(queue)[0]] else [])
    {
      busy := false;
      if queue != [] {
        var next := queue[0];
        if next != "" {
          drains := drains + [next];
        }
        queue := queue[1..];
        HeadlessKeepsOut(old(queue), "");
      }
    }

    /**
     * Request `k` is answered (the rest of `handleBotResponse`, lines 141-183).
     * Its bot messages are appended after everything already shown, the typing
     * indicator is cleared, the bot becomes idle, and the queue's head moves,
     * in order, to the timers awaiting dispatch.
     */
    method GatewayReturned(k: nat, result: GatewayResult)
      requires Valid() && k < |inFlight|
      modifies this
      ensures Valid()
      ensures inFlight == old(inFlight[..k] + inFlight[k + 1..])
      ensures messages == old(messages) + BotMessages(RoundTexts(result))
      ensures typing == None && !busy
      ensures old(queue) == [] ==> queue == [] && drains == old(drains)
      ensures old(queue) != [] ==> queue == old(queue[1..]) && drains == old(drains) + [old(queue[0])]
      ensures screen == old(screen) && input == old(input) && hasLoadedWelcome == old(hasLoadedWelcome)
    {
      inFlight := inFlight[..k] + inFlight[k + 1..];
      var texts := RoundTexts(result);
      if result.Success? {
        RevealReplies(texts);
      } else {
        typing := None;
        messages := messages + [Message(Bot, CONTACT_FALLBACK)];
        assert BotMessages(texts) == [Message(Bot, CONTACT_FALLBACK)];
      }
      FinishRound();
    }

    /**
     * The oldest 2000 ms timer fires: its text is dispatched. It was appended
     * to the conversation when it was typed, so no message is added now.
     */
    method DrainFire()
      requires Valid() && drains != []
      modifies this
      ensures Valid()
      ensures drains == old(drains[1..])
      ensures busy && typing == Some(TYPING_TEXT)
      ensures inFlight == old(inFlight) + [Request(userId, old(drains[0]))]
      ensures messages == old(messages) && queue == old(queue)
      ensures screen == old(screen) && input == old(input) && hasLoadedWelcome == old(hasLoadedWelcome)
    {
      var text := drains[0];
      drains := drains[1..];
      BeginRound(text);
    }

    /**
     * The load effect (lines 34-48): when the visitor's stored conversation
     * decodes, it replaces the current one and the welcome is marked as done;
     * when nothing usable is stored, or decoding fails, nothing changes.
     */
    method LoadHistory(decode: string -> Option<seq<Message>>)
      requires Valid()
      modifies this
      ensures Valid()
      ensures StoredHistory(storage.entries, userId, decode).Some? ==>
        messages == StoredHistory(storage.entries, userId, decode).value && hasLoadedWelcome
      ensures StoredHistory(storage.entries, userId, decode).None? ==>
        messages == old(messages) && hasLoadedWelcome == old(hasLoadedWelcome)
      ensures screen == old(screen) && input == old(input) && typing == old(typing) && queue == old(queue)
      ensures busy == old(busy) && inFlight == old(inFlight) && drains == old(drains)
    {
      var saved := storage.GetItem(HistoryKey(userId));
      if Truthy(saved) {
        var parsed := decode(saved.value);
        if parsed.Some? {
          messages := parsed.value;
          hasLoadedWelcome := true;
        }
      }
    }

    /**
     * The welcome effect (lines 50-59): on the chat screen, with an empty
     * conversation and no welcome yet, the conversation becomes exactly the
     * welcome message and the welcome is marked as done; otherwise nothing changes.
     */
    method ShowWelcome()
      requires Valid()
      modifies this
      ensures Valid()
      ensures old(screen == Chat && messages == [] && !hasLoadedWelcome) ==>
        messages == [Message(Bot, WELCOME_MESSAGE)] && hasLoadedWelcome
      ensures !old(screen == Chat && messages == [] && !hasLoadedWelcome) ==>
        messages == old(messages) && hasLoadedWelcome == old(hasLoadedWelcome)
      ensures screen == old(screen) && input == old(input) && typing == old(typing) && queue == old(queue)
      ensures busy == old(busy) && inFlight == old(inFlight) && drains == old(drains)
    {
      if screen == Chat && |messages| == 0 && !hasLoadedWelcome {
        messages := [Message(Bot, WELCOME_MESSAGE)];
        hasLoadedWelcome := true;
      }
    }

    /**
     * The two mount effects as the source runs them (lines 34-59): the load
     * effect and then the welcome effect, in declaration order, in the same
     * commit. Both read the state of the first render, so the welcome effect
     * still sees an empty conversation and no welcome, and its write lands
     * after the load's: a restored conversation is replaced by the welcome.
     */
    method MountEffects(decode: string -> Option<seq<Message>>)
      requires Valid()
      modifies this
      ensures Valid()
      ensures old(screen == Chat && messages == [] && !hasLoadedWelcome) ==>
        messages == [Message(Bot, WELCOME_MESSAGE)] && hasLoadedWelcome
      ensures !old(screen == Chat && messages == [] && !hasLoadedWelcome) ==>
        (StoredHistory(storage.entries, userId, decode).Some? ==>
           messages == StoredHistory(storage.entries, userId, decode).value && hasLoadedWelcome)
        && (StoredHistory(storage.entries, userId, decode).None? ==>
              messages == old(messages) && hasLoadedWelcome == old(hasLoadedWelcome))
      ensures screen == old(screen) && input == old(input) && typing == old(typing) && queue == old(queue)
      ensures busy == old(busy) && inFlight == old(inFlight) && drains == old(drains)
    {
      var rendered := screen == Chat && |messages| == 0 && !hasLoadedWelcome;
      LoadHistory(decode);
      if rendered {
        messages := [Message(Bot, WELCOME_MESSAGE)];
        hasLoadedWelcome := true;
      }
    }

    /**
     * The mount effects as evidently intended: the welcome effect decides on
     * the state the load effect left, so a restored conversation is kept and
     * the welcome only opens a conversation nothing was restored into.
     */
    method RestoreOrWelcome(decode: string -> Option<seq<Message>>)
      requires Valid()
      modifies this
      ensures Valid()
      ensures old(screen == Chat && messages == [] && !hasLoadedWelcome) ==>
        (StoredHistory(storage.entries, userId, decode).Some? ==>
           messages == StoredHistory(storage.entries, userId, decode).value)
        && (StoredHistory(storage.entries, userId, decode).None? ==>
              messages == [Message(Bot, WELCOME_MESSAGE)])
      ensures !old(screen == Chat && messages == [] && !hasLoadedWelcome) ==>
        (StoredHistory(storage.entries, userId, decode).Some? ==>
           messages == StoredHistory(storage.entries, userId, decode).value)
        && (StoredHistory(storage.entries, userId, decode).None? ==> messages == old(messages))
      ensures hasLoadedWelcome == (old(hasLoadedWelcome) || StoredHistory(storage.entries, userId, decode).Some?
                                   || old(screen == Chat && messages == []))
      ensures screen == old(screen) && input == old(input) && typing == old(typing) && queue == old(queue)
      ensures busy == old(busy) && inFlight == old(inFlight) && drains == old(drains)
    {
      LoadHistory(decode);
      ShowWelcome();
    }

    /**
     * The save effect (lines 61-65): a non-empty conversation is written,
     * encoded, under the visitor's key; an empty one writes nothing.
     */
    method SaveHistory(encode: seq<Message> -> string)
      modifies storage
      ensures storage.entries == EntriesAfterSave(old(storage.entries), userId, messages, encode)
    {
      if |messages| > 0 {
        storage.SetItem(HistoryKey(userId), encode(messages));
      }
    }
  }

}
