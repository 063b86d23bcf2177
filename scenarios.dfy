/**
 * Walk-throughs of the dispatch engine from a freshly mounted widget. Each
 * returns what it observes, and its contract states the outcome.
 */
module Scenarios {
  import opened Wrappers
  import opened Strings
  import opened Conversation
  import opened Segmentation
  import opened SessionStore
  import opened Dispatch

  /**
   * A mounted widget over an empty session store, with the visitor id
   * `user_abc`: nothing is restored, so the conversation opens with the welcome.
   */
  method Mount() returns (bot: Chatbot)
    ensures fresh(bot) && bot.Valid() && bot.userId == "user_abc"
    ensures bot.screen == Chat && bot.messages == [Message(Bot, WELCOME_MESSAGE)] && bot.queue == [] && !bot.busy
    ensures bot.inFlight == [] && bot.drains == [] && bot.typing == None && bot.input == ""
  {
    var store := new SessionStorage(map[]);
    bot := new Chatbot(store, "abc");
    var nothing: string -> Option<seq<Message>> := _ => None;
    bot.MountEffects(nothing);
  }

  /** Types `text`, which has no surrounding whitespace, and presses send. */
  method Type(bot: Chatbot, text: string)
    requires bot.Valid() && text != [] && !IsSpace(text[0]) && !IsSpace(text[|text| - 1])
    modifies bot
    ensures bot.Valid() && bot.input == "" && bot.busy
    ensures bot.messages == old(bot.messages) + [Message(User, text)]
    ensures old(bot.busy) ==> bot.queue == old(bot.queue) + [text] && bot.inFlight == old(bot.inFlight)
    ensures !old(bot.busy) ==> bot.queue == old(bot.queue) && bot.inFlight == old(bot.inFlight) + [Request(bot.userId, text)]
    ensures bot.drains == old(bot.drains)
  {
    TrimmedIsFixed(text);
    bot.SetInput(text);
    bot.Send();
  }

  /**
   * A quick question asked while a typed message is still awaiting its reply
   * issues a second request: two requests are outstanding at once.
   */
  method QuickQuestionWhileBusy() returns (outstanding: nat)
    ensures outstanding == 2
  {
    var bot := Mount();
    Type(bot, "Hello");
    bot.QuickQuestion("Prices?");
    outstanding := |bot.inFlight|;
  }

  /**
   * A message typed during the 2000 ms pause after a reply, while an earlier
   * queued message waits for its timer, is dispatched at once; when the timer
   * fires the queued message is dispatched too, and both are outstanding.
   */
  method SendDuringCooldown() returns (outstanding: seq<Request>)
    ensures outstanding == [Request("user_abc", "Third"), Request("user_abc", "Second")]
  {
    var bot := Mount();
    Type(bot, "First");
    Type(bot, "Second");
    bot.GatewayReturned(0, Failure);
    Type(bot, "Third");
    bot.DrainFire();
    outstanding := bot.inFlight;
  }

  /** A reply made of trimmed, non-empty turns joined by the delimiter is shown as exactly those turns. */
  lemma {:induction false} JoinedTurns(turns: seq<string>)
    requires |turns| >= 1
    requires forall p <- turns :: p != "" && Trim(p) == p && DelimiterFree(p)
    ensures RoundTexts(Success(Some(Join(turns)))) == turns
  {
    SegmentsOfJoin(turns);
    TrimAllKeepsTrimmed(turns);
    assert RoundTexts(Success(Some(Join(turns)))) == Segments(Join(turns));
  }

  /** A reply holding several turns separated by the delimiter becomes one bot message per turn, in order. */
  method MultiTurnReply(turns: seq<string>) returns (log: seq<Message>)
    requires |turns| >= 1
    requires forall p <- turns :: p != "" && Trim(p) == p && DelimiterFree(p)
    ensures log == [Message(Bot, WELCOME_MESSAGE), Message(User, "Financing?")] + BotMessages(turns)
  {
    var bot := Mount();
    Type(bot, "Financing?");
    assert bot.messages == [Message(Bot, WELCOME_MESSAGE), Message(User, "Financing?")] && |bot.inFlight| == 1;
    var result := Success(Some(Join(turns)));
    JoinedTurns(turns);
    bot.GatewayReturned(0, result);
    log := bot.messages;
  }

  /** A failed exchange shows the contact text alone, and the bot is idle again. */
  method FailedExchange() returns (log: seq<Message>, busy: bool)
    ensures log == [Message(Bot, WELCOME_MESSAGE), Message(User, "Hi"), Message(Bot, CONTACT_FALLBACK)] && !busy
  {
    var bot := Mount();
    Type(bot, "Hi");
    bot.GatewayReturned(0, Failure);
    log := bot.messages;
    busy := bot.busy;
  }

  /**
   * A reload as the source runs it: the visitor's conversation `log` is stored
   * under codec `encode`/`decode`, yet after the mount effects the widget shows
   * the welcome alone, and the save effect then writes the welcome over the
   * stored conversation.
   */
  method ReloadAsWritten(log: seq<Message>, encode: seq<Message> -> string, decode: string -> Option<seq<Message>>)
    returns (shown: seq<Message>, stored: Option<string>)
    requires |log| > 0 && encode(log) != "" && decode(encode(log)) == Some(log)
    ensures shown == [Message(Bot, WELCOME_MESSAGE)]
    ensures stored == Some(encode([Message(Bot, WELCOME_MESSAGE)]))
  {
    var bot := Reloaded(log, encode);
    bot.MountEffects(decode);
    bot.SaveHistory(encode);
    shown := bot.messages;
    stored := bot.storage.GetItem(HistoryKey("user_abc"));
  }

  /**
   * The same reload with the intended mount effects: the stored conversation is
   * shown again, and saving it writes back what was stored.
   */
  method ReloadRestores(log: seq<Message>, encode: seq<Message> -> string, decode: string -> Option<seq<Message>>)
    returns (shown: seq<Message>, stored: Option<string>)
    requires |log| > 0 && encode(log) != "" && decode(encode(log)) == Some(log)
    ensures shown == log
    ensures stored == Some(encode(log))
  {
    var bot := Reloaded(log, encode);
    bot.RestoreOrWelcome(decode);
    bot.SaveHistory(encode);
    shown := bot.messages;
    stored := bot.storage.GetItem(HistoryKey("user_abc"));
  }

  /** A widget created over a session that already holds the id `user_abc` and its encoded conversation. */
  method Reloaded(log: seq<Message>, encode: seq<Message> -> string) returns (bot: Chatbot)
    ensures fresh(bot) && fresh(bot.storage) && bot.Valid() && bot.userId == "user_abc"
    ensures bot.storage.entries == map[USER_ID_KEY := "user_abc", HistoryKey("user_abc") := encode(log)]
    ensures bot.screen == Chat && bot.messages == [] && !bot.hasLoadedWelcome
  {
    var entries := map[USER_ID_KEY := "user_abc", HistoryKey("user_abc") := encode(log)];
    assert Lookup(entries, USER_ID_KEY) == Some("user_abc");
    var store := new SessionStorage(entries);
    bot := new Chatbot(store, "xyz");
  }

}
