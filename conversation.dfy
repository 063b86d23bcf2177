/** The values the chat widget shows and stores (src/components/Chatbot.tsx, lines 4-12). */
module Conversation {

  /** Who wrote a message: the visitor or the support agent. */
  datatype Origin = User | Bot

  /** One chat bubble. The source also stamps each message with the time it was created; that is not modelled. */
  datatype Message = Message(origin: Origin, text: string)

  /** The widget's screens; only `Chat` matters to the engine. */
  datatype Screen = Home | Chat | Faq | Appointment

  /** The bot message that opens an empty conversation. */
  const WELCOME_MESSAGE: string := "Hi! Welcome to R & S Flooring. " + "How can we help you today?"

  /** One bot message per text, in order. */
  function BotMessages(texts: seq<string>): (msgs: seq<Message>)
    ensures |msgs| == |texts|
    ensures forall i :: 0 <= i < |texts| ==> msgs[i] == Message(Bot, texts[i])
  {
    seq(|texts|, i requires 0 <= i < |texts| => Message(Bot, texts[i]))
  }

}
