/**
 * Which room messages the bot treats as possible commands
 * (MUCBot#message_valid?).
 */
module MessageFilter {
  import opened Wrappers
  import opened MucConfig

  /** The XMPP message types (Jabber::Message#type). */
  datatype MessageType = Chat | Error | GroupChat | Headline | Normal

  /** An incoming room message, reduced to what the bot reads of it: its
      type (nil when the stanza has none), the resource of its sender (the
      sender's nick in the room), the resource of its addressee (nil when
      the stanza names none), its body, and whether it carries a `delay`
      element (room history replayed on join). */
  datatype Message = Message(
    kind: Option<MessageType>,
    resource: Option<string>,
    recipient: Option<string>,
    body: Option<string>,
    delayed: bool)

  /** message_valid?: a live groupchat message with a sender and a body, not
      sent under the bot's own nick. ownNick is config[:nick] as Ruby reads
      it, nil when the key is absent; a String sender never equals a nil or
      boolean nick. Nil-ness, not emptiness, is tested: an empty body passes. */
  predicate MessageValid(m: Message, ownNick: Value): (ok: bool)
    ensures ok ==> m.resource.Some? && m.body.Some? && Text(m.resource.value) != ownNick
    ensures ok ==> m.kind == Some(GroupChat) && !m.delayed
  {
    m.kind == Some(GroupChat) &&
    m.resource.Some? &&
    Text(m.resource.value) != ownNick &&
    m.body.Some? &&
    !m.delayed
  }

  /** Each of the five conditions on its own rejects a message. */
  lemma EachConditionRejects(m: Message, ownNick: Value)
    ensures m.kind != Some(GroupChat) ==> !MessageValid(m, ownNick)
    ensures m.resource.None? ==> !MessageValid(m, ownNick)
    ensures m.resource.Some? && ownNick == Text(m.resource.value) ==> !MessageValid(m, ownNick)
    ensures m.body.None? ==> !MessageValid(m, ownNick)
    ensures m.delayed ==> !MessageValid(m, ownNick)
  {
  }

  /** A message meeting all five conditions is accepted, whatever else it holds. */
  lemma AllConditionsAccept(m: Message, ownNick: Value)
    requires m.kind == Some(GroupChat)
    requires m.resource.Some? && ownNick != Text(m.resource.value)
    requires m.body.Some?
    requires !m.delayed
    ensures MessageValid(m, ownNick)
  {
  }

  /** An empty body or an empty sender nick is not a reason to reject, and
      neither is a missing addressee. */
  lemma EmptyIsNotNil(ownNick: Value)
    requires ownNick != Text("")
    ensures MessageValid(Message(Some(GroupChat), Some(""), None, Some(""), false), ownNick)
  {
  }
}
