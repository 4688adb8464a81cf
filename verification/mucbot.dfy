/**
 * Jabber::MUCBot: a bot sitting in one multi-user chat room. It keeps its
 * normalised configuration, an ordered list of commands, and a connection;
 * what it sends to the room is collected in `outbox`.
 */
module MucBot {
  import opened Wrappers
  import opened RubyString
  import opened MucConfig
  import opened MessageFilter
  import opened Commands

  /** A welcome callback: the joining member's nick (nil when the presence
      carries no resource) to an optional greeting. */
  type Greeter = Option<string> -> Option<string>

  /** One call of a user callback. */
  datatype Call = CommandCall(index: nat, sender: string, params: Params) | GreetingCall(joiner: Option<string>)

  /** What reaches the room for a callback result: nothing for nil, and
      any String otherwise, the empty one included. */
  function Sent(response: Option<string>): (out: seq<string>)
    ensures |out| <= 1
    ensures out == [] <==> response.None?
    ensures response.Some? ==> out[0] == response.value
  {
    match response
    case None => []
    case Some(text) => [text]
  }

  /** The callbacks parse_command calls for a message: the callback of the
      command that fires, with the sender and that command's params, or none. */
  function CallsFor(cmds: seq<Command>, sender: string, message: string): (calls: seq<Call>)
    ensures |calls| <= 1
    ensures calls == [] <==> Fires(cmds, message).None?
    ensures calls != [] ==> calls[0].CommandCall? && calls[0].index < |cmds| && calls[0].sender == sender
  {
    match Fires(cmds, message)
    case None => []
    case Some(h) => [CommandCall(h.index, sender, ParamsOf(h.captures))]
  }

  /** Whether the message callback reaches parse_command: the message is
      valid and the debug line built before the call can be built. That
      line appends the addressee's resource to a String, which raises when
      the resource is nil, so such a message is never parsed. */
  predicate Parsed(cfg: Config, m: Message): (ok: bool)
    ensures ok ==> MessageValid(m, Get(cfg, Nick))
    ensures ok ==> m.recipient.Some? && m.resource.Some? && m.body.Some?
  {
    MessageValid(m, Get(cfg, Nick)) && m.recipient.Some?
  }

  /** What the room receives in answer to one incoming message: the
      response of the first matching command, if the message is parsed and
      that response is not nil. */
  function Reaction(cfg: Config, cmds: seq<Command>, m: Message): (out: seq<string>)
    ensures |out| <= 1
    ensures out != [] ==> Parsed(cfg, m) && Fires(cmds, m.body.value).Some?
  {
    if Parsed(cfg, m) then Sent(Dispatch(cmds, m.resource.value, m.body.value)) else []
  }

  /** The callbacks one incoming message causes to be called. */
  function ReceiveCalls(cfg: Config, cmds: seq<Command>, m: Message): (calls: seq<Call>)
    ensures |calls| <= 1
    ensures calls != [] ==> Parsed(cfg, m) && Fires(cmds, m.body.value).Some?
  {
    if Parsed(cfg, m) then CallsFor(cmds, m.resource.value, m.body.value) else []
  }

  /** The bot never answers, and never runs a command for, its own messages:
      no self-echo loop. */
  lemma OwnMessagesIgnored(cfg: Config, cmds: seq<Command>, m: Message)
    requires m.resource.Some? && Get(cfg, Nick) == Text(m.resource.value)
    ensures Reaction(cfg, cmds, m) == [] && ReceiveCalls(cfg, cmds, m) == []
  {
  }

  /** Room history replayed on join never triggers a command. */
  lemma HistoryIgnored(cfg: Config, cmds: seq<Command>, m: Message)
    requires m.delayed
    ensures Reaction(cfg, cmds, m) == [] && ReceiveCalls(cfg, cmds, m) == []
  {
  }

  /** A valid message without an addressee resource runs no command and is
      not answered: the debug line raises first. */
  lemma UnaddressedIgnored(cfg: Config, cmds: seq<Command>, m: Message)
    requires m.recipient.None?
    ensures Reaction(cfg, cmds, m) == [] && ReceiveCalls(cfg, cmds, m) == []
  {
  }

  /** For a parsed message, the room receives exactly the response of the
      first command matching the stripped body, when it is not nil. */
  lemma ValidMessageAnswered(cfg: Config, cmds: seq<Command>, m: Message, h: Hit)
    requires Parsed(cfg, m)
    requires Fires(cmds, m.body.value) == Some(h)
    ensures h.index < |cmds|
    ensures Reaction(cfg, cmds, m) == Sent(cmds[h.index].callback(m.resource.value, ParamsOf(h.captures)))
    ensures ReceiveCalls(cfg, cmds, m) == [CommandCall(h.index, m.resource.value, ParamsOf(h.captures))]
  {
  }

  class Bot {
    /** @config, after normalisation. */
    var config: Config
    /** @commands, in registration order. */
    var commands: seq<Command>
    /** Every message sent to the room, oldest first. */
    var outbox: seq<string>
    /** Whether the XMPP client is connected. */
    var connected: bool
    /** Every user callback called so far, oldest first. */
    ghost var calls: seq<Call>

    /** MUCBot.new: normalises the configuration in place, starts with no
        command, and connects. */
    constructor (cfg: Config)
      requires JidIsText(cfg)
      ensures config == Normalized(cfg)
      ensures commands == [] && outbox == [] && connected && calls == []
    {
      config := cfg;
      commands := [];
      outbox := [];
      connected := true;
      calls := [];
      new;
      if KeepAlive !in config {
        config := config[KeepAlive := Flag(true)];
      }
      if Jid in config {
        config := config[Nick := First(Split(config[Jid].s, '@'))];
        config := config[Server := Last(Split(config[Jid].s, '@'))];
      } else {
        config := config[Jid := Text(Interp(config, Nick) + "@" + Interp(config, Server))];
      }
    }

    /** add_command: appends one entry; nothing is checked or merged. */
    method AddCommand(regex: Regex, callback: Handler)
      modifies this`commands
      ensures commands == old(commands) + [Command(regex, callback)]
    {
      commands := commands + [Command(regex, callback)];
    }

    /** send: one message to the room. */
    method Send(message: string)
      modifies this`outbox
      ensures outbox == old(outbox) + [message]
    {
      outbox := outbox + [message];
    }

    /** disconnect: while connected, says goodbye and then disconnects;
        otherwise does nothing. */
    method Disconnect()
      modifies this`outbox, this`connected
      ensures old(connected) ==> outbox == old(outbox) + ["Goodbye!"] && !connected
      ensures !old(connected) ==> outbox == old(outbox) && !connected
    {
      if connected {
        Send("Goodbye!");
        connected := false;
      }
    }

    /** The join callback installed by welcome: calls the greeting callback
        with the joining member's nick and sends its result unless nil. */
    method Greet(greeting: Greeter, joiner: Option<string>)
      modifies this`outbox, this`calls
      ensures outbox == old(outbox) + Sent(greeting(joiner))
      ensures calls == old(calls) + [GreetingCall(joiner)]
    {
      var response := greeting(joiner);
      calls := calls + [GreetingCall(joiner)];
      if response.Some? {
        Send(response.value);
      }
    }

    /** parse_command: tries each command in order against the stripped
        message; the first that matches has its callback called with the
        sender and its params, the response is sent unless nil, and no
        further command is tried. */
    method ParseCommand(sender: string, message: string)
      modifies this`outbox, this`calls
      ensures outbox == old(outbox) + Sent(Dispatch(commands, sender, message))
      ensures calls == old(calls) + CallsFor(commands, sender, message)
    {
      var i := 0;
      while i < |commands|
        invariant 0 <= i <= |commands|
        invariant forall j :: 0 <= j < i ==> commands[j].regex(Strip(message)).None?
        invariant outbox == old(outbox) && calls == old(calls)
      {
        var command := commands[i];
        var found := command.regex(Strip(message));
        if found.Some? {
          var params := ParamsOf(found.value);
          var response := command.callback(sender, params);
          calls := calls + [CommandCall(i, sender, params)];
          if response.Some? {
            Send(response.value);
          }
          assert Fires(commands, message) == Some(Hit(i, found.value));
          return;
        }
        i := i + 1;
      }
    }

    /** The message callback installed by join: a valid message is handed
        to parse_command with its sender's nick and its body, unless
        building the debug line raises first. */
    method Receive(m: Message)
      modifies this`outbox, this`calls
      ensures outbox == old(outbox) + Reaction(config, commands, m)
      ensures calls == old(calls) + ReceiveCalls(config, commands, m)
    {
      if MessageValid(m, Get(config, Nick)) {
        if m.recipient.None? {
          // Appending a nil resource to the log line raises before
          // parse_command is reached.
          return;
        }
        ParseCommand(m.resource.value, m.body.value);
      }
    }

  }
}
