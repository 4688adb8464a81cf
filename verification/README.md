# Jabber::MUCBot in Dafny

A model of `Jabber::MUCBot`, a Ruby bot that sits in one XMPP multi-user
chat room and answers commands. Users register commands, each a regular
expression and a callback. Every live groupchat message from another
occupant has its body stripped of surrounding whitespace. The body is then
tried against the commands in registration order. Only the first command
that matches has its callback called. The callback receives the sender's
nick and the match's captures: nil for none, one String for one, an Array
for several. A non-nil result is sent to the room. The model also covers:

- how the constructor normalises the configuration hash;
- the room JID the bot joins under;
- the greeting sent to a member who joins;
- the farewell sent on disconnect.

Modules:

- `RubyString` (`ruby_string.dfy`) models `String#strip` and
  `String#split` with a one-character separator. Their behaviour is
  characterised by lemmas.
- `MucConfig` (`config.dfy`) models the configuration `Hash`, its
  normalisation in the constructor, and the room JID.
- `MessageFilter` (`message_filter.dfy`) models `message_valid?`.
- `Commands` (`commands.dfy`) models the command registry and the
  first-match rule of `parse_command`.
- `MucBot` (`mucbot.dfy`) is the bot object as a class. Its fields are the
  normalised configuration, the command list, what has been sent to the
  room, the connection flag, and a ghost log of callback calls. Its
  methods are the constructor, `add_command`, `send`, `disconnect`, the
  welcome join callback, `parse_command` and the message callback
  installed by `join`. Each method is specified by the functions of the
  modules above.
- `Scenarios` (`scenarios.dfy`) holds concrete runs of the bot: the
  documentation's `rand`, a stand-in echo command, two competing commands, a nil
  answer, a greeting, a double disconnect, and a jid-only configuration.

## Model

| member | source | states |
|---|---|---|
| RubyString.IsSpace | lib/jabber/mucbot.rb:211 | `strip` removes only characters at or below the space character, and always removes space, tab, line feed and carriage return; NUL, vertical tab and form feed are removed too |
| RubyString.LeadingSpaces | lib/jabber/mucbot.rb:211 | the counted prefix is all whitespace and the next character is not |
| RubyString.TrailingSpaces | lib/jabber/mucbot.rb:211 | the counted suffix is all whitespace and the character before it is not |
| RubyString.Strip | lib/jabber/mucbot.rb:211 | `strip` keeps the infix after the leading whitespace run; it has no whitespace at either end and only whitespace follows it |
| RubyString.StripUnique | lib/jabber/mucbot.rb:211 | whitespace around a stripped core strips to exactly that core |
| RubyString.AllSpacesConcat | lib/jabber/mucbot.rb:211 | two whitespace runs together are one whitespace run |
| RubyString.StripIdempotent | lib/jabber/mucbot.rb:211 | stripping twice is stripping once |
| RubyString.StripSplits | lib/jabber/mucbot.rb:211 | every string is its stripped core between two whitespace runs |
| RubyString.StripIgnoresPadding | lib/jabber/mucbot.rb:211 | extra whitespace around a string never changes its stripped form |
| RubyString.Fields | lib/jabber/mucbot.rb:59-60 | splitting at every separator gives at least one field, and no field holds the separator |
| RubyString.JoinFields | lib/jabber/mucbot.rb:59-60 | joining the fields with the separator gives the string back |
| RubyString.FieldsOfPlain | lib/jabber/mucbot.rb:59-60 | a string without the separator is one field |
| RubyString.FieldsCons | lib/jabber/mucbot.rb:59-60 | a separator-free prefix before the first separator is the first field, followed by the fields of the rest |
| RubyString.FieldsJoin | lib/jabber/mucbot.rb:59-60 | splitting undoes joining when no field holds the separator |
| RubyString.JoinLast | lib/jabber/mucbot.rb:60 | the last field follows everything before it and one separator |
| RubyString.FirstField | lib/jabber/mucbot.rb:59 | the first field is the text before the first separator, or the whole string when there is none |
| RubyString.LastField | lib/jabber/mucbot.rb:60 | the last field is the text after the last separator, or the whole string when there is none |
| RubyString.DropTrailingEmpty | lib/jabber/mucbot.rb:59-60 | the result is a prefix ending in a nonempty field, and only empty fields were dropped |
| RubyString.Split | lib/jabber/mucbot.rb:59-60 | `split('@')` fields never hold '@' |
| RubyString.SplitKeepsAll | lib/jabber/mucbot.rb:59-60 | a string not ending in the separator loses no field to `split` |
| RubyString.FieldsSnoc | lib/jabber/mucbot.rb:59-60 | a separator at the end adds exactly one empty field after the others |
| RubyString.SplitSnoc | lib/jabber/mucbot.rb:59-60 | a separator at the end never changes what `split` gives |
| RubyString.SplitDropsTrailingSeps | lib/jabber/mucbot.rb:59-60 | a run of separators at the end never changes what `split` gives |
| RubyString.SplitLastDropsSeps | lib/jabber/mucbot.rb:60 | for a string ending in separators after another character, the last element of `split` is the last field before that run |
| RubyString.SplitEmpty | lib/jabber/mucbot.rb:59-60 | `split` gives the empty array exactly when the string holds separators only |
| RubyString.JoinOffset | lib/jabber/mucbot.rb:59-60 | each field occurs in the joined string at its offset |
| RubyString.AllEmptyJoin | lib/jabber/mucbot.rb:59-60 | empty fields join to separators only |
| MucConfig.ToS | lib/jabber/mucbot.rb:62 | interpolating a String gives that String and nil gives "" |
| MucConfig.Interp | lib/jabber/mucbot.rb:62 | an absent key interpolates as "", and a String value as itself |
| MucConfig.First | lib/jabber/mucbot.rb:59 | `first` is nil exactly for an empty array, and the first element otherwise |
| MucConfig.Last | lib/jabber/mucbot.rb:60 | `last` is nil exactly for an empty array, and the last element otherwise |
| MucConfig.Normalized | lib/jabber/mucbot.rb:52-63 | afterwards keep_alive and jid are present and jid is a String; keep_alive keeps a given value (even nil or false) or defaults to true; password, room and debug are untouched |
| MucConfig.NormalizedBuildsJid | lib/jabber/mucbot.rb:61-62 | without a jid, the jid is built as "nick@server" (a missing part reads as "") and nick and server are untouched |
| MucConfig.NormalizedSplitsJid | lib/jabber/mucbot.rb:58-60 | with a jid, the jid is kept, nick is the first and server the last part of the jid split at '@' |
| MucConfig.NormalizedJidOfAts | lib/jabber/mucbot.rb:58-60 | with a jid, the jid is kept; nick and server both become nil exactly when the jid holds nothing but '@' |
| MucConfig.NormalizedNickOfJid | lib/jabber/mucbot.rb:59 | nick becomes the jid's text before its first '@' |
| MucConfig.NormalizedServerOfJid | lib/jabber/mucbot.rb:60 | server becomes the jid's text after its last '@', when the jid does not end in '@' |
| MucConfig.NormalizedServerOfTrailingAts | lib/jabber/mucbot.rb:60 | for a jid ending in a run of '@' after another character, server is the text after the last '@' before that run, as for the jid without the run |
| MucConfig.NormalizedJidParts | lib/jabber/mucbot.rb:58-60 | a jid "n@v" made of '@'-free parts, v nonempty, gives nick n and server v |
| MucConfig.NormalizedIdempotent | lib/jabber/mucbot.rb:54-63 | normalising an already normalised configuration changes nothing, whenever nick and server can be read back from the jid |
| MucConfig.JidOnlyExample | lib/jabber/mucbot.rb:54-63 | jid "x@y" alone gives nick "x", server "y" and keep_alive true |
| MucConfig.TrailingAtExample | lib/jabber/mucbot.rb:58-60 | jid "x@" gives nick "x" and also server "x", because `split` drops the trailing empty field |
| MucConfig.RoomJid | lib/jabber/mucbot.rb:131-135 | the room JID starts with the room and ends with '/' and the nick, and is 13 characters ("@conference." and "/") longer than room, server and nick together |
| MucConfig.RoomJidNode | lib/jabber/mucbot.rb:131-135 | read back, the room JID's node is the configured room |
| MucConfig.RoomJidResource | lib/jabber/mucbot.rb:131-135 | read back, the room JID's resource is the bot's nick, after "room@conference.server" |
| MessageFilter.MessageValid | lib/jabber/mucbot.rb:195-200 | a valid message is a live groupchat message with a sender resource other than the bot's nick and a body |
| MessageFilter.EachConditionRejects | lib/jabber/mucbot.rb:195-200 | each of the five conditions alone rejects: not groupchat, no sender resource, the bot's own nick, no body, a delay element |
| MessageFilter.AllConditionsAccept | lib/jabber/mucbot.rb:195-200 | a message meeting all five conditions is valid |
| MessageFilter.EmptyIsNotNil | lib/jabber/mucbot.rb:196-199 | an empty body and an empty sender nick pass, since only nil is tested |
| Commands.ParamsOf | lib/jabber/mucbot.rb:214 | params are an Array exactly when there are two or more captures, and then hold them all; a single String param is the one participating capture; nil stands for no capture or one non-participating capture |
| Commands.ParamsShape | lib/jabber/mucbot.rb:214 | zero captures give nil, one gives that capture, two or more give the Array of all captures |
| Commands.ParamsRoundTrip | lib/jabber/mucbot.rb:214 | the captures can be read back from the params, except that one non-participating capture looks like none |
| Commands.FirstMatch | lib/jabber/mucbot.rb:210-212 | a hit is a matching command with no matching command before it; no hit means no command matches |
| Commands.Fires | lib/jabber/mucbot.rb:210-212 | the command that fires matches the stripped message; when none fires, no command matches the stripped message |
| Commands.Dispatch | lib/jabber/mucbot.rb:209-222 | when no command fires, there is no response |
| Commands.FirstMatchAppend | lib/jabber/mucbot.rb:121-127 | a command added later fires only on text that no earlier command matches, and changes nothing else |
| Commands.DispatchAppend | lib/jabber/mucbot.rb:121-127 | the response after `add_command` is the old response, the new callback's response, or nil, by the same rule |
| Commands.DuplicateNeverFires | lib/jabber/mucbot.rb:121-127 | a command registered twice in a row never fires through its second copy |
| Commands.FiresIgnoresPadding | lib/jabber/mucbot.rb:211 | whitespace around a message never changes which command fires |
| MucBot.Sent | lib/jabber/mucbot.rb:217 | a response is sent once, unless it is nil; the empty String is sent |
| MucBot.CallsFor | lib/jabber/mucbot.rb:209-222 | at most one callback is called, exactly when a command fires, and it gets the sender |
| MucBot.Parsed | lib/jabber/mucbot.rb:140-145 | a message reaches parse_command only when it is valid and its sender, body and addressee resource are all present |
| MucBot.Reaction | lib/jabber/mucbot.rb:138-150 | a message causes at most one send, and only when it is parsed and a command fires |
| MucBot.ReceiveCalls | lib/jabber/mucbot.rb:138-150 | a message causes at most one callback call, and only when it is parsed and a command fires |
| MucBot.OwnMessagesIgnored | lib/jabber/mucbot.rb:198 | a message under the bot's own nick sends nothing and runs no command |
| MucBot.HistoryIgnored | lib/jabber/mucbot.rb:199 | replayed history sends nothing and runs no command |
| MucBot.UnaddressedIgnored | lib/jabber/mucbot.rb:141-143 | a message whose addressee has no resource sends nothing and runs no command |
| MucBot.ValidMessageAnswered | lib/jabber/mucbot.rb:138-150 | for a parsed message, exactly the first matching command's callback runs, and its response is sent unless nil |
| MucBot.Bot.constructor | lib/jabber/mucbot.rb:52-76 | the bot starts connected, with the normalised configuration, no commands and nothing sent |
| MucBot.Bot.AddCommand | lib/jabber/mucbot.rb:121-127 | the command is appended to the registry and nothing else changes |
| MucBot.Bot.Send | lib/jabber/mucbot.rb:162-170 | one message is appended to what the room received |
| MucBot.Bot.Disconnect | lib/jabber/mucbot.rb:174-179 | when connected, "Goodbye!" is sent and the bot disconnects; otherwise nothing changes |
| MucBot.Bot.Greet | lib/jabber/mucbot.rb:186-191 | the greeting callback is called once with the joiner's nick, and its result is sent unless nil |
| MucBot.Bot.ParseCommand | lib/jabber/mucbot.rb:209-222 | the room receives the response of the first command matching the stripped message, unless nil; only that callback is called |
| MucBot.Bot.Receive | lib/jabber/mucbot.rb:138-150 | the room receives exactly the reaction to the message, and the callbacks called are exactly those the message causes |
| Scenarios.SampleNick | lib/jabber/mucbot.rb:61-62 | a configuration with nick, server, password and room keeps its nick |
| Scenarios.RandReaction | lib/jabber/mucbot.rb:110-111 | the `rand` command answers "rand" from another member |
| Scenarios.PaddedRandReaction | lib/jabber/mucbot.rb:211 | the `rand` command also answers "  rand \n" |
| Scenarios.PaddedRandFires | lib/jabber/mucbot.rb:211 | "  rand \n" fires the `rand` command |
| Scenarios.OwnRandReaction | lib/jabber/mucbot.rb:198 | the bot's own "rand" is not answered |
| Scenarios.EchoReaction | lib/jabber/mucbot.rb:84-86 | a stand-in echo command answers with its single capture as a String |
| Scenarios.EchoFires | lib/jabber/mucbot.rb:211-214 | "echo hello" fires the stand-in echo command with the capture "hello" |
| Scenarios.EchoMatches | lib/jabber/mucbot.rb:84-86 | the stand-in echo pattern captures the text after "echo" and its whitespace |
| Scenarios.RandStripped | lib/jabber/mucbot.rb:211 | "rand" is already stripped |
| Scenarios.PriorityFires | lib/jabber/mucbot.rb:210-219 | of two commands that both match "rand", the first fires |
| Scenarios.PriorityReaction | lib/jabber/mucbot.rb:210-219 | only the first registered command answers |
| Scenarios.FirstAnswers | lib/jabber/mucbot.rb:138-150 | a parsed message firing the first command without captures gets that command's answer |
| Scenarios.QuietReaction | lib/jabber/mucbot.rb:104-108 | a command whose callback returns nil sends nothing |
| Scenarios.UnmatchedReaction | lib/jabber/mucbot.rb:209-222 | text no command matches sends nothing |
| Scenarios.RandAnswered | lib/jabber/mucbot.rb:110-111 | a bot with the `rand` command sends "5" for alice's "rand" |
| Scenarios.PaddedRandAnswered | lib/jabber/mucbot.rb:211 | the same bot sends "5" for "  rand \n" |
| Scenarios.OwnRandIgnored | lib/jabber/mucbot.rb:198 | the same bot sends nothing for its own "rand" |
| Scenarios.EchoAnswered | lib/jabber/mucbot.rb:84-86 | a bot with the stand-in echo command sends "hello" for "echo hello" |
| Scenarios.FirstRegisteredWins | lib/jabber/mucbot.rb:210-219 | with /^rand$/ registered before /^ra/, only "5" is sent |
| Scenarios.QuietCommand | lib/jabber/mucbot.rb:104-108 | a nil-returning command sends nothing |
| Scenarios.UnmatchedText | lib/jabber/mucbot.rb:209-222 | unmatched text sends nothing |
| Scenarios.NewcomerGreeted | lib/jabber/mucbot.rb:181-191 | the greeting "Hello #{guy}!" sends "Hello carol!" when carol joins |
| Scenarios.NamelessGreeted | lib/jabber/mucbot.rb:186-191 | the same greeting sends "Hello !" for a join without a nick, since nil interpolates as "" |
| Scenarios.DisconnectTwice | lib/jabber/mucbot.rb:172-179 | disconnecting twice says "Goodbye!" once and leaves the bot disconnected |
| Scenarios.SpelledRoomJid | lib/jabber/mucbot.rb:135 | the pieces of the room JID spell "r@conference.y/x" |
| Scenarios.JidOnlyParts | lib/jabber/mucbot.rb:58-60 | jid "x@y" with room "r" gives room "r", server "y" and nick "x" |
| Scenarios.JidOnlyRoomJid | lib/jabber/mucbot.rb:130-135 | that configuration's room JID is "r@conference.y/x" |
| Scenarios.JidOnlyJoin | lib/jabber/mucbot.rb:130-135 | a bot built from that configuration joins as "r@conference.y/x" |

## Left out

- The XMPP client is not modelled: connecting, authenticating, the MUC
  client, joining the room, and the stanza objects. The connection is one
  boolean. A message is reduced to its type, sender resource, addressee
  resource, body and delay flag. A sent message is its body text.
- `send` wraps a String in a new `Jabber::Message`, and forwards a
  `Jabber::Message` as it is. The model sends text only, so both cases are
  the same append.
- `Jabber.debug` and the text of the debug log line are not modelled.
  Only the fact that building that line raises on a nil addressee
  resource is kept. What the raised exception then does to the client's
  callback thread is not modelled.
- Threads are not modelled. This covers the thread `parse_command` runs
  in (it is joined at once, so the order of effects is kept), and
  `Thread.stop` at the end of `join`, which blocks the caller when
  keep_alive is set.
- Registering the message and join callbacks with the XMPP library is not
  modelled. Whether a repeated `join` or `welcome` registers a second
  callback is decided by that library. The model installs each callback
  once.
- The greeting callback is passed to `Greet` per join event rather than
  stored, so "the latest welcome wins" is not stated.
- Regular expressions are total functions from the stripped text to
  optional captures. No regex engine is modelled. The scenarios write each
  pattern out as a function.
- Callbacks return a String or nil, as the documentation of `add_command`
  asks. A callback returning anything else, such as an Integer or `false`,
  is not modelled, although the bot would send it too.
- Callbacks are pure functions. Their side effects and any exception they
  raise are not modelled.
- `send` and `disconnect` after the client has gone away do not fail in
  the model.
- The configuration map is a value. The Ruby constructor mutates the
  caller's own Hash, and that aliasing is not captured.
- `sample/sample.rb` is a usage script and is not part of this model.
- There is no reconnect logic in the code to model. No exception raises a
  configuration error: a missing nick, server, password or room reads as
  nil. That value interpolates as "" in the jid and room JID and is passed
  on to the client.
- MucBot.Bot.constructor: requires the jid, when present, to be a String.
  Ruby raises NoMethodError on `split` for any other value, and that
  failed construction is not modelled.
- Commands.Dispatch: only states that no command firing means no
  response. What the response is when a command fires is stated by
  MucBot.ValidMessageAnswered and by MucBot.Bot.ParseCommand.
- RubyString.Split: models `split` with a one-character separator other
  than a space, the only kind the bot uses.
- RubyString.Strip: strips NUL, tab, line feed, vertical tab, form feed,
  carriage return and space at both ends, as current Ruby does. It does
  not strip non-ASCII whitespace.
