/**
 * Whole-bot examples: a configured bot, a few commands, and the messages the
 * room receives. The regexes are written out as matching functions.
 */
module Scenarios {
  import opened Wrappers
  import opened RubyString
  import opened MucConfig
  import opened MessageFilter
  import opened Commands
  import opened MucBot

  /** nick "bot", password "p", server "s", room "r". */
  function SampleConfig(): Config {
    map[Nick := Text("bot"), Password := Text("p"), Server := Text("s"), Room := Text("r")]
  }

  /** /^rand$/ on single-line input (Ruby's anchors also match at line
      breaks inside the text). */
  function RandPattern(s: string): Option<Captures> {
    if s == "rand" then Some([]) else None
  }

  /** /^ra/ on single-line input, which also matches "rand". */
  function RaPattern(s: string): Option<Captures> {
    if |s| >= 2 && s[..2] == "ra" then Some([]) else None
  }

  /** /^echo\s+(.+)$/ on single-line input: "echo", a whitespace run, and
      the rest as the one capture. The run is the one strip removes, so it
      also takes NUL, which Ruby's \s does not. */
  function EchoPattern(s: string): Option<Captures> {
    if |s| > 4 && s[..4] == "echo" && 0 < LeadingSpaces(s[4..]) < |s| - 4
    then Some([Some(s[4 + LeadingSpaces(s[4..])..])])
    else None
  }

  function AnswerFive(sender: string, p: Params): Option<string> {
    Some("5")
  }

  function AnswerSix(sender: string, p: Params): Option<string> {
    Some("6")
  }

  function AnswerNil(sender: string, p: Params): Option<string> {
    None
  }

  function EchoParam(sender: string, p: Params): Option<string> {
    if p.Param? then Some(p.value) else None
  }

  /** /^rand$/ answering "5". */
  function Rand(): Command {
    Command(RandPattern, AnswerFive)
  }

  /** /^ra/ answering "6". */
  function Ra(): Command {
    Command(RaPattern, AnswerSix)
  }

  /** /^rand$/ answering nil. */
  function QuietRand(): Command {
    Command(RandPattern, AnswerNil)
  }

  /** /^echo\s+(.+)$/ answering its capture. */
  function Echo(): Command {
    Command(EchoPattern, EchoParam)
  }

  function GroupMessage(sender: string, body: string): Message {
    Message(Some(GroupChat), Some(sender), Some("client"), Some(body), false)
  }

  /** The sample bot's own nick, as the filter reads it. */
  lemma SampleNick()
    ensures Get(Normalized(SampleConfig()), Nick) == Text("bot")
  {
    NormalizedBuildsJid(SampleConfig());
  }

  lemma RandReaction(cfg: Config)
    requires Get(cfg, Nick) == Text("bot")
    ensures Reaction(cfg, [Rand()], GroupMessage("alice", "rand")) == ["5"]
  {
    RandStripped();
    assert Fires([Rand()], "rand") == Some(Hit(0, []));
    FirstAnswers(cfg, [Rand()], GroupMessage("alice", "rand"), "5");
  }

  lemma PaddedRandReaction(cfg: Config)
    requires Get(cfg, Nick) == Text("bot")
    ensures Reaction(cfg, [Rand()], GroupMessage("alice", "  rand \n")) == ["5"]
  {
    PaddedRandFires();
    FirstAnswers(cfg, [Rand()], GroupMessage("alice", "  rand \n"), "5");
  }

  lemma PaddedRandFires()
    ensures Fires([Rand()], "  rand \n") == Some(Hit(0, []))
  {
    StripUnique("  ", "rand", " \n");
    assert "  " + "rand" + " \n" == "  rand \n";
  }

  lemma OwnRandReaction(cfg: Config)
    requires Get(cfg, Nick) == Text("bot")
    ensures Reaction(cfg, [Rand()], GroupMessage("bot", "rand")) == []
  {
  }

  lemma EchoReaction(cfg: Config)
    requires Get(cfg, Nick) == Text("bot")
    ensures Reaction(cfg, [Echo()], GroupMessage("bob", "echo hello")) == ["hello"]
  {
    var m := GroupMessage("bob", "echo hello");
    EchoFires();
    assert Parsed(cfg, m);
    ValidMessageAnswered(cfg, [Echo()], m, Hit(0, [Some("hello")]));
    assert ParamsOf([Some("hello")]) == Param("hello");
    assert [Echo()][0].callback("bob", Param("hello")) == Some("hello");
  }

  lemma EchoFires()
    ensures Fires([Echo()], "echo hello") == Some(Hit(0, [Some("hello")]))
  {
    var s := "echo hello";
    EchoMatches();
    StripUnique([], s, []);
    assert [] + s + [] == s;
  }

  lemma EchoMatches()
    ensures Echo().regex("echo hello") == Some([Some("hello")])
  {
    var s := "echo hello";
    assert s[..4] == "echo";
    assert s[4..] == " " + "hello";
    assert LeadingSpaces("hello") == 0;
    assert LeadingSpaces(s[4..]) == 1;
    assert s[5..] == "hello";
  }

  /** "rand", stripped, is "rand". */
  lemma RandStripped()
    ensures Strip("rand") == "rand"
  {
    StripUnique([], "rand", []);
    assert [] + "rand" + [] == "rand";
  }

  lemma PriorityFires()
    ensures Fires([Rand(), Ra()], "rand") == Some(Hit(0, []))
  {
    RandStripped();
    assert Rand().regex("rand") == Some([]);
  }

  lemma PriorityReaction(cfg: Config)
    requires Get(cfg, Nick) == Text("bot")
    ensures Reaction(cfg, [Rand(), Ra()], GroupMessage("alice", "rand")) == ["5"]
  {
    PriorityFires();
    FirstAnswers(cfg, [Rand(), Ra()], GroupMessage("alice", "rand"), "5");
  }

  /** A parsed message firing the first command with no captures gets that
      command's answer. */
  lemma FirstAnswers(cfg: Config, cmds: seq<Command>, m: Message, answer: string)
    requires Get(cfg, Nick) == Text("bot")
    requires m.kind == Some(GroupChat) && m.resource.Some? && m.resource.value != "bot"
    requires m.recipient.Some? && m.body.Some? && !m.delayed
    requires Fires(cmds, m.body.value) == Some(Hit(0, []))
    requires cmds[0].callback(m.resource.value, NoParam) == Some(answer)
    ensures Reaction(cfg, cmds, m) == [answer]
  {
    assert Parsed(cfg, m);
    ValidMessageAnswered(cfg, cmds, m, Hit(0, []));
  }

  lemma QuietReaction(cfg: Config)
    requires Get(cfg, Nick) == Text("bot")
    ensures Reaction(cfg, [QuietRand()], GroupMessage("alice", "rand")) == []
  {
    var m := GroupMessage("alice", "rand");
    RandStripped();
    assert Fires([QuietRand()], "rand") == Some(Hit(0, []));
    assert Parsed(cfg, m);
    ValidMessageAnswered(cfg, [QuietRand()], m, Hit(0, []));
    assert [QuietRand()][0].callback("alice", ParamsOf([])) == None;
  }

  lemma UnmatchedReaction(cfg: Config)
    requires Get(cfg, Nick) == Text("bot")
    ensures Reaction(cfg, [QuietRand()], GroupMessage("alice", "dice")) == []
  {
    StripUnique([], "dice", []);
    assert [] + "dice" + [] == "dice";
    assert QuietRand().regex("dice") == None;
    assert Fires([QuietRand()], "dice") == None;
  }

  /** The rand command answers "5" to alice's "rand". */
  method RandAnswered() returns (sent: seq<string>)
    ensures sent == ["5"]
  {
    var bot := new Bot(SampleConfig());
    SampleNick();
    assert Get(bot.config, Nick) == Text("bot");
    bot.AddCommand(Rand().regex, Rand().callback);
    assert bot.commands == [Rand()];
    RandReaction(bot.config);
    bot.Receive(GroupMessage("alice", "rand"));
    sent := bot.outbox;
  }

  /** Whitespace around the text is stripped before matching. */
  method PaddedRandAnswered() returns (sent: seq<string>)
    ensures sent == ["5"]
  {
    var bot := new Bot(SampleConfig());
    SampleNick();
    assert Get(bot.config, Nick) == Text("bot");
    bot.AddCommand(Rand().regex, Rand().callback);
    assert bot.commands == [Rand()];
    PaddedRandReaction(bot.config);
    bot.Receive(GroupMessage("alice", "  rand \n"));
    sent := bot.outbox;
  }

  /** The bot's own "rand" is not answered. */
  method OwnRandIgnored() returns (sent: seq<string>)
    ensures sent == []
  {
    var bot := new Bot(SampleConfig());
    SampleNick();
    assert Get(bot.config, Nick) == Text("bot");
    bot.AddCommand(Rand().regex, Rand().callback);
    assert bot.commands == [Rand()];
    OwnRandReaction(bot.config);
    bot.Receive(GroupMessage("bot", "rand"));
    sent := bot.outbox;
  }

  /** The echo command sends back its single capture. */
  method EchoAnswered() returns (sent: seq<string>)
    ensures sent == ["hello"]
  {
    var bot := new Bot(SampleConfig());
    SampleNick();
    assert Get(bot.config, Nick) == Text("bot");
    bot.AddCommand(Echo().regex, Echo().callback);
    assert bot.commands == [Echo()];
    EchoReaction(bot.config);
    bot.Receive(GroupMessage("bob", "echo hello"));
    sent := bot.outbox;
  }

  /** Of two commands matching "rand", only the first registered answers. */
  method FirstRegisteredWins() returns (sent: seq<string>)
    ensures sent == ["5"]
  {
    var bot := new Bot(SampleConfig());
    SampleNick();
    assert Get(bot.config, Nick) == Text("bot");
    bot.AddCommand(Rand().regex, Rand().callback);
    bot.AddCommand(Ra().regex, Ra().callback);
    assert bot.commands == [Rand(), Ra()];
    PriorityReaction(bot.config);
    bot.Receive(GroupMessage("alice", "rand"));
    sent := bot.outbox;
  }

  /** A command whose callback returns nil sends nothing. */
  method QuietCommand() returns (sent: seq<string>)
    ensures sent == []
  {
    var bot := new Bot(SampleConfig());
    SampleNick();
    assert Get(bot.config, Nick) == Text("bot");
    bot.AddCommand(QuietRand().regex, QuietRand().callback);
    assert bot.commands == [QuietRand()];
    QuietReaction(bot.config);
    bot.Receive(GroupMessage("alice", "rand"));
    sent := bot.outbox;
  }

  /** Text matching no command sends nothing. */
  method UnmatchedText() returns (sent: seq<string>)
    ensures sent == []
  {
    var bot := new Bot(SampleConfig());
    SampleNick();
    assert Get(bot.config, Nick) == Text("bot");
    bot.AddCommand(QuietRand().regex, QuietRand().callback);
    assert bot.commands == [QuietRand()];
    UnmatchedReaction(bot.config);
    bot.Receive(GroupMessage("alice", "dice"));
    sent := bot.outbox;
  }

  /** The greeting "Hello #{guy}!": a nil nick interpolates as "". */
  function HelloGuy(guy: Option<string>): Option<string> {
    Some("Hello " + (if guy.Some? then guy.value else "") + "!")
  }

  /** A newcomer is greeted by name. */
  method NewcomerGreeted() returns (sent: seq<string>)
    ensures sent == ["Hello carol!"]
  {
    assert HelloGuy(Some("carol")) == Some("Hello " + "carol" + "!");
    assert "Hello " + "carol" + "!" == "Hello carol!";
    var bot := new Bot(SampleConfig());
    bot.Greet(HelloGuy, Some("carol"));
    sent := bot.outbox;
  }

  /** A join without a nick is still greeted, with an empty name. */
  method NamelessGreeted() returns (sent: seq<string>)
    ensures sent == ["Hello !"]
  {
    assert HelloGuy(None) == Some("Hello " + "" + "!");
    assert "Hello " + "" + "!" == "Hello !";
    var bot := new Bot(SampleConfig());
    bot.Greet(HelloGuy, None);
    sent := bot.outbox;
  }

  /** Disconnecting twice says goodbye once and leaves the bot disconnected. */
  method DisconnectTwice() returns (sent: seq<string>, connected: bool)
    ensures sent == ["Goodbye!"] && !connected
  {
    var bot := new Bot(SampleConfig());
    bot.Disconnect();
    bot.Disconnect();
    sent, connected := bot.outbox, bot.connected;
  }

  lemma JidOnlyParts()
    ensures var r := Normalized(map[Jid := Text("x@y"), Room := Text("r")]);
      Interp(r, Room) == "r" && Interp(r, Server) == "y" && Interp(r, Nick) == "x"
  {
    var cfg := map[Jid := Text("x@y"), Room := Text("r")];
    assert "x" + "@" + "y" == "x@y";
    NormalizedJidParts(cfg, "x", "y");
    assert Agree(Normalized(cfg), cfg, Room);
  }

  lemma JidOnlyRoomJid()
    ensures RoomJid(Normalized(map[Jid := Text("x@y"), Room := Text("r")])) == "r@conference.y/x"
  {
    var r := Normalized(map[Jid := Text("x@y"), Room := Text("r")]);
    JidOnlyParts();
    assert RoomJid(r) == "r" + "@conference." + "y" + "/" + "x";
    SpelledRoomJid();
  }

  lemma SpelledRoomJid()
    ensures "r" + "@conference." + "y" + "/" + "x" == "r@conference.y/x"
  {
  }

  /** A bot configured with a jid and room only joins as
      r@conference.y/x. */
  method JidOnlyJoin() returns (jid: string)
    ensures jid == "r@conference.y/x"
  {
    var bot := new Bot(map[Jid := Text("x@y"), Room := Text("r")]);
    JidOnlyRoomJid();
    jid := RoomJid(bot.config);
  }
}
