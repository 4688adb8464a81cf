/**
 * The bot's configuration hash and what the constructor does to it: the
 * keep_alive default, the jid/nick/server derivation, and the room JID the
 * bot joins under.
 */
module MucConfig {
  import opened RubyString

  /** The keys the bot reads (the Ruby symbols :nick, :server, ...). */
  datatype Key = Nick | Server | Password | Room | Jid | Debug | KeepAlive

  /** A configuration value: a String, true/false, or nil. */
  datatype Value = Text(s: string) | Flag(b: bool) | Nil

  /** The configuration Hash. A key that is absent is different from a key
      bound to nil: Hash#key? tells them apart. */
  type Config = map<Key, Value>

  /** Value#to_s as string interpolation uses it. */
  function ToS(v: Value): (s: string)
    ensures v.Text? ==> s == v.s
    ensures v.Nil? ==> s == ""
    ensures v.Flag? ==> |s| >= 4
  {
    match v
    case Text(s) => s
    case Flag(b) => if b then "true" else "false"
    case Nil => ""
  }

  /** Value k of the configuration interpolated into a String: a missing
      key reads as nil and so contributes "". */
  function Interp(cfg: Config, k: Key): (s: string)
    ensures k !in cfg ==> s == ""
    ensures k in cfg && cfg[k].Text? ==> s == cfg[k].s
  {
    if k in cfg then ToS(cfg[k]) else ""
  }

  /** `config[k]` as Ruby reads it: nil when the key is absent. */
  function Get(cfg: Config, k: Key): Value {
    if k in cfg then cfg[k] else Nil
  }

  /** The jid, when present, must be a String: any other value has no
      split method and construction raises. */
  predicate JidIsText(cfg: Config) {
    Jid in cfg ==> cfg[Jid].Text?
  }

  /** Array#first and Array#last: nil on an empty array. */
  function First(parts: seq<string>): (v: Value)
    ensures v.Nil? <==> parts == []
    ensures parts != [] ==> v == Text(parts[0])
  {
    if parts == [] then Nil else Text(parts[0])
  }

  function Last(parts: seq<string>): (v: Value)
    ensures v.Nil? <==> parts == []
    ensures parts != [] ==> v == Text(parts[|parts| - 1])
  {
    if parts == [] then Nil else Text(parts[|parts| - 1])
  }

  /** Both maps agree on key k: present in both with one value, or absent from both. */
  predicate Agree(m: Config, n: Config, k: Key) {
    (k in m <==> k in n) && (k in m ==> m[k] == n[k])
  }

  /** The configuration after the constructor has normalised it. */
  function Normalized(cfg: Config): (r: Config)
    requires JidIsText(cfg)
    ensures KeepAlive in r && Jid in r && r[Jid].Text?
    ensures r[KeepAlive] == if KeepAlive in cfg then cfg[KeepAlive] else Flag(true)
    ensures Agree(r, cfg, Password) && Agree(r, cfg, Room) && Agree(r, cfg, Debug)
  {
    var c := if KeepAlive in cfg then cfg else cfg[KeepAlive := Flag(true)];
    if Jid in c then
      var parts := Split(c[Jid].s, '@');
      c[Nick := First(parts)][Server := Last(parts)]
    else
      c[Jid := Text(Interp(c, Nick) + "@" + Interp(c, Server))]
  }

  /** Without a jid, the jid is built as nick@server and nick and server are
      left as they were. */
  lemma NormalizedBuildsJid(cfg: Config)
    requires Jid !in cfg
    ensures var r := Normalized(cfg);
      r[Jid] == Text(Interp(cfg, Nick) + "@" + Interp(cfg, Server)) &&
      Agree(r, cfg, Nick) && Agree(r, cfg, Server)
  {
  }

  /** With a jid, nick and server are the first and last parts of the jid
      split at '@', and the jid itself is kept. */
  lemma NormalizedSplitsJid(cfg: Config)
    requires Jid in cfg && cfg[Jid].Text?
    ensures var r := Normalized(cfg); var parts := Split(cfg[Jid].s, '@');
      r[Jid] == cfg[Jid] && Nick in r && Server in r &&
      r[Nick] == First(parts) && r[Server] == Last(parts)
  {
  }

  /** With a jid, the jid is kept and nick and server are both set. A jid
      made of '@' characters only (the empty one included) sets both to nil. */
  lemma NormalizedJidOfAts(cfg: Config)
    requires Jid in cfg && cfg[Jid].Text?
    ensures var j := cfg[Jid].s; var r := Normalized(cfg);
      r[Jid] == cfg[Jid] && Nick in r && Server in r &&
      ((forall k :: 0 <= k < |j| ==> j[k] == '@') <==> r[Nick] == Nil && r[Server] == Nil)
  {
    SplitEmpty(cfg[Jid].s, '@');
  }

  /** With a jid holding some character other than '@', nick becomes the
      text before its first '@' (all of it when there is none). */
  lemma NormalizedNickOfJid(cfg: Config)
    requires Jid in cfg && cfg[Jid].Text?
    requires exists k :: 0 <= k < |cfg[Jid].s| && cfg[Jid].s[k] != '@'
    ensures var j := cfg[Jid].s; var r := Normalized(cfg);
      Nick in r && r[Nick].Text? &&
      var n := r[Nick].s;
      |n| <= |j| && n == j[..|n|] && '@' !in n && (|n| < |j| ==> j[|n|] == '@')
  {
    var j := cfg[Jid].s;
    SplitEmpty(j, '@');
    FirstField(j, '@');
    assert Split(j, '@')[0] == Fields(j, '@')[0];
  }

  /** With a jid that does not end in '@', server becomes the text after its
      last '@' (all of it when there is none). */
  lemma NormalizedServerOfJid(cfg: Config)
    requires Jid in cfg && cfg[Jid].Text?
    requires cfg[Jid].s != [] && cfg[Jid].s[|cfg[Jid].s| - 1] != '@'
    ensures var j := cfg[Jid].s; var r := Normalized(cfg);
      Server in r && r[Server].Text? &&
      var v := r[Server].s;
      |v| <= |j| && v == j[|j| - |v|..] && '@' !in v && (|v| < |j| ==> j[|j| - |v| - 1] == '@')
  {
    var j := cfg[Jid].s;
    SplitKeepsAll(j, '@');
    LastField(j, '@');
  }

  /** With a jid that ends in a run of '@' after some other character,
      that run is ignored: server becomes the text after the last '@'
      before it (all of that text when there is none). */
  lemma NormalizedServerOfTrailingAts(cfg: Config, t: string, a: string)
    requires Jid in cfg && cfg[Jid] == Text(t + a)
    requires t != [] && t[|t| - 1] != '@'
    requires forall k :: 0 <= k < |a| ==> a[k] == '@'
    ensures var r := Normalized(cfg);
      Server in r && r[Server].Text? &&
      var v := r[Server].s;
      |v| <= |t| && v == t[|t| - |v|..] && '@' !in v && (|v| < |t| ==> t[|t| - |v| - 1] == '@')
  {
    NormalizedSplitsJid(cfg);
    SplitLastDropsSeps(t, a, '@');
    LastField(t, '@');
  }

  /** A jid of the form nick@server (neither part holding an '@', the
      server part non-empty) splits back into exactly those parts. */
  lemma NormalizedJidParts(cfg: Config, n: string, v: string)
    requires Jid in cfg && cfg[Jid] == Text(n + "@" + v)
    requires '@' !in n && '@' !in v && v != []
    ensures Normalized(cfg)[Nick] == Text(n) && Normalized(cfg)[Server] == Text(v)
  {
    FieldsJoin([n, v], '@');
    assert Join([n, v], '@') == n + "@" + v;
    assert Split(n + "@" + v, '@') == [n, v];
  }

  /** Normalising twice is normalising once, whenever the second pass can
      recover nick and server from the jid: always when a jid was given,
      and otherwise when nick and server are '@'-free strings and the
      server is not empty. */
  lemma NormalizedIdempotent(cfg: Config)
    requires JidIsText(cfg)
    requires Jid !in cfg ==>
      Nick in cfg && cfg[Nick].Text? && '@' !in cfg[Nick].s &&
      Server in cfg && cfg[Server].Text? && '@' !in cfg[Server].s && cfg[Server].s != []
    ensures Normalized(Normalized(cfg)) == Normalized(cfg)
  {
    var r := Normalized(cfg);
    var rr := Normalized(r);
    if Jid in cfg {
      assert rr == r;
    } else {
      NormalizedJidParts(r, cfg[Nick].s, cfg[Server].s);
      assert rr == r;
    }
  }

  /** The room JID the bot joins: room@conference.server/nick. */
  function RoomJid(cfg: Config): (jid: string)
    ensures |jid| == |Interp(cfg, Room)| + |Interp(cfg, Server)| + |Interp(cfg, Nick)| + 13
    ensures jid[..|Interp(cfg, Room)|] == Interp(cfg, Room)
    ensures jid[|jid| - |Interp(cfg, Nick)|..] == Interp(cfg, Nick)
    ensures jid[|jid| - |Interp(cfg, Nick)| - 1] == '/'
  {
    Interp(cfg, Room) + "@conference." + Interp(cfg, Server) + "/" + Interp(cfg, Nick)
  }

  lemma RoomJidSpelled(room: string, server: string, nick: string)
    ensures room + "@conference." + server + "/" + nick ==
      room + ['@'] + ("conference." + server + "/" + nick)
  {
    assert "@conference." == ['@'] + "conference.";
  }

  /** Parsed back, the room JID names the room as its node (the text before
      the first '@'), provided the room holds no '@'. */
  lemma RoomJidNode(cfg: Config)
    requires '@' !in Interp(cfg, Room)
    ensures Fields(RoomJid(cfg), '@')[0] == Interp(cfg, Room)
  {
    var room := Interp(cfg, Room);
    var host := "conference." + Interp(cfg, Server) + "/" + Interp(cfg, Nick);
    RoomJidSpelled(room, Interp(cfg, Server), Interp(cfg, Nick));
    FieldsCons(room, host, '@');
  }

  /** Parsed back, the room JID names the bot's nick as its resource (the
      text after the first '/'), provided room and server hold no '/'. */
  lemma RoomJidResource(cfg: Config)
    requires '/' !in Interp(cfg, Room) && '/' !in Interp(cfg, Server)
    ensures var fs := Fields(RoomJid(cfg), '/');
      |fs| >= 2 && fs[0] == Interp(cfg, Room) + "@conference." + Interp(cfg, Server) &&
      Join(fs[1..], '/') == Interp(cfg, Nick)
  {
    var nick := Interp(cfg, Nick);
    var bare := Interp(cfg, Room) + "@conference." + Interp(cfg, Server);
    assert '/' !in "@conference.";
    assert '/' !in bare;
    assert RoomJid(cfg) == bare + ['/'] + nick;
    FieldsCons(bare, nick, '/');
    JoinFields(nick, '/');
    assert Fields(RoomJid(cfg), '/')[1..] == Fields(nick, '/');
  }

  /** A jid-only configuration: the jid "x@y" alone gets
      nick "x", server "y" and keep_alive true. */
  lemma JidOnlyExample()
    ensures var r := Normalized(map[Jid := Text("x@y")]);
      r[Nick] == Text("x") && r[Server] == Text("y") && r[KeepAlive] == Flag(true)
  {
    NormalizedJidParts(map[Jid := Text("x@y")], "x", "y");
    assert "x" + "@" + "y" == "x@y";
  }

  /** A jid ending in '@' loses its trailing empty field: "x@" gives the
      server "x", not "". */
  lemma TrailingAtExample()
    ensures var r := Normalized(map[Jid := Text("x@")]);
      r[Nick] == Text("x") && r[Server] == Text("x")
  {
    FieldsCons("x", "", '@');
    FieldsOfPlain("", '@');
    assert "x@" == "x" + ['@'] + "";
    assert Fields("x@", '@') == ["x", ""];
  }
}
