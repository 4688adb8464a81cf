/**
 * The command registry and the dispatch rule of MUCBot#parse_command: the
 * stripped text is tried against each command's regex in registration order,
 * and only the first that matches has its callback called.
 */
module Commands {
  import opened Wrappers
  import opened RubyString

  /** The captures of a match, in group order; a group that took no part in
      the match is nil. */
  type Captures = seq<Option<string>>

  /** A Regexp as String#match sees it: the captures on a match, nil otherwise. */
  type Regex = string -> Option<Captures>

  /** What a callback receives as its second argument: nil, one String, or
      the Array of all captures. */
  datatype Params = NoParam | Param(value: string) | ParamList(items: Captures)

  /** A command callback: (sender nick, params) to an optional response. */
  type Handler = (string, Params) -> Option<string>

  /** One entry of the @commands array. */
  datatype Command = Command(regex: Regex, callback: Handler)

  /** The command that fires: its position in the registry and its captures. */
  datatype Hit = Hit(index: nat, captures: Captures)

  /** The params a callback receives for a match: the first capture when
      there is at most one (nil when there is none), every capture otherwise. */
  function ParamsOf(caps: Captures): (p: Params)
    ensures p.ParamList? <==> |caps| >= 2
    ensures p.ParamList? ==> p.items == caps
    ensures p.Param? ==> caps == [Some(p.value)]
    ensures p.NoParam? ==> caps == [] || caps == [None]
  {
    if |caps| <= 1 then
      if caps == [] || caps[0].None? then NoParam else Param(caps[0].value)
    else ParamList(caps)
  }

  /** The captures a callback can read back out of its params. */
  function CapturesOf(p: Params): Captures {
    match p
    case NoParam => []
    case Param(v) => [Some(v)]
    case ParamList(items) => items
  }

  /** Zero captures give nil, one capture gives that capture itself (nil
      when its group did not take part), and two or more give every capture
      in group order. */
  lemma ParamsShape(caps: Captures)
    ensures |caps| == 0 ==> ParamsOf(caps) == NoParam
    ensures |caps| == 1 ==> ParamsOf(caps) == (if caps[0].Some? then Param(caps[0].value) else NoParam)
    ensures |caps| >= 2 ==> ParamsOf(caps).ParamList? && ParamsOf(caps).items == caps
  {
  }

  /** The callback loses nothing: the captures are recovered from the params,
      except that a single capture which did not participate reads back as
      no capture at all (both are nil in Ruby). */
  lemma ParamsRoundTrip(caps: Captures)
    ensures caps != [None] ==> CapturesOf(ParamsOf(caps)) == caps
    ensures caps == [None] ==> ParamsOf(caps) == ParamsOf([])
  {
  }

  /** The first command, in registration order, whose regex matches text. */
  function FirstMatch(cmds: seq<Command>, text: string): (r: Option<Hit>)
    ensures r.Some? ==>
      r.value.index < |cmds| && cmds[r.value.index].regex(text) == Some(r.value.captures) &&
      forall j :: 0 <= j < r.value.index ==> cmds[j].regex(text).None?
    ensures r.None? ==> forall j :: 0 <= j < |cmds| ==> cmds[j].regex(text).None?
  {
    if cmds == [] then None
    else match cmds[0].regex(text)
      case Some(caps) => Some(Hit(0, caps))
      case None =>
        match FirstMatch(cmds[1..], text)
        case None => None
        case Some(h) => Some(Hit(h.index + 1, h.captures))
  }

  /** The hit of parse_command on a message: the first command matching the
      stripped message. */
  function Fires(cmds: seq<Command>, message: string): (r: Option<Hit>)
    ensures r.Some? ==> r.value.index < |cmds|
    ensures r.Some? ==> cmds[r.value.index].regex(Strip(message)) == Some(r.value.captures)
    ensures r.None? ==> forall j :: 0 <= j < |cmds| ==> cmds[j].regex(Strip(message)).None?
  {
    FirstMatch(cmds, Strip(message))
  }

  /** The response parse_command obtains for a message from sender: the
      callback result of the command that fires, nil when none fires. */
  function Dispatch(cmds: seq<Command>, sender: string, message: string): (r: Option<string>)
    ensures Fires(cmds, message).None? ==> r.None?
  {
    match Fires(cmds, message)
    case None => None
    case Some(h) => cmds[h.index].callback(sender, ParamsOf(h.captures))
  }

  /** Registration order is priority order: a command appended to the
      registry only fires on text that no earlier command matches, and
      does not change what fires on any other text. */
  lemma {:induction false} FirstMatchAppend(cmds: seq<Command>, c: Command, text: string)
    ensures FirstMatch(cmds + [c], text) ==
      if FirstMatch(cmds, text).Some? then FirstMatch(cmds, text)
      else if c.regex(text).Some? then Some(Hit(|cmds|, c.regex(text).value))
      else None
  {
    var all := cmds + [c];
    if cmds != [] {
      assert all[0] == cmds[0];
      assert all[1..] == cmds[1..] + [c];
      FirstMatchAppend(cmds[1..], c, text);
    }
  }

  /** The response for a message, once a command is appended: unchanged if
      an earlier command fires, the new command's response if only it
      matches, nil otherwise. */
  lemma DispatchAppend(cmds: seq<Command>, c: Command, sender: string, message: string)
    ensures var t := Strip(message);
      Dispatch(cmds + [c], sender, message) ==
        if FirstMatch(cmds, t).Some? then Dispatch(cmds, sender, message)
        else if c.regex(t).Some? then c.callback(sender, ParamsOf(c.regex(t).value))
        else None
  {
    FirstMatchAppend(cmds, c, Strip(message));
  }

  /** A command registered twice in a row is tried twice, and its second
      copy never fires: whenever the second copy matches, the first one
      already does. */
  lemma DuplicateNeverFires(cmds: seq<Command>, c: Command, text: string)
    ensures FirstMatch(cmds + [c] + [c], text) == FirstMatch(cmds + [c], text)
  {
    FirstMatchAppend(cmds, c, text);
    FirstMatchAppend(cmds + [c], c, text);
  }

  /** Whitespace around a message never changes which command fires. */
  lemma FiresIgnoresPadding(cmds: seq<Command>, a: string, message: string, b: string)
    requires AllSpaces(a) && AllSpaces(b)
    ensures Fires(cmds, a + message + b) == Fires(cmds, message)
  {
    StripIgnoresPadding(a, message, b);
  }
}
