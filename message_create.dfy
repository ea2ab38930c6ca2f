/** The `messageCreate` handler: which message runs which command with
    which arguments, and the replies for the three refusals
    (src/events/messageCreate.ts). */
module MessageCreate {
  import opened Common
  import opened Text
  import opened Commands

  /** The text after the prefix split on runs of spaces; there is always a
      first token (`args.shift()!`). */
  function Tokens(prefix: string, content: string): (t: seq<string>)
    requires StartsWith(content, prefix)
    ensures |t| >= 1
  {
    SplitRuns(content[|prefix|..])
  }

  /** The command name: the first token, lower-cased. */
  function CommandName(prefix: string, content: string): (name: string)
    requires StartsWith(content, prefix)
    ensures IsLower(name) && ' ' !in name
  {
    var first := Tokens(prefix, content)[0];
    LowerIsLower(first);
    LowerKeepsAbsent(first, ' ');
    Lower(first)
  }

  /** The arguments: the remaining tokens, case kept. */
  function Args(prefix: string, content: string): seq<string>
    requires StartsWith(content, prefix)
  {
    Tokens(prefix, content)[1..]
  }

  /** What the handler does with one message. */
  datatype Dispatch =
    | Ignored                                  // no prefix, or a bot wrote it
    | Unknown(name: string)                    // no command has this name
    | MissingArgs(name: string)                // the command needs arguments
    | ServerOnly(name: string)                 // a server command used outside a server
    | Execute(command: Command, args: seq<string>)

  /** The handler's decision. The checks run in a fixed order: prefix and
      author, then lookup by exact name, then missing arguments, then the
      server-only restriction. */
  function Decide(prefix: string, content: string, authorIsBot: bool, inGuild: bool, table: Table): (d: Dispatch)
    ensures d.Ignored? <==> !StartsWith(content, prefix) || authorIsBot
    ensures !d.Ignored? ==> var name := CommandName(prefix, content); var args := Args(prefix, content);
      (d.Unknown? <==> Get(table, name).None?) &&
      (d.Unknown? ==> d.name == name) &&
      (d.MissingArgs? <==> Get(table, name).Some? && Get(table, name).value.needsArgs && args == []) &&
      (d.ServerOnly? <==> Get(table, name).Some? && !(Get(table, name).value.needsArgs && args == []) &&
                          Get(table, name).value.guildOnly && !inGuild) &&
      (d.MissingArgs? || d.ServerOnly? ==> d.name == name) &&
      (d.Execute? ==> Get(table, name) == Some(d.command) && d.command.name == name && d.args == args &&
                      (d.command.needsArgs ==> args != []) && (d.command.guildOnly ==> inGuild))
  {
    if !StartsWith(content, prefix) || authorIsBot then Ignored
    else
      var name := CommandName(prefix, content);
      var args := Args(prefix, content);
      match Get(table, name)
      case None => Unknown(name)
      case Some(command) =>
        if command.needsArgs && args == [] then MissingArgs(name)
        else if command.guildOnly && !inGuild then ServerOnly(name)
        else Execute(command, args)
  }

  /** The reply sent for a refusal; none when the message is ignored or
      the command runs. */
  function Reply(d: Dispatch): (r: Option<string>)
    ensures r.Some? <==> d.Unknown? || d.MissingArgs? || d.ServerOnly?
  {
    match d
    case Unknown(name) => Some("Command " + name + " does not exist.")
    case MissingArgs(name) => Some("You must provide arguments for the " + name + " command.")
    case ServerOnly(name) =>
      Some(name + " is a Discord Server command only. Please use " + name + " in a server with the bot user.")
    case _ => None
  }

  /** A prefixed word without spaces is one token. */
  lemma SingleWord(prefix: string, w: string)
    requires ' ' !in w
    ensures StartsWith(prefix + w, prefix)
    ensures Tokens(prefix, prefix + w) == [w]
  {
    assert (prefix + w)[..|prefix|] == prefix;
    assert (prefix + w)[|prefix|..] == w;
  }

  /** Command names are case-insensitive: two spellings of one word that
      agree once lower-cased are dispatched alike. */
  lemma NameIgnoresCase(prefix: string, w1: string, w2: string, authorIsBot: bool, inGuild: bool, table: Table)
    requires ' ' !in w1 && ' ' !in w2 && Lower(w1) == Lower(w2)
    ensures Decide(prefix, prefix + w1, authorIsBot, inGuild, table) ==
            Decide(prefix, prefix + w2, authorIsBot, inGuild, table)
  {
    SingleWord(prefix, w1);
    SingleWord(prefix, w2);
  }

  /** Aliases are never consulted: a word that is only some command's
      alias is an unknown command. */
  lemma AliasIsUnknown(prefix: string, alias: string, table: Table, inGuild: bool)
    requires ' ' !in alias && IsLower(alias)
    requires FindByAlias(table, alias).Some?
    requires forall i :: 0 <= i < |table| ==> table[i].name != alias
    ensures Decide(prefix, prefix + alias, false, inGuild, table) == Unknown(alias)
    ensures Reply(Decide(prefix, prefix + alias, false, inGuild, table)) ==
            Some("Command " + alias + " does not exist.")
  {
    SingleWord(prefix, alias);
  }

  /** A space right after the prefix makes the command name empty. */
  lemma SpaceAfterPrefix(prefix: string, rest: string)
    ensures StartsWith(prefix + " " + rest, prefix)
    ensures CommandName(prefix, prefix + " " + rest) == ""
  {
    var content := prefix + " " + rest;
    assert content[..|prefix|] == prefix;
    var s := content[|prefix|..];
    assert s == " " + rest;
    assert s[0] == ' ';
    assert IndexOf(s, ' ') == 0;
  }

  /** A command that needs arguments and is limited to servers, sent with
      no arguments outside a server, is refused for the missing arguments:
      that check comes first. */
  lemma MissingArgsFirst(prefix: string, w: string, table: Table, c: Command)
    requires ' ' !in w && IsLower(w)
    requires Get(table, w) == Some(c) && c.needsArgs && c.guildOnly
    ensures Decide(prefix, prefix + w, false, false, table) == MissingArgs(w)
  {
    SingleWord(prefix, w);
  }

  /** Nothing but the case of the command name is lost: when the text after
      the prefix has no double spaces, the prefix, the tokens joined by
      single spaces, give the message back. */
  lemma TokensRebuild(prefix: string, content: string)
    requires StartsWith(content, prefix)
    requires SingleSpaced(content[|prefix|..])
    ensures content == prefix + Join(Tokens(prefix, content), " ")
  {
    SplitRunsJoin(content[|prefix|..]);
    assert content == content[..|prefix|] + content[|prefix|..];
  }
}
