/** The bot's command records and its command table, `client.commands`:
    a map from command name to command, iterated in insertion order
    (src/interfaces/ICommand.ts, src/classes/CommandClient.ts:7). */
module Commands {
  import opened Common

  /** One command module. Absent optional fields are None; `args` and
      `guildOnly` default to false. */
  datatype Command = Command(
    name: string,
    aliases: Option<seq<string>>,
    description: string,
    needsArgs: bool,
    guildOnly: bool,
    usage: Option<string>,
    flags: Option<seq<string>>)

  /** The command table in insertion order. */
  type Table = seq<Command>

  /** Keyed by name: no name occurs twice, as in a Map keyed by name. */
  predicate Keyed(table: Table) {
    forall i, j :: 0 <= i < j < |table| ==> table[i].name != table[j].name
  }

  predicate HasAlias(c: Command, name: string) {
    c.aliases.Some? && name in c.aliases.value
  }

  /** `commands.get(name)`: the command registered under exactly `name`. */
  function Get(table: Table, name: string): (r: Option<Command>)
    ensures r.Some? ==> r.value in table && r.value.name == name
    ensures r.None? <==> forall i :: 0 <= i < |table| ==> table[i].name != name
  {
    FindFirst(table, (c: Command) => c.name == name)
  }

  /** In a keyed table the command found under a name is the one entry
      carrying it. */
  lemma GetKeyed(table: Table, i: nat)
    requires Keyed(table) && i < |table|
    ensures Get(table, table[i].name) == Some(table[i])
  {
    var r := Get(table, table[i].name);
    var j :| 0 <= j < |table| && table[j] == r.value;
  }

  /** The first command in table order listing `name` among its aliases
      (`Array.from(commands.values()).find(cmd => cmd.aliases?.includes(name))`). */
  function FindByAlias(table: Table, name: string): (r: Option<Command>)
    ensures r.Some? ==> r.value in table && HasAlias(r.value, name)
    ensures r.Some? ==> exists i :: 0 <= i < |table| && table[i] == r.value &&
                                    forall j :: 0 <= j < i ==> !HasAlias(table[j], name)
    ensures r.None? <==> forall i :: 0 <= i < |table| ==> !HasAlias(table[i], name)
  {
    FindFirst(table, (c: Command) => HasAlias(c, name))
  }
}
