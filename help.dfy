/** The `help` command: the list of all command names, and the help text
    of one command found by name or alias (src/commands/help.ts). */
module Help {
  import opened Common
  import opened Text
  import opened Commands

  /** The command names in table order. */
  function Names(table: Table): (names: seq<string>)
    ensures |names| == |table|
    ensures forall i :: 0 <= i < |table| ==> names[i] == table[i].name
  {
    seq(|table|, i requires 0 <= i < |table| => table[i].name)
  }

  /** The lines of the reply to a bare `help`. */
  function ListingLines(prefix: string, table: Table): seq<string> {
    ["List of commands: ",
     Join(Names(table), ", "),
     "\nUse '" + prefix + "help <command name>' for help on specific commands."]
  }

  /** The command `help <arg>` describes: the command named exactly the
      lower-cased argument, else the first command having it as an alias. */
  function Resolve(table: Table, arg: string): (r: Option<Command>)
    ensures var name := Lower(arg);
      (r.Some? ==> r.value in table && (r.value.name == name || HasAlias(r.value, name))) &&
      (r.None? <==> forall i :: 0 <= i < |table| ==> table[i].name != name && !HasAlias(table[i], name)) &&
      ((exists i :: 0 <= i < |table| && table[i].name == name) ==> r.Some? && r.value.name == name)
  {
    var name := Lower(arg);
    match Get(table, name)
    case Some(c) => Some(c)
    case None => FindByAlias(table, name)
  }

  /** An exact name wins over an alias, wherever the alias sits. */
  lemma NameBeatsAlias(table: Table, arg: string, i: nat, j: nat)
    requires Keyed(table) && i < |table| && j < |table|
    requires table[i].name == Lower(arg) && HasAlias(table[j], Lower(arg))
    ensures Resolve(table, arg) == Some(table[i])
  {
    GetKeyed(table, i);
  }

  /** Without a command of that name, the first command in table order
      that has the alias is chosen. */
  lemma FirstAliasWins(table: Table, arg: string, j: nat)
    requires j < |table| && HasAlias(table[j], Lower(arg))
    requires forall i :: 0 <= i < |table| ==> table[i].name != Lower(arg)
    requires forall i :: 0 <= i < j ==> !HasAlias(table[i], Lower(arg))
    ensures Resolve(table, arg) == Some(table[j])
  {
    var r := FindByAlias(table, Lower(arg));
    var k :| 0 <= k < |table| && table[k] == r.value &&
             forall l :: 0 <= l < k ==> !HasAlias(table[l], Lower(arg));
    assert !(k < j) && !(j < k);
  }

  /** The lines of a command's help text, in their fixed order. */
  datatype Field = NameField | AliasesField | DescriptionField | UsageField | FlagsField

  function Rank(f: Field): nat {
    match f
    case NameField => 0
    case AliasesField => 1
    case DescriptionField => 2
    case UsageField => 3
    case FlagsField => 4
  }

  /** Whether the command's help shows the field: the name always; an
      alias or flag list whenever it is defined, even empty; a description
      or usage only when it is a non-empty string. */
  predicate Present(c: Command, f: Field) {
    match f
    case NameField => true
    case AliasesField => c.aliases.Some?
    case DescriptionField => c.description != ""
    case UsageField => c.usage.Some? && c.usage.value != ""
    case FlagsField => c.flags.Some?
  }

  /** Every field, in the order the help text shows them. */
  const AllFields: seq<Field> := [NameField] + ([AliasesField] + ([DescriptionField] + ([UsageField] + [FlagsField])))

  /** Ranks strictly increase along the sequence. */
  predicate Ordered(fs: seq<Field>) {
    forall i, j :: 0 <= i < j < |fs| ==> Rank(fs[i]) < Rank(fs[j])
  }

  function FieldIf(c: Command, f: Field): seq<Field> {
    if Present(c, f) then [f] else []
  }

  /** The fields of `fs` the command shows, in the order of `fs`. */
  function Shown(c: Command, fs: seq<Field>): seq<Field> {
    if fs == [] then [] else FieldIf(c, fs[0]) + Shown(c, fs[1..])
  }

  /** Shown keeps exactly the present fields. */
  lemma {:induction false} ShownMembers(c: Command, fs: seq<Field>)
    ensures forall f :: f in Shown(c, fs) <==> f in fs && Present(c, f)
  {
    if fs != [] {
      ShownMembers(c, fs[1..]);
      assert forall f :: f in fs <==> f == fs[0] || f in fs[1..];
    }
  }

  lemma ShownCons(c: Command, f: Field, fs: seq<Field>)
    ensures Shown(c, [f] + fs) == FieldIf(c, f) + Shown(c, fs)
  {
    assert ([f] + fs)[1..] == fs;
  }

  /** Keeping some fields of an ordered sequence keeps it ordered. */
  lemma {:induction false} ShownOrdered(c: Command, fs: seq<Field>)
    requires Ordered(fs)
    ensures Ordered(Shown(c, fs))
  {
    if fs != [] {
      ShownOrdered(c, fs[1..]);
      ShownMembers(c, fs[1..]);
      var r := Shown(c, fs);
      var rest := Shown(c, fs[1..]);
      if Present(c, fs[0]) {
        forall i, j | 0 <= i < j < |r| ensures Rank(r[i]) < Rank(r[j]) {
          if i == 0 {
            assert r[j] == rest[j - 1] && r[j] in fs[1..];
          } else {
            assert r[i] == rest[i - 1] && r[j] == rest[j - 1];
          }
        }
      }
    }
  }

  /** The fields a command's help shows: exactly the present ones, the
      name first, each once, in rank order. */
  function Fields(c: Command): (fs: seq<Field>)
    ensures |fs| > 0 && fs[0] == NameField
    ensures forall f :: f in fs <==> Present(c, f)
    ensures Ordered(fs)
  {
    AllFieldsComplete();
    ShownOrdered(c, AllFields);
    ShownMembers(c, AllFields);
    Shown(c, AllFields)
  }

  /** The five optional pushes of the help text, unrolled. */
  lemma FieldsUnrolled(c: Command)
    ensures Shown(c, AllFields) == [NameField] + FieldIf(c, AliasesField) + FieldIf(c, DescriptionField) +
                         FieldIf(c, UsageField) + FieldIf(c, FlagsField)
  {
    ShownCons(c, FlagsField, []);
    ShownCons(c, UsageField, [FlagsField]);
    ShownCons(c, DescriptionField, [UsageField] + [FlagsField]);
    ShownCons(c, AliasesField, [DescriptionField] + ([UsageField] + [FlagsField]));
    ShownCons(c, NameField, [AliasesField] + ([DescriptionField] + ([UsageField] + [FlagsField])));
  }

  lemma AllFieldsComplete()
    ensures forall f :: f in AllFields
  {
    forall f ensures f in AllFields {
      match f
      case NameField => assert AllFields[0] == f;
      case AliasesField => assert AllFields[1] == f;
      case DescriptionField => assert AllFields[2] == f;
      case UsageField => assert AllFields[3] == f;
      case FlagsField => assert AllFields[4] == f;
    }
  }

  /** One line of help text. Aliases are joined by ", "; the flag list is
      written as an array converts to text, joined by ",". */
  function Render(prefix: string, c: Command, f: Field): string {
    match f
    case NameField => "**Name:** " + c.name
    case AliasesField => "*Aliases:* " + (if c.aliases.Some? then Join(c.aliases.value, ", ") else "")
    case DescriptionField => "*Description:* " + c.description
    case UsageField => "*Usage:* " + prefix + c.name + " " + (if c.usage.Some? then c.usage.value else "")
    case FlagsField => "*Flags:* " + (if c.flags.Some? then Join(c.flags.value, ",") else "")
  }

  /** One line per field. */
  function RenderAll(prefix: string, c: Command, fs: seq<Field>): (lines: seq<string>)
    ensures |lines| == |fs|
    ensures forall i :: 0 <= i < |fs| ==> lines[i] == Render(prefix, c, fs[i])
  {
    seq(|fs|, i requires 0 <= i < |fs| => Render(prefix, c, fs[i]))
  }

  lemma RenderAllAppend(prefix: string, c: Command, fs: seq<Field>, more: seq<Field>)
    ensures RenderAll(prefix, c, fs + more) == RenderAll(prefix, c, fs) + RenderAll(prefix, c, more)
  {
  }

  /** The help text of one command, line by line. */
  function HelpLines(prefix: string, c: Command): seq<string> {
    RenderAll(prefix, c, Fields(c))
  }

  /** The reply to `help` with arguments `args`. */
  function HelpReply(prefix: string, table: Table, args: seq<string>): string {
    if args == [] then Join(ListingLines(prefix, table), "\n")
    else
      match Resolve(table, args[0])
      case None => "'" + Lower(args[0]) + "' is not a valid command."
      case Some(c) => Join(HelpLines(prefix, c), "\n")
  }

  /** An unknown name is echoed lower-cased in the refusal. */
  lemma UnknownNameReply(prefix: string, table: Table, args: seq<string>)
    requires args != []
    requires forall i :: 0 <= i < |table| ==> table[i].name != Lower(args[0]) && !HasAlias(table[i], Lower(args[0]))
    ensures HelpReply(prefix, table, args) == "'" + Lower(args[0]) + "' is not a valid command."
  {
  }

  /** The name of every command, collected one by one in table order. */
  method ListNames(table: Table) returns (cmds: seq<string>)
    ensures cmds == Names(table)
  {
    cmds := [];
    for i := 0 to |table|
      invariant cmds == Names(table[..i])
    {
      assert table[..i + 1][..i] == table[..i];
      cmds := cmds + [table[i].name];
    }
    assert table[..|table|] == table;
  }

  /** The reply to a bare `help`, its lines pushed one by one. */
  method Listing(prefix: string, table: Table) returns (reply: string)
    ensures reply == Join(ListingLines(prefix, table), "\n")
  {
    var data: seq<string> := [];
    data := data + ["List of commands: "];
    var cmds := ListNames(table);
    data := data + [Join(cmds, ", ")];
    data := data + ["\nUse '" + prefix + "help <command name>' for help on specific commands."];
    assert data == ListingLines(prefix, table);
    reply := Join(data, "\n");
  }

  /** Pushing a field's line when the field is present extends the
      rendered lines by that field. */
  lemma PushField(prefix: string, c: Command, data: seq<string>, shown: seq<Field>, f: Field)
    requires data == RenderAll(prefix, c, shown)
    ensures Present(c, f) ==> data + [Render(prefix, c, f)] == RenderAll(prefix, c, shown + FieldIf(c, f))
    ensures !Present(c, f) ==> data == RenderAll(prefix, c, shown + FieldIf(c, f))
  {
    RenderAllAppend(prefix, c, shown, FieldIf(c, f));
  }

  /** The help text of one command: the name line, then each present
      field's line pushed in turn. */
  method Describe(prefix: string, c: Command) returns (reply: string)
    ensures reply == Join(HelpLines(prefix, c), "\n")
  {
    var data: seq<string> := [];
    ghost var shown := [NameField];
    data := data + [Render(prefix, c, NameField)];
    assert data == RenderAll(prefix, c, shown);
    PushField(prefix, c, data, shown, AliasesField);
    if c.aliases.Some? {
      data := data + [Render(prefix, c, AliasesField)];
    }
    shown := shown + FieldIf(c, AliasesField);
    PushField(prefix, c, data, shown, DescriptionField);
    if c.description != "" {
      data := data + [Render(prefix, c, DescriptionField)];
    }
    shown := shown + FieldIf(c, DescriptionField);
    PushField(prefix, c, data, shown, UsageField);
    if c.usage.Some? && c.usage.value != "" {
      data := data + [Render(prefix, c, UsageField)];
    }
    shown := shown + FieldIf(c, UsageField);
    PushField(prefix, c, data, shown, FlagsField);
    if c.flags.Some? {
      data := data + [Render(prefix, c, FlagsField)];
    }
    shown := shown + FieldIf(c, FlagsField);
    FieldsUnrolled(c);
    reply := Join(data, "\n");
  }

  /** `execute`: the listing without arguments; otherwise the help text
      of the resolved command, or the refusal naming the lower-cased
      argument. */
  method Execute(prefix: string, table: Table, args: seq<string>) returns (reply: string)
    ensures reply == HelpReply(prefix, table, args)
  {
    if |args| == 0 {
      reply := Listing(prefix, table);
      return;
    }
    var name := Lower(args[0]);
    var found := Resolve(table, args[0]);
    if found.None? {
      return "'" + name + "' is not a valid command.";
    }
    reply := Describe(prefix, found.value);
  }
}
