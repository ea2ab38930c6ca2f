/** The `submit` command: a player stores a word pair for later games,
    either a random one (`-r`) or one typed in reply to a prompt; `-g`
    lets the bot use the pair when it is Game Master
    (src/commands/submit.ts). */
module Submit {
  import opened Common
  import opened Seqs
  import opened Text
  import opened WordSelector

  /** An argument the flag filter keeps: `-g` or `-r` in any case. */
  predicate IsFlag(arg: string) {
    Lower(arg) == "-g" || Lower(arg) == "-r"
  }

  /** The flag filter: the arguments that are `-g` or `-r` in any case,
      in their order. */
  function KeepFlags(args: seq<string>): (kept: seq<string>)
    ensures forall a :: a in kept <==> a in args && IsFlag(a)
    ensures |kept| <= |args|
  {
    if args == [] then []
    else (if IsFlag(args[0]) then [args[0]] else []) + KeepFlags(args[1..])
  }

  /** The two exact flags survive the filter. */
  lemma ExactFlagsAreKept()
    ensures IsFlag("-g") && IsFlag("-r")
  {
    assert Lower("-g") == "-g" by { LowerNoCapitals("-g"); }
    assert Lower("-r") == "-r" by { LowerNoCapitals("-r"); }
  }

  /** A chat message: its author and its text. */
  datatype Message = Message(author: User, content: string)

  /** What `submit` hands to storage. */
  datatype Submission =
    | RandomPair(pair: Option<WordPair>, allowForBotUse: bool)   // `-r`: a generated pair, no prompt
    | Typed(pair: Option<WordPair>, allowForBotUse: bool)        // the prompted reply; None while none came

  /** `execute`: filter the flags, take `-g` out (setting the bot-use
      flag), then either generate a pair for `-r` or prompt and accept the
      first valid reply by the same author. `g` supplies the random words
      and `replies` the messages that arrive after the prompt. */
  method Execute(args: seq<string>, author: User, replies: seq<Message>, g: Generator)
    returns (submission: Submission)
    ensures submission.allowForBotUse <==> "-g" in args
    ensures submission.RandomPair? <==> "-r" in args
    ensures submission.RandomPair? && submission.pair.Some? ==>
              submission.pair.value.majorityWord != submission.pair.value.minorityWord
    ensures submission.RandomPair? && submission.pair.Some? ==> DrawnPair(submission.pair.value, true, true, g)
    ensures submission.RandomPair? && NeverStalls(g) ==> submission.pair.Some?
    ensures submission.Typed? && submission.pair.Some? ==>
              WellFormed(submission.pair.value) &&
              exists m :: m in replies && m.author == author && ExtractWords(m.content) == submission.pair
    ensures submission.Typed? ==>
              submission.pair == match Await(replies, (m: Message) => m.author == author && Validate(m.content))
                                 case None => None
                                 case Some(m) => ExtractWords(m.content)
    ensures submission.Typed? && submission.pair.None? ==>
              forall m :: m in replies ==> m.author != author || !Validate(m.content)
  {
    ExactFlagsAreKept();
    var flags := KeepFlags(args);
    var allowForBotUse := false;
    if "-g" in flags {
      flags := Without(flags, "-g");
      allowForBotUse := true;
    }
    if "-r" in flags {
      var r, firstFrom, secondFrom := RandomWords(true, true, g);
      if r.Some? {
        assert DrawnFrom(r.value, true, true, g, firstFrom, secondFrom);
      }
      return RandomPair(r, allowForBotUse);
    }
    var reply := Await(replies, (m: Message) => m.author == author && Validate(m.content));
    if reply.None? {
      return Typed(None, allowForBotUse);
    }
    submission := Typed(ExtractWords(reply.value.content), allowForBotUse);
  }

  /** The filter ignores case but the flag test does not: `-G` is kept and
      still does not allow bot use. */
  lemma UpperCaseFlagIgnored()
    ensures KeepFlags(["-G"]) == ["-G"]
    ensures "-g" !in KeepFlags(["-G"])
  {
    var s := "-G";
    assert Lower(s)[0] == '-' && Lower(s)[1] == 'g';
    assert Lower(s) == "-g";
  }
}
