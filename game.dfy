/** One round of word wolf (src/classes/Game.ts), with every chat
    exchange replaced by the messages that arrive while the bot waits, and
    every `Math.random()` by a draw passed in. */
module Games {
  import opened Common
  import opened Seqs
  import opened Text
  import opened WordSelector
  import opened Lobbies

  datatype Role = Majority | Minority

  // ---------------------------------------------------------------- reply filters

  /** `msgFilterWordSubmission`: one of the flags `-r`, `-ra`, `-m` (after
      trim and lower-casing), or a valid word pair. */
  predicate AcceptsWordSubmission(content: string) {
    var c := Lower(Trim(content));
    c == "-r" || c == "-ra" || c == "-m" || Validate(content)
  }

  /** `msgFilterYN`: exactly `Y` or exactly `N`. */
  predicate AcceptsYesNo(content: string) {
    content == "Y" || content == "N"
  }

  /** `msgFilterEnd`: `end` in any letter case, nothing around it. */
  predicate AcceptsEnd(content: string) {
    Lower(content) == "end"
  }

  /** The numeric filters of the minority pick and of the vote: the message
      parses to a number in 1..count. `parse` stands for `parseInt`. */
  predicate AcceptsIndex(parse: string -> Option<int>, count: nat, content: string) {
    parse(content).Some? && 1 <= parse(content).value <= count
  }

  /** The Y/N filter takes the two capital letters only. */
  lemma YesNoIsExact(content: string)
    ensures AcceptsYesNo(content) ==> |content| == 1
    ensures AcceptsYesNo(content) <==> |content| == 1 && content[0] in "YN"
    ensures !AcceptsYesNo("y") && !AcceptsYesNo("n") && !AcceptsYesNo("Y ")
  {
    assert "y" != "Y" && "y" != "N";
    assert "n" != "Y" && "n" != "N";
  }

  /** The end filter ignores letter case but nothing else: it accepts
      exactly the three-letter texts spelling `end` in any mix of cases. */
  lemma EndIgnoresCaseOnly(content: string)
    ensures AcceptsEnd(content) <==>
              |content| == 3 && content[0] in "eE" && content[1] in "nN" && content[2] in "dD"
    ensures AcceptsEnd("end") && AcceptsEnd("END") && AcceptsEnd("End")
    ensures !AcceptsEnd(" end") && !AcceptsEnd("end.")
  {
    if |content| == 3 {
      assert Lower(content) == [LowerChar(content[0]), LowerChar(content[1]), LowerChar(content[2])];
    }
    assert Lower("END") == "end";
    assert Lower("End") == "end";
    assert |Lower(" end")| == 4;
  }

  // ---------------------------------------------------------------- choosing the words

  /** What the Game Master's first reply asks for. */
  datatype GmReply =
    | FromBank                        // `-m`: a pair the Game Master submitted earlier
    | Generate(matchCategory: bool)   // `-r...`: a random pair of one part of speech
    | PairGiven                       // anything else: a pair typed in the reply

  /** How `InitializeWords` reads a reply: `-m` after trim and
      lower-casing asks for the bank; any other reply whose trimmed,
      lower-cased text starts with `-r` asks for random words, from one
      category unless it contains an `a`; anything else is to be parsed
      as a pair. */
  function ClassifyGmReply(content: string): (r: GmReply)
    ensures r == FromBank <==> Lower(Trim(content)) == "-m"
    ensures r.Generate? <==> Lower(Trim(content)) != "-m" && StartsWith(Lower(Trim(content)), "-r")
    ensures r.Generate? ==> (r.matchCategory <==> 'a' !in Lower(Trim(content)))
  {
    var passed := Lower(Trim(content));
    if passed == "-m" then FromBank
    else if StartsWith(passed, "-r") then Generate('a' !in passed)
    else PairGiven
  }

  /** A reply that got through the submission filter is never a pair that
      fails to parse: the `!` on `ExtractWords` cannot fail. */
  lemma AcceptedReplyResolves(content: string)
    requires AcceptsWordSubmission(content)
    ensures ClassifyGmReply(content) == PairGiven ==> ExtractWords(content).Some?
  {
    var passed := Lower(Trim(content));
    RandomFlagsStartWithR();
    if passed != "-m" && !StartsWith(passed, "-r") {
      assert Validate(content);
    }
  }

  lemma RandomFlagsStartWithR()
    ensures StartsWith("-r", "-r") && StartsWith("-ra", "-r")
  {
    assert "-ra"[..2] == "-r";
  }

  /** A well-formed pair whose majority word starts with `-r`, written as
      "majority | minority", is accepted by the filter as a pair and then
      read as a request for random words: such a pair (`-rx | y`, say)
      never reaches ExtractWords. */
  lemma RandomFlagShadowsPair(p: WordPair)
    requires WellFormed(p) && StartsWith(p.majorityWord, "-r")
    ensures AcceptsWordSubmission(Serialize(p)) && Validate(Serialize(p))
    ensures ClassifyGmReply(Serialize(p)).Generate?
  {
    RoundTrip(p);
    SerializedIsNormal(p);
    SerializePrefix(p);
  }

  /** A written-back pair is already trimmed and lower-case. */
  lemma SerializedIsNormal(p: WordPair)
    requires WellFormed(p)
    ensures Lower(Trim(Serialize(p))) == Serialize(p)
  {
    var s := Serialize(p);
    assert s[0] == p.majorityWord[0] && s[|s| - 1] == p.minorityWord[|p.minorityWord| - 1];
    TrimOfTrimmed(s);
    LowerAppend(p.majorityWord, " | ");
    LowerAppend(p.majorityWord + " | ", p.minorityWord);
    LowerBar();
  }

  lemma SerializePrefix(p: WordPair)
    requires StartsWith(p.majorityWord, "-r")
    ensures StartsWith(Serialize(p), "-r") && Serialize(p) != "-m"
  {
    var s, w := Serialize(p), p.majorityWord;
    assert s[..|w|] == w;
    assert s[..2] == w[..2];
    assert s[1] != "-m"[1];
  }

  /** Where the game's words come from. */
  datatype WordSource = Chosen(pair: WordPair) | Generated(matchSpeechPart: bool, matchCategory: bool)

  /** The decision of `InitializeWords`. A human Game Master's replies are
      `replies`; after `-m` with nothing in the bank (`bank` is the stored
      pair, if any) the re-submission replies are `resubmissions`. With the
      bot as Game Master, `stored` is the pair the database offers for the
      players, if any. Every timeout falls back to random words from one
      category. */
  function PlanWords(gameMasterIsHouse: bool, replies: seq<string>, bank: Option<WordPair>,
                     resubmissions: seq<string>, stored: Option<WordPair>): (plan: WordSource)
    ensures gameMasterIsHouse ==>
              plan == if stored.Some? then Chosen(stored.value) else Generated(true, true)
    ensures !gameMasterIsHouse && Await(replies, AcceptsWordSubmission).None? ==>
              plan == Generated(true, true)
    ensures plan.Generated? ==> plan.matchSpeechPart
    ensures plan.Chosen? ==> WellFormed(plan.pair) || Some(plan.pair) == bank || Some(plan.pair) == stored
    ensures !gameMasterIsHouse && plan.Chosen? && Some(plan.pair) != bank ==>
              exists c :: (c in replies || c in resubmissions) && ExtractWords(c) == Some(plan.pair)
    ensures forall c :: !gameMasterIsHouse && Await(replies, AcceptsWordSubmission) == Some(c) ==>
              (ClassifyGmReply(c).Generate? ==> plan == Generated(true, ClassifyGmReply(c).matchCategory)) &&
              (ClassifyGmReply(c) == PairGiven ==> plan.Chosen? && Some(plan.pair) == ExtractWords(c)) &&
              (ClassifyGmReply(c) == FromBank && bank.Some? ==> plan == Chosen(bank.value)) &&
              (ClassifyGmReply(c) == FromBank && bank.None? && Await(resubmissions, Validate).None? ==>
                 plan == Generated(true, true)) &&
              (forall again ::
                 (ClassifyGmReply(c) == FromBank && bank.None? && Await(resubmissions, Validate) == Some(again)) ==>
                 plan.Chosen? && Some(plan.pair) == ExtractWords(again))
  {
    if gameMasterIsHouse then
      if stored.Some? then Chosen(stored.value) else Generated(true, true)
    else
      match Await(replies, AcceptsWordSubmission)
      case None => Generated(true, true)
      case Some(content) => ReplyPlan(content, bank, resubmissions)
  }

  /** The decision once the human Game Master's reply `content` got
      through the filter: random words for `-r…`, the typed pair, or for
      `-m` the banked pair, else the first valid re-submission, else
      random words from one category. */
  function ReplyPlan(content: string, bank: Option<WordPair>, resubmissions: seq<string>): (plan: WordSource)
    requires AcceptsWordSubmission(content)
    ensures plan.Generated? ==> plan.matchSpeechPart
    ensures plan.Chosen? ==> WellFormed(plan.pair) || Some(plan.pair) == bank
    ensures plan.Chosen? && Some(plan.pair) != bank ==>
              ExtractWords(content) == Some(plan.pair) ||
              exists again :: again in resubmissions && ExtractWords(again) == Some(plan.pair)
    ensures ClassifyGmReply(content).Generate? ==> plan == Generated(true, ClassifyGmReply(content).matchCategory)
    ensures ClassifyGmReply(content) == PairGiven ==> plan.Chosen? && Some(plan.pair) == ExtractWords(content)
    ensures ClassifyGmReply(content) == FromBank && bank.Some? ==> plan == Chosen(bank.value)
    ensures ClassifyGmReply(content) == FromBank && bank.None? && Await(resubmissions, Validate).None? ==>
              plan == Generated(true, true)
    ensures forall again ::
              (ClassifyGmReply(content) == FromBank && bank.None? && Await(resubmissions, Validate) == Some(again)) ==>
              plan.Chosen? && Some(plan.pair) == ExtractWords(again)
  {
    AcceptedReplyResolves(content);
    match ClassifyGmReply(content)
    case FromBank =>
      if bank.Some? then Chosen(bank.value)
      else (
        match Await(resubmissions, Validate)
        case None => Generated(true, true)
        case Some(again) => Chosen(ExtractWords(again).value))
    case Generate(matchCategory) => Generated(true, matchCategory)
    case PairGiven => Chosen(ExtractWords(content).value)
  }

  /** The words a plan yields: the chosen pair, or a random pair drawn
      from `g` with the plan's flags (None when the generator gives up).
      `firstFrom` and `secondFrom` are the constraints the generated words
      were drawn under. */
  method DrawWords(plan: WordSource, g: Generator)
    returns (w: Option<WordPair>, firstFrom: Constraint, secondFrom: Constraint)
    ensures plan.Chosen? ==> w == Some(plan.pair)
    ensures plan.Generated? && w.Some? ==> w.value.majorityWord != w.value.minorityWord
    ensures plan.Generated? && w.Some? ==>
              DrawnFrom(w.value, plan.matchSpeechPart, plan.matchCategory, g, firstFrom, secondFrom)
    ensures plan.Generated? && plan.matchSpeechPart && w.Some? ==>
              firstFrom.InCategory? && secondFrom.InCategory? && firstFrom.speech == secondFrom.speech
    ensures plan.Generated? && plan.matchSpeechPart && plan.matchCategory ==> firstFrom == secondFrom
    ensures plan.Generated? && NeverStalls(g) ==> w.Some?
    ensures plan.Generated? && w.Some? ==> DrawnPair(w.value, plan.matchSpeechPart, plan.matchCategory, g)
  {
    firstFrom, secondFrom := AnyWord, AnyWord;
    match plan
    case Chosen(pair) =>
      w := Some(pair);
    case Generated(matchSpeechPart, matchCategory) =>
      w, firstFrom, secondFrom := RandomWords(matchSpeechPart, matchCategory, g);
      if w.Some? {
        assert DrawnFrom(w.value, matchSpeechPart, matchCategory, g, firstFrom, secondFrom);
      }
  }

  // ---------------------------------------------------------------- roster

  /** Everyone who plays: the Game Master queue (after the Game Master was
      taken out of it) followed by the player queue. */
  function Roster(q: Queues): seq<User> {
    q.gameMasters + q.players
  }

  /** The count `start` compares with 2: the Game Master queue minus the
      one who becomes Game Master, plus the player queue. */
  function PlayerCount(q: Queues): nat {
    if |q.gameMasters| > 0 then |q.gameMasters| - 1 + |q.players| else |q.players|
  }

  /** The roster built from valid queues has no repeats, holds exactly the
      waiting users other than a human Game Master, and has PlayerCount
      members. */
  lemma RosterFacts(q: Queues, k: nat)
    requires q.Valid()
    requires q.gameMasters != [] ==> k < |q.gameMasters|
    ensures var (gm, r) := Decided(q, k);
      NoDup(Roster(r)) &&
      |Roster(r)| == PlayerCount(q) &&
      (q.gameMasters != [] ==> gm !in Roster(r)) &&
      forall u :: u in Roster(r) <==> (u in q.gameMasters || u in q.players) && (q.gameMasters == [] || u != gm)
  {
    var (gm, r) := Decided(q, k);
    ConcatNoDup(r.gameMasters, r.players);
    if q.gameMasters != [] {
      NoDupSplit(q.gameMasters, k);
      assert gm !in r.players by {
        assert gm == q.gameMasters[k];
      }
    }
  }

  // ---------------------------------------------------------------- the minority

  /** The minority index a round settles on, as written: the bot as Game
      Master draws one (`draw`); a human Game Master is first asked Y/N,
      and anything but `Y` (including silence) selects nobody; after `Y`,
      an accepted number is used directly as the index, and silence falls
      back to the draw. */
  function PickIndexAsWritten(human: bool, count: nat, choice: seq<string>, picks: seq<string>,
                              parse: string -> Option<int>, draw: nat): (idx: Option<int>)
    ensures !human ==> idx == Some(draw)
    ensures human && Await(choice, AcceptsYesNo) != Some("Y") ==> idx == None
    ensures idx.Some? && idx.value != draw ==> 1 <= idx.value <= count
  {
    if !human then Some(draw)
    else if Await(choice, AcceptsYesNo) != Some("Y") then None
    else
      match Await(picks, c => AcceptsIndex(parse, count, c))
      case Some(c) => Some(parse(c).value)
      case None => Some(draw)
  }

  /** The minority, as written: the player at the index, or nobody when
      there is no index or it lies past the end (`players[i]` is then
      `undefined`). */
  function MinorityAsWritten(human: bool, players: seq<User>, choice: seq<string>, picks: seq<string>,
                             parse: string -> Option<int>, draw: nat): (m: Option<User>)
    ensures m.Some? ==> m.value in players
  {
    match PickIndexAsWritten(human, |players|, choice, picks, parse, draw)
    case None => None
    case Some(i) => if 0 <= i < |players| then Some(players[i]) else None
  }

  /** The Game Master's number n names the player listed as n (lists start
      at 1) but selects players[n]: the first listed player can never be
      picked, and picking the last one leaves the game without a minority. */
  lemma MinorityPickOffByOne(players: seq<User>, choice: seq<string>, picks: seq<string>,
                             parse: string -> Option<int>, draw: nat, n: int)
    requires Await(choice, AcceptsYesNo) == Some("Y")
    requires Await(picks, c => AcceptsIndex(parse, |players|, c)).Some?
    requires parse(Await(picks, c => AcceptsIndex(parse, |players|, c)).value) == Some(n)
    ensures 1 <= n <= |players|
    ensures n < |players| ==> MinorityAsWritten(true, players, choice, picks, parse, draw) == Some(players[n])
    ensures n == |players| ==> MinorityAsWritten(true, players, choice, picks, parse, draw) == None
  {
  }

  /** A concrete round showing it: three players, the Game Master answers
      `Y` and then `3`; nobody becomes the minority. */
  lemma MinorityPickExample()
    ensures MinorityAsWritten(true, [7, 8, 9], ["Y"], ["3"],
                              s => if s == "3" then Some(3) else None, 0) == None
  {
    var parse: string -> Option<int> := s => if s == "3" then Some(3) else None;
    assert AcceptsYesNo("Y");
    assert AcceptsIndex(parse, 3, "3");
  }

  /** Declining (`N`) or not answering the Y/N question leaves the game
      without a minority. */
  lemma DeclineLeavesNoMinority(players: seq<User>, choice: seq<string>, picks: seq<string>,
                                parse: string -> Option<int>, draw: nat)
    requires Await(choice, AcceptsYesNo) != Some("Y")
    ensures MinorityAsWritten(true, players, choice, picks, parse, draw) == None
  {
  }

  /** The minority as evidently intended: the Game Master's number n names
      the player listed as n, and when the Game Master declines, does not
      answer, or gives no number, the draw decides, as it does for the bot. */
  function IntendedMinority(human: bool, players: seq<User>, choice: seq<string>, picks: seq<string>,
                            parse: string -> Option<int>, draw: nat): (m: User)
    requires draw < |players|
    ensures m in players
    ensures human && Await(choice, AcceptsYesNo) == Some("Y") &&
            Await(picks, c => AcceptsIndex(parse, |players|, c)).Some? ==>
              var n := parse(Await(picks, c => AcceptsIndex(parse, |players|, c)).value).value;
              1 <= n <= |players| && m == players[n - 1]
  {
    if human && Await(choice, AcceptsYesNo) == Some("Y") then
      match Await(picks, c => AcceptsIndex(parse, |players|, c))
      case Some(c) => players[parse(c).value - 1]
      case None => players[draw]
    else players[draw]
  }

  /** With the intended pick every listed player can be chosen by the
      number shown next to them. */
  lemma IntendedPickReachesEveryone(players: seq<User>, choice: seq<string>, picks: seq<string>,
                                    parse: string -> Option<int>, draw: nat, n: int)
    requires draw < |players|
    requires 1 <= n <= |players|
    requires Await(choice, AcceptsYesNo) == Some("Y")
    requires picks != [] && parse(picks[0]) == Some(n)
    ensures IntendedMinority(true, players, choice, picks, parse, draw) == players[n - 1]
  {
    assert AcceptsIndex(parse, |players|, picks[0]);
  }

  // ---------------------------------------------------------------- roles and winners

  /** The role map of a round: every majority player is Majority, the
      minority is Minority. */
  function RolesOf(players: seq<User>, minority: User): (roles: map<User, Role>)
    ensures roles.Keys == (set u | u in players) + {minority}
    ensures forall u :: u in roles ==> (roles[u] == Minority <==> u == minority)
  {
    map u | u in players + [minority] :: if u == minority then Minority else Majority
  }

  /** The users `SetWinners` records: the majority players when the
      majority wins, otherwise the minority alone. */
  function Winners(majorityWin: bool, players: seq<User>, minority: User): (w: seq<User>)
    ensures majorityWin ==> w == players
    ensures !majorityWin ==> w == [minority]
  {
    if majorityWin then players else [minority]
  }

  /** The winners are exactly the users whose role is the winning side. */
  lemma WinnersHoldWinningRole(majorityWin: bool, players: seq<User>, minority: User)
    requires minority !in players
    ensures var roles := RolesOf(players, minority);
      forall u :: u in Winners(majorityWin, players, minority) <==>
        u in roles && roles[u] == (if majorityWin then Majority else Minority)
  {
  }

  // ---------------------------------------------------------------- votes

  /** Whom one voter's messages vote for: the first message naming a
      number 1..n votes for the player listed under it; silence votes for
      the player at the voter's draw. */
  function VoteOf(roster: seq<User>, messages: seq<string>, parse: string -> Option<int>,
                  draw: nat): (u: User)
    requires draw < |roster|
    ensures u in roster
    ensures forall reply :: Await(messages, c => AcceptsIndex(parse, |roster|, c)) == Some(reply) ==>
              1 <= parse(reply).value <= |roster| && u == roster[parse(reply).value - 1]
    ensures Await(messages, c => AcceptsIndex(parse, |roster|, c)).None? ==> u == roster[draw]
  {
    match Await(messages, c => AcceptsIndex(parse, |roster|, c))
    case Some(c) => roster[parse(c).value - 1]
    case None => roster[draw]
  }

  /** Well-formed voting inputs: one message list and one draw per player,
      each draw an index of the roster. */
  predicate VoteInputs(roster: seq<User>, ballots: seq<seq<string>>, draws: seq<nat>) {
    |ballots| == |roster| && |draws| == |roster| &&
    forall i :: 0 <= i < |draws| ==> draws[i] < |roster|
  }

  /** The ballot of each voter, in roster order. */
  function Ballots(roster: seq<User>, ballots: seq<seq<string>>, parse: string -> Option<int>,
                   draws: seq<nat>): (b: seq<User>)
    requires VoteInputs(roster, ballots, draws)
    ensures |b| == |roster|
    ensures forall i :: 0 <= i < |b| ==> b[i] in roster
  {
    seq(|roster|, i requires 0 <= i < |roster| => VoteOf(roster, ballots[i], parse, draws[i]))
  }

  /** The votes recorded against each roster member summed over the roster. */
  function SumCounts(roster: seq<User>, b: seq<User>): nat {
    if roster == [] then 0 else Count(b, roster[0]) + SumCounts(roster[1..], b)
  }

  lemma {:induction false} SumCountsSnoc(roster: seq<User>, b: seq<User>, x: User)
    ensures SumCounts(roster, b + [x]) == SumCounts(roster, b) + Count(roster, x)
  {
    if roster != [] {
      CountAppend(b, [x], roster[0]);
      SumCountsSnoc(roster[1..], b, x);
    }
  }

  /** On a roster without repeats, every ballot cast for a roster member
      is counted exactly once: the tallies add up to the number of
      ballots. */
  lemma {:induction false} TallyTotal(roster: seq<User>, b: seq<User>)
    requires NoDup(roster)
    requires forall i :: 0 <= i < |b| ==> b[i] in roster
    ensures SumCounts(roster, b) == |b|
  {
    if b == [] {
      SumCountsEmpty(roster);
    } else {
      var init, x := b[..|b| - 1], b[|b| - 1];
      assert b == init + [x];
      TallyTotal(roster, init);
      SumCountsSnoc(roster, init, x);
      CountNoDup(roster, x);
    }
  }

  lemma {:induction false} SumCountsEmpty(roster: seq<User>)
    ensures SumCounts(roster, []) == 0
  {
    if roster != [] {
      SumCountsEmpty(roster[1..]);
    }
  }

  /** Adding ballot v to tallies of the first v ballots gives the
      tallies of the first v + 1. */
  lemma TallyStep(before: map<User, nat>, after: map<User, nat>, b: seq<User>, v: nat, voted: User)
    requires v < |b| && voted == b[v] && voted in before
    requires forall u :: u in before ==> before[u] == Count(b[..v], u)
    requires after == before[voted := before[voted] + 1]
    ensures forall u :: u in after ==> after[u] == Count(b[..v + 1], u)
  {
    assert b[..v + 1] == b[..v] + [b[v]];
    forall u | u in after ensures after[u] == Count(b[..v + 1], u) {
      CountAppend(b[..v], [b[v]], u);
    }
  }

  /** `votes.get(minority) > floor(allPlayers.length / 2)`: the minority
      is caught by a strict majority of the voters. */
  function Caught(minorityVotes: nat, voters: nat): (caught: bool)
    ensures caught <==> 2 * minorityVotes > voters
  {
    minorityVotes > voters / 2
  }

  /** At most one player can be caught: two different players cannot both
      hold a strict majority of the same ballots. */
  lemma CaughtIsUnique(b: seq<User>, u: User, w: User)
    requires u != w
    ensures !(Caught(Count(b, u), |b|) && Caught(Count(b, w), |b|))
  {
    CountTwo(b, u, w);
  }

  // ---------------------------------------------------------------- redemption

  /** With a human Game Master a caught minority is asked to guess the
      majority word, and the Game Master's first Y/N reply decides: `Y`
      hands the win to the minority; `N` or silence keeps it with the
      majority. An uncaught minority wins outright. */
  function HumanGmVerdict(caught: bool, gmReplies: seq<string>): (majorityWin: bool)
    ensures majorityWin ==> caught
    ensures caught && Await(gmReplies, AcceptsYesNo) == Some("Y") ==> !majorityWin
    ensures caught && Await(gmReplies, AcceptsYesNo) != Some("Y") ==> majorityWin
  {
    if caught then
      var r := Await(gmReplies, AcceptsYesNo);
      r.None? || r.value != "Y"
    else false
  }

  /** One player's answer in the bot-run redemption: a `Y` or silence. */
  predicate Endorses(messages: seq<string>) {
    var r := Await(messages, AcceptsYesNo);
    r.None? || r.value == "Y"
  }

  /** How many players answer `Y` or stay silent. */
  function Endorsements(replies: seq<seq<string>>): (n: nat)
    ensures n <= |replies|
  {
    if replies == [] then 0
    else Endorsements(replies[..|replies| - 1]) + (if Endorses(replies[|replies| - 1]) then 1 else 0)
  }

  /** When every player answers `Y`, every player is counted. */
  lemma {:induction false} AllEndorse(replies: seq<seq<string>>)
    requires forall i :: 0 <= i < |replies| ==> Endorses(replies[i])
    ensures Endorsements(replies) == |replies|
  {
    if replies != [] {
      AllEndorse(replies[..|replies| - 1]);
    }
  }

  /** When every player answers `N`, nobody is counted. */
  lemma {:induction false} NoneEndorse(replies: seq<seq<string>>)
    requires forall i :: 0 <= i < |replies| ==> !Endorses(replies[i])
    ensures Endorsements(replies) == 0
  {
    if replies != [] {
      NoneEndorse(replies[..|replies| - 1]);
    }
  }

  /** The redemption count of `EndGame` with the bot as Game Master: each
      player is asked in turn and `minorityWinVotes` grows on `Y` or
      silence. */
  method CountEndorsements(replies: seq<seq<string>>) returns (count: nat)
    ensures count == Endorsements(replies)
  {
    count := 0;
    var i := 0;
    while i < |replies|
      invariant 0 <= i <= |replies|
      invariant count == Endorsements(replies[..i])
    {
      assert replies[..i + 1][..i] == replies[..i];
      if Endorses(replies[i]) {
        count := count + 1;
      }
      i := i + 1;
    }
    assert replies[..|replies|] == replies;
  }

  /** The bot-run verdict as written: a caught minority stays caught when
      at least `floor(players.length / 2)` players answer `Y` or stay
      silent. */
  function HouseVerdictAsWritten(caught: bool, endorsements: nat, players: nat): (majorityWin: bool)
    ensures majorityWin <==> caught && 2 * endorsements >= players - players % 2
  {
    caught && endorsements >= players / 2
  }

  /** The `Y` answers work against the minority: when every player
      confirms the minority guessed the majority word, the majority wins;
      when every one of at least two players denies it, the minority wins. */
  lemma HouseRedemptionInverted(replies: seq<seq<string>>)
    ensures (forall i :: 0 <= i < |replies| ==> Endorses(replies[i]) && Await(replies[i], AcceptsYesNo) == Some("Y")) ==>
              HouseVerdictAsWritten(true, Endorsements(replies), |replies|)
    ensures |replies| >= 2 && (forall i :: 0 <= i < |replies| ==> Await(replies[i], AcceptsYesNo) == Some("N")) ==>
              !HouseVerdictAsWritten(true, Endorsements(replies), |replies|)
  {
    if forall i :: 0 <= i < |replies| ==> Endorses(replies[i]) && Await(replies[i], AcceptsYesNo) == Some("Y") {
      AllEndorse(replies);
    }
    if forall i :: 0 <= i < |replies| ==> Await(replies[i], AcceptsYesNo) == Some("N") {
      forall i | 0 <= i < |replies| ensures !Endorses(replies[i]) {
        assert Await(replies[i], AcceptsYesNo).value == "N";
      }
      NoneEndorse(replies);
    }
  }

  /** The bot-run verdict as evidently intended: a caught minority stays
      caught only when at least `floor(players.length / 2)` players deny
      the guess, that is, answer `N` (every other player answered `Y` or
      stayed silent). */
  function IntendedHouseVerdict(caught: bool, endorsements: nat, players: nat): (majorityWin: bool)
    ensures majorityWin ==> caught
    ensures endorsements >= players && players >= 2 ==> !majorityWin
    ensures caught && endorsements == 0 ==> majorityWin
  {
    caught && players - endorsements >= players / 2
  }

  /** More `Y` answers never turn a minority win back into a majority win. */
  lemma IntendedVerdictMonotone(caught: bool, fewer: nat, more: nat, players: nat)
    requires fewer <= more
    ensures IntendedHouseVerdict(caught, more, players) ==> IntendedHouseVerdict(caught, fewer, players)
  {
  }

  // ---------------------------------------------------------------- a round

  /** One game, from the moment `start` builds it. */
  class Game {
    var gameMaster: User
    /** All players before the minority is chosen; the majority after. */
    var players: seq<User>
    /** All players for the whole game. */
    var allPlayers: seq<User>
    var words: Option<WordPair>
    var minority: Option<User>

    /** Nobody plays twice, a human Game Master does not play, and the
        majority is everybody but the minority. */
    ghost predicate Valid()
      reads this
    {
      NoDup(allPlayers) &&
      (gameMaster != House ==> gameMaster !in allPlayers) &&
      match minority
      case None => players == allPlayers
      case Some(m) => m in allPlayers && players == Without(allPlayers, m)
    }

    /** `new Game(lobby)`: decide the Game Master with draw `k`, then take
        the rest of the Game Master queue followed by the player queue as
        the players. */
    constructor(lobby: Lobby, k: nat)
      requires lobby.gameMasterQueue != [] ==> k < |lobby.gameMasterQueue|
      modifies lobby
      ensures (gameMaster, lobby.State()) == Decided(old(lobby.State()), k)
      ensures players == allPlayers == Roster(lobby.State())
      ensures words == None && minority == None
      ensures old(lobby.Valid()) ==> Valid() && lobby.Valid()
    {
      ghost var q := lobby.State();
      var gm := lobby.DecideGameMaster(k);
      if q.Valid() {
        RosterFacts(q, k);
      }
      gameMaster := gm;
      players := lobby.gameMasterQueue + lobby.playerQueue;
      allPlayers := players;
      words := None;
      minority := None;
    }

    /** `InitializeWords`: fix the words as PlanWords decides, drawing them
        from `g` when random words are asked for. */
    method InitializeWords(replies: seq<string>, bank: Option<WordPair>, resubmissions: seq<string>,
                           stored: Option<WordPair>, g: Generator)
      modifies this
      ensures words.Some? ==> words.value.majorityWord != words.value.minorityWord ||
                              Some(words.value) == bank || Some(words.value) == stored
      ensures PlanWords(gameMaster == House, replies, bank, resubmissions, stored).Chosen? ==>
                words == Some(PlanWords(gameMaster == House, replies, bank, resubmissions, stored).pair)
      ensures PlanWords(gameMaster == House, replies, bank, resubmissions, stored).Generated? && words.Some? ==>
                DrawnPair(words.value, true,
                          PlanWords(gameMaster == House, replies, bank, resubmissions, stored).matchCategory, g)
      ensures NeverStalls(g) ==> words.Some?
      ensures gameMaster == old(gameMaster) && players == old(players) &&
              allPlayers == old(allPlayers) && minority == old(minority)
    {
      var plan := PlanWords(gameMaster == House, replies, bank, resubmissions, stored);
      var w, firstFrom, secondFrom := DrawWords(plan, g);
      assert w.Some? ==> w.value.majorityWord != w.value.minorityWord ||
                         Some(w.value) == bank || Some(w.value) == stored;
      words := w;
    }

    /** The minority selection of `Run`, as evidently intended (see
        IntendedMinority). A human Game Master answers Y/N (`choice`) and
        then a number (`picks`); `draw` is the random index
        `floor(random * players.length)`. */
    method SelectMinority(choice: seq<string>, picks: seq<string>, parse: string -> Option<int>, draw: nat)
      requires Valid() && minority == None
      requires draw < |players|
      modifies this
      ensures minority == Some(IntendedMinority(gameMaster != House, old(players), choice, picks, parse, draw))
      ensures players == Without(old(players), minority.value)
      ensures |players| == |old(players)| - 1
      ensures gameMaster == old(gameMaster) && allPlayers == old(allPlayers) && words == old(words)
      ensures Valid()
    {
      var idx := draw;
      if gameMaster != House {
        var answer := Await(choice, AcceptsYesNo);
        if answer.Some? && answer.value == "Y" {
          var count := |players|;
          var response := Await(picks, c => AcceptsIndex(parse, count, c));
          if response.Some? {
            idx := parse(response.value).value - 1;
          }
        }
      }
      var m := players[idx];
      WithoutLength(players, m);
      minority := Some(m);
      players := Without(players, m);
    }

    /** `userIdToRoles` as `Run` builds it: every majority player first,
        then the minority; None where `this.minority!.id` throws because
        no minority was chosen. */
    method RoleMap() returns (roles: Option<map<User, Role>>)
      requires Valid()
      ensures roles.Some? <==> minority.Some?
      ensures roles.Some? ==> forall u :: u in roles.value <==> u in allPlayers
      ensures roles.Some? ==> forall u :: u in roles.value ==> (roles.value[u] == Minority <==> u == minority.value)
      ensures roles.Some? ==> roles.value == RolesOf(players, minority.value)
    {
      var m: map<User, Role> := map[];
      var i := 0;
      while i < |players|
        invariant 0 <= i <= |players|
        invariant m.Keys == set j | 0 <= j < i :: players[j]
        invariant forall u :: u in m ==> m[u] == Majority
      {
        m := m[players[i] := Majority];
        i := i + 1;
      }
      if minority.None? {
        return None;
      }
      var mi := minority.value;
      m := m[mi := Minority];
      assert m.Keys == (set u | u in players) + {mi};
      assert forall u :: u in m ==> (m[u] == Minority <==> u == mi);
      return Some(m);
    }

    /** `CollectVotes`: every player starts at 0 and each voter's ballot
        adds one vote. `ballots[i]` are voter i's messages and `draws[i]`
        the random vote cast when voter i stays silent. */
    method CollectVotes(ballots: seq<seq<string>>, parse: string -> Option<int>, draws: seq<nat>)
      returns (votes: map<User, nat>)
      requires VoteInputs(allPlayers, ballots, draws)
      ensures forall u :: u in votes <==> u in allPlayers
      ensures forall u :: u in votes ==> votes[u] == Count(Ballots(allPlayers, ballots, parse, draws), u)
    {
      var roster := allPlayers;
      votes := map[];
      var i := 0;
      while i < |roster|
        invariant 0 <= i <= |roster|
        invariant forall u :: u in votes <==> u in roster[..i]
        invariant forall u :: u in votes ==> votes[u] == 0
      {
        assert roster[..i + 1] == roster[..i] + [roster[i]];
        votes := votes[roster[i] := 0];
        i := i + 1;
      }
      assert roster[..i] == roster;
      ghost var b := Ballots(roster, ballots, parse, draws);
      var v := 0;
      while v < |roster|
        invariant 0 <= v <= |roster|
        invariant forall u :: u in votes <==> u in roster
        invariant forall u :: u in votes ==> votes[u] == Count(b[..v], u)
      {
        var voted := VoteOf(roster, ballots[v], parse, draws[v]);
        assert voted == b[v];
        ghost var before := votes;
        votes := votes[voted := votes[voted] + 1];
        TallyStep(before, votes, b, v, voted);
        v := v + 1;
      }
      assert b[..|roster|] == b;
    }

    /** `EndGame`: tally the votes, decide whether the minority is caught,
        run the redemption (the Game Master's reply `gmReplies`, or each
        majority player's `playerReplies` with the bot as Game Master, read
        as IntendedHouseVerdict evidently means) and name the winners. */
    method EndGame(ballots: seq<seq<string>>, parse: string -> Option<int>, draws: seq<nat>,
                   gmReplies: seq<string>, playerReplies: seq<seq<string>>)
      returns (majorityWin: bool, winners: seq<User>)
      requires Valid() && minority.Some?
      requires VoteInputs(allPlayers, ballots, draws)
      requires gameMaster == House ==> |playerReplies| == |players|
      ensures var caught := Caught(Count(Ballots(allPlayers, ballots, parse, draws), minority.value), |allPlayers|);
        majorityWin == if gameMaster != House then HumanGmVerdict(caught, gmReplies)
                       else IntendedHouseVerdict(caught, Endorsements(playerReplies), |players|)
      ensures winners == Winners(majorityWin, players, minority.value)
    {
      var votes := CollectVotes(ballots, parse, draws);
      var m := minority.value;
      majorityWin := votes[m] > |allPlayers| / 2;
      if gameMaster != House {
        if majorityWin {
          var r := Await(gmReplies, AcceptsYesNo);
          majorityWin := r.None? || r.value != "Y";
        }
      } else if majorityWin {
        var count := CountEndorsements(playerReplies);
        majorityWin := |players| - count >= |players| / 2;
      }
      winners := if majorityWin then players else [m];
    }
  }
}
