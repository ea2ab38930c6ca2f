# wolfbot, modelled in Dafny

wolfbot is a Discord bot that runs games of *word wolf*. Players of a server
queue in a lobby, either as players or as candidates for Game Master. `start`
turns the lobby into a game. In the game, the majority shares one secret word
and a single minority player gets a related one. After the discussion, every
player votes for whom they think the minority is. A minority caught by a
strict majority of the votes may still redeem the round by guessing the
majority word.

This project models the core of the bot:

- the word-pair parser and the random pair generator (`word_selector.dfy`);
- the lobby queues (`lobby.dfy`);
- the game rules (`game.dfy`): reply filters, the Game Master's word
  choice, the roster, the minority choice, roles, the vote tally, the catch
  threshold, the redemption and the winners;
- the per-server registry with `start` and `reset` (`start.dfy`);
- the message dispatcher (`message_create.dfy`) over the command table
  (`commands.dfy`);
- `help` (`help.dfy`), `submit` (`submit.dfy`) and `spoof` (`spoof.dfy`).

Shared vocabulary lives in `common.dfy`, `seqs.dfy` and `text.dfy`:

- `Common`: `Option`, users as numeric ids with the bot itself as `House`,
  the search `FindFirst`, and `Await`, which is `awaitMessages({max: 1,
  filter})` over the messages that arrive before the deadline;
- `Seqs`: duplicate-freedom, `Array.filter(u => u !== x)` and counting;
- `Text`: the JavaScript string operations the bot relies on.

Every chat exchange is replaced by the sequence of messages that arrive while
the bot waits; the empty sequence is a timeout. Every `Math.random()` is
replaced by a draw passed in as a parameter. The generator behind
`random-word-slugs` is replaced by functions passed in (`Generator`).

`Lobby`, `Game` and `Registry` are classes, because the source updates
their fields in place. Their methods are proved against the pure functions
beside them, and those functions carry the lemmas. Where the source loops
(`CollectVotes`, the redemption poll, the help text, the spoof draws and
role assignment, the rejection loops of `RandomWords`), the model is a
method with a loop and its invariants.

Two places in `src/classes/Game.ts` do something other than what the code
around them evidently means; both are listed under "## Findings":

- The minority pick. The Game Master is shown the players numbered from 1
  (Game.ts:174-176), and the filter admits exactly 1..`players.length`
  (Game.ts:209-217). Yet the number is used as a 0-based index
  (Game.ts:221-225). Line 247 reads `this.minority!`, which assumes a
  minority always exists, and the bot's own branch (Game.ts:232) draws one
  at random.
- The bot-run redemption. The count of `Y` answers and silences is named
  `minorityWinVotes` (Game.ts:376). Yet reaching half the players gives the
  win to the majority (Game.ts:391).

For each, the as-written behaviour is modelled and its consequence proved.
The game class uses the evidently intended behaviour.

## Model

| member | source | states |
|---|---|---|
| Common.FindFirst | src/classes/Game.ts:119 | the result is the first element the filter accepts; None exactly when no element is accepted (`awaitMessages({max: 1})` is this search over the messages that arrive) |
| Seqs.Without | src/classes/Lobby.ts:22 | removing a user keeps exactly the other elements |
| Seqs.WithoutAt | src/classes/Lobby.ts:66 | in a duplicate-free queue, removing the element at position k leaves the elements before and after it, in order |
| Seqs.WithoutNoDup | src/classes/Lobby.ts:22 | filtering keeps a queue duplicate-free |
| Text.Trim | src/classes/WordSelector.ts:77 | `trim` yields a slice of the input with only white space before and after it, and no white space at either end of the slice |
| Text.SplitCount | src/classes/WordSelector.ts:74 | `split('|')` gives one piece more than there are bars |
| Text.SplitAround | src/classes/WordSelector.ts:74 | two bar-free pieces joined by a bar split back into those two pieces |
| Text.SplitRunsJoin | src/events/messageCreate.ts:9 | on text without double spaces, `split(/ +/)` is undone by `join(" ")` |
| Text.Lower | src/classes/WordSelector.ts:79 | `toLowerCase` keeps the length and lower-cases each character on its own |
| Text.Split | src/classes/WordSelector.ts:74 | `split` on one character gives at least one piece, none containing the separator |
| Text.SplitRuns | src/events/messageCreate.ts:9 | `split(/ +/)` gives at least one token, none containing a space |
| Text.StartsWith | src/classes/Game.ts:149 | `startsWith`: the string begins with the prefix |
| WordSelector.Validate | src/classes/WordSelector.ts:70-83 | a valid submission contains exactly one bar |
| WordSelector.ValidateAtBar | src/classes/WordSelector.ts:70-83 | valid iff there is exactly one bar, both trimmed sides hold 1 to 64 characters, and the sides differ ignoring case |
| WordSelector.NormalizeIsWord | src/classes/WordSelector.ts:97-98 | a trimmed, lower-cased valid side is a normalised word: trimmed, lower-case, bar-free, 1 to 64 characters |
| WordSelector.ExtractWords | src/classes/WordSelector.ts:90-104 | a pair is returned iff the input is valid, and the pair is two distinct normalised words |
| WordSelector.ExtractWordsSides | src/classes/WordSelector.ts:94-99 | the majority word is the normalised left side of the bar, the minority word the normalised right side |
| WordSelector.RoundTrip | src/classes/WordSelector.ts:90-104 | a well-formed pair written as "majority \| minority" validates and parses back to the same pair |
| WordSelector.ExtractIdempotent | src/classes/WordSelector.ts:90-104 | parsing the written-back result of a parse gives the same result |
| WordSelector.CategoriesOf | src/classes/WordSelector.ts:6-41 | the categories of a part of speech: the 17 values of `Nouns` or the 11 of `Adjectives`, in declaration order and without repeats (`speechPart === Categories.Noun ? Nouns : Adjectives` with `Object.values`, WordSelector.ts:125, 135) |
| WordSelector.PickCategory | src/classes/WordSelector.ts:135 | a category draw always selects one of the part of speech's categories |
| WordSelector.DrawCategory | src/classes/WordSelector.ts:134-136 | the category loop returns a category of the part of speech whose generator can produce more than one word; it fails only when every draw hit a one-word category |
| WordSelector.DrawDifferent | src/classes/WordSelector.ts:144-146 | the second-word loop returns a generated word different from the first; it fails only when every draw repeated the first word |
| WordSelector.RandomWords | src/classes/WordSelector.ts:111-176 | the pair's words differ and come from the generator; with matchSpeechPart both come from categories of the coin's part of speech that can produce two words, with matchCategory from the same category; otherwise from the unrestricted generator; under a generator that never stalls (NeverStalls: at least one draw allowed, no one-word constraint, no word repeated across draws) a pair always comes, so None stands only for a rejection loop using up its draws |
| Lobbies.Joined | src/classes/Lobby.ts:19-25 | after `join`, the user is at the end of the player queue and in no Game Master queue; a user already waiting as a player changes nothing; every other user keeps their place; valid queues stay valid |
| Lobbies.JoinedGM | src/classes/Lobby.ts:27-33 | the mirror image of Joined for the Game Master queue |
| Lobbies.Left | src/classes/Lobby.ts:39-47 | after `leave`, the user is in neither queue and every other user is in the queue they were in; in valid queues each queue loses exactly the user's entry, the rest in order; an absent user changes nothing; valid queues stay valid |
| Lobbies.Decided | src/classes/Lobby.ts:59-69 | with an empty Game Master queue the bot is Game Master and nothing changes; otherwise the drawn candidate is chosen and removed, the rest stay in order and the player queue is untouched |
| Lobbies.JoinThenLeave | src/classes/Lobby.ts:19-47 | joining and then leaving is the same as leaving |
| Lobbies.JoinGMThenJoin | src/classes/Lobby.ts:19-33 | asking to be Game Master and then joining leaves the user only at the end of the player queue |
| Lobbies.Lobby.constructor | src/classes/Lobby.ts:13-17 | a new lobby has two empty queues |
| Lobbies.Lobby.Join | src/classes/Lobby.ts:19-25 | the queues become Joined of the old queues, and stay valid |
| Lobbies.Lobby.JoinGM | src/classes/Lobby.ts:27-33 | the queues become JoinedGM of the old queues, and stay valid |
| Lobbies.Lobby.Leave | src/classes/Lobby.ts:39-47 | the queues become Left of the old queues, and stay valid |
| Lobbies.Lobby.Clear | src/classes/Lobby.ts:49-52 | both queues are emptied |
| Lobbies.Lobby.DecideGameMaster | src/classes/Lobby.ts:59-69 | the Game Master returned and the new queues are those of Decided |
| Lobbies.Lobby.JoinCommand | src/commands/join.ts:12-19 | a first argument of exactly `gm` queues the author as Game Master, anything else as a player |
| Games.YesNoIsExact | src/classes/Game.ts:42-44 | the Y/N filter accepts exactly the one-character texts `Y` and `N`; lower case and surrounding spaces are refused |
| Games.AcceptsWordSubmission | src/classes/Game.ts:30-35 | a reply is accepted iff its trimmed, lower-cased text is `-r`, `-ra` or `-m`, or it is a valid pair |
| Games.AcceptsYesNo | src/classes/Game.ts:42-44 | a reply is accepted iff it is exactly `Y` or exactly `N` |
| Games.AcceptsEnd | src/classes/Game.ts:51-53 | a reply is accepted iff it lower-cases to `end` |
| Games.AcceptsIndex | src/classes/Game.ts:209-217 | a reply is accepted iff it parses to a number from 1 to the player count |
| Games.EndIgnoresCaseOnly | src/classes/Game.ts:51-53 | the end filter accepts exactly the three-letter texts spelling `end` in any mix of letter case, and nothing with characters around it |
| Games.ClassifyGmReply | src/classes/Game.ts:127-154 | a reply is a bank request iff its trimmed, lower-cased text is `-m`; it asks for random words iff that text starts with `-r`, from one category iff it contains no `a` |
| Games.AcceptedReplyResolves | src/classes/Game.ts:30-35 | every reply the submission filter accepts that is not a flag parses as a pair, so the `!` after ExtractWords cannot fail |
| Games.RandomFlagShadowsPair | src/classes/Game.ts:149-150 | a valid pair whose majority word starts with `-r` is taken as a request for random words, not as a pair |
| Games.PlanWords | src/classes/Game.ts:104-161 | where the game's words come from: the house uses the stored pair or random words; silence gives random words from one category; an accepted `-r...` reply gives random words with its category flag, a typed pair gives that pair parsed, `-m` gives the banked pair, or else the first valid re-submission, or random words on silence |
| Games.ReplyPlan | src/classes/Game.ts:125-153 | for a reply that got through the filter: `-r...` gives random words of one part of speech with the category flag set exactly when the reply has no `a`; any other non-`-m` reply gives its parsed pair; `-m` gives the banked pair, or else the parse of the first valid re-submission, or random words from one category on silence; a chosen pair that is not the banked one is the parse of the reply or of a re-submission |
| Games.DrawWords | src/classes/Game.ts:124-160 | a chosen pair is used as is; a generated pair is one RandomWords can return for the plan's flags (DrawnFrom): two different words, each from the generator; with the part-of-speech flag both from categories of one part of speech, and with the category flag (`-r`, every timeout) from one category, while `-ra` may use two; under a generator that never stalls a generated plan always yields words |
| Games.RosterFacts | src/classes/Game.ts:89-93 | the roster has no repeats and holds exactly the waiting users other than a human Game Master; its size is the count that `start` checks |
| Games.Roster | src/classes/Game.ts:89-93 | the players are the Game Master queue left after the draw followed by the player queue |
| Games.PlayerCount | src/commands/start.ts:19-23 | the count `start` checks and reports: the Game Master queue minus the one chosen, plus the player queue |
| Games.Game.constructor | src/classes/Game.ts:89-98 | the Game Master and queues are those of Decided, and the players are the remaining Game Master queue followed by the player queue; valid queues give a valid game |
| Games.Game.InitializeWords | src/classes/Game.ts:104-166 | the words are the plan's chosen pair, or else a pair RandomWords can return with the part-of-speech flag and the plan's category flag (from one category after `-r` or a timeout, from one part of speech after `-ra`); under a generator that never stalls the game always has words; players, Game Master and minority are unchanged |
| Games.PickIndexAsWritten | src/classes/Game.ts:202-224 | as written: the house uses the draw; a human Game Master's answer other than `Y` selects no index; otherwise the index is an accepted number 1..n or the draw |
| Games.MinorityAsWritten | src/classes/Game.ts:221-226 | as written, a minority, when one is chosen, is one of the players |
| Games.MinorityPickOffByOne | src/classes/Game.ts:221-225 | as written, the number n picks players[n], not the player listed as n; picking the last listed player leaves no minority |
| Games.MinorityPickExample | src/classes/Game.ts:209-226 | with three players, `Y` then `3` leaves the game without a minority |
| Games.DeclineLeavesNoMinority | src/classes/Game.ts:202-206 | as written, `N` or silence to the Y/N question leaves the game without a minority |
| Games.IntendedMinority | src/classes/Game.ts:196-234 | the intended minority is always a player; after `Y` and a number n it is the player listed as n |
| Games.IntendedPickReachesEveryone | src/classes/Game.ts:221-225 | with the intended pick, every listed player can be chosen by their number |
| Games.Game.SelectMinority | src/classes/Game.ts:196-234 | the minority becomes IntendedMinority and leaves the majority, which shrinks by one; the game stays valid |
| Games.RolesOf | src/classes/Game.ts:238-247 | the role map covers the majority players and the minority, and exactly the minority is Minority |
| Games.Game.RoleMap | src/classes/Game.ts:238-247 | the loop builds RolesOf: every player of the game has a role and only the minority is Minority; None exactly when no minority was chosen (`minority!` throws) |
| Games.WinnersHoldWinningRole | src/classes/Game.ts:356-361 | the recorded winners are exactly the users whose role is the winning side |
| Games.Winners | src/classes/Game.ts:356-361 | the majority players on a majority win, otherwise the minority alone |
| Games.VoteOf | src/classes/Game.ts:306-309 | an accepted reply n votes for the player listed as n, `roster[n - 1]`; silence votes for `roster[draw]` |
| Games.Ballots | src/classes/Game.ts:298-311 | one vote per player, each for a roster member |
| Games.TallyTotal | src/classes/Game.ts:285-311 | on a roster without repeats the tallies add up to the number of voters: every vote is counted once |
| Games.TallyStep | src/classes/Game.ts:306-309 | adding one voter's vote to the tallies of the earlier voters gives the tallies including that voter |
| Games.Game.CollectVotes | src/classes/Game.ts:278-317 | every player has a tally, and each tally is the number of votes cast for that player |
| Games.Caught | src/classes/Game.ts:331 | the minority is caught iff twice its votes exceed the number of voters |
| Games.CaughtIsUnique | src/classes/Game.ts:331 | two different players cannot both be caught by the same votes |
| Games.HumanGmVerdict | src/classes/Game.ts:345-353 | with a human Game Master, the majority wins only on a catch; a caught minority wins on `Y` and loses on `N` or silence |
| Games.Endorsements | src/classes/Game.ts:379-384 | at most one endorsement per player |
| Games.AllEndorse | src/classes/Game.ts:379-384 | when every player answers `Y` or stays silent, every player is counted |
| Games.Endorses | src/classes/Game.ts:379-382 | a player's answer counts iff it is `Y` or there is none |
| Games.NoneEndorse | src/classes/Game.ts:379-384 | when every player answers `N`, nobody is counted |
| Games.CountEndorsements | src/classes/Game.ts:371-386 | the polling loop counts exactly the players who answer `Y` or stay silent |
| Games.HouseVerdictAsWritten | src/classes/Game.ts:391 | as written, a caught minority stays caught iff at least half (rounded down) of the players answer `Y` or stay silent |
| Games.HouseRedemptionInverted | src/classes/Game.ts:379-391 | as written, when every player confirms the guess, the majority wins; when at least two players all deny it, the minority wins |
| Games.IntendedHouseVerdict | src/classes/Game.ts:391 | the intended majority win needs a catch; unanimous confirmation by two or more players redeems the minority; unanimous denial keeps it caught |
| Games.IntendedVerdictMonotone | src/classes/Game.ts:379-391 | under the intended rule, more confirmations never turn a minority win into a majority win |
| Games.Game.EndGame | src/classes/Game.ts:319-401 | the verdict is the catch followed by the human Game Master's verdict or the intended house verdict over one answer per majority player; the winners are the majority players or the minority alone |
| Registries.StartAllowed | src/commands/start.ts:19-23 | the start rule admits exactly the queues whose roster has at least three players |
| Registries.StartedRosterSize | src/commands/start.ts:23-24 | a game started from valid queues has at least three players, each once, without a human Game Master |
| Registries.Registry.constructor | src/classes/CommandClient.ts:13-19 | the client starts with no lobbies and no games |
| Registries.Registry.OpenLobby | src/client.ts:19 | the server gets a new, empty lobby; nothing else changes |
| Registries.Registry.Start | src/commands/start.ts:11-34 | a running game changes nothing; a missing lobby is reported; too few players leave everything unchanged and report the count; otherwise a new game over Decided's roster is registered and the lobby is cleared |
| Registries.Registry.Reset | src/commands/reset.ts:11 | the server's game is forgotten; nothing else changes |
| Commands.Get | src/events/messageCreate.ts:12 | the command found carries exactly the name asked for; None iff no command has it |
| Commands.GetKeyed | src/client.ts:33 | in a table keyed by name, each command is found under its own name |
| Commands.FindByAlias | src/commands/help.ts:33 | the first command in table order having the alias; None iff no command has it |
| MessageCreate.Tokens | src/events/messageCreate.ts:9-10 | there is always a first token for `shift()` |
| MessageCreate.CommandName | src/events/messageCreate.ts:10 | the command name is lower-case and holds no space |
| MessageCreate.Decide | src/events/messageCreate.ts:7-27 | a message is ignored iff it lacks the prefix or comes from a bot; otherwise, in order: unknown name, missing arguments, server-only outside a server; a command runs only with its arguments present and in a server when it requires one |
| MessageCreate.Args | src/events/messageCreate.ts:9-10 | the arguments are the tokens after the command name, case kept |
| MessageCreate.Reply | src/events/messageCreate.ts:14-24 | a reply is sent exactly for the three refusals |
| MessageCreate.SingleWord | src/events/messageCreate.ts:9-10 | a prefixed word without spaces is one token |
| MessageCreate.NameIgnoresCase | src/events/messageCreate.ts:10-12 | two spellings of a command that agree once lower-cased are dispatched alike |
| MessageCreate.AliasIsUnknown | src/events/messageCreate.ts:12-15 | a word that is only an alias is an unknown command |
| MessageCreate.SpaceAfterPrefix | src/events/messageCreate.ts:9-10 | a space right after the prefix gives an empty command name |
| MessageCreate.MissingArgsFirst | src/events/messageCreate.ts:18-24 | the missing-arguments refusal comes before the server-only one |
| MessageCreate.TokensRebuild | src/events/messageCreate.ts:9 | when the text has no double spaces, prefix plus tokens joined by spaces gives the message back |
| Help.Names | src/commands/help.ts:20-22 | the names of the commands, in table order |
| Help.ListNames | src/commands/help.ts:18-22 | the loop collects exactly Names |
| Help.Listing | src/commands/help.ts:16-28 | the bare `help` reply is the three listing lines joined by newlines |
| Help.Resolve | src/commands/help.ts:31-33 | the command is named exactly by the lower-cased argument, or else has it as an alias; None iff neither exists; an exact name always wins |
| Help.NameBeatsAlias | src/commands/help.ts:33 | an exact name wins over an alias anywhere in the table |
| Help.FirstAliasWins | src/commands/help.ts:33 | without an exact name, the first command in table order with the alias is described |
| Help.Fields | src/commands/help.ts:39-44 | the help text shows the name first, then exactly the present fields, each once, in the fixed order |
| Help.FieldsUnrolled | src/commands/help.ts:39-44 | the fields are the name and the four optional pushes, in order |
| Help.UnknownNameReply | src/commands/help.ts:35-37 | an unknown name is echoed lower-cased in the refusal |
| Help.Describe | src/commands/help.ts:39-46 | the pushes build the help lines of Fields, joined by newlines |
| Help.Render | src/commands/help.ts:39-44 | one help line per field; aliases joined by ", ", flags by "," |
| Help.HelpReply | src/commands/help.ts:16-47 | the listing without arguments; the resolved command's help lines, or the refusal naming the lower-cased argument |
| Help.Execute | src/commands/help.ts:10-47 | the reply is the listing, the help text of the resolved command, or the refusal |
| Submit.KeepFlags | src/commands/submit.ts:14 | the filter keeps exactly the arguments that are `-g` or `-r` in any case |
| Submit.ExactFlagsAreKept | src/commands/submit.ts:14 | the exact flags `-g` and `-r` pass the filter |
| Submit.UpperCaseFlagIgnored | src/commands/submit.ts:14-21 | `-G` passes the filter but does not allow bot use |
| Submit.Execute | src/commands/submit.ts:12-53 | bot use iff `-g` was given; a random pair iff `-r` was given, two different words drawn from one category (`RandomWords(true, true)`), present whenever the generator never stalls; otherwise the pair is the parse of the first valid reply by the author, a well-formed pair; no pair exactly when no such reply came |
| Submit.IsFlag | src/commands/submit.ts:14 | an argument is a flag iff it lower-cases to `-g` or `-r` |
| Spoof.KeepKnownFlags | src/commands/spoof.ts:15 | only the exact `-w` flag survives the filter |
| Spoof.PoolFacts | src/commands/spoof.ts:36-41 | the pool is duplicate-free, drawn from the server's members, and excludes the Game Master, and the author under `-w` |
| Spoof.Pool | src/commands/spoof.ts:36-41 | the server's members without the Game Master, and without the author under `-w` |
| Spoof.SideOf | src/commands/spoof.ts:72-79 | the members, in order, holding the winning side's role |
| Spoof.DrawFromPool | src/commands/spoof.ts:47-51 | drawing a member shrinks the pool by one and keeps it duplicate-free |
| Spoof.DrawMembers | src/commands/spoof.ts:43-52 | the draw loop appends distinct pool members; it fails iff the pool is too small |
| Spoof.SelectMembers | src/commands/spoof.ts:34-52 | the members are the author first under `-w`, then drawn members, `sizeDraw + 3` in all, without repeats; None iff the pool is too small |
| Spoof.AssignRoles | src/commands/spoof.ts:55-63 | every member has a role and exactly the member at the minority draw is Minority |
| Spoof.CollectWinners | src/commands/spoof.ts:69-81 | the winners loop collects, in order, the members of the winning side |
| Spoof.MajoritySide | src/commands/spoof.ts:72-75 | with one Minority member, the majority side is everybody else, in order |
| Spoof.MinoritySide | src/commands/spoof.ts:77-79 | with one Minority member, the minority side is that member alone |
| Spoof.SpoofRolesMatchGame | src/commands/spoof.ts:55-63 | a spoofed role map is the one a real game with the same players and minority builds |
| Spoof.SpoofWinnersMatchGame | src/commands/spoof.ts:69-81 | spoofed winners are those a real game with the same players and minority records |
| Spoof.Execute | src/commands/spoof.ts:13-88 | Game Master is the owner under `-w`, else the author; no words iff both lookups fail; the pool runs out iff it is too small; otherwise 3 to 6 distinct members with the author first under `-w`, exactly one Minority, and the winning side's members as winners |

## Left out

- Discord I/O: direct messages, reactions, replies other than the refusals modelled, and the logging.
- The exception catch of `messageCreate.ts:26-31`. A command's `execute` is not modelled as throwing; only `start`'s `lobbies.get(...)!` (`NoLobby`), `spoof`'s exhausted pool (`PoolExhausted`) and `minority!` (`RoleMap` returning None) show where the source throws.
- Timers and deadlines. Await takes the messages that arrive before the deadline. The 10-minute discussion timer and its race with the Game Master's `end` (Game.ts:254-275) are not modelled; the filter deciding `end` is (`AcceptsEnd`).
- Concurrency. The un-awaited `.then` chains of `Run`, and the parallel prompts of the vote and the redemption poll, are modelled as running one after another in roster order. The interleavings are not modelled.
- Games.Game.SelectMinority and Games.PickIndexAsWritten: as written, the human Game Master's minority pick never completes before line 247. The callback at Game.ts:196-229 starts `createDM().then(...)` without returning it, so the `await` at Game.ts:195 resumes at once. For every game with a human Game Master, Game.ts:240-245 then sends the majority word to every player, and `this.minority!.id` at Game.ts:247 throws an unhandled rejection (`Run()` is not awaited, Game.ts:96). The sequential model runs the pick to completion first, so it does not capture this.
- Timeouts: every `awaitMessages` call is modelled as yielding None on a timeout, as the source's `.catch(error => undefined)` and `typeof msg !== 'undefined'` branches (e.g. Game.ts:202-204) assume. No call passes `errors: ['time']`, so whether the library rejects on a timeout, and these branches are taken, is not modelled.
- Lobbies.Queues.Valid: does not exclude the bot itself from the queues. The dispatcher ignores messages from bots (messageCreate.ts:7), so the bot never joins a queue, but the model does not state this.
- The database (`DBManager`): `GenerateGame`, `SetGameUsers`, `SetWinners`, `CreateSpontaneousWordPair`, and the acceptance decision of `SubmitWordPair`. The pairs it returns (`GetUserWordPair`, `QueryForWordPair`) are parameters.
- The busy set `listeningForResponses` and the game's stored `lobby` reference.
- The commands `stats`, `history`, `words`, `spectate` and `leave`: they only read the database or forward to the lobby operations above. The concrete command table is a parameter.
- `dmOnly` in the command record: the dispatcher never reads it.
- Commands.Get: a table is searched from the front, so with two commands of one name the first is found, where `client.commands.set(command.name, command)` (src/client.ts:33) keeps the last one registered. The command files give distinct names, and GetKeyed states the lookup for a keyed table.
- Text. Strings are sequences of code points, not UTF-16 units. `toLowerCase` is modelled on ASCII letters only. `parseInt` is a parameter (`parse`).
- WordSelector.RandomWords: the rejection loops run at most `fuel` draws. Running out gives None. This models no pair where the source would loop on; the source never gives up. The contract says a pair comes whenever the generator never stalls (NeverStalls); it does not say, for other generators, which loop ran out.
- WordSelector.PickCategory: the category draw is taken modulo the category count, standing for `floor(random * count)`.
- Spoof.Execute: `pick(i)` is the i-th `availablePool.random()` draw reduced to the pool's size. The unused `place` draw (spoof.ts:45) is not modelled. Server members are given as a duplicate-free sequence in cache order.
- Games.Game.SelectMinority: models the intended pick (see Findings). It requires a draw below the player count, which `start`'s three-player minimum guarantees. The as-written pick is MinorityAsWritten.
- Games.Game.EndGame: uses the intended house verdict (see Findings). The as-written verdict is HouseVerdictAsWritten.

## Findings

| source | as written | input that shows it | evidently intended | confidence | as-written member | corrected member |
|---|---|---|---|---|---|---|
| src/classes/Game.ts:202-226 | the Game Master's number n (filtered to 1..n) is used as a 0-based index, `players[n]`; an answer of `N` or no answer selects nobody | players [7, 8, 9], replies `Y` then `3`: line 225 sets the minority to `players[3]`, which is undefined, so the game has no minority; `N` likewise leaves no minority | n selects the player listed as n, `players[n - 1]`; declining or silence falls back to a random player | not executed | Games.MinorityPickOffByOne, Games.MinorityPickExample, Games.DeclineLeavesNoMinority | Games.IntendedMinority, Games.IntendedPickReachesEveryone |
| src/classes/Game.ts:379-391 | with the bot as Game Master, `Y` answers and silences count toward `minorityWinVotes`, and the majority wins when that count reaches half the players | four majority players all answer `Y` (the minority guessed right): count 4 >= 2, so the majority wins | the majority wins only when at least half the players deny the guess (`N`) | not executed | Games.HouseRedemptionInverted | Games.IntendedHouseVerdict, Games.IntendedVerdictMonotone |
