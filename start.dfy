/** The per-server registry of lobbies and running games, and the `start`
    and `reset` commands over it (src/commands/start.ts,
    src/commands/reset.ts, src/classes/CommandClient.ts). */
module Registries {
  import opened Common
  import opened Seqs
  import opened Lobbies
  import opened Games

  /** A Discord server, by id. */
  type Guild = nat

  /** The start rule: either the Game Master queue is non-empty and the
      users other than the chosen Game Master number more than two, or the
      player queue alone holds more than two users. It admits exactly the
      queues whose roster would have at least three players. */
  function StartAllowed(q: Queues): (ok: bool)
    ensures ok <==> PlayerCount(q) >= 3
  {
    (|q.gameMasters| > 0 && |q.gameMasters| - 1 + |q.players| > 2) || |q.players| > 2
  }

  /** What `start` did. */
  datatype StartOutcome =
    | AlreadyRunning      // the server has a game: nothing happens
    | NoLobby             // `lobbies.get(guild)!` is undefined: the command throws
    | Started             // a game was registered and the lobby cleared
    | NotEnough(count: nat) // the reply "Not enough players to start: ..."

  /** A game started from valid queues has at least three players, none of
      them a human Game Master, each once. */
  lemma StartedRosterSize(q: Queues, k: nat)
    requires q.Valid() && StartAllowed(q)
    requires q.gameMasters != [] ==> k < |q.gameMasters|
    ensures var (gm, r) := Decided(q, k);
      |Roster(r)| >= 3 && NoDup(Roster(r)) && (gm != House ==> gm !in Roster(r))
  {
    RosterFacts(q, k);
  }

  /** The bot's `lobbies` and `games` maps, keyed by server. */
  class Registry {
    var lobbies: map<Guild, Lobby>
    var games: map<Guild, Game>

    /** Every lobby keeps its queues valid. */
    ghost predicate Valid()
      reads this, lobbies.Values
    {
      forall g :: g in lobbies ==> lobbies[g].Valid()
    }

    constructor()
      ensures lobbies == map[] && games == map[]
      ensures Valid()
    {
      lobbies := map[];
      games := map[];
    }

    /** A server the bot is in gets an empty lobby (src/client.ts). */
    method OpenLobby(guild: Guild)
      modifies this
      ensures guild in lobbies && fresh(lobbies[guild])
      ensures lobbies[guild].State() == Queues([], [])
      ensures lobbies == old(lobbies)[guild := lobbies[guild]] && games == old(games)
      ensures old(Valid()) ==> Valid()
    {
      var lobby := new Lobby();
      lobbies := lobbies[guild := lobby];
    }

    /** `start` in `guild`; `k` is the random draw of the Game Master. */
    method Start(guild: Guild, k: nat) returns (outcome: StartOutcome)
      requires Valid()
      requires guild in lobbies && lobbies[guild].gameMasterQueue != [] ==>
                 k < |lobbies[guild].gameMasterQueue|
      modifies this, lobbies.Values
      ensures lobbies == old(lobbies)
      ensures Valid()
      ensures guild in old(games) ==>
                outcome == AlreadyRunning && games == old(games) && unchanged(lobbies.Values)
      ensures guild !in old(games) && guild !in lobbies ==>
                outcome == NoLobby && games == old(games) && unchanged(lobbies.Values)
      ensures guild !in old(games) && guild in lobbies && !StartAllowed(old(lobbies[guild].State())) ==>
                outcome == NotEnough(PlayerCount(old(lobbies[guild].State()))) &&
                games == old(games) && unchanged(lobbies.Values)
      ensures guild !in old(games) && guild in lobbies && StartAllowed(old(lobbies[guild].State())) ==>
                outcome == Started && guild in games && fresh(games[guild]) &&
                games == old(games)[guild := games[guild]] &&
                (games[guild].gameMaster, games[guild].allPlayers) ==
                  (Decided(old(lobbies[guild].State()), k).0, Roster(Decided(old(lobbies[guild].State()), k).1)) &&
                |games[guild].allPlayers| >= 3 && games[guild].Valid() &&
                lobbies[guild].State() == Queues([], [])
      ensures outcome.Started? ==> forall g :: g in lobbies && lobbies[g] != lobbies[guild] ==>
                                     unchanged(lobbies[g])
    {
      if guild in games {
        return AlreadyRunning;
      }
      if guild !in lobbies {
        return NoLobby;
      }
      var lobby := lobbies[guild];
      ghost var q := lobby.State();
      var gmQL := |lobby.gameMasterQueue|;
      var pQL := |lobby.playerQueue|;
      if (gmQL > 0 && gmQL - 1 + pQL > 2) || pQL > 2 {
        StartedRosterSize(q, k);
        var game := new Game(lobby, k);
        games := games[guild := game];
        lobby.Clear();
        outcome := Started;
      } else {
        outcome := NotEnough(if gmQL > 0 then gmQL - 1 + pQL else pQL);
      }
    }

    /** `reset` in `guild`: forget the server's game, if any. */
    method Reset(guild: Guild)
      modifies this
      ensures guild !in games
      ensures games == old(games) - {guild} && lobbies == old(lobbies)
    {
      games := games - {guild};
    }
  }
}
