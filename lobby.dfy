/** The per-server lobby: an ordered Game Master queue and an ordered
    player queue (src/classes/Lobby.ts). A user waits in at most one of
    the two queues, at most once. */
module Lobbies {
  import opened Common
  import opened Seqs

  /** A snapshot of both queues. */
  datatype Queues = Queues(gameMasters: seq<User>, players: seq<User>) {
    /** Each queue is duplicate-free and no user waits in both. */
    predicate Valid() {
      NoDup(gameMasters) && NoDup(players) && Disjoint(gameMasters, players)
    }
  }

  /** The queues after `join(user)`: a user already waiting as a player
      changes nothing; otherwise the user leaves the Game Master queue and
      is appended to the player queue. */
  function Joined(q: Queues, user: User): (r: Queues)
    ensures user in r.players
    ensures q.Valid() || user !in q.players ==> user !in r.gameMasters
    ensures user in q.players ==> r == q
    ensures user !in q.players ==> |r.players| == |q.players| + 1 && r.players[|q.players|] == user
    ensures Without(r.players, user) == Without(q.players, user)
    ensures Without(r.gameMasters, user) == Without(q.gameMasters, user)
    ensures q.Valid() ==> r.Valid()
  {
    if user in q.players then
      q
    else
      var gm := Without(q.gameMasters, user);
      WithoutAppend(q.players, [user], user);
      WithoutTwice(q.gameMasters, user);
      KeepsNoDup(q.gameMasters, q.players, user);
      MoveKeepsDisjoint(q.gameMasters, q.players, user);
      Queues(gm, q.players + [user])
  }

  /** The queues after `joinGM(user)`, the mirror image of Joined. */
  function JoinedGM(q: Queues, user: User): (r: Queues)
    ensures user in r.gameMasters
    ensures q.Valid() || user !in q.gameMasters ==> user !in r.players
    ensures user in q.gameMasters ==> r == q
    ensures user !in q.gameMasters ==>
              |r.gameMasters| == |q.gameMasters| + 1 && r.gameMasters[|q.gameMasters|] == user
    ensures Without(r.players, user) == Without(q.players, user)
    ensures Without(r.gameMasters, user) == Without(q.gameMasters, user)
    ensures q.Valid() ==> r.Valid()
  {
    if user in q.gameMasters then
      q
    else
      var players := Without(q.players, user);
      WithoutAppend(q.gameMasters, [user], user);
      WithoutTwice(q.players, user);
      KeepsNoDup(q.players, q.gameMasters, user);
      MoveKeepsDisjoint(q.players, q.gameMasters, user);
      DisjointSym(Without(q.players, user), q.gameMasters + [user]);
      DisjointSym(q.gameMasters, q.players);
      Queues(q.gameMasters + [user], players)
  }

  /** The queues after `leave(user)`: the user is gone from both, everybody
      else keeps their place. */
  function Left(q: Queues, user: User): (r: Queues)
    ensures user !in r.gameMasters && user !in r.players
    ensures forall v :: v != user ==> (v in r.gameMasters <==> v in q.gameMasters) &&
                                      (v in r.players <==> v in q.players)
    ensures user !in q.gameMasters && user !in q.players ==> r == q
    ensures q.Valid() ==> forall i :: 0 <= i < |q.players| && q.players[i] == user ==>
              r.players == q.players[..i] + q.players[i + 1..]
    ensures q.Valid() ==> forall i :: 0 <= i < |q.gameMasters| && q.gameMasters[i] == user ==>
              r.gameMasters == q.gameMasters[..i] + q.gameMasters[i + 1..]
    ensures q.Valid() ==> r.Valid()
  {
    WithoutAbsentIf(q.gameMasters, user);
    WithoutAbsentIf(q.players, user);
    forall i | 0 <= i < |q.players| && q.players[i] == user
      ensures NoDup(q.players) ==> Without(q.players, user) == q.players[..i] + q.players[i + 1..]
    {
      WithoutAtIf(q.players, i);
    }
    forall i | 0 <= i < |q.gameMasters| && q.gameMasters[i] == user
      ensures NoDup(q.gameMasters) ==> Without(q.gameMasters, user) == q.gameMasters[..i] + q.gameMasters[i + 1..]
    {
      WithoutAtIf(q.gameMasters, i);
    }
    KeepsNoDup(q.gameMasters, [], user);
    KeepsNoDup(q.players, [], user);
    Queues(Without(q.gameMasters, user), Without(q.players, user))
  }

  /** The Game Master chosen from the queues with random draw `k`, and the
      queues afterwards. An empty Game Master queue yields the bot itself
      and changes nothing; otherwise the k-th waiting Game Master is chosen
      and removed from the Game Master queue. */
  function Decided(q: Queues, k: nat): (res: (User, Queues))
    requires q.gameMasters != [] ==> k < |q.gameMasters|
    ensures q.gameMasters == [] ==> res == (House, q)
    ensures q.gameMasters != [] ==> res.0 == q.gameMasters[k] && res.0 !in res.1.gameMasters
    ensures res.1.players == q.players
    ensures q.Valid() ==> res.1.Valid()
    ensures q.Valid() && q.gameMasters != [] ==>
              res.1.gameMasters == q.gameMasters[..k] + q.gameMasters[k + 1..] &&
              |res.1.gameMasters| == |q.gameMasters| - 1
  {
    if q.gameMasters == [] then
      (House, q)
    else
      var gm := q.gameMasters[k];
      KeepsNoDup(q.gameMasters, [], gm);
      WithoutAtIf(q.gameMasters, k);
      (gm, Queues(Without(q.gameMasters, gm), q.players))
  }

  /** Filtering twice is filtering once. */
  lemma WithoutTwice<T(!new)>(s: seq<T>, x: T)
    ensures Without(Without(s, x), x) == Without(s, x)
  {
    WithoutAbsent(Without(s, x), x);
  }

  /** Filtering a user out of a duplicate-free queue, and appending that
      user to another, keeps both duplicate-free. */
  lemma KeepsNoDup(from: seq<User>, to: seq<User>, user: User)
    ensures NoDup(from) ==> NoDup(Without(from, user))
    ensures NoDup(to) && user !in to ==> NoDup(to + [user])
  {
    if NoDup(from) {
      WithoutNoDup(from, user);
    }
  }

  /** Moving a user from one queue to the end of another keeps the two
      queues disjoint. */
  lemma MoveKeepsDisjoint(from: seq<User>, to: seq<User>, user: User)
    ensures Disjoint(from, to) ==> Disjoint(Without(from, user), to + [user])
  {
    if Disjoint(from, to) {
      var r := Without(from, user);
      forall i | 0 <= i < |r| ensures r[i] !in to + [user] {
        assert r[i] in from;
        var j :| 0 <= j < |from| && from[j] == r[i];
      }
    }
  }

  lemma DisjointSym(a: seq<User>, b: seq<User>)
    ensures Disjoint(a, b) ==> Disjoint(b, a)
  {
  }

  lemma WithoutAtIf(s: seq<User>, k: nat)
    requires k < |s|
    ensures NoDup(s) ==> Without(s, s[k]) == s[..k] + s[k + 1..]
  {
    if NoDup(s) {
      WithoutAt(s, k);
    }
  }

  lemma WithoutAbsentIf<T(!new)>(s: seq<T>, x: T)
    ensures x !in s ==> Without(s, x) == s
  {
    if x !in s {
      WithoutAbsent(s, x);
    }
  }

  /** Joining and then leaving is the same as just leaving: a join leaves
      no trace once the user is gone. */
  lemma JoinThenLeave(q: Queues, user: User)
    ensures Left(Joined(q, user), user) == Left(q, user)
  {
    var r := Joined(q, user);
    WithoutTwice(q.gameMasters, user);
    WithoutAppend(q.players, [user], user);
  }

  /** A user who asks to be Game Master and then joins as a player ends up
      only in the player queue, at its end. */
  lemma JoinGMThenJoin(q: Queues, user: User)
    requires q.Valid()
    ensures var r := Joined(JoinedGM(q, user), user);
      user !in r.gameMasters && r.players == Without(q.players, user) + [user]
  {
    WithoutAbsentIf(q.players, user);
  }

  /** The running lobby of one server. */
  class Lobby {
    var gameMasterQueue: seq<User>
    var playerQueue: seq<User>

    function State(): Queues
      reads this
    {
      Queues(gameMasterQueue, playerQueue)
    }

    ghost predicate Valid()
      reads this
    {
      State().Valid()
    }

    constructor()
      ensures gameMasterQueue == [] && playerQueue == []
      ensures Valid()
    {
      gameMasterQueue := [];
      playerQueue := [];
    }

    method Join(user: User)
      modifies this
      ensures State() == Joined(old(State()), user)
      ensures old(Valid()) ==> Valid()
    {
      if user in playerQueue {
        return;
      }
      if user in gameMasterQueue {
        gameMasterQueue := Without(gameMasterQueue, user);
      } else {
        WithoutAbsent(gameMasterQueue, user);
      }
      playerQueue := playerQueue + [user];
    }

    method JoinGM(user: User)
      modifies this
      ensures State() == JoinedGM(old(State()), user)
      ensures old(Valid()) ==> Valid()
    {
      if user in gameMasterQueue {
        return;
      }
      if user in playerQueue {
        playerQueue := Without(playerQueue, user);
      } else {
        WithoutAbsent(playerQueue, user);
      }
      gameMasterQueue := gameMasterQueue + [user];
    }

    method Leave(user: User)
      modifies this
      ensures State() == Left(old(State()), user)
      ensures old(Valid()) ==> Valid()
    {
      if user in playerQueue {
        playerQueue := Without(playerQueue, user);
      } else {
        WithoutAbsent(playerQueue, user);
      }
      if user in gameMasterQueue {
        gameMasterQueue := Without(gameMasterQueue, user);
      } else {
        WithoutAbsent(gameMasterQueue, user);
      }
    }

    method Clear()
      modifies this
      ensures gameMasterQueue == [] && playerQueue == []
      ensures Valid()
    {
      gameMasterQueue := [];
      playerQueue := [];
    }

    /** Choose the Game Master; `k` is the random draw
        `floor(random * gameMasterQueue.length)`. */
    method DecideGameMaster(k: nat) returns (gm: User)
      requires gameMasterQueue != [] ==> k < |gameMasterQueue|
      modifies this
      ensures (gm, State()) == Decided(old(State()), k)
      ensures old(Valid()) ==> Valid()
    {
      if |gameMasterQueue| == 0 {
        return House;
      }
      gm := gameMasterQueue[k];
      gameMasterQueue := Without(gameMasterQueue, gm);
    }

    /** The `join` command: `join gm` (exactly that first argument) queues
        the author as Game Master, anything else as a player. */
    method JoinCommand(args: seq<string>, author: User)
      modifies this
      ensures State() == if WantsGameMaster(args) then JoinedGM(old(State()), author)
                         else Joined(old(State()), author)
      ensures old(Valid()) ==> Valid()
    {
      if !WantsGameMaster(args) {
        Join(author);
      } else {
        JoinGM(author);
      }
    }
  }

  /** The first argument is exactly `gm` (arguments keep their case). */
  predicate WantsGameMaster(args: seq<string>) {
    |args| > 0 && args[0] == "gm"
  }
}
