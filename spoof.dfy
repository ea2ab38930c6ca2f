/** The `spoof` command: record a made-up finished game in a server, with
    random members, one random minority and a random winning side
    (src/commands/spoof.ts). Random draws are parameters. */
module Spoof {
  import opened Common
  import opened Seqs
  import opened WordSelector
  import opened Games

  /** What a spoof produced. */
  datatype SpoofOutcome =
    | NoWords                     // no word pair available: the command only replies
    | PoolExhausted               // the server ran out of members to draw: `random()` is undefined and the command throws
    | Spoofed(members: seq<User>, roles: map<User, Role>, winners: seq<User>)

  /** The members that may be drawn: the server's members other than the
      Game Master and, with `-w`, other than the author. */
  function Pool(guildMembers: seq<User>, gm: User, author: User, will: bool): seq<User> {
    var p := Without(guildMembers, gm);
    if will then Without(p, author) else p
  }

  /** The users of `members`, in order, holding the winning side's role. */
  function SideOf(members: seq<User>, roles: map<User, Role>, majority: bool): (w: seq<User>)
    requires forall u :: u in members ==> u in roles
    ensures forall u :: u in w ==> u in members
  {
    if members == [] then []
    else
      (if roles[members[0]] == (if majority then Majority else Minority) then [members[0]] else []) +
      SideOf(members[1..], roles, majority)
  }

  lemma {:induction false} SideOfAppend(a: seq<User>, b: seq<User>, roles: map<User, Role>, majority: bool)
    requires forall u :: u in a + b ==> u in roles
    ensures SideOf(a + b, roles, majority) == SideOf(a, roles, majority) + SideOf(b, roles, majority)
  {
    if a != [] {
      assert (a + b)[0] == a[0] && (a + b)[1..] == a[1..] + b;
      SideOfAppend(a[1..], b, roles, majority);
    } else {
      assert a + b == b;
    }
  }

  /** With one member marked Minority, the majority side is everybody
      else in order... */
  lemma {:induction false} MajoritySide(members: seq<User>, roles: map<User, Role>, m: User)
    requires forall u :: u in members ==> u in roles && (roles[u] == Minority <==> u == m)
    ensures SideOf(members, roles, true) == Without(members, m)
  {
    if members != [] {
      MajoritySide(members[1..], roles, m);
    }
  }

  /** ...and the minority side is that member alone. */
  lemma {:induction false} MinoritySide(members: seq<User>, roles: map<User, Role>, m: User)
    requires NoDup(members)
    requires forall u :: u in members ==> u in roles && (roles[u] == Minority <==> u == m)
    ensures SideOf(members, roles, false) == if m in members then [m] else []
  {
    if members != [] {
      MinoritySide(members[1..], roles, m);
      if members[0] == m {
        assert m !in members[1..];
      }
    }
  }

  /** A spoofed game assigns the roles a real game with the same players
      and minority would... */
  lemma SpoofRolesMatchGame(members: seq<User>, roles: map<User, Role>, m: User)
    requires m in members
    requires forall u :: u in roles <==> u in members
    requires forall u :: u in roles ==> (roles[u] == Minority <==> u == m)
    ensures roles == RolesOf(Without(members, m), m)
  {
    var r := RolesOf(Without(members, m), m);
    forall u | u in r ensures u in roles {
      assert u in Without(members, m) || u == m;
    }
    forall u | u in roles ensures u in r && roles[u] == r[u] {
      assert u in Without(members, m) + [m];
    }
  }

  /** ...and names the winners it would. */
  lemma SpoofWinnersMatchGame(members: seq<User>, roles: map<User, Role>, m: User, winnerMajority: bool)
    requires NoDup(members) && m in members
    requires forall u :: u in members ==> u in roles && (roles[u] == Minority <==> u == m)
    ensures SideOf(members, roles, winnerMajority) == Winners(winnerMajority, Without(members, m), m)
  {
    MajoritySide(members, roles, m);
    MinoritySide(members, roles, m);
  }

  /** Drawing one member from a duplicate-free pool keeps it
      duplicate-free and shrinks it by one. */
  lemma DrawFromPool(pool: seq<User>, member: User)
    requires NoDup(pool) && member in pool
    ensures NoDup(Without(pool, member)) && |Without(pool, member)| == |pool| - 1
  {
    WithoutNoDup(pool, member);
    WithoutLength(pool, member);
  }

  /** The pool before drawing: without the Game Master, and without the
      author too under `-w`. */
  lemma PoolFacts(guildMembers: seq<User>, gm: User, author: User, will: bool)
    requires NoDup(guildMembers)
    ensures var pool := Pool(guildMembers, gm, author, will);
      NoDup(pool) && gm !in pool && (will ==> author !in pool) &&
      forall u :: u in pool ==> u in guildMembers
  {
    WithoutNoDup(guildMembers, gm);
    WithoutNoDup(Without(guildMembers, gm), author);
  }

  /** `execute`. `args` are the command's arguments, `owner` the server
      owner, `guildMembers` the server's cached members (keyed by id, so
      without repeats), `bank`/`own` the two word-pair lookups,
      `sizeDraw` the draw `floor(random * 4)`, `pick(i)` the i-th member
      draw reduced to the pool's size, `minorityDraw` the draw
      `floor(random * members.size)` and `winnerMajority` the final coin.
      `gm` is the Game Master the spoofed game is recorded with. */
  method Execute(args: seq<string>, author: User, owner: User, guildMembers: seq<User>,
                 bank: Option<WordPair>, own: Option<WordPair>,
                 sizeDraw: nat, pick: nat -> nat, minorityDraw: nat, winnerMajority: bool)
    returns (gm: User, outcome: SpoofOutcome)
    requires NoDup(guildMembers)
    requires sizeDraw < 4 && minorityDraw < sizeDraw + 3
    ensures gm == if "-w" in args then owner else author
    ensures outcome == NoWords <==> bank.None? && own.None?
    ensures outcome == PoolExhausted <==>
              (bank.Some? || own.Some?) &&
              |Pool(guildMembers, gm, author, "-w" in args)| < sizeDraw + 3 - (if "-w" in args then 1 else 0)
    ensures outcome.Spoofed? ==>
      var members := outcome.members;
      var drawnFrom := if "-w" in args then 1 else 0;
      |members| == sizeDraw + 3 && NoDup(members) &&
      ("-w" in args ==> members[0] == author) &&
      (forall k :: drawnFrom <= k < |members| ==> members[k] in guildMembers && members[k] != gm) &&
      (forall u :: u in outcome.roles <==> u in members) &&
      (forall u :: u in outcome.roles ==> (outcome.roles[u] == Minority <==> u == members[minorityDraw])) &&
      outcome.winners == SideOf(members, outcome.roles, winnerMajority)
  {
    var flags := KeepKnownFlags(args);
    var will := "-w" in flags;
    gm := if will then owner else author;
    var words := if bank.Some? then bank else own;
    if words.None? {
      return gm, NoWords;
    }
    var selected := SelectMembers(guildMembers, gm, author, will, sizeDraw, pick);
    if selected.None? {
      return gm, PoolExhausted;
    }
    var members := selected.value;
    var roles := AssignRoles(members, minorityDraw);
    var winners := CollectWinners(members, roles, winnerMajority);
    outcome := Spoofed(members, roles, winners);
  }

  /** The members of the spoofed game: the author first under `-w`, then
      `sizeDraw + 3` users in all, drawn from the pool; None when the pool
      is too small. */
  method SelectMembers(guildMembers: seq<User>, gm: User, author: User, will: bool,
                       sizeDraw: nat, pick: nat -> nat)
    returns (selected: Option<seq<User>>)
    requires NoDup(guildMembers)
    ensures selected.None? <==> |Pool(guildMembers, gm, author, will)| < sizeDraw + 3 - (if will then 1 else 0)
    ensures selected.Some? ==>
      var members := selected.value;
      var drawnFrom := if will then 1 else 0;
      |members| == sizeDraw + 3 && NoDup(members) && (will ==> members[0] == author) &&
      forall k :: drawnFrom <= k < |members| ==> members[k] in guildMembers && members[k] != gm
  {
    var userCount := sizeDraw + 3 - (if will then 1 else 0);
    PoolFacts(guildMembers, gm, author, will);
    var pool := Without(guildMembers, gm);
    var members: seq<User> := [];
    if will {
      members := [author];
      pool := Without(pool, author);
    }
    selected := DrawMembers(pool, members, userCount, pick);
  }

  /** The draw loop: `count` times take the drawn member out of the pool
      and add it to the members; None when the pool runs dry first. */
  method DrawMembers(pool0: seq<User>, start: seq<User>, count: nat, pick: nat -> nat)
    returns (drawn: Option<seq<User>>)
    requires NoDup(pool0) && NoDup(start) && Disjoint(start, pool0)
    ensures drawn.None? <==> |pool0| < count
    ensures drawn.Some? ==>
      var members := drawn.value;
      |members| == |start| + count && members[..|start|] == start && NoDup(members) &&
      forall k :: |start| <= k < |members| ==> members[k] in pool0
  {
    var pool := pool0;
    var members := start;
    var i := 0;
    while i < count
      invariant 0 <= i <= count
      invariant |members| == |start| + i && members[..|start|] == start
      invariant NoDup(members) && NoDup(pool)
      invariant |pool| + i == |pool0|
      invariant forall u :: u in pool ==> u in pool0 && u !in members
      invariant forall k :: |start| <= k < |members| ==> members[k] in pool0
    {
      if |pool| == 0 {
        return None;
      }
      var member := pool[pick(i) % |pool|];
      DrawFromPool(pool, member);
      members := members + [member];
      pool := Without(pool, member);
      i := i + 1;
    }
    drawn := Some(members);
  }

  /** `args.filter(arg => this.flags.includes(arg))` with the command's
      one flag `-w`. */
  function KeepKnownFlags(args: seq<string>): (kept: seq<string>)
    ensures forall a :: a in kept <==> a in args && a == "-w"
  {
    if args == [] then []
    else (if args[0] == "-w" then [args[0]] else []) + KeepKnownFlags(args[1..])
  }

  /** The role loop: the member at the minority draw is Minority, every
      other member Majority. */
  method AssignRoles(members: seq<User>, minorityDraw: nat) returns (roles: map<User, Role>)
    requires NoDup(members) && minorityDraw < |members|
    ensures forall u :: u in roles <==> u in members
    ensures forall u :: u in roles ==> (roles[u] == Minority <==> u == members[minorityDraw])
  {
    roles := map[];
    var i := 0;
    while i < |members|
      invariant 0 <= i <= |members|
      invariant forall u :: u in roles <==> u in members[..i]
      invariant forall k :: 0 <= k < i ==> roles[members[k]] == if k != minorityDraw then Majority else Minority
    {
      roles := roles[members[i] := if i != minorityDraw then Majority else Minority];
      assert members[..i + 1] == members[..i] + [members[i]];
      i := i + 1;
    }
    assert members[..i] == members;
  }

  /** The winner loop: walk the roles in member order and keep those of
      the winning side. */
  method CollectWinners(members: seq<User>, roles: map<User, Role>, winnerMajority: bool)
    returns (winners: seq<User>)
    requires forall u :: u in members ==> u in roles
    ensures winners == SideOf(members, roles, winnerMajority)
  {
    winners := [];
    for k := 0 to |members|
      invariant winners == SideOf(members[..k], roles, winnerMajority)
    {
      var id := members[k];
      var role := roles[id];
      if winnerMajority && role == Majority {
        winners := winners + [id];
      }
      if !winnerMajority && role == Minority {
        winners := winners + [id];
      }
      assert members[..k + 1] == members[..k] + [id];
      SideOfAppend(members[..k], [id], roles, winnerMajority);
    }
    assert members[..|members|] == members;
  }
}
