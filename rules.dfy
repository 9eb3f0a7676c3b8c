/** The rules of the team table, stated on values: who may tag whom, how a
    team is written, how ResetGame and RestartGame deal teams over the roster,
    and when the win check fires. The class in module TeamInfectionMode sets
    teams through `Assign`; its snapshot read and its player-left handler
    write the table directly. */
module TeamRules {
  import opened Teams

  /** `_playerTeams`: actor number to team. */
  type Table = map<int, Team>

  /** `currentNetPlayerArray`: actor numbers in roster order, None for a null slot. */
  type Roster = seq<Option<int>>

  /** The two tables say the same about actor `a`. */
  predicate Agree(m1: Table, m2: Table, a: int)
  {
    (a in m1 <==> a in m2) && (a in m1 ==> m1[a] == m2[a])
  }

  // ---------------------------------------------------------------------------
  // Lookups

  /** GetPlayerTeam: the recorded team, Teamless for an actor with no entry. */
  function TeamOf(m: Table, actor: int): (t: Team)
    ensures actor in m ==> t == m[actor]
    ensures t != Teamless ==> actor in m
  {
    if actor in m then m[actor] else Teamless
  }

  /** LocalCanTag(my, other). */
  function CanTag(m: Table, my: Option<int>, other: Option<int>): (r: bool)
    ensures r <==>
      && my.Some? && other.Some?
      && my.value in m && m[my.value] != Teamless
      && (other.value in m ==> m[other.value] != m[my.value])
  {
    my.Some? && other.Some? &&
    TeamOf(m, my.value) != Teamless && TeamOf(m, my.value) != TeamOf(m, other.value)
  }

  /** A player with no team, recorded or defaulted, never tags. */
  lemma TeamlessNeverTags(m: Table, my: Option<int>, other: Option<int>)
    requires my.Some? && TeamOf(m, my.value) == Teamless
    ensures !CanTag(m, my, other)
  {
  }

  /** Nobody tags a player of their own team, themselves included. */
  lemma SameTeamNeverTags(m: Table, my: Option<int>, other: Option<int>)
    requires my.Some? && other.Some? && TeamOf(m, my.value) == TeamOf(m, other.value)
    ensures !CanTag(m, my, other)
  {
  }

  /** Once LocalCanTag has passed, the tagger has an entry: the TryGetValue
      guard of ReportTag can never reject. */
  lemma TaggerIsRecorded(m: Table, tagging: Option<int>, tagged: Option<int>)
    requires CanTag(m, tagging, tagged)
    ensures tagging.Some? && tagging.value in m
  {
  }

  /** MyMatIndex: the material of an actor's team, the Teamless material for
      an actor with no entry. */
  function MaterialIndexOf(m: Table, actor: int): (i: int)
    ensures i == 0 <==> actor !in m || m[actor] == Teamless
    ensures i == 2 <==> actor in m && m[actor] == Red
    ensures i == 3 <==> actor in m && m[actor] == Blue
  {
    MaterialIndex(TeamOf(m, actor))
  }

  // ---------------------------------------------------------------------------
  // Setting a team

  /** ChangePlayerTeam's effect on the table: a null player changes nothing;
      otherwise the actor's entry becomes `t`. The early return for an entry
      that already holds `t` is the same as writing it again. */
  function Assign(m: Table, player: Option<int>, t: Team): (r: Table)
    ensures player.None? ==> r == m
    ensures player.Some? ==> r == m[player.value := t]
  {
    match player
    case None => m
    case Some(a) => if a in m && m[a] == t then m else m[a := t]
  }

  /** Writing the same team twice is writing it once. */
  lemma AssignIdempotent(m: Table, player: Option<int>, t: Team)
    ensures Assign(Assign(m, player, t), player, t) == Assign(m, player, t)
  {
  }

  /** The table after `Assign(players[i], teams[i])` for i = 0 .. n-1 in turn. */
  function AssignAll(m: Table, players: Roster, teams: seq<Team>, n: nat): (r: Table)
    requires n <= |players| == |teams|
    ensures m.Keys <= r.Keys
  {
    if n == 0 then m
    else Assign(AssignAll(m, players, teams, n - 1), players[n - 1], teams[n - 1])
  }

  /** An actor that none of the first n players is keeps its entry, or its absence. */
  lemma {:induction false} AssignAllUntouched(m: Table, players: Roster, teams: seq<Team>, n: nat, a: int)
    requires n <= |players| == |teams|
    requires forall i :: 0 <= i < n ==> players[i] != Some(a)
    ensures Agree(AssignAll(m, players, teams, n), m, a)
  {
    if n > 0 {
      AssignAllUntouched(m, players, teams, n - 1, a);
    }
  }

  /** An actor among the first n players, every one of whose positions was
      given team t, ends up on team t. */
  lemma {:induction false} AssignAllAt(m: Table, players: Roster, teams: seq<Team>, n: nat, a: int, t: Team)
    requires n <= |players| == |teams|
    requires exists i :: 0 <= i < n && players[i] == Some(a)
    requires forall i :: 0 <= i < n && players[i] == Some(a) ==> teams[i] == t
    ensures a in AssignAll(m, players, teams, n) && AssignAll(m, players, teams, n)[a] == t
  {
    if players[n - 1] != Some(a) {
      AssignAllAt(m, players, teams, n - 1, a, t);
    }
  }

  /** Two starting tables that differ only on actors among the first n
      players are made equal on those actors, and stay equal elsewhere. */
  lemma {:induction false} AssignAllConverges(m1: Table, m2: Table, players: Roster, teams: seq<Team>, n: nat, a: int)
    requires n <= |players| == |teams|
    requires Agree(m1, m2, a) || exists i :: 0 <= i < n && players[i] == Some(a)
    ensures Agree(AssignAll(m1, players, teams, n), AssignAll(m2, players, teams, n), a)
  {
    if n > 0 && players[n - 1] != Some(a) {
      AssignAllConverges(m1, m2, players, teams, n - 1, a);
    }
  }

  // ---------------------------------------------------------------------------
  // Rosters, shuffles and dealing teams

  /** Every actor appears at most once (actor numbers are unique per player). */
  ghost predicate DistinctActors(s: Roster)
  {
    forall p: Option<int> :: p.Some? ==> multiset(s)[p] <= 1
  }

  /** `order` is `roster` in some order: what OrderBy(Random.value) yields. */
  predicate IsShuffle(order: Roster, roster: Roster)
  {
    multiset(order) == multiset(roster)
  }

  /** Two equal slots of a sequence are both counted in its multiset. */
  lemma TwiceCounted(s: Roster, i: int, j: int)
    requires 0 <= i < j < |s|
    ensures s[i] == s[j] ==> multiset(s)[s[i]] >= 2
  {
    var p := s[i];
    assert s == s[..i] + [p] + s[i + 1..j] + [s[j]] + s[j + 1..];
    assert multiset(s) == multiset(s[..i]) + multiset([p]) + multiset(s[i + 1..j]) + multiset([s[j]]) + multiset(s[j + 1..]);
  }

  /** An actor of a roster without repetitions sits at one position only. */
  lemma OccursOnce(s: Roster, i: int, j: int)
    requires DistinctActors(s)
    requires 0 <= i < j < |s| && s[i].Some?
    ensures s[i] != s[j]
  {
    TwiceCounted(s, i, j);
    assert multiset(s)[s[i]] <= 1;
  }

  /** The team ResetGame gives position i of the shuffled roster. */
  function DealtTeam(i: int): Team
  {
    if i == 0 then Red else if i == 1 then Blue else Teamless
  }

  function DealtTeams(n: nat): (ts: seq<Team>)
    ensures |ts| == n
  {
    seq(n, i => DealtTeam(i))
  }

  function Uniform(n: nat, t: Team): (ts: seq<Team>)
    ensures |ts| == n
  {
    seq(n, _ => t)
  }

  /** ResetGame's effect on the master's table, for the shuffled roster `order`. */
  function Deal(m: Table, order: Roster): Table
  {
    AssignAll(m, order, DealtTeams(|order|), |order|)
  }

  /** The first loop of RestartGame: every non-null roster player to Teamless. */
  function Clear(m: Table, roster: Roster): Table
  {
    AssignAll(m, roster, Uniform(|roster|, Teamless), |roster|)
  }

  /** RestartGame's effect: clear, then deal when this instance is master. */
  function RestartTable(m: Table, roster: Roster, order: Roster, master: bool): Table
  {
    var cleared := Clear(m, roster);
    if master then Deal(cleared, order) else cleared
  }

  /** ResetGame over a shuffle of a roster without repeated actors: the player
      shuffled to position 0 is Red, the one at position 1 is Blue, every other
      roster player is Teamless, so at most one roster player is Red and at
      most one Blue; actors not on the roster keep their entries. */
  lemma {:induction false} DealResult(m: Table, roster: Roster, order: Roster)
    requires IsShuffle(order, roster) && DistinctActors(roster)
    ensures forall i :: 0 <= i < |order| && order[i].Some? ==>
      order[i].value in Deal(m, order) && Deal(m, order)[order[i].value] == DealtTeam(i)
    ensures forall a :: Some(a) in roster ==> a in Deal(m, order)
    ensures forall a :: Some(a) in roster && Deal(m, order)[a] == Red ==> order[0] == Some(a)
    ensures forall a :: Some(a) in roster && Deal(m, order)[a] == Blue ==> order[1] == Some(a)
    ensures forall a :: Some(a) !in roster ==> Agree(Deal(m, order), m, a)
  {
    var ts := DealtTeams(|order|);
    assert DistinctActors(order);
    forall i | 0 <= i < |order| && order[i].Some?
      ensures order[i].value in Deal(m, order) && Deal(m, order)[order[i].value] == DealtTeam(i)
    {
      forall j | 0 <= j < |order| && order[j] == order[i]
        ensures ts[j] == DealtTeam(i)
      {
        if i < j { OccursOnce(order, i, j); }
        if j < i { OccursOnce(order, j, i); }
      }
      AssignAllAt(m, order, ts, |order|, order[i].value, DealtTeam(i));
    }
    forall a | Some(a) in roster
      ensures a in Deal(m, order)
    {
      assert Some(a) in multiset(order);
    }
    forall a | Some(a) !in roster
      ensures Agree(Deal(m, order), m, a)
    {
      assert Some(a) !in multiset(order);
      AssignAllUntouched(m, order, ts, |order|, a);
    }
  }

  /** RestartGame's clearing pass: every non-null roster player becomes
      Teamless and nobody else changes. */
  lemma {:induction false} ClearResult(m: Table, roster: Roster)
    ensures forall a :: Some(a) in roster ==> a in Clear(m, roster) && Clear(m, roster)[a] == Teamless
    ensures forall a :: Some(a) !in roster ==> Agree(Clear(m, roster), m, a)
  {
    var ts := Uniform(|roster|, Teamless);
    forall a | Some(a) in roster
      ensures a in Clear(m, roster) && Clear(m, roster)[a] == Teamless
    {
      AssignAllAt(m, roster, ts, |roster|, a, Teamless);
    }
    forall a | Some(a) !in roster
      ensures Agree(Clear(m, roster), m, a)
    {
      AssignAllUntouched(m, roster, ts, |roster|, a);
    }
  }

  /** On the master, RestartGame deals the roster exactly as ResetGame alone
      would: the clearing pass is overwritten for every roster player. */
  lemma {:induction false} ClearBeforeDealIsRedundant(m: Table, roster: Roster, order: Roster)
    requires IsShuffle(order, roster)
    ensures Deal(Clear(m, roster), order) == Deal(m, order)
  {
    var ts := DealtTeams(|order|);
    var d1, d2 := Deal(Clear(m, roster), order), Deal(m, order);
    ClearResult(m, roster);
    forall a
      ensures (a in d1 <==> a in d2) && (a in d1 ==> d1[a] == d2[a])
    {
      if Some(a) in roster {
        assert Some(a) in multiset(order);
        var i :| 0 <= i < |order| && order[i] == Some(a);
      }
      AssignAllConverges(Clear(m, roster), m, order, ts, |order|, a);
    }
  }

  /** RestartGame's outcome: on the master, each roster player's team depends
      only on its position in the shuffle, not on the team it had; elsewhere
      every roster player is Teamless. Actors not on the roster keep their
      entries either way. */
  lemma RestartResult(m: Table, roster: Roster, order: Roster, master: bool)
    requires IsShuffle(order, roster) && DistinctActors(roster)
    ensures master ==> forall i :: 0 <= i < |order| && order[i].Some? ==>
      order[i].value in RestartTable(m, roster, order, master) &&
      RestartTable(m, roster, order, master)[order[i].value] == DealtTeam(i)
    ensures !master ==> forall a :: Some(a) in roster ==>
      a in RestartTable(m, roster, order, master) && RestartTable(m, roster, order, master)[a] == Teamless
    ensures forall a :: Some(a) !in roster ==> Agree(RestartTable(m, roster, order, master), m, a)
  {
    ClearResult(m, roster);
    DealResult(Clear(m, roster), roster, order);
  }

  // ---------------------------------------------------------------------------
  // Tagging

  /** ReportTag's effect on the master's table. */
  function AfterTag(m: Table, tagged: Option<int>, tagging: Option<int>): Table
  {
    if CanTag(m, tagging, tagged) then Assign(m, tagged, m[tagging.value]) else m
  }

  /** A rejected tag changes nothing; an accepted one changes only the tagged
      player's entry, to the tagger's team, which is not Teamless; the tagger
      keeps its team, and the same report is rejected from then on. */
  lemma TagEffect(m: Table, tagged: Option<int>, tagging: Option<int>)
    ensures !CanTag(m, tagging, tagged) ==> AfterTag(m, tagged, tagging) == m
    ensures CanTag(m, tagging, tagged) ==>
      && tagged.Some? && tagging.Some? && tagging.value != tagged.value
      && tagged.value in AfterTag(m, tagged, tagging)
      && AfterTag(m, tagged, tagging)[tagged.value] == m[tagging.value] != Teamless
      && tagging.value in AfterTag(m, tagged, tagging)
      && AfterTag(m, tagged, tagging)[tagging.value] == m[tagging.value]
      && !CanTag(AfterTag(m, tagged, tagging), tagging, tagged)
      && (forall a :: a != tagged.value ==> Agree(AfterTag(m, tagged, tagging), m, a))
  {
  }

  // ---------------------------------------------------------------------------
  // Win detection

  /** The roster slot holds a player whose entry is team t. */
  predicate OnTeam(p: Option<int>, m: Table, t: Team)
  {
    p.Some? && p.value in m && m[p.value] == t
  }

  /** GetTeamCount(t): non-null roster players with an entry equal to t. */
  function CountTeam(roster: Roster, m: Table, t: Team): (n: nat)
    ensures n <= |roster|
  {
    if roster == [] then 0
    else CountTeam(roster[1..], m, t) + (if OnTeam(roster[0], m, t) then 1 else 0)
  }

  /** Every roster slot holds a player recorded on team t. */
  predicate AllOn(roster: Roster, m: Table, t: Team)
  {
    forall i :: 0 <= i < |roster| ==> OnTeam(roster[i], m, t)
  }

  /** A team's count reaches the roster length exactly when every slot is a
      player recorded on that team. */
  lemma {:induction false} CountIsTotal(roster: Roster, m: Table, t: Team)
    ensures CountTeam(roster, m, t) == |roster| <==> AllOn(roster, m, t)
  {
    if roster != [] {
      CountIsTotal(roster[1..], m, t);
      if AllOn(roster[1..], m, t) && OnTeam(roster[0], m, t) {
        forall i | 0 <= i < |roster|
          ensures OnTeam(roster[i], m, t)
        {
          if i > 0 { assert roster[i] == roster[1..][i - 1]; }
        }
      }
      if AllOn(roster, m, t) {
        forall i | 0 <= i < |roster| - 1
          ensures OnTeam(roster[1..][i], m, t)
        {
          assert roster[1..][i] == roster[i + 1];
        }
      }
    }
  }

  /** The condition CheckGameStatus tests: some team's count equals the
      roster length, null slots included. */
  predicate WinReached(roster: Roster, m: Table)
  {
    CountTeam(roster, m, Red) == |roster| ||
    CountTeam(roster, m, Blue) == |roster| ||
    CountTeam(roster, m, Teamless) == |roster|
  }

  /** The win check fires exactly when every roster slot is a player recorded
      on one and the same team. So an empty roster always fires it, and a
      null slot or a roster player with no entry always blocks it. */
  lemma {:induction false} WinMeansOneTeam(roster: Roster, m: Table)
    ensures WinReached(roster, m) <==> exists t :: AllOn(roster, m, t)
    ensures WinReached(roster, m) ==>
      forall i :: 0 <= i < |roster| ==> roster[i].Some? && roster[i].value in m
    ensures roster == [] ==> WinReached(roster, m)
  {
    CountIsTotal(roster, m, Red);
    CountIsTotal(roster, m, Blue);
    CountIsTotal(roster, m, Teamless);
    if exists t :: AllOn(roster, m, t) {
      var t :| AllOn(roster, m, t);
      assert t == Red || t == Blue || t == Teamless;
    }
    if WinReached(roster, m) {
      forall i | 0 <= i < |roster|
        ensures roster[i].Some? && roster[i].value in m
      {
        if AllOn(roster, m, Red) { assert OnTeam(roster[i], m, Red); }
        else if AllOn(roster, m, Blue) { assert OnTeam(roster[i], m, Blue); }
        else { assert OnTeam(roster[i], m, Teamless); }
      }
    }
  }

  /** CheckGameStatus starts the countdown: master, none pending, win reached. */
  predicate StartsCountdown(master: bool, restarting: bool, roster: Roster, m: Table)
  {
    master && !restarting && WinReached(roster, m)
  }
}
