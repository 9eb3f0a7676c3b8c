/** The team-infection game mode as the host engine drives it: the master
    client owns the team table and the restart countdown and changes them on
    ticks, tag reports and roster changes; replicas only mirror the table from
    the snapshots the master sends. */
module TeamInfectionMode {
  import opened Teams
  import opened TeamRules
  import opened Snapshot

  /** `RestartDelay`: seconds from a win to the next deal. */
  const RestartDelay: real := 3.0

  class TeamInfection {
    /** `_playerTeams` */
    var playerTeams: Table
    /** `_isRestarting`: a win was seen and the countdown runs. */
    var isRestarting: bool
    /** `_restartTimer`: seconds since the win. */
    var restartTimer: real
    /** `NetworkSystem.Instance.IsMasterClient`, kept by the host. */
    var isMaster: bool
    /** `currentNetPlayerArray`, kept by the host. */
    var roster: Roster

    /** A pending restart has not yet reached its delay. */
    ghost predicate Valid()
      reads this
    {
      isRestarting ==> restartTimer < RestartDelay
    }

    constructor (isMaster: bool, roster: Roster)
      ensures Valid()
      ensures playerTeams == map[] && !isRestarting && restartTimer == 0.0
      ensures this.isMaster == isMaster && this.roster == roster
    {
      playerTeams := map[];
      isRestarting := false;
      restartTimer := 0.0;
      this.isMaster := isMaster;
      this.roster := roster;
    }

    /** The only place the master sets a team; replicas write in
        OnSerializeRead, and OnPlayerLeftRoom removes entries directly. */
    method ChangePlayerTeam(player: Option<int>, newTeam: Team)
      modifies this`playerTeams
      ensures playerTeams == Assign(old(playerTeams), player, newTeam)
    {
      if player.None? {
        return;
      }
      var actor := player.value;
      if actor in playerTeams && playerTeams[actor] == newTeam {
        return;
      }
      playerTeams := playerTeams[actor := newTeam];
    }

    /** The round begins: the master deals teams. `order` is the roster as
        the master's random shuffle arranged it. */
    method StartPlaying(order: Roster)
      requires IsShuffle(order, roster)
      modifies this`playerTeams
      ensures playerTeams == if isMaster then Deal(old(playerTeams), order) else old(playerTeams)
    {
      if !isMaster {
        return;
      }
      ResetGame(order);
    }

    /** Red to the first player of the shuffled roster, Blue to the second,
        Teamless to the rest; nothing on a replica. */
    method ResetGame(order: Roster)
      requires IsShuffle(order, roster)
      modifies this`playerTeams
      ensures playerTeams == if isMaster then Deal(old(playerTeams), order) else old(playerTeams)
    {
      if !isMaster {
        return;
      }
      var i := 0;
      while i < |order|
        invariant 0 <= i <= |order|
        invariant playerTeams == AssignAll(old(playerTeams), order, DealtTeams(|order|), i)
      {
        var team := if i == 0 then Red else if i == 1 then Blue else Teamless;
        ChangePlayerTeam(order[i], team);
        i := i + 1;
      }
    }

    /** The countdown has run out: everybody on the roster to Teamless, deal
        again, and end the countdown. */
    method RestartGame(order: Roster)
      requires IsShuffle(order, roster)
      modifies this`playerTeams, this`isRestarting
      ensures Valid() && !isRestarting
      ensures playerTeams == RestartTable(old(playerTeams), roster, order, isMaster)
    {
      var i := 0;
      while i < |roster|
        invariant 0 <= i <= |roster|
        invariant playerTeams == AssignAll(old(playerTeams), roster, Uniform(|roster|, Teamless), i)
      {
        var player := roster[i];
        if player.Some? {
          ChangePlayerTeam(player, Teamless);
        }
        i := i + 1;
      }
      ResetGame(order);
      isRestarting := false;
    }

    /** Starts the countdown when, on the master with none pending, some
        team's count equals the roster length. */
    method CheckGameStatus()
      requires Valid()
      modifies this`isRestarting, this`restartTimer
      ensures Valid()
      ensures isRestarting == (old(isRestarting) || StartsCountdown(isMaster, old(isRestarting), roster, playerTeams))
      ensures restartTimer == if StartsCountdown(isMaster, old(isRestarting), roster, playerTeams) then 0.0 else old(restartTimer)
    {
      if !isMaster || isRestarting {
        return;
      }
      var total := |roster|;
      if CountTeam(roster, playerTeams, Red) == total ||
         CountTeam(roster, playerTeams, Blue) == total ||
         CountTeam(roster, playerTeams, Teamless) == total
      {
        isRestarting := true;
        restartTimer := 0.0;
      }
    }

    /** One frame of `dt` seconds. `order` is the shuffle a restart in this
        frame would deal from. */
    method Tick(dt: real, order: Roster)
      requires Valid() && IsShuffle(order, roster)
      modifies this`playerTeams, this`isRestarting, this`restartTimer
      ensures Valid()
      ensures !old(isRestarting) ==>
        playerTeams == old(playerTeams) && !isRestarting && restartTimer == old(restartTimer)
      ensures old(isRestarting) ==> restartTimer == old(restartTimer) + dt
      ensures old(isRestarting) && old(restartTimer) + dt < RestartDelay ==>
        isRestarting && playerTeams == old(playerTeams)
      ensures old(isRestarting) && old(restartTimer) + dt >= RestartDelay ==>
        !isRestarting && playerTeams == RestartTable(old(playerTeams), roster, order, isMaster)
    {
      if isRestarting {
        restartTimer := restartTimer + dt;
        if restartTimer >= RestartDelay {
          RestartGame(order);
        }
      }
    }

    /** `tagging` touched `tagged`: on the master, if the tag is allowed, the
        tagged player joins the tagger's team and the win check runs. */
    method ReportTag(tagged: Option<int>, tagging: Option<int>)
      requires Valid()
      modifies this`playerTeams, this`isRestarting, this`restartTimer
      ensures Valid()
      ensures !(isMaster && CanTag(old(playerTeams), tagging, tagged)) ==>
        playerTeams == old(playerTeams) && isRestarting == old(isRestarting) && restartTimer == old(restartTimer)
      ensures isMaster && CanTag(old(playerTeams), tagging, tagged) ==>
        && playerTeams == AfterTag(old(playerTeams), tagged, tagging)
        && isRestarting == (old(isRestarting) || StartsCountdown(isMaster, old(isRestarting), roster, playerTeams))
        && restartTimer == if StartsCountdown(isMaster, old(isRestarting), roster, playerTeams) then 0.0 else old(restartTimer)
    {
      if !isMaster {
        return;
      }
      if !CanTag(playerTeams, tagging, tagged) {
        return;
      }
      if tagging.value !in playerTeams {
        return;
      }
      var taggingTeam := playerTeams[tagging.value];
      ChangePlayerTeam(tagged, taggingTeam);
      CheckGameStatus();
    }

    /** A player left: on the master its entry goes and the win check runs. */
    method OnPlayerLeftRoom(actor: int)
      requires Valid()
      modifies this`playerTeams, this`isRestarting, this`restartTimer
      ensures Valid()
      ensures !isMaster ==>
        playerTeams == old(playerTeams) && isRestarting == old(isRestarting) && restartTimer == old(restartTimer)
      ensures isMaster ==>
        && playerTeams == old(playerTeams) - {actor}
        && isRestarting == (old(isRestarting) || StartsCountdown(isMaster, old(isRestarting), roster, playerTeams))
        && restartTimer == if StartsCountdown(isMaster, old(isRestarting), roster, playerTeams) then 0.0 else old(restartTimer)
    {
      if !isMaster {
        return;
      }
      playerTeams := playerTeams - {actor};
      CheckGameStatus();
    }

    /** A player's rig appeared: on the master an actor seen for the first
        time is entered as Teamless, a known actor keeps its team, and the
        win check runs. */
    method NewVRRig(actor: int)
      requires Valid()
      modifies this`playerTeams, this`isRestarting, this`restartTimer
      ensures Valid()
      ensures !isMaster ==>
        playerTeams == old(playerTeams) && isRestarting == old(isRestarting) && restartTimer == old(restartTimer)
      ensures isMaster ==>
        && playerTeams == (if actor in old(playerTeams) then old(playerTeams) else old(playerTeams)[actor := Teamless])
        && isRestarting == (old(isRestarting) || StartsCountdown(isMaster, old(isRestarting), roster, playerTeams))
        && restartTimer == if StartsCountdown(isMaster, old(isRestarting), roster, playerTeams) then 0.0 else old(restartTimer)
    {
      if !isMaster {
        return;
      }
      if actor !in playerTeams {
        ChangePlayerTeam(Some(actor), Teamless);
      }
      CheckGameStatus();
    }

    /** The master's snapshot: the entry count, then every entry as an
        (actor, ordinal) pair in the dictionary's enumeration order
        `enumeration`, which lists each key once and which the model leaves
        to the caller. A replica sends nothing. */
    method OnSerializeWrite(enumeration: seq<int>) returns (stream: seq<Item>)
      requires |enumeration| == |playerTeams|
      requires forall k :: k in enumeration <==> k in playerTeams
      ensures !isMaster ==> stream == []
      ensures isMaster ==> stream == Encode(playerTeams, enumeration)
    {
      if !isMaster {
        return [];
      }
      stream := [IntItem(|playerTeams|)];
      var i := 0;
      while i < |enumeration|
        invariant 0 <= i <= |enumeration|
        invariant stream == Encode(playerTeams, enumeration[..i])
      {
        var actor := enumeration[i];
        assert enumeration[..i + 1] == enumeration[..i] + [actor];
        PairsAppend(playerTeams, enumeration[..i], actor);
        stream := stream + [IntItem(actor), ByteItem(Ordinal(playerTeams[actor]))];
        i := i + 1;
      }
      assert enumeration[..i] == enumeration;
    }

    /** A replica applies a snapshot pair by pair; entries the snapshot does
        not name are kept. `completed` is false when an item was missing or
        mistyped, where the source's cast throws with the earlier pairs
        already written. The master ignores snapshots. */
    method OnSerializeRead(stream: seq<Item>) returns (completed: bool)
      modifies this`playerTeams
      ensures isMaster ==> completed && playerTeams == old(playerTeams)
      ensures !isMaster ==> ReadOutcome(playerTeams, completed) == Decode(old(playerTeams), stream)
    {
      if isMaster {
        return true;
      }
      if |stream| == 0 || !stream[0].IntItem? {
        return false;
      }
      var size := stream[0].i;
      var pos := 1;
      var i := 0;
      while i < size
        invariant 0 <= i && pos == 1 + 2 * i <= |stream|
        invariant ReadPairs(playerTeams, stream[pos..], size - i) == Decode(old(playerTeams), stream)
        decreases size - i
      {
        if pos >= |stream| || !stream[pos].IntItem? {
          return false;
        }
        var actor := stream[pos].i;
        if pos + 1 >= |stream| || !stream[pos + 1].ByteItem? {
          return false;
        }
        var team := FromOrdinal(stream[pos + 1].b);
        if team.None? {
          return false;
        }
        assert stream[pos..][2..] == stream[pos + 2..];
        playerTeams := playerTeams[actor := team.value];
        pos := pos + 2;
        i := i + 1;
      }
      completed := true;
    }
  }

  /** One snapshot delivered from the master to a replica, as the transport
      does: afterwards the replica agrees with the master on every key of the
      master's table and keeps its own entries for every other actor. */
  method Replicate(master: TeamInfection, replica: TeamInfection, enumeration: seq<int>)
    requires master != replica && master.isMaster && !replica.isMaster
    requires |enumeration| == |master.playerTeams|
    requires forall k :: k in enumeration <==> k in master.playerTeams
    modifies replica`playerTeams
    ensures replica.playerTeams == old(replica.playerTeams) + master.playerTeams
  {
    var stream := master.OnSerializeWrite(enumeration);
    var completed := replica.OnSerializeRead(stream);
    SnapshotRoundTrip(old(replica.playerTeams), master.playerTeams, enumeration);
  }

  /** A round with three players 1, 2 and 3 on the master: the deal makes 1
      Red and 2 Blue; 1 tags 3, then 3 tags 2; everybody is Red and the
      countdown starts; a tag between teammates is refused. */
  method ThreePlayerRound()
  {
    var roster: Roster := [Some(1), Some(2), Some(3)];
    var game := new TeamInfection(true, roster);
    game.StartPlaying(roster);
    DealResult(map[], roster, roster);
    assert game.playerTeams[1] == DealtTeam(0) == Red;
    assert game.playerTeams[2] == DealtTeam(1) == Blue;
    assert game.playerTeams[3] == DealtTeam(2) == Teamless;

    game.ReportTag(Some(3), Some(1));
    assert game.playerTeams[1] == Red && game.playerTeams[2] == Blue && game.playerTeams[3] == Red;
    assert !game.isRestarting by {
      CountIsTotal(roster, game.playerTeams, Red);
      CountIsTotal(roster, game.playerTeams, Blue);
      CountIsTotal(roster, game.playerTeams, Teamless);
      assert !OnTeam(roster[1], game.playerTeams, Red);
      assert !OnTeam(roster[0], game.playerTeams, Blue);
      assert !OnTeam(roster[0], game.playerTeams, Teamless);
    }

    game.ReportTag(Some(2), Some(3));
    assert game.playerTeams[1] == Red && game.playerTeams[2] == Red && game.playerTeams[3] == Red;
    assert game.isRestarting && game.restartTimer == 0.0 by {
      CountIsTotal(roster, game.playerTeams, Red);
    }

    var before := game.playerTeams;
    game.ReportTag(Some(1), Some(2));
    assert game.playerTeams == before;
  }

  /** Two players join and are entered as Teamless; with nobody on a team the
      win check fires at once, and three seconds later the teams are dealt. */
  method TwoPlayersJoin()
  {
    var roster: Roster := [Some(1), Some(2)];
    var game := new TeamInfection(true, roster);
    game.NewVRRig(1);
    assert !game.isRestarting by {
      WinMeansOneTeam(roster, game.playerTeams);
      assert roster[1].value !in game.playerTeams;
    }
    game.NewVRRig(2);
    assert game.playerTeams[1] == Teamless && game.playerTeams[2] == Teamless;
    assert game.isRestarting by {
      CountIsTotal(roster, game.playerTeams, Teamless);
    }

    var order: Roster := [Some(2), Some(1)];
    assert multiset(order) == multiset(roster) by {
      assert order == [roster[1]] + [roster[0]];
    }
    game.Tick(1.0, order);
    assert game.isRestarting;
    var before := game.playerTeams;
    game.Tick(2.0, order);
    RestartResult(before, roster, order, true);
    assert !game.isRestarting;
    assert game.playerTeams[2] == Red && game.playerTeams[1] == Blue;
  }

  /** ReportTag has no countdown guard: players 1 and 2 are dealt Red and
      Blue, 1 tags 2 and the countdown starts; 1 then tags player 5, who has
      no entry, and 5 turns Red while the countdown runs on untouched. */
  method TagDuringCountdown()
  {
    var roster: Roster := [Some(1), Some(2)];
    var game := new TeamInfection(true, roster);
    game.StartPlaying(roster);
    DealResult(map[], roster, roster);
    assert game.playerTeams[1] == DealtTeam(0) == Red;
    assert game.playerTeams[2] == DealtTeam(1) == Blue;

    game.ReportTag(Some(2), Some(1));
    assert game.isRestarting && game.restartTimer == 0.0 by {
      CountIsTotal(roster, game.playerTeams, Red);
    }

    assert 5 !in game.playerTeams;
    game.ReportTag(Some(5), Some(1));
    assert game.playerTeams[5] == Red;
    assert game.isRestarting && game.restartTimer == 0.0;
  }
}
