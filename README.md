# TeamInfection team-state machine, in Dafny

This project models the core of the TeamInfection team-tag game mode, a plugin
for a Unity/Photon VR game. The master client keeps a table from actor number
to team (Teamless, Red, Blue), along with a restart flag and a restart timer.

The master:
- deals Red and Blue to the first two players of a shuffled roster and makes
  everyone else Teamless;
- moves a tagged player onto the tagger's team when the tag is allowed;
- starts a three-second restart countdown when every roster slot holds a player
  recorded on one team;
- broadcasts the table as a snapshot that replicas apply pair by pair.

Four modules:

- `Teams` (`teams.dfy`): the `Team` enumeration, its one-byte wire ordinal
  and the material index table.
- `TeamRules` (`rules.dfy`): the table's rules as functions on values, with
  lemmas about them:
  - `TeamOf` and `CanTag` are the lookup and the tag permission.
  - `Assign` is ChangePlayerTeam's write: the only place the master sets a
    team. Replicas write entries in OnSerializeRead, and OnPlayerLeftRoom
    removes an entry directly.
  - `AssignAll`, `Deal`, `Clear` and `RestartTable` are the effects of the
    ResetGame and RestartGame loops.
  - `AfterTag` is the effect of ReportTag.
  - `CountTeam`, `WinReached` and `StartsCountdown` are the win check.
- `Snapshot` (`snapshot.dfy`): the stream items, the snapshot the master
  writes (`Pairs`, `Encode`), the replica's reading of it (`ReadPairs`,
  `Decode`, which stops where the source's casts would throw and also on a
  team byte above 2, as the OnSerializeRead line under "## Left out" says) and the
  round-trip lemmas.
- `TeamInfectionMode` (`team_infection.dfy`): the class `TeamInfection`.
  - Its fields are `playerTeams`, `isRestarting` and `restartTimer`.
  - The host keeps its `isMaster` and `roster` fields.
  - Each method changes only the fields its `modifies` clause names. Its
    `ensures` ties the new state to the `TeamRules` or `Snapshot` function
    for that operation.
  - `ThreePlayerRound`, `TwoPlayersJoin` and `TagDuringCountdown` are client
    scenarios. They exercise the contracts from outside the class.

Behaviours of the code that the model keeps on purpose:
- The win check counts only non-null roster players that have an entry.
  Null slots still count toward the total. So an empty roster starts the
  countdown, while a null slot or a roster player with no entry blocks it
  (`WinMeansOneTeam`).
- A roster made entirely of Teamless players also starts the countdown
  (`TwoPlayersJoin`).
- Reading a snapshot overwrites only the actors it names and never clears the
  table (`SnapshotRoundTrip`).
- The `TryGetValue` guard in ReportTag can never reject once `LocalCanTag` has
  passed (`TaggerIsRecorded`).
- On the master, RestartGame's clearing pass is overwritten by the deal that
  follows (`ClearBeforeDealIsRedundant`).

Further behaviours a reader might not expect, which the model follows:
- Applying a snapshot does not replace the whole table. It writes the pairs it
  carries and keeps every other entry.
- `Tick` and `RestartGame` do not check for the master. Only `ResetGame` does.
  So a pending restart on an instance that is no longer master still clears the
  roster players to Teamless.
- A tag needs non-null players only. A tagged player with no entry counts as
  Teamless and can be tagged.
- The win check compares counts with the roster length including null slots,
  not with the number of connected players.
- ReportTag has no countdown guard: an allowed tag during the countdown still
  moves the tagged player, and leaves the flag and the timer as they were
  (`TagDuringCountdown`).

## Model

| member | source | states |
|---|---|---|
| Teams.Ordinal | GorillaTagPartyGames/GameModes/TeamTag/TeamInfection.cs:192-197 | the wire ordinal is below 3 and is 0 exactly for Teamless |
| Teams.FromOrdinal | GorillaTagPartyGames/GameModes/TeamTag/TeamInfection.cs:169 | an ordinal names a team exactly when it is below 3 |
| Teams.OrdinalRoundTrip | GorillaTagPartyGames/GameModes/TeamTag/TeamInfection.cs:169-183 | decoding the byte written for a team gives that team back |
| Teams.OrdinalOnto | GorillaTagPartyGames/GameModes/TeamTag/TeamInfection.cs:192-197 | every ordinal below 3 decodes to the team whose ordinal it is |
| Teams.MaterialIndex | GorillaTagPartyGames/GameModes/TeamTag/TeamInfection.cs:18-23 | the material index is 0 exactly for Teamless |
| Teams.MaterialIndexInjective | GorillaTagPartyGames/GameModes/TeamTag/TeamInfection.cs:18-23 | different teams get different materials |
| TeamRules.TeamOf | GorillaTagPartyGames/GameModes/TeamTag/TeamInfection.cs:118-119 | a recorded actor gets its entry; a team other than Teamless is only ever reported for a recorded actor |
| TeamRules.CanTag | GorillaTagPartyGames/GameModes/TeamTag/TeamInfection.cs:108-116 | a tag is allowed iff both players are non-null, the tagger is recorded on a team other than Teamless, and the tagged player is not recorded on that same team |
| TeamRules.TeamlessNeverTags | GorillaTagPartyGames/GameModes/TeamTag/TeamInfection.cs:110-119 | a Teamless or unknown tagger is always refused |
| TeamRules.SameTeamNeverTags | GorillaTagPartyGames/GameModes/TeamTag/TeamInfection.cs:112-115 | nobody tags a player of their own team, themselves included |
| TeamRules.TaggerIsRecorded | GorillaTagPartyGames/GameModes/TeamTag/TeamInfection.cs:101-102 | once the tag is allowed the tagger has an entry, so the TryGetValue guard never rejects |
| TeamRules.MaterialIndexOf | GorillaTagPartyGames/GameModes/TeamTag/TeamInfection.cs:135-139 | material 0 for an unknown or Teamless actor, 2 for Red, 3 for Blue |
| TeamRules.Assign | GorillaTagPartyGames/GameModes/TeamTag/TeamInfection.cs:121-128 | a null player changes nothing; otherwise exactly the actor's entry becomes the new team, and the early return is the same as writing the team again |
| TeamRules.AssignIdempotent | GorillaTagPartyGames/GameModes/TeamTag/TeamInfection.cs:121-128 | writing the same team twice is writing it once |
| TeamRules.AssignAll | GorillaTagPartyGames/GameModes/TeamTag/TeamInfection.cs:56-65 | a sequence of team writes never removes an entry |
| TeamRules.DealResult | GorillaTagPartyGames/GameModes/TeamTag/TeamInfection.cs:51-66 | over a shuffle of a roster without repeated actors: position 0 is Red, position 1 Blue, every other roster player Teamless; only the player at position 0 can be Red and only the one at position 1 Blue; actors off the roster keep their entries |
| TeamRules.ClearResult | GorillaTagPartyGames/GameModes/TeamTag/TeamInfection.cs:70-74 | every non-null roster player becomes Teamless and no other entry changes |
| TeamRules.ClearBeforeDealIsRedundant | GorillaTagPartyGames/GameModes/TeamTag/TeamInfection.cs:68-78 | on the master, clearing and then dealing gives the same table as dealing alone |
| TeamRules.RestartResult | GorillaTagPartyGames/GameModes/TeamTag/TeamInfection.cs:68-78 | on the master each roster player's new team depends only on its position in the shuffle; otherwise every roster player is Teamless; actors off the roster keep their entries |
| TeamRules.TagEffect | GorillaTagPartyGames/GameModes/TeamTag/TeamInfection.cs:98-106 | a refused tag changes nothing; an allowed one changes only the tagged player's entry, to the tagger's team, which is not Teamless; the tagger keeps its team and the same tag is refused from then on |
| TeamRules.CountTeam | GorillaTagPartyGames/GameModes/TeamTag/TeamInfection.cs:94-96 | a team's count never exceeds the roster length |
| TeamRules.CountIsTotal | GorillaTagPartyGames/GameModes/TeamTag/TeamInfection.cs:84-96 | a team's count equals the roster length iff every roster slot is a non-null player recorded on that team |
| TeamRules.WinMeansOneTeam | GorillaTagPartyGames/GameModes/TeamTag/TeamInfection.cs:80-96 | the win condition holds iff every roster slot is a player recorded on one and the same team; it needs every slot non-null and recorded; an empty roster satisfies it |
| Snapshot.Pairs | GorillaTagPartyGames/GameModes/TeamTag/TeamInfection.cs:180-184 | two stream items are written per listed actor |
| Snapshot.ReadPairs | GorillaTagPartyGames/GameModes/TeamTag/TeamInfection.cs:165-172 | reading pairs never removes an entry of the replica's table |
| Snapshot.Decode | GorillaTagPartyGames/GameModes/TeamTag/TeamInfection.cs:161-173 | applying a snapshot, even a malformed one, never removes an entry |
| Snapshot.ReadWrittenPairs | GorillaTagPartyGames/GameModes/TeamTag/TeamInfection.cs:166-184 | reading pairs written from a table gives each written actor its team in that table, in any order and with any repetition, and completes |
| Snapshot.SnapshotRoundTrip | GorillaTagPartyGames/GameModes/TeamTag/TeamInfection.cs:161-185 | a replica that reads the master's snapshot completes, agrees with the master on every master key, and keeps its own entry, or the lack of one, for every other actor |
| Snapshot.FreshReplicaMirrors | GorillaTagPartyGames/GameModes/TeamTag/TeamInfection.cs:161-185 | a replica starting from an empty table ends with exactly the master's table |
| Snapshot.SnapshotOrderIrrelevant | GorillaTagPartyGames/GameModes/TeamTag/TeamInfection.cs:179-184 | the dictionary's enumeration order does not change what a replica ends with |
| TeamInfectionMode.TeamInfection.constructor | GorillaTagPartyGames/GameModes/TeamTag/TeamInfection.cs:13-16 | the table starts empty, no restart is pending and the timer is 0 |
| TeamInfectionMode.TeamInfection.ChangePlayerTeam | GorillaTagPartyGames/GameModes/TeamTag/TeamInfection.cs:121-133 | the table becomes `Assign` of the old table; nothing else changes |
| TeamInfectionMode.TeamInfection.StartPlaying | GorillaTagPartyGames/GameModes/TeamTag/TeamInfection.cs:29-35 | on the master the table is dealt from the shuffle; on a replica nothing changes |
| TeamInfectionMode.TeamInfection.ResetGame | GorillaTagPartyGames/GameModes/TeamTag/TeamInfection.cs:51-66 | on the master the table becomes `Deal` of the old table over the shuffle; on a replica nothing changes |
| TeamInfectionMode.TeamInfection.RestartGame | GorillaTagPartyGames/GameModes/TeamTag/TeamInfection.cs:68-78 | the table becomes `RestartTable` of the old table, which clears the roster and deals only on the master; the pending restart ends |
| TeamInfectionMode.TeamInfection.CheckGameStatus | GorillaTagPartyGames/GameModes/TeamTag/TeamInfection.cs:80-92 | on the master with no restart pending, the flag is set and the timer reset to 0 exactly when the win condition holds; otherwise flag and timer are unchanged; the table is never touched |
| TeamInfectionMode.TeamInfection.Tick | GorillaTagPartyGames/GameModes/TeamTag/TeamInfection.cs:37-49 | with no restart pending nothing changes; with one pending the timer grows by the frame time, and once it reaches 3 the restart runs and ends the countdown; a pending restart never has a timer at or above 3 |
| TeamInfectionMode.TeamInfection.ReportTag | GorillaTagPartyGames/GameModes/TeamTag/TeamInfection.cs:98-106 | on a replica or for a refused tag nothing changes; otherwise the table becomes `AfterTag` of the old one and the win check runs on the new table |
| TeamInfectionMode.TeamInfection.OnPlayerLeftRoom | GorillaTagPartyGames/GameModes/TeamTag/TeamInfection.cs:141-148 | on the master exactly that actor's entry is removed, then the win check runs; on a replica nothing changes |
| TeamInfectionMode.TeamInfection.NewVRRig | GorillaTagPartyGames/GameModes/TeamTag/TeamInfection.cs:150-159 | on the master an unknown actor is entered as Teamless, a known actor keeps its team, then the win check runs; on a replica nothing changes |
| TeamInfectionMode.TeamInfection.OnSerializeWrite | GorillaTagPartyGames/GameModes/TeamTag/TeamInfection.cs:175-185 | on the master the stream is the entry count followed by one (actor, ordinal) pair per key in enumeration order; a replica writes nothing |
| TeamInfectionMode.TeamInfection.OnSerializeRead | GorillaTagPartyGames/GameModes/TeamTag/TeamInfection.cs:161-173 | on a replica the table and the completion flag are what `Decode` gives for the old table and the stream; the master ignores the stream |
| TeamInfectionMode.Replicate | GorillaTagPartyGames/GameModes/TeamTag/TeamInfection.cs:161-185 | after the master writes a snapshot and a replica reads it, the replica's table is its old table overridden by the master's |

## Left out

- GoldenMonkey/GameModes/GoldenMonkeyManager.cs is not part of this model. It is a stub: texture loading and logging, jump-tuning constants, an empty state switch, an uncalled random pick, and empty serialization.
- `GameType`, `GameModeName`, `GameModeNameRoomLabel`, the Fusion overloads (lines 187-189) and every `base.*` call are host-engine glue with no visible behaviour.
- `FindPlayerVRRig`/`UpdatePlayerAppearance` (lines 130-132) are rendering and are not modelled. As a result, the early return at lines 125-126 only saves a repaint, and `Assign` shows it leaves the table as a plain write would.
- `Time.deltaTime` and the `float` timer become a `real` frame time. Float rounding is not modelled.
- The `Random.value` shuffle (line 55) becomes a caller-supplied `order` that is a permutation of the roster (`IsShuffle`).
- `NetworkSystem.Instance.IsMasterClient` becomes the `isMaster` field, set by the host.
- The host keeps `currentNetPlayerArray` as the `roster` field. Whether the base class has already removed a departing player before the re-check in `OnPlayerLeftRoom` is host code, so it is not modelled.
- Photon's `PhotonStream` becomes a sequence of boxed int and byte items. Actor numbers and the count are unbounded `int`s, and 32-bit overflow is not modelled: a table never holds 2^31 entries.
- TeamInfectionMode.TeamInfection.OnSerializeRead: a team byte above 2 is treated as a malformed snapshot that stops the read with `completed` false. The source's unchecked `(Team)(byte)` cast would instead store an unnamed enum value. A read that throws is modelled as stopping, with the earlier pairs kept; the exception itself is not modelled.
- TeamInfectionMode.TeamInfection.OnSerializeWrite: the dictionary's enumeration order is a parameter that lists every key once. The model does not derive it from the table.
- TeamInfectionMode.TeamInfection.OnPlayerLeftRoom: it takes an actor number. The source would throw on a null player (line 146), and that case is not modelled. The same holds for `NewVRRig`, whose `vrrigPhotonViewID` and `didTutorial` only go to the base class, and for `MyMatIndex` (`TeamRules.MaterialIndexOf`).
- TeamRules.DealResult, TeamRules.RestartResult: they assume a roster without repeated actors, because actor numbers are unique per connected player. With repeats, an actor's last position decides its team.
