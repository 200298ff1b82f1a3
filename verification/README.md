# Verified model of the Netrek server's hard parts

This project models, in Dafny, the parts of the Netrek server whose correctness is hard to see from any one
function, and proves what they are for.  Each part has the imperative form of the server (classes with fields and
arrays, loops, in-place updates), a specification on values that the imperative form is proved to follow, and
theorems about the specification: about every input, every reachable state, or every run.

| files | what is modelled |
|---|---|
| `PlayerDb.dfy` | the player file, its index of hints, `findplayer` and `newplayer` |
| `LoginProtocol.dfy`, `LoginAlone.dfy` | logging in, as a protocol over every interleaving of any number of processes; and without interference |
| `BitStream.dfy`, `TorpPacket.dfy`, `TorpContent.dfy`, `TorpSender.dfy` | the short torpedo packets: selection, nine-bit packing, the three layouts, and a decoder written from the format description |
| `TorpClient.dfy` | what a client that follows the format description believes about torpedoes |
| `Balance.dfy`, `BalanceOutcome.dfy` | the team balancer, and what it achieves for the players |
| `Draft.dfy`, `DraftSafety.dfy`, `DraftEffects.dfy`, `DraftTurns.dfy`, `DraftGame.dfy` | the INL draft: state machine, invariants over runs, effects slot by slot, who is up, imperative form |
| `Armies.dfy`, `ArmySafety.dfy`, `ArmyEffects.dfy`, `ArmyEvents.dfy`, `ArmyDaemon.dfy` | beaming, bombing, coups, population, surrender, census, victory, enrolment and ghost rescue |
| `Torps.dfy`, `TorpSafety.dfy`, `TorpEffects.dfy`, `TorpDaemon.dfy` | the life of torpedoes and plasmas and their counters |
| `RollingStats.dfy` | the rolling tournament statistics |
| `Sight.dfy` | who is seen, with the remembered viewer |
| `Distress.dfy` | the conditionals of distress messages: the two scanners |
| `DistressTree.dfy`, `DistressSkip.dfy`, `DistressText.dfy`, `DistressStart.dfy` | their text as a tree with an evaluator; when the skipper is right; when the scanner writes what the evaluator says; the start from empty output |
| `PopOrder.dfy` | the order in which planets are populated |
| `Bays.dfy`, `BayEffects.dfy` | docking bays |
| `Turning.dfy` | turning |

`dafny verify dfyconfig.toml` checks everything.

## How to read it

- `random()` is an argument: a draw, or a sequence of draws.  `Draw`, `Growth`, `draws`, `rolls` and the like hold what
  it gives; theorems are about all of them.
- Integers are mathematical; C's truncating division and eight-bit wrap-around are written out where they matter
  (`Draft.Tenth`, `TorpPacket.Quotient`, `Turning.Byte`); bit operations of the packets are on bit-vectors.
- The modules named Effects, Events, Content, Outcome and Turns say what each operation does from the fields alone,
  without the functions that specify it; the others prove invariants, exact conditions and results over runs.
- A run is a sequence of events, and the state after it is `After(start, events)`; the login protocol is a relation on
  states, as its steps interleave.
- `p_x_y_go` places a ship at once, `change_team_quietly` sets the team, `lock_on` and `lock_off` are a mutex.
- Messages, logging, score keeping and drawing are not modelled and change nothing here.

## Where the code surprises

- `findplayer` with an out-of-range hint and a buffer that already holds the name returns a position no record has;
  `PlayerDb.HintAgreesWithScan` gives the exact condition.  In the login sequence it cannot happen if the hints are
  inside the file to begin with (`LoginProtocol.HintsInsideNeverMislead`); after the file has been cut down it can
  (`LoginProtocol.CutDownGoesWrong`, and exactly when: `LoginProtocol.ReturnsAreRightExactly`).
- `savestats` and the daemon's `saveplayer` do not compare the position with the length of the file: a save at a wrong
  position can leave several records without a name (`LoginProtocol.SavingBreaksUnique`, and exactly when:
  `LoginProtocol.UniqueExactly`).  A name that is not empty stays unique in any case (`LoginProtocol.NamesStayUnique`).
- `docs/README.SHORT` speaks of pixel coordinates in the window of 500; the code sends 0 to 500, and 501 for clipped.
- The format lets a bit without an info byte stand for moving or free, but the sender leaves the bit clear for a
  torpedo whose position has not changed, and sets it for an exploding one that stands still
  (`TorpClient.StillTorpVanishes`; exactly when: `TorpClient.UpdateIsReadExactly`).
- A home system nobody owns counts for ORI in `checkwin`, as that test comes first (`ArmySafety.SystemCountsFor`).
- The plague can empty a planet from 4499 armies on (`ArmySafety.PlagueExactly`).
- The comment in `udplayersight` says a remembered viewer stays an enemy.  It need not
  (`SightSafety.StaleViewerShows`); the effect is one-sided (`SightSafety.NobodyIsMissed`).
- `skipmacro` is right for two levels of conditionals; for three it depends on what follows the innermost
  (`DistressSkip.PassedIsFollowed`, `DistressText.ThreeDeepBreaks`).
- A conditional skipped while nothing has been written makes a stale character appear
  (`DistressStart.FromNothingExactly`, `DistressText.EmptyOutputBreaks`).
- A carrier of no team can leave armies on planets nobody owns, by landing or by ending a race
  (`ArmySafety.BeamKeepsPlanetsExactly`).
- A tractor beam clears the dock flag without releasing the bay; the stale bay can cost the ship its flag later
  (`BaySafety.StaleBayHurts`; exactly when: `BaySafety.ClosingFreesExactly`, `BaySafety.TornBreaksExactly`).
- `ntorp` does not check that its slot search succeeded; it does succeed, because the counter is exact
  (`TorpSafety.SearchStaysHome`, `TorpSafety.CountersStayExact`).

## Model

| member | source | states |
|---|---|---|
| PlayerDb.ScanIsFirst | ntserv/db.c:154-169 | the sequential scan finds the first record with the name, and misses exactly when no record has it |
| PlayerDb.LookupExactly | ntserv/db.c:111-176 | what a look-up answers, leaves in its buffer and stores in the index in every case: without a file, with a hint, with and without a scan |
| PlayerDb.HintAgreesWithScan | ntserv/db.c:128-176 | an exhaustive look-up, with any index contents, answers what the plain scan answers if and only if the hint is not misleading: a hint that points at no record while the buffer already holds the name, or at a later duplicate |
| PlayerDb.StaleIndexIsHarmless | ntserv/db.c:111-176 | with unique names, hints that are not negative and a buffer that does not already hold the name, a stale or out-of-range index changes neither the position nor the record returned |
| PlayerDb.HitRepairsIndex | ntserv/db.c:154-169 | after a hit the next look-up of the name is answered from the index, whatever its buffer holds, with the same position |
| PlayerDb.LookupTouchesOneEntry | ntserv/db.c:80-106 | a look-up changes at most the index entry of its own name, and none when it misses |
| PlayerDb.NewPlayerKeepsNamesUnique | ntserv/db.c:229-257 | with unique names and hints inside the file, newplayer appends exactly when no record has the name, whatever its uninitialised buffer holds, and names stay unique |
| PlayerDb.OutOfRangeHintMisleads | ntserv/db.c:130-147 | a concrete out-of-range hint with a buffer that already holds the name makes findplayer return a position no record has |
| PlayerDb.Database.FindPlayer | ntserv/db.c:111-176 | the imperative look-up leaves file, index, buffer and answer as the function Lookup says |
| PlayerDb.Database.NewPlayer | ntserv/db.c:229-269 | appends the record and returns its position, without an index entry, or reports that the name exists and leaves the file alone |
| LoginProtocol.NamesStayUnique | ntserv/getname.c:120-187 | over every interleaving of any number of processes, from any index, and wherever saves write, no two records share a name that is not empty, and at most one process is inside the lock |
| LoginProtocol.SaveKeepsUniqueExactly | ntserv/db.c:209-227 | a save keeps all names unique, the empty one too, if and only if it writes inside the file, or right behind it while no record is nameless |
| LoginProtocol.UniqueExactly | ntserv/db.c:209-227 | in a run all names stay unique, the empty one too, if and only if no save leaves two nameless records |
| LoginProtocol.RightReturnsKeepUnique | ntserv/getname.c:120-201 | in a run in which no wrong position is handed out all names stay unique |
| LoginProtocol.SavingBreaksUnique | ntserv/daemon.c:4003-4017 | a concrete run: after a login got position 7 of an empty file, the first save leaves eight records without a name |
| LoginProtocol.RightPositionIsForever | ntserv/db.c:229-257 | a position that names the player, by a name that is not empty, at any moment names that player, and only that position does, at every later moment |
| LoginProtocol.StepReturnsRight | ntserv/db.c:130-147 | a step hands out a wrong position if and only if, not under the lock, it reads at a hint outside the file while its buffer already holds the name |
| LoginProtocol.ReturnsAreRightExactly | ntserv/getname.c:120-187 | in a run from any index all positions are right when they are handed out if and only if no such step is taken |
| LoginProtocol.HintsInsideNeverMislead | ntserv/getname.c:120-187 | from an index whose hints are inside the file, however stale, every position handed out is right, all names stay unique, and the retry after "exists" always finds the name |
| LoginProtocol.CutDownGoesWrong | ntserv/db.c:130-147 | a concrete run: the file has been cut down, a hint is left, and a login gets a position no record has |
| LoginProtocol.FindPlayerAlone | ntserv/db.c:111-176 | the system calls of one look-up, run without interference, do what the function Lookup says |
| LoginAlone.LoginSucceeds | ntserv/getname.c:120-187 | a login or query that nobody interrupts comes to an end: a known name gives its position, with its record, and changes no record; a new name is added behind the last record and gives that position |
| LoginProtocol.StepKeepsInv | ntserv/db.c:229-257 | every single system call of every process, with any index, keeps the invariant: no name twice, what each process knows about the file at its point, remembered positions that were handed out, and one lock holder |
| LoginProtocol.RunExtends | ntserv/db.c:251-254 | along a run the file only grows, a record with a name keeps it, and returned positions are never withdrawn |
| TorpPacket.CoordinatesFitNineBits | ntserv/genspkt.c:2034-2060 | every coordinate sent fits in nine bits: 0 to 500 in view, 501 for an own torpedo out of view, and 501 is never a pixel |
| TorpPacket.PixelIsAccurate | ntserv/genspkt.c:2054-2060 | the pixel sent differs from the true offset by less than one pixel when torpedo and viewer are on the same side of zero, and by less than two otherwise; two minus two units do occur |
| TorpPacket.TablesMatchFormat | ntserv/genspkt.c:141-143 | vtdata is the number of bytes of n nine-bit pairs, vtsize the three-byte header plus that, rounded up to four |
| TorpPacket.PackOne | ntserv/genspkt.c:2145-2157 | one masked and shifted store adds its nine-bit number to the stream and keeps every number already in it readable |
| TorpSender.Sender.PutPair | ntserv/genspkt.c:2145-2157 | the two stores of a pair append exactly the two numbers to the stream |
| TorpSender.Sender.PackGroup | ntserv/genspkt.c:1950-2161 | the inner loop leaves in the bitsets, the stream and the info bytes exactly the coordinates and infos selected for the eight torpedoes |
| TorpPacket.WhatIsSent | ntserv/genspkt.c:2163-2207 | what the bitsets and counts mean: an info bit exactly when some torpedo has an info byte, eight pairs exactly when all have one, and all clear with nothing gone exactly when there is nothing to say |
| TorpPacket.InfoPacketDecodes | ntserv/genspkt.c:2164-2184 | SP_S_TORP_INFO decodes, as the format says, to the coordinates and info bytes selected, and its length is the header and data rounded up to four |
| TorpPacket.TorpPacketDecodes | docs/README.SHORT:140-148 | SP_S_TORP decodes to exactly the selected coordinates and no info bytes |
| TorpPacket.EightPacketDecodes | ntserv/genspkt.c:2187-2191 | SP_S_8_TORP, without a bitset, decodes to all eight coordinate pairs |
| TorpSender.Sender.SendItems | ntserv/genspkt.c:2163-2207 | for every group the packet sent carries exactly the selected items: decoding gives back every coordinate pair and info byte; its layout is SP_S_TORP_INFO exactly when some item has an info byte, else SP_S_8_TORP exactly when all eight have a position, else SP_S_TORP; and nothing is sent exactly when nothing has to be |
| TorpSender.Sender.UpdateTorps | ntserv/genspkt.c:1926-2208 | the whole sender: for every group and viewer the packets carry the items selected from torpedoes and caches, and the caches are updated as the selection says |
| TorpContent.UpdateSaysExactly | ntserv/genspkt.c:1926-2208 | from torpedo, viewer and cache alone: an info byte, position or packet is there exactly when it is due; the byte has the status above and the mask, cut to the viewer's team for the torpedoes of others, below; the position is in pixels of 40 when within 10000 on both axes, else 501 |
| TorpContent.UpdateNotesExactly | ntserv/genspkt.c:1955-2161 | the caches note down exactly the mask, status and position that the viewer has been told |
| TorpClient.UpdateIsReadExactly | docs/README.SHORT:225-230 | a client that reads the packets as the format says, and knew the status noted down before an update, knows the one noted down after it if and only if the update is none of the listed cases |
| TorpClient.RunIsReadExactly | ntserv/genspkt.c:1926-2208 | in every run of updates such a client agrees about a torpedo all the time if and only if no update is one of these cases |
| TorpClient.StillTorpVanishes | ntserv/genspkt.c:2034-2060 | one of these cases: a torpedo in flight that has not moved since the last update is free to the client as soon as anything else about its group is sent |
| BitStream.CoordsDecode | docs/README.SHORT:140-148 | a stream that holds the numbers of the present pairs decodes to exactly those pairs at their places in the bitset |
| BitStream.InfosDecode | docs/README.SHORT:214-230 | info bytes behind the coordinates decode to exactly the bytes present at their places in the second bitset |
| Balance.EveryChoiceHasNumber | ntserv/balance.c:199-219 | counting through the combination numbers reaches every choice of sides |
| Balance.SearchFinds | ntserv/balance.c:199-271 | the search finds a split exactly when an even split with rating difference at most 1 << 30 exists, and what it finds is the lexicographically least (difference, swaps) |
| Balance.LeastIsUnique | ntserv/balance.c:255-271 | a list of players has one least score |
| Balance.ShuffleKeepsLeast | ntserv/balance.c:184-197 | whatever the shuffle draws, the same score is the least one |
| Balance.ComplementSums | ntserv/balance.c:244-252 | exchanging the sides exchanges counts and ratings, and the swaps of the two splits together are the players of the two teams plus twice the others |
| Balance.LeastMovesFew | ntserv/balance.c:244-271 | the best split moves at most half the players of the two teams plus all others |
| Balance.EvenSplitExists | ntserv/balance.c:219-227 | an even split always exists |
| Balance.RecordsArePlayers | ntserv/balance.c:167-182 | the working array lists every playing slot exactly once |
| Balance.FinalTeams | ntserv/balance.c:273-285 | after the moves every playing slot is on one of the two teams and the teams are an even split with the least score; when none qualifies everybody is on team one |
| Balance.FoundMeansBalanceable | ntserv/balance.c:199-285 | whether the search finds anything does not depend on the shuffle |
| Balance.Search | ntserv/balance.c:199-271 | the bitmask loop returns the first least score among the even splits of the working array |
| Balance.Shuffle | ntserv/balance.c:184-197 | the in-place shuffle swaps the entries the draws name, in order |
| Balance.ShuffledExactly | ntserv/balance.c:184-197 | each draw exchanges the two entries it names, after the draws before |
| Balance.Game.FindSides | ntserv/balance.c:60-89 | the two teams found by the scan over the slots |
| Balance.SidesAreFirst | ntserv/balance.c:60-89 | side one is the team of the first playing player on a team, side two that of the first on another team, and 0 stands for none |
| Balance.SidesAreUnique | ntserv/balance.c:60-89 | no other two sides are the first two |
| Balance.Game.DoBalance | ntserv/balance.c:127-285 | the whole balancer: an even split with the least (difference, swaps) there is, or nothing when only one team plays |
| BalanceOutcome.BalanceIsBest | ntserv/balance.c:199-285 | in terms of the players alone: the final teams differ by at most one in size, and no other such assignment of the players has a smaller rating difference, or the same one with fewer players moved |
| BalanceOutcome.FindsExactly | ntserv/balance.c:199-271 | a split is found if and only if some even assignment of the players has a rating difference of at most 1 << 30 |
| DraftSafety.AtMostOneUp | ntserv/draft.c:451-475 | in every run of arrivals, selections, passes, deaths, departures and returns, of captains too, who come back by entering, nobody but a captain is up, and at most one captain in play |
| DraftTurns.CaptainArrives | ntserv/draft.c:451-475 | a captain who reaches its place on the way to the pool comes up exactly when the other captain is not up in play |
| DraftTurns.ExactlyOneUp | ntserv/draft.c:451-475 | in every run in which both captains stay in play, exactly one of them is up as soon as both have arrived |
| DraftTurns.FirstToArriveIsUp | ntserv/draft.c:451-475 | the one who arrived first is up, and stays so without selections, also when the other arrives |
| DraftTurns.CaptainPicks | ntserv/draft.c:580-605 | a player selected from the pool by the captain who is up is on the way to its team, and the other captain, if in play, is up |
| DraftTurns.DelegatePicks | ntserv/draft.c:607-688 | a delegate's selection is its captain's while that captain is up in play, and otherwise changes nothing |
| DraftSafety.NumbersAreDistinct | ntserv/draft.c:381-391 | in every run pool numbers of pooled players and pick numbers within each team are distinct and below their counters, even when players die and are pooled again |
| DraftSafety.PicksAlternate | ntserv/draft.c:559-605 | while both captains stay in play, picks plus passes of the sides differ by at most one, so picks differ by at most one more than the passes |
| DraftSafety.BeginNumbersExactly | ntserv/draft.c:393-419 | a draft begins with sound numbers if and only if no slot out of play carries a draft state from before |
| DraftSafety.BeginEstablishes | ntserv/draft.c:393-419 | beginning a draft with one captain a side establishes the invariant |
| DraftSafety.TurnFinds | ntserv/draft.c:559-578 | who is up is a captain, and the captain the turn goes to is the other one if in play, and nobody else |
| DraftSafety.TowardShrinks | ntserv/draft.c:539-545 | a ship farther than 750 comes at least 37 closer in one step |
| DraftSafety.ShipArrives | ntserv/draft.c:519-557 | with a fixed target a ship strictly approaches with each update, is there after distance / 37 + 1 of them, and stays |
| DraftGame.Game.Update | ntserv/draft.c:519-557 | the update loop over the slots, with arrivals and the checks for the end, does what the state machine says |
| DraftEffects.UpdateExactly | ntserv/draft.c:519-557 | every slot in order joins, moves a tenth of the way or settles at its place in the state that its place gives, and a phase ends when nobody in play is busy in it |
| DraftGame.Game.Select | ntserv/draft.c:607-688 | selecting by a captain, passing, or by a delegate does what the state machine says |
| DraftEffects.SelectExactly | ntserv/draft.c:607-688 | what each selection changes, slot by slot, and that nothing else counts |
| DraftGame.Game.Pick | ntserv/draft.c:580-605 | a pick gives the player a team and the next pick number of that team, and the turn passes |
| DraftGame.Game.Begin | ntserv/draft.c:393-419 | every slot in play is assigned to the pool with the next number |
| DraftEffects.BeginExactly | ntserv/draft.c:393-419 | everybody in play starts for the pool, and players leave their teams and get the number of players before them |
| DraftGame.Game.ArrivalCaptain | ntserv/draft.c:451-475 | an arriving captain is up unless the other already is |
| ArmySafety.BeamConserves | ntserv/daemon.c:3207-3547 | from any state, one beam() pass changes the armies on ships and planets by exactly minus two per landing against a garrison plus what addTroops grants |
| ArmySafety.BeamKeepsBounds | ntserv/daemon.c:3207-3547 | after a beam() pass ships still carry between none and their maximum, and a planet is empty exactly when nobody owns it |
| ArmySafety.BeamPassLeaves | ntserv/daemon.c:3223-3265 | however many ships beam in one pass, and in whatever order, every planet keeps four armies, or what it had if that is fewer, less one for each landing against a garrison |
| ArmySafety.BeamKeepsPlanetsExactly | ntserv/daemon.c:3207-3547 | from sound planets the turn of a ship of a team or of none, whatever it carries, leaves every planet empty exactly when nobody owns it, if and only if it is neither a landing of no team on a planet of nobody, nor the end of a race by a ship of no team for which addTroops draws armies for planets of nobody |
| ArmySafety.GiftToNobodyBreaksPlanets | ntserv/daemon.c:4292-4314 | a concrete galaxy in which the second of these happens |
| ArmySafety.NeutralCarrierBreaksPlanet | ntserv/daemon.c:3501-3525 | the first of these: a ship of no team leaves an army on a planet nobody owns |
| ArmySafety.ArmiesStaySound | ntserv/daemon.c:2638-3547 | in every run of beaming, bombing, coups, population, surrender, enrolment and ghost rescue a planet has no armies exactly when nobody owns it, and no count is negative |
| ArmySafety.PlagueExactly | ntserv/daemon.c:2655-2669 | the plague leaves a garrison of more than five at least one army, whatever random() gives, if and only if it has at most 4498, and at least five if and only if at most 4494 |
| ArmySafety.PopulateKeeps | ntserv/daemon.c:2638-2703 | population keeps a planet empty exactly when nobody owns it, up to the plague bound |
| ArmySafety.TroopsForWinnersOnly | ntserv/daemon.c:4292-4314 | enrolment gives each planet of the winner, and no other, exactly what is drawn for it, less than two armies for each of the losing players, when there are six of them or more or when three to five draw so, and otherwise nothing |
| ArmySafety.SurrenderEndsRace | ntserv/daemon.c:2791-2846 | a minute of countdown passes exactly when neither suspension applies, and when it ends the race owns nothing, nobody of it is alive, and no other planet changes hands |
| ArmySafety.CoupKeeps | ntserv/coup.c:26-64 | throwing a coup keeps the state sound |
| ArmySafety.RescueConserves | ntserv/daemon.c:3970-4001 | ghost rescue neither loses nor duplicates armies, from any state |
| ArmySafety.RescueKeeps | ntserv/daemon.c:3970-4001 | ghost rescue keeps the state sound |
| ArmySafety.RescuedTo | ntserv/daemon.c:3987-4000 | a ghost's armies all go to the first planet its team owns in its home space |
| ArmySafety.BombPassKeeps | ntserv/daemon.c:3127-3142 | bombing keeps a planet empty exactly when nobody owns it: no garrison is bombed away |
| ArmySafety.CensusAddsUp | ntserv/daemon.c:3786-3794 | the census counts every planet once |
| ArmySafety.SystemCountsFor | ntserv/daemon.c:3917-3923 | a home system counts for a team exactly when no rival owns a planet there and the team does, except that a system nobody owns counts for ORI |
| ArmySafety.VictoryIsThreeSystems | ntserv/daemon.c:3943-3950 | the galaxy is won exactly when one team has all home systems but at most one |
| ArmyEffects.VictoryExactly | ntserv/daemon.c:3917-3950 | the same in terms of the owners of the forty planets |
| ArmyDaemon.Daemon.Beam | ntserv/daemon.c:3207-3547 | the loop over the ships, ended by a conquest, does what the function BeamPass says |
| ArmyEffects.ShipTurnExactly | ntserv/daemon.c:3207-3547 | what one ship's turn does to ships, planets, owners and counters, from the fields, in every case |
| ArmyEffects.BeamPassExactly | ntserv/daemon.c:3207-3547 | a pass is these turns in slot order, each from the state the one before left, up to a conquest |
| ArmyEffects.LandingShows | ntserv/daemon.c:3380-3525 | an empty planet goes to the team of the ship, with one army; a garrison loses one army, and the planet its owner exactly with the last; no other planet changes hands; the ship has one army less |
| ArmyEffects.ReinforcementShows | ntserv/daemon.c:3501-3525 | an army put down on an own planet joins its garrison |
| ArmyEffects.LoadRisesExactly | ntserv/daemon.c:3223-3265 | a ship's load rises exactly when it beams up from an own planet not at war with it that has five armies, or a base that has one, below its maximum and below what its kills allow |
| ArmyDaemon.Daemon.CheckGen | ntserv/daemon.c:3776-3880 | census, start of the surrender countdown, victory check, enrolment, deaths and coup timer, in that order |
| ArmyEffects.CheckGenExactly | ntserv/daemon.c:3776-3880 | whose ships die, which planets get armies, which timer is set, when a countdown starts or stops, and that the counters are those of the planets |
| ArmyDaemon.Daemon.CheckWin | ntserv/daemon.c:3891-3968 | recount, end of a surrender countdown, and the victory decision |
| ArmyEffects.CheckWinExactly | ntserv/daemon.c:3891-3968 | the recount, the end of the winner's countdown at four planets, and victory, from the owners of the planets |
| ArmyDaemon.Daemon.AddTroops | ntserv/daemon.c:4292-4314 | counting the losers, the "sometimes" draw, and the gifts |
| ArmyDaemon.Daemon.PopPlanet | ntserv/daemon.c:2638-2703 | plague, weak growth, extra armies and agriculture on one planet |
| ArmyEvents.PopulateExactly | ntserv/daemon.c:2638-2703 | how much the plague takes and what is added after it |
| ArmyDaemon.Daemon.PlFight | ntserv/daemon.c:3059-3205 | coups are finished, then every ship bombs in slot order |
| ArmyEvents.FightExactly | ntserv/daemon.c:3059-3205 | which planets change hands by a coup, which ships bomb, and how many armies each run destroys, in slot order |
| ArmyEvents.CoupExactly | ntserv/coup.c:26-64 | when a coup is thrown |
| ArmyDaemon.Daemon.UdSurrend | ntserv/daemon.c:2736-2865 | coup timers and the countdown of every team code |
| ArmyEvents.SurrenderExactly | ntserv/daemon.c:2736-2865 | what a surrender minute does to every planet, ship, coup timer and countdown |
| ArmyDaemon.Daemon.GhostMess | ntserv/daemon.c:3970-4001 | the rescue loop over ten planets |
| ArmyEvents.RescueExactly | ntserv/daemon.c:3970-4001 | to which planet a ghost's armies go, and when nothing happens |
| TorpSafety.CountersStayExact | ntserv/plasma.c:46-112 | in every run of fire, detonate, trim, return and frame steps each counter equals the live torpedoes of its type the player owns, and never exceeds MAXTORP or MAXPLASMA |
| TorpSafety.SearchStaysHome | ntserv/torp.c:153-163 | the unchecked slot search of ntorp stays in the player's own slots if and only if fewer than eight of its photons are live |
| TorpSafety.StartsExact | ntserv/enter.c:127-129 | with every slot free and every counter zero the counters are exact |
| TorpSafety.ReenterKeeps | ntserv/redraw.c:100-103 | a returning player's counters are reset only when they are zero already, so the reset never loses a live torpedo |
| TorpSafety.FirePhotonKeeps | ntserv/torp.c:78-205 | a photon fired within the limit takes a free slot of the player and keeps the counters exact |
| TorpSafety.FirePlasmaKeeps | ntserv/plasma.c:46-112 | a plasma, from an ATT ship too, takes the player's free slot or is refused, and keeps the counters exact |
| TorpSafety.FrameKeeps | ntserv/daemon.c:2156-2217 | a frame lowers a counter exactly when it frees a slot of that player |
| TorpSafety.FrameAges | ntserv/daemon.c:2156-2217 | each frame uses up one of the frames a live torpedo has left |
| TorpSafety.ApplyAges | ntserv/detonate.c:48-68 | no detonation, fuse cut or other step gives a live torpedo more time, and nothing is fired into its slot |
| TorpSafety.TorpIsFreeInTime | ntserv/daemon.c:2156-2217 | a torpedo launched with fuse F is free again within F + 10 * T_FUSE_SCALE + 2 frames, whatever detonations, wall hits, near ships and fuse cuts happen |
| TorpSafety.BoundIsReached | ntserv/daemon.c:2463-2464 | one frame fewer is not enough: a photon detonated when its fuse has run out is still exploding after F + 10 * T_FUSE_SCALE + 1 frames |
| TorpDaemon.Game.UdTorps | ntserv/daemon.c:2156-2217 | the frame loop over the one torpedo array does what the state machine says |
| TorpEffects.FrameExactly | ntserv/daemon.c:2156-2217 | what a frame makes of every torpedo; one in flight explodes exactly when it meets the wall, or has a ship near in a frame in which it looks around |
| TorpEffects.FrameCounts | ntserv/daemon.c:2156-2217 | each counter falls by the number of torpedoes of that kind and player that become free |
| TorpDaemon.Game.StepSlot | ntserv/daemon.c:2163-2209 | the switch on the status; a wall hit does not end the frame of the torpedo |
| TorpDaemon.Game.NTorp | ntserv/torp.c:78-205 | counter test, slot search and launch of a photon |
| TorpEffects.LaunchExactly | ntserv/torp.c:78-205 | a photon is refused exactly with eight on the counter, and otherwise takes the first free slot; nothing else changes |
| TorpDaemon.Game.NPlasmaTorp | ntserv/plasma.c:46-112 | counter test, slot search and launch of a plasma |
| TorpEffects.LaunchPlasmaExactly | ntserv/plasma.c:46-112 | when a plasma is fired, and that nothing else changes |
| TorpDaemon.Game.DetOthersOf | ntserv/detonate.c:36-68 | the nested loop turns exactly the moving photons in reach into detonating ones |
| TorpEffects.DetonateExactly | ntserv/detonate.c:36-68 | exactly the moving photons in reach become detonating |
| TorpDaemon.Game.HandleDetMine | ntserv/socket.c:1328-1359 | an owner turns off one of its own moving photons, or with short packets all of them |
| TorpEffects.MineExactly | ntserv/socket.c:1328-1359 | exactly the moving photons that the request names, of that player only, are turned off |
| TorpDaemon.Game.CutFuses | ntserv/daemon.c:1111-1121 | the long fuses of an exploding player are cut, and no others |
| TorpEffects.TrimExactly | ntserv/daemon.c:1111-1121 | exactly the moving torpedoes of the player with a longer fuse are cut to the limit |
| RollingStats.TotalsBalance | ntserv/daemon.c:1366-1425 | in every run each total is a fixed constant plus the ring plus the current interval, the historical totals grow by the closed intervals, and nothing gained is lost |
| RollingStats.TotalsAreTheWindow | ntserv/daemon.c:1366-1431 | from zeroed rolling fields the totals are always the last closed intervals, as many as the ring has slots, plus the current one |
| RollingStats.RolloversAreSpaced | ntserv/daemon.c:1364-1431 | from zeroed rolling fields every slot's ticks are a multiple of the interval and rollovers after the first are exactly one interval apart |
| RollingStats.RolloverHolds | ntserv/daemon.c:1428-1430 | a rollover replaces the oldest closed interval in the ring by the newest |
| RollingStats.Stats.TickOnce | ntserv/daemon.c:1345-1431 | the in-place update of totals, ring, history and slot number |
| SightSafety.SightIsExact | ntserv/daemon.c:836-906 | in every run in which players keep team and robot status while they are remembered or go on remembering somebody, an update sets PFSEEN exactly when the ship is dead, orbits a planet of others, or a live enemy that is no robot is in range |
| SightSafety.NobodyIsMissed | ntserv/daemon.c:836-906 | in every run whatever, a ship that should be seen is seen |
| SightSafety.UpdateDiffersExactly | ntserv/daemon.c:855-874 | one update differs from the full search if and only if the remembered viewer hits, is no enemy any more, and no enemy is in range |
| SightSafety.StaleViewerShows | ntserv/daemon.c:858-867 | a concrete run in which the remembered viewer comes back on the ship's own team and the ship stays shown, against the comment in the code |
| SightSafety.FoundIsSees | ntserv/daemon.c:893-899 | the box test before the circle test changes nothing |
| SightSafety.SearchFindsViewer | ntserv/daemon.c:880-904 | the search succeeds exactly when some live enemy that is no robot is in range |
| Sight.Daemon.UdPlayerSight | ntserv/daemon.c:836-906 | the nested loops with the cache do what the function Update says |
| SightSafety.UpdateExactly | ntserv/daemon.c:836-906 | what an update does to every flag and memory, from the fields |
| DistressText.TwoDeepIsExact | ntserv/distress.c:719-870 | for conditionals nested at most two deep, each with its test digit, some output already written and room for the text, condmacro with skipmacro writes exactly what a direct evaluator of the conditionals writes |
| DistressStart.TestedIsExact | ntserv/distress.c:740-758 | for text in which every conditional has its test, from any output with room, condmacro writes what the evaluator writes if and only if something is written whenever a part with conditionals is left out; otherwise its output is exactly one character longer, at the front |
| DistressStart.FromNothingExactly | ntserv/distress.c:500-505 | from empty output, for conditionals nested at most two deep, it writes what the evaluator writes if and only if the text, read alone, has written something before it leaves out a part with conditionals |
| DistressStart.TwoDeepFromNothing | ntserv/distress.c:500-505 | so it does when the text starts with an ordinary character or a percent sign |
| DistressText.CondMacroIsEval | ntserv/distress.c:719-870 | at any depth the scanners write what the evaluator says, as long as there is room, a skipped part with conditionals finds output written, and skipmacro passes over the conditionals that can be skipped, in the exact sense of SkipPassesExactly |
| DistressSkip.SkipPassesExactly | ntserv/distress.c:829-870 | for every conditional of plain text, at any depth and with any literals, skipmacro leaves what stands behind the closing if and only if a walk over the tree, which counts its calls and the states left set, ends as it began; with nothing behind, it only must not return early |
| DistressSkip.PassedIsFollowed | ntserv/distress.c:842-848 | without literal braces and without neighbouring conditionals inside, that is so if and only if every conditional inside is, doubled percent signs aside, followed by a literal or the last of a first part |
| DistressSkip.NeighboursCancel | ntserv/distress.c:842-848 | with neighbouring conditionals a lost opening can make up for a lost closing |
| DistressText.PartLeftOutExactly | ntserv/distress.c:719-870 | with output written, such text as a part that condmacro leaves out ends at its own closing if and only if skipmacro passes over all its conditionals |
| DistressText.UntakenIsExact | ntserv/distress.c:719-870 | condmacro is right about 0%{t%}c for such t exactly if inside every conditional of t each conditional is followed by a literal or ends a first part; otherwise just c is lost |
| DistressText.ThreeDeepBreaks | ntserv/distress.c:842-848 | three deep, with any text inside, it fails: skipmacro returns from a nested conditional with its state still set and takes the closing of the one around it |
| DistressText.EmptyOutputBreaks | ntserv/distress.c:740-758 | with nothing written, skipping a conditional makes a stale character appear |
| DistressText.TestedIsSmooth | ntserv/distress.c:740-750 | with something written before it, text in which every conditional has its test never takes the last character away |
| Distress.Macro.CondMacro | ntserv/distress.c:719-827 | the scanner over text and output indices, with its recursion, does what the function Cond says |
| DistressText.EscapesExactly | ntserv/distress.c:719-827 | the abort code empties the output and ends its level where text is written; other unknown escapes are dropped |
| Distress.Macro.SkipMacro | ntserv/distress.c:829-870 | the skipper does what the function Skip says |
| PopOrder.OrderIsPermutation | ntserv/daemon.c:2707-2733 | from the first call on the order is a permutation of the planets |
| PopOrder.EveryOrderCanCome | ntserv/daemon.c:2707-2733 | every order of the planets can come out of a shuffle of any other |
| PopOrder.EveryBlockPopulatesAll | ntserv/daemon.c:2625-2635 | in every block of MAXPLANETS calls each planet is populated by exactly one call |
| PopOrder.EveryWindowReachesAll | ntserv/daemon.c:2625-2635 | any 2 * MAXPLANETS - 1 calls in a row populate every planet |
| PopOrder.ShorterWindowMisses | ntserv/daemon.c:2707-2733 | some run has a planet that 2 * MAXPLANETS - 2 calls in a row miss |
| PopOrder.Population.UdPlanets | ntserv/daemon.c:2625-2633 | the next planet is the one before the last in the list, and a used-up list is shuffled again |
| PopOrder.Population.RandomizePopOrder | ntserv/daemon.c:2707-2733 | the in-place shuffle, after setting up the list the first time |
| BaySafety.CheckRepairs | ntserv/bay.c:34-56 | from any state the check leaves only bays whose ship points back at that base and bay, keeps every truly docked ship, leaves no ship in two bays, and changes nothing else |
| BaySafety.RefusedExactlyWhenFull | ntserv/bay.c:127-165 | bay_closest returns -1 exactly when all four bays are truly occupied, and otherwise the first open bay in the order of the ship's quadrant |
| BaySafety.NearestFirst | ntserv/bay.c:121-165 | the bay tried first is the nearest of the four and the one tried last the farthest |
| BaySafety.BaysAgree | ntserv/bay.c:65-102 | in every run of docking and releasing a ship is docked in a bay exactly when the bay names it |
| BaySafety.DockedShipsAreHeld | ntserv/orbit.c:106-136 | for the ships of players: even when ships are torn away without a release, every docked ship is in the bay it says and no two are in one bay |
| BaySafety.ClosingFreesAll | ntserv/bay.c:93-102 | releasing all bays frees every ship docked with the base |
| BaySafety.ClosingFreesExactly | ntserv/bay.c:93-102 | from any state a ship is docked after a base has closed if and only if it was docked and no bay of that base named it, wherever it says it is docked |
| BaySafety.TornBreaksExactly | ntserv/orbit.c:172-189 | tearing a ship away from a state in which bays and ships agree leaves them in agreement if and only if the ship was not docked |
| BaySafety.StaleBayHurts | ntserv/orbit.c:172-189 | a concrete state: a ship torn away from one base and docked with another loses its dock flag when the first closes |
| Bays.Galaxy.ConsistencyCheck | ntserv/bay.c:34-56 | the three tests vacate exactly the bays that are not truly occupied |
| Bays.Galaxy.BayClosest | ntserv/bay.c:127-165 | the branch tree returns the first open bay of the quadrant's order |
| Bays.Galaxy.BayRelease | ntserv/bay.c:75-85 | the bay is vacated and the dock flag cleared |
| BayEffects.ReleaseExactly | ntserv/bay.c:75-85 | a docked ship is undocked and its bay vacated; nothing else changes |
| Bays.Galaxy.BayReleaseAll | ntserv/bay.c:93-102 | every bay is vacated and every ship named there loses its dock flag |
| Bays.Galaxy.DockShip | ntserv/orbit.c:100-136 | a ship that is not docked takes the closest open bay, or stays as it is |
| BayEffects.DockExactly | ntserv/orbit.c:100-136 | a ship that is not docked takes the first bay without a ship, in the order of its quadrant, if there is one, and the base forgets ships that are not there; nothing else changes |
| Turning.RemainingTurn | ntserv/daemon.c:1847-1885 | with speed and target fixed, after n updates the remaining circular turn is max(0, distance - floor((subdir + n * gain) / 1000)) |
| Turning.ArrivesExactly | ntserv/daemon.c:1847-1885 | the ship is on its heading exactly when the rate collected covers the distance |
| Turning.NeverOvershoots | ntserv/daemon.c:1866-1882 | each update turns along the short way: what it turns and what is left add up to what was left before |
| Turning.TurnsTheShortWay | ntserv/daemon.c:1868-1881 | ticks shorten the circular distance one by one, down to nothing |
| Turning.StandingTurnsAtOnce | ntserv/daemon.c:1855-1858 | a ship that stands still faces its target after one update |
| Turning.Ship.Move | ntserv/daemon.c:1176-1177 | the update of a ship that is not exploding, in place |
| Turning.Ship.Collect | ntserv/daemon.c:1861-1884 | the fraction gains the turn rate, whole thousands become ticks, and the rest stays |
| Turning.GainExactly | ntserv/daemon.c:1861-1866 | the rate gained: the turn rate over the square of the speed, or over two to its power |
| Turning.HalfwayTurnsUp | ntserv/daemon.c:1868-1881 | where both ways are equally long, the heading grows |

## Left out

- Sockets, signals, forking, alarms, logging and message formatting: input and output only.
- File errors: opening, reading and writing the player file succeed, records are whole, and the index database may fail to be written.  Partial records are not part of this model: the truncation of a ragged file end, and `savepass` at a position outside the file, which writes only the first part of a record there.
- LoginProtocol.NamesStayUnique: a save is made by somebody who was in the game before the run, at a position in the file, or at a position that was handed out in the run; that the password test and the flags of observers and robots can prevent it is left out, so there are more saves in the model.  A login has a name, as the loop around the read demands.
- `REGISTERED_USERS` and guest logins; password checks after the look-up.
- PlayerDb.StaleIndexIsHarmless: needs hints that are not negative; a negative position makes the seek fail and the read start at the front, which `PlayerDb.HintAgreesWithScan` covers.
- Balance.Game.DoBalance: assumes at most 30 players, the bound in the source's own comment; with more, `1 << records` leaves the range of int.  The stop when nobody needs to move is kept; the messages are not.
- DraftSafety.AtMostOneUp: does not model the moment in which a slot that a captain left has been taken by a new player who has not entered yet: the captain flag is cleared at once and the draft state only on entering, so somebody who is no captain can be up until then.
- BaySafety.DockedShipsAreHeld: does not model observers, which copy the dock flag, base and bay of the ship they follow (`redraw.c`); when such an observer is taken out of the game, the release vacates the bay of the ship it followed, and another ship can dock there.
- The layout of the draft on the screen: the places ships are sent to are arbitrary targets.  Captain flags do not change during a draft.  A pool index of exactly MAXPLAYER reads past the slots in the source and is not part of this model.
- DraftSafety.PicksAlternate: counts passes of a captain with the picks, because a pass hands over the turn without a pick; it is about runs in which both captains stay in play and do not re-enter.  With one captain out the turn stays with the other, and a captain who comes back starts over, so the difference can grow; the other draft theorems hold all the same.
- ArmySafety.ArmiesStaySound: is about runs in which only ships of a real team carry armies or dock; what else a ship of no team can do is in `ArmySafety.BeamKeepsPlanetsExactly`.  Ship changes from outside beaming (deaths, refits, re-entry) are arbitrary as long as they keep the load within bounds.
- ArmySafety.PopulateKeeps: assumes at most 4498 armies when the plague is on; `ArmySafety.PlagueExactly` shows that the bound is exact.
- The null capital in `checkgen`: a team without a home planet has no coup timer to set; the source assumes there is one.
- Whether a team has too few players for its surrender countdown (`realNumShips`) is an input of each minute; the reasons kept for display are left out.
- Robots sent by the daemon, kills, statistics and the compile option `NO_BEAM_DOWN_OUT_OF_T_MODE`; INL games return early from `checkgen` and `checkwin`, as modelled, and are decided by a robot that is not.
- TorpSafety.CountersStayExact: excludes ping-pong plasma, Sturgeon, the conquest parade and the resets by robots and team changes, which move plasmas between players or zero counters while torpedoes fly.  A player slot is re-entered only after its counters have reached zero.
- Movement, tracking, wobbling and damage of torpedoes: wall hits and near ships are arbitrary inputs of a frame.
- RollingStats.RolloversAreSpaced: the test `ticks & mask` is modelled as a remainder, which needs the mask to be one less than a power of two, as the source asks.
- Sight distances are unbounded integers; the galaxy is small enough that the source's products do not overflow.
- SightSafety.SightIsExact: sight flags are written by the update, set at any moment as `draft.c` and `conquer.c` do, and cleared on entering only; the INL robot clears the memory too, which is a special case of entering.
- Distress.Macro.CondMacro: nothing is read past the end of the text.  In the source an unknown escape at the very end would step over the terminator; the stage before never writes one.
- DistressText.TwoDeepIsExact: text with the abort code, or longer than MAXMACLEN allows, is left out; both are in the scanner's function and method, where the abort ends only its own level.
- DistressText.UntakenIsExact: one literal stands behind the conditional.  Where the skipper goes wrong before longer text, what is lost depends on that text; `DistressText.PartLeftOutExactly` says when that happens.
- TorpClient.RunIsReadExactly: the client is the one the format describes; what real clients do besides, such as ending explosions by themselves, is not part of this model.  Only the status is compared, not the position.
- The first two stages of distress messages (`makedistress`, `testmacro`): plain substitution.
- `bay_init`: called only when nobody is docked.  Movement of docked ships.
- The conquest parade, Sturgeon, triple planet mayhem, wait queues, ship tables and features: optional modes, or code that depends on parts not modelled here.
- Floating point: kills, ratings and positions on the plane are inputs; turning and sight use the integers the source uses.
