/** The incremental script: adds one new tournament edition to an existing
    database. Its SQLite tables are maps keyed by their primary keys; every
    insertion is preceded by a lookup of that key and skipped when the key
    is present. */
module AddMMC {
  import opened Records

  // ---------------------------------------------------------------------
  // Score normalisation (this script's own copy)
  // ---------------------------------------------------------------------

  const WalkoverScores: seq<string> :=
    ["0--1", "2-99", "990-0", "69-0", "-99-99", "99-0",
     "0-99", "0-0", "0--99", "99-1", "0-98", "-1-0"]
  const OneZeroScores: seq<string> := ["0-1", "1-0"]
  const TwoZeroScores: seq<string> := ["1-0,1-0", "0-2", "0-1,0-1", "2-0"]
  const TwoOneScores: seq<string> := ["0-1,1-0,0-1", "1-2", "2-1", "0-1,1-0,1-0"]
  const ThreeZeroScores: seq<string> := ["3-0", "0-3"]
  const ThreeOneScores: seq<string> := ["0-1,0-1,1-0,0-1", "3-1", "1-0,0-1,0-1,0-1", "1-3"]
  const ThreeTwoScores: seq<string> := ["2-3", "3-2"]

  predicate Listed(score: string) {
    || score in WalkoverScores || score in OneZeroScores || score in TwoZeroScores
    || score in TwoOneScores || score in ThreeZeroScores || score in ThreeOneScores
    || score in ThreeTwoScores
  }

  /** Canonical (winner games, loser games) of a raw score string: (-2, -2)
      when unrecognised, (0, -1) for a walkover, else winner > loser >= 0. */
  function ScoreFix(score: string): (r: (int, int))
    ensures r == (-2, -2) <==> !Listed(score)
    ensures r != (-2, -2) && r != (0, -1) ==> 0 <= r.1 < r.0 <= 3
  {
    if score in TwoZeroScores then (2, 0)
    else if score in TwoOneScores then (2, 1)
    else if score in OneZeroScores then (1, 0)
    else if score in WalkoverScores then (0, -1)
    else if score in ThreeZeroScores then (3, 0)
    else if score in ThreeOneScores then (3, 1)
    else if score in ThreeTwoScores then (3, 2)
    else (-2, -2)
  }

  /** The diagnostic line the normaliser emits for a non-empty unknown score. */
  function UnknownScoreReport(score: string): Option<string> {
    if Listed(score) || score == "" then None else Some(score + " is unknown to the system")
  }

  // ---------------------------------------------------------------------
  // Check for usernames missing from the roster
  // ---------------------------------------------------------------------

  /** Collects the participants' usernames, reports those missing from the
      roster's Name column, and asks the process to stop (exit code 1) iff
      there is at least one. */
  method NewChallongeNames(partsData: seq<RawParticipant>, names: seq<string>) returns (reported: set<string>, end: bool)
    ensures reported == set p | p in partsData && p.name !in names :: p.name
    ensures end <==> exists i :: 0 <= i < |partsData| && partsData[i].name !in names
  {
    var newNames: set<string> := {};
    var i := 0;
    while i < |partsData|
      invariant 0 <= i <= |partsData|
      invariant newNames == set p | p in partsData[..i] :: p.name
    {
      assert partsData[..i + 1] == partsData[..i] + [partsData[i]];
      newNames := newNames + {partsData[i].name};
      i := i + 1;
    }
    assert partsData[..i] == partsData;
    end := false;
    reported := {};
    var toCheck := newNames;
    while toCheck != {}
      invariant toCheck <= newNames
      invariant reported == set n | n in newNames - toCheck && n !in names
      invariant end <==> reported != {}
      decreases toCheck
    {
      var name :| name in toCheck;
      if name !in names {
        reported := reported + {name};
        end := true;
      }
      toCheck := toCheck - {name};
    }
    assert reported == set p | p in partsData && p.name !in names :: p.name;
    if end {
      var n :| n in reported;
      var p :| p in partsData && p.name == n && p.name !in names;
      var k :| 0 <= k < |partsData| && partsData[k] == p;
      assert partsData[k].name !in names;
    } else {
      forall k | 0 <= k < |partsData| ensures partsData[k].name in names {
        var n := partsData[k].name;
        assert partsData[k] in partsData;
        assert n !in names ==> n in reported;
      }
    }
  }

  // ---------------------------------------------------------------------
  // Participant loop
  // ---------------------------------------------------------------------

  /** Main race and off race of a username. */
  datatype Races = Races(main: string, off: string)

  /** The first roster row with the given username, if any. */
  function FindName(roster: seq<RosterRow>, name: string): (r: Option<RosterRow>)
    ensures r.None? <==> forall i :: 0 <= i < |roster| ==> roster[i].name != name
    ensures r.Some? ==> exists i :: 0 <= i < |roster| && roster[i] == r.value && roster[i].name == name
                                    && forall j :: 0 <= j < i ==> roster[j].name != name
  {
    if roster == [] then None
    else if roster[0].name == name then Some(roster[0])
    else
      var r := FindName(roster[1..], name);
      if r.Some? then
        var i :| 0 <= i < |roster[1..]| && roster[1..][i] == r.value && roster[1..][i].name == name
                 && forall j :: 0 <= j < i ==> roster[1..][j].name != name;
        assert roster[i + 1] == r.value;
        r
      else r
  }

  /** What the participant loop maintains: three tables and two dictionaries. */
  datatype Entries = Entries(
    challongeNames: map<string, string>,
    players: map<string, PlayerRow>,
    participants: map<string, ParticipantRow>,
    playerRaces: map<string, Races>,
    participantID: map<string, string>)

  /** One iteration of the participant loop. A username missing from the
      roster raises before anything is written; the handler skips it. */
  function EnterOne(e: Entries, roster: seq<RosterRow>, p: RawParticipant): Entries {
    match FindName(roster, p.name)
    case None => e
    case Some(row) =>
      Entries(
        if p.name in e.challongeNames then e.challongeNames else e.challongeNames[p.name := row.normalName],
        if row.normalName in e.players then e.players else e.players[row.normalName := PlayerOf(row)],
        if p.id in e.participants then e.participants else e.participants[p.id := ParticipantOf(p)],
        e.playerRaces[p.name := Races(row.race, row.offRace)],
        e.participantID[p.id := p.name])
  }

  /** The participant loop over a whole list. */
  function EnterAll(e: Entries, roster: seq<RosterRow>, parts: seq<RawParticipant>): Entries {
    if parts == [] then e
    else EnterOne(EnterAll(e, roster, parts[..|parts| - 1]), roster, parts[|parts| - 1])
  }

  /** The usernames the loop reports as not added, in order. */
  function NotAdded(roster: seq<RosterRow>, parts: seq<RawParticipant>): seq<string> {
    if parts == [] then []
    else
      var init, p := parts[..|parts| - 1], parts[|parts| - 1];
      NotAdded(roster, init) + (if FindName(roster, p.name).None? then [p.name] else [])
  }

  // ---------------------------------------------------------------------
  // Match loop
  // ---------------------------------------------------------------------

  /** What the two dictionary lookups of a new complete match give: the main
      races of winner and loser, or the first key that is missing. */
  function Resolve(m: RawMatch, ids: map<string, string>, races: map<string, Races>): Result<(string, string), LookupError> {
    if m.winnerId !in ids then Err(UnknownParticipant(m.winnerId))
    else if m.loserId !in ids then Err(UnknownParticipant(m.loserId))
    else if ids[m.winnerId] !in races then Err(UnknownRaceOf(ids[m.winnerId]))
    else if ids[m.loserId] !in races then Err(UnknownRaceOf(ids[m.loserId]))
    else Ok((races[ids[m.winnerId]].main, races[ids[m.loserId]].main))
  }

  /** The Matches row of a match; the tournament id is that of the first
      match of the file. */
  function MatchRowOf(m: RawMatch, tournamentId: string, races: (string, string)): MatchRow {
    var (w, l) := ScoreFix(m.scoresCsv);
    MatchRow(m.id, tournamentId, m.winnerId, m.loserId, w, l, m.round, races.0, races.1)
  }

  /** State of the match loop: the Matches table, the running round maximum,
      the elimination style, and the lookup that aborted the loop. */
  datatype MatchPass = MatchPass(table: map<string, MatchRow>, rounds: int, elim: Elimination, failure: Option<LookupError>)

  /** One iteration of the match loop: a complete match whose id is not yet
      stored is looked up, counted towards the aggregates, and inserted
      unless its score is unrecognised. */
  function MatchStep(p: MatchPass, m: RawMatch, tid: string, ids: map<string, string>, races: map<string, Races>): MatchPass {
    if p.failure.Some? || !IsComplete(m) || m.id in p.table then p
    else match Resolve(m, ids, races)
      case Err(e) => p.(failure := Some(e))
      case Ok(rs) =>
        var row := MatchRowOf(m, tid, rs);
        MatchPass(
          if row.winnerScore == -2 then p.table else p.table[m.id := row],
          if p.rounds < m.round then m.round else p.rounds,
          if m.round < 0 then Double else p.elim,
          None)
  }

  /** The match loop over a whole list, starting from the stored table,
      rounds 0 and single elimination. */
  function MatchFold(table: map<string, MatchRow>, ms: seq<RawMatch>, tid: string, ids: map<string, string>, races: map<string, Races>): MatchPass {
    if ms == [] then MatchPass(table, 0, Single, None)
    else MatchStep(MatchFold(table, ms[..|ms| - 1], tid, ids, races), ms[|ms| - 1], tid, ids, races)
  }

  lemma {:induction false} FailureSticks(table: map<string, MatchRow>, ms: seq<RawMatch>, k: nat, tid: string,
                                         ids: map<string, string>, races: map<string, Races>)
    requires k <= |ms|
    requires MatchFold(table, ms[..k], tid, ids, races).failure.Some?
    ensures MatchFold(table, ms, tid, ids, races) == MatchFold(table, ms[..k], tid, ids, races)
    decreases |ms| - k
  {
    if k < |ms| {
      assert ms[..k + 1][..k] == ms[..k];
      FailureSticks(table, ms, k + 1, tid, ids, races);
    } else {
      assert ms[..k] == ms;
    }
  }

  /** A row of the MMC table. */
  datatype MmcRow = MmcRow(tournamentId: string, number: int, elim: Elimination, rounds: int, date: string)

  /** Why the match part of the script stops with an uncaught exception:
      an empty match file, a failed lookup, or an MMC row whose primary key
      is taken by another edition. */
  datatype InsertError = NoMatches | Lookup(cause: LookupError) | DuplicateTournament(tournamentId: string)

  predicate HasEdition(mmc: map<string, MmcRow>, number: int) {
    exists t :: t in mmc && mmc[t].number == number
  }

  /** The MMC table after the final insertion: unchanged when a row with the
      edition's number exists, else the row is inserted under its tournament
      id, which fails when that id is already taken. */
  function AddEdition(mmc: map<string, MmcRow>, row: MmcRow): Result<map<string, MmcRow>, InsertError> {
    if HasEdition(mmc, row.number) then Ok(mmc)
    else if row.tournamentId in mmc then Err(DuplicateTournament(row.tournamentId))
    else Ok(mmc[row.tournamentId := row])
  }

  /** The Matches and MMC tables after the match part, with its outcome. */
  datatype MatchEffect = MatchEffect(matches: map<string, MatchRow>, mmc: map<string, MmcRow>, outcome: Option<InsertError>)

  /** The whole match part of the script, as a function of the tables it
      starts from, the match file, the edition number and the dictionaries
      filled by the participant loop. */
  function EnterMatchesSpec(matches: map<string, MatchRow>, mmc: map<string, MmcRow>, ms: seq<RawMatch>, edition: int,
                            ids: map<string, string>, races: map<string, Races>): MatchEffect {
    if ms == [] then MatchEffect(matches, mmc, Some(NoMatches))
    else
      var p := MatchFold(matches, ms, ms[0].tournamentId, ids, races);
      if p.failure.Some? then MatchEffect(p.table, mmc, Some(Lookup(p.failure.value)))
      else match AddEdition(mmc, MmcRow(ms[0].tournamentId, edition, p.elim, p.rounds, ms[0].startedAt))
        case Ok(mmc') => MatchEffect(p.table, mmc', None)
        case Err(e) => MatchEffect(p.table, mmc, Some(e))
  }

  // ---------------------------------------------------------------------
  // The database and the module-level dictionaries
  // ---------------------------------------------------------------------

  class Store {
    /** ChallongeNames: CNAME to NAME. */
    var challongeNames: map<string, string>
    /** Player: NAME to row. */
    var players: map<string, PlayerRow>
    /** Participants: CHALLONGEID to row. */
    var participants: map<string, ParticipantRow>
    /** Matches: MATCHID to row. */
    var matches: map<string, MatchRow>
    /** MMC: TOURNAMENTID to row. */
    var mmc: map<string, MmcRow>
    /** Username to main and off race. */
    var playerRaces: map<string, Races>
    /** Participant id to username. */
    var participantID: map<string, string>

    /** A store over existing tables, with the dictionaries empty as at start-up. */
    constructor (challongeNames: map<string, string>, players: map<string, PlayerRow>,
                 participants: map<string, ParticipantRow>, matches: map<string, MatchRow>, mmc: map<string, MmcRow>)
      ensures this.challongeNames == challongeNames && this.players == players
      ensures this.participants == participants && this.matches == matches && this.mmc == mmc
      ensures playerRaces == map[] && participantID == map[]
    {
      this.challongeNames, this.players, this.participants := challongeNames, players, participants;
      this.matches, this.mmc := matches, mmc;
      playerRaces, participantID := map[], map[];
    }

    function Snapshot(): Entries
      reads this
    {
      Entries(challongeNames, players, participants, playerRaces, participantID)
    }

    /** The participant loop: fills the dictionaries and inserts into
        ChallongeNames, Player and Participants only where the key is absent;
        participants missing from the roster are reported and skipped. */
    method EnterParticipants(namesFile: seq<RosterRow>, partsData: seq<RawParticipant>) returns (notAdded: seq<string>)
      modifies this
      ensures Snapshot() == EnterAll(old(Snapshot()), namesFile, partsData)
      ensures notAdded == NotAdded(namesFile, partsData)
      ensures matches == old(matches) && mmc == old(mmc)
    {
      notAdded := [];
      var i := 0;
      while i < |partsData|
        invariant 0 <= i <= |partsData|
        invariant Snapshot() == EnterAll(old(Snapshot()), namesFile, partsData[..i])
        invariant notAdded == NotAdded(namesFile, partsData[..i])
        invariant matches == old(matches) && mmc == old(mmc)
      {
        var p := partsData[i];
        assert partsData[..i + 1][..i] == partsData[..i];
        var found := FindName(namesFile, p.name);
        if found.None? {
          notAdded := notAdded + [p.name];
        } else {
          var row := found.value;
          var name := p.name;
          var normalName := row.normalName;
          playerRaces := playerRaces[name := Races(row.race, row.offRace)];
          participantID := participantID[p.id := name];
          if name !in challongeNames {
            challongeNames := challongeNames[name := normalName];
          }
          if normalName !in players {
            players := players[normalName := PlayerOf(row)];
          }
          if p.id !in participants {
            participants := participants[p.id := ParticipantOf(p)];
          }
        }
        i := i + 1;
      }
      assert partsData[..i] == partsData;
    }

    /** The match loop and the MMC row: new complete matches are inserted
        unless their score is unrecognised; the edition's row is added when
        no row has its number. */
    method EnterMatches(matchesData: seq<RawMatch>, edition: int) returns (failure: Option<InsertError>)
      modifies this
      ensures var eff := EnterMatchesSpec(old(matches), old(mmc), matchesData, edition, participantID, playerRaces);
              matches == eff.matches && mmc == eff.mmc && failure == eff.outcome
      ensures Snapshot() == old(Snapshot())
    {
      if |matchesData| == 0 {
        return Some(NoMatches);
      }
      var tournamentID := matchesData[0].tournamentId;
      var date := matchesData[0].startedAt;
      var rounds := 0;
      var elim := Single;
      var i := 0;
      while i < |matchesData|
        invariant 0 <= i <= |matchesData|
        invariant MatchFold(old(matches), matchesData[..i], tournamentID, participantID, playerRaces)
               == MatchPass(matches, rounds, elim, None)
        invariant mmc == old(mmc) && Snapshot() == old(Snapshot())
      {
        var m := matchesData[i];
        assert matchesData[..i + 1][..i] == matchesData[..i];
        if m.state == "complete" {
          var skip := false;
          if m.id !in matches {
            if m.winnerId !in participantID || m.loserId !in participantID
               || participantID[m.winnerId] !in playerRaces || participantID[m.loserId] !in playerRaces {
              var e := Resolve(m, participantID, playerRaces).error;
              FailureSticks(old(matches), matchesData, i + 1, tournamentID, participantID, playerRaces);
              return Some(Lookup(e));
            }
            var winnerName := participantID[m.winnerId];
            var loserName := participantID[m.loserId];
            var winnerRace := playerRaces[winnerName].main;
            var loserRace := playerRaces[loserName].main;
            var (winnerScore, loserScore) := ScoreFix(m.scoresCsv);
            if winnerScore == -2 {
              skip := true;
            }
            if rounds < m.round {
              rounds := m.round;
            }
            if m.round < 0 {
              elim := Double;
            }
            if !skip {
              matches := matches[m.id := MatchRow(m.id, tournamentID, m.winnerId, m.loserId,
                                                  winnerScore, loserScore, m.round, winnerRace, loserRace)];
            }
          }
        }
        i := i + 1;
      }
      assert matchesData[..i] == matchesData;
      if !HasEdition(mmc, edition) {
        if tournamentID in mmc {
          return Some(DuplicateTournament(tournamentID));
        }
        mmc := mmc[tournamentID := MmcRow(tournamentID, edition, elim, rounds, date)];
      }
      failure := None;
    }

    /** The whole insertion step: the participant loop, then the match part. */
    method InsertData(namesFile: seq<RosterRow>, partsData: seq<RawParticipant>, matchesData: seq<RawMatch>, edition: int)
      returns (notAdded: seq<string>, failure: Option<InsertError>)
      modifies this
      ensures Snapshot() == EnterAll(old(Snapshot()), namesFile, partsData)
      ensures notAdded == NotAdded(namesFile, partsData)
      ensures var eff := EnterMatchesSpec(old(matches), old(mmc), matchesData, edition, participantID, playerRaces);
              matches == eff.matches && mmc == eff.mmc && failure == eff.outcome
    {
      notAdded := EnterParticipants(namesFile, partsData);
      failure := EnterMatches(matchesData, edition);
    }
  }
}
