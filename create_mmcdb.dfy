/** The full rebuild script: the score normaliser and the three preparation
    passes that fill the module-level lists and dictionaries before they are
    written to the database in bulk. */
module CreateMMCDB {
  import opened Records

  // ---------------------------------------------------------------------
  // Score normalisation
  // ---------------------------------------------------------------------

  /** Score strings entered for matches decided without games. */
  const WalkoverScores: seq<string> :=
    ["0--1", "2-99", "990-0", "69-0", "-99-99", "99-0",
     "0-99", "0-0", "0--99", "99-1", "0-98", "-1-0"]
  const OneZeroScores: seq<string> := ["0-1", "1-0"]
  const TwoZeroScores: seq<string> := ["1-0,1-0", "0-2", "0-1,0-1", "2-0"]
  const TwoOneScores: seq<string> := ["0-1,1-0,0-1", "1-2", "2-1", "0-1,1-0,1-0"]
  const ThreeZeroScores: seq<string> := ["3-0", "0-3"]
  const ThreeOneScores: seq<string> := ["0-1,0-1,1-0,0-1", "3-1", "1-0,0-1,0-1,0-1", "1-3"]
  const ThreeTwoScores: seq<string> := ["2-3", "3-2"]

  /** The pair returned for a score string in none of the lists. */
  const Unrecognised: (int, int) := (-2, -2)
  /** The pair returned for a walkover. */
  const Walkover: (int, int) := (0, -1)

  /** True when the score string is in one of the seven lists. */
  predicate Listed(score: string) {
    || score in WalkoverScores || score in OneZeroScores || score in TwoZeroScores
    || score in TwoOneScores || score in ThreeZeroScores || score in ThreeOneScores
    || score in ThreeTwoScores
  }

  /** Canonical (winner games, loser games) of a raw score string, by the
      same chain of list-membership tests as the script. */
  function ScoreFix(score: string): (r: (int, int))
    ensures r == Unrecognised <==> !Listed(score)
    ensures r.0 == -2 <==> r == Unrecognised
    ensures r != Unrecognised && r != Walkover ==> 0 <= r.1 < r.0 <= 3
  {
    if score in TwoZeroScores then (2, 0)
    else if score in TwoOneScores then (2, 1)
    else if score in OneZeroScores then (1, 0)
    else if score in WalkoverScores then Walkover
    else if score in ThreeZeroScores then (3, 0)
    else if score in ThreeOneScores then (3, 1)
    else if score in ThreeTwoScores then (3, 2)
    else Unrecognised
  }

  /** The diagnostic line the normaliser emits for a non-empty string it
      does not recognise: the score followed by a fixed note; nothing
      otherwise. */
  function UnknownScoreReport(score: string): Option<string> {
    if Listed(score) || score == "" then None else Some(score + " is unknown to the system")
  }

  // ---------------------------------------------------------------------
  // Specification of the preparation passes
  // ---------------------------------------------------------------------

  /** The ChallongeNames tuples for roster rows: one per row, in order. */
  function NameRows(rows: seq<RosterRow>): seq<NameRow> {
    seq(|rows|, i requires 0 <= i < |rows| => NameRow(rows[i].name, rows[i].normalName))
  }

  /** The canonical names occurring in the roster rows. */
  function NormalNames(rows: seq<RosterRow>): set<string> {
    set r | r in rows :: r.normalName
  }

  /** The Player tuples a roster pass adds: one per row whose canonical name
      has not been met in an earlier row. */
  function NewPlayers(rows: seq<RosterRow>): seq<PlayerRow> {
    if rows == [] then []
    else
      var init, last := rows[..|rows| - 1], rows[|rows| - 1];
      NewPlayers(init) + (if last.normalName in NormalNames(init) then [] else [PlayerOf(last)])
  }

  /** One more roster row: one more ChallongeNames tuple, its canonical
      name, a Player tuple iff that name is new, and its race assigned. */
  lemma RosterStep(rows: seq<RosterRow>, row: RosterRow, d: map<string, string>)
    ensures NameRows(rows + [row]) == NameRows(rows) + [NameRow(row.name, row.normalName)]
    ensures NormalNames(rows + [row]) == NormalNames(rows) + {row.normalName}
    ensures NewPlayers(rows + [row])
            == NewPlayers(rows) + (if row.normalName in NormalNames(rows) then [] else [PlayerOf(row)])
    ensures Overwrite(d, rows + [row], UsernameOf, MainRaceOf)
            == Overwrite(d, rows, UsernameOf, MainRaceOf)[row.name := row.race]
  {
    assert (rows + [row])[..|rows|] == rows;
  }

  function UsernameOf(r: RosterRow): string { r.name }
  function MainRaceOf(r: RosterRow): string { r.race }
  function IdOf(p: RawParticipant): string { p.id }
  function UsernameOfParticipant(p: RawParticipant): string { p.name }

  /** The Participants tuples a participant pass adds: those of the
      checked-in participants, in order. */
  function CheckedInRows(parts: seq<RawParticipant>): seq<ParticipantRow> {
    if parts == [] then []
    else
      var init, last := parts[..|parts| - 1], parts[|parts| - 1];
      CheckedInRows(init) + (if CheckedIn(last) then [ParticipantOf(last)] else [])
  }

  /** What the two dictionary lookups of a complete match give: the main
      races of winner and loser, or the first key that is missing. */
  function Resolve(m: RawMatch, ids: map<string, string>, races: map<string, string>): Result<(string, string), LookupError> {
    if m.winnerId !in ids then Err(UnknownParticipant(m.winnerId))
    else if m.loserId !in ids then Err(UnknownParticipant(m.loserId))
    else if ids[m.winnerId] !in races then Err(UnknownRaceOf(ids[m.winnerId]))
    else if ids[m.loserId] !in races then Err(UnknownRaceOf(ids[m.loserId]))
    else Ok((races[ids[m.winnerId]], races[ids[m.loserId]]))
  }

  /** The Matches tuple of a match, given its resolved races. */
  function MatchRowOf(m: RawMatch, races: (string, string)): MatchRow {
    var (w, l) := ScoreFix(m.scoresCsv);
    MatchRow(m.id, m.tournamentId, m.winnerId, m.loserId, w, l, m.round, races.0, races.1)
  }

  /** State of a match pass: tuples appended so far, the running round
      maximum, the elimination style, and the lookup that aborted it. */
  datatype MatchPass = MatchPass(kept: seq<MatchRow>, rounds: int, elim: Elimination, failure: Option<LookupError>)

  /** One iteration of the match loop. */
  function MatchStep(p: MatchPass, m: RawMatch, ids: map<string, string>, races: map<string, string>): MatchPass {
    if p.failure.Some? || !IsComplete(m) then p
    else match Resolve(m, ids, races)
      case Err(e) => p.(failure := Some(e))
      case Ok(rs) =>
        var row := MatchRowOf(m, rs);
        MatchPass(
          if row.winnerScore == -2 then p.kept else p.kept + [row],
          if p.rounds < m.round then m.round else p.rounds,
          if m.round < 0 then Double else p.elim,
          None)
  }

  /** The match loop over a whole list, from rounds 0 and single elimination. */
  function MatchFold(ms: seq<RawMatch>, ids: map<string, string>, races: map<string, string>): MatchPass {
    if ms == [] then MatchPass([], 0, Single, None)
    else MatchStep(MatchFold(ms[..|ms| - 1], ids, races), ms[|ms| - 1], ids, races)
  }

  /** Once a lookup has aborted the pass, later matches change nothing. */
  lemma {:induction false} FailureSticks(ms: seq<RawMatch>, k: nat, ids: map<string, string>, races: map<string, string>)
    requires k <= |ms|
    requires MatchFold(ms[..k], ids, races).failure.Some?
    ensures MatchFold(ms, ids, races) == MatchFold(ms[..k], ids, races)
    decreases |ms| - k
  {
    if k < |ms| {
      assert ms[..k + 1][..k] == ms[..k];
      FailureSticks(ms, k + 1, ids, races);
    } else {
      assert ms[..k] == ms;
    }
  }

  /** The summary the match pass returns: elimination style and rounds. */
  datatype Summary = Summary(elim: Elimination, rounds: int)

  /** The result of a whole match pass. */
  function PassResult(p: MatchPass): Result<Summary, LookupError> {
    if p.failure.Some? then Err(p.failure.value) else Ok(Summary(p.elim, p.rounds))
  }

  // ---------------------------------------------------------------------
  // The module-level lists and dictionaries, and the passes over them
  // ---------------------------------------------------------------------

  class Collector {
    var players: seq<PlayerRow>
    var challongeNames: seq<NameRow>
    var participants: seq<ParticipantRow>
    var matches: seq<MatchRow>
    /** Username to main race. */
    var playerRaces: map<string, string>
    /** Participant id to username. */
    var participantID: map<string, string>

    constructor ()
      ensures players == [] && challongeNames == [] && participants == [] && matches == []
      ensures playerRaces == map[] && participantID == map[]
    {
      players, challongeNames, participants, matches := [], [], [], [];
      playerRaces, participantID := map[], map[];
    }

    /** Roster pass: one ChallongeNames tuple per row, one Player tuple per
        new canonical name, and each username's main race. */
    method PreparePlayerData(names: seq<RosterRow>)
      modifies this
      ensures challongeNames == old(challongeNames) + NameRows(names)
      ensures players == old(players) + NewPlayers(names)
      ensures playerRaces == Overwrite(old(playerRaces), names, UsernameOf, MainRaceOf)
      ensures participants == old(participants) && matches == old(matches)
      ensures participantID == old(participantID)
    {
      var playersSeen: set<string> := {};
      var i := 0;
      while i < |names|
        invariant 0 <= i <= |names|
        invariant playersSeen == NormalNames(names[..i])
        invariant challongeNames == old(challongeNames) + NameRows(names[..i])
        invariant players == old(players) + NewPlayers(names[..i])
        invariant playerRaces == Overwrite(old(playerRaces), names[..i], UsernameOf, MainRaceOf)
        invariant participants == old(participants) && matches == old(matches)
        invariant participantID == old(participantID)
      {
        var row := names[i];
        assert names[..i + 1] == names[..i] + [row];
        RosterStep(names[..i], row, old(playerRaces));
        challongeNames := challongeNames + [NameRow(row.name, row.normalName)];
        if row.normalName !in playersSeen {
          playersSeen := playersSeen + {row.normalName};
          players := players + [PlayerOf(row)];
        }
        playerRaces := playerRaces[row.name := row.race];
        i := i + 1;
      }
      assert names[..i] == names;
    }

    /** Participant pass: the checked-in participants become Participants
        tuples; every participant's id is mapped to its username. */
    method PreparePartsData(partsData: seq<RawParticipant>)
      modifies this
      ensures participants == old(participants) + CheckedInRows(partsData)
      ensures participantID == Overwrite(old(participantID), partsData, IdOf, UsernameOfParticipant)
      ensures players == old(players) && challongeNames == old(challongeNames)
      ensures matches == old(matches) && playerRaces == old(playerRaces)
    {
      var i := 0;
      while i < |partsData|
        invariant 0 <= i <= |partsData|
        invariant participants == old(participants) + CheckedInRows(partsData[..i])
        invariant participantID == Overwrite(old(participantID), partsData[..i], IdOf, UsernameOfParticipant)
        invariant players == old(players) && challongeNames == old(challongeNames)
        invariant matches == old(matches) && playerRaces == old(playerRaces)
      {
        var participant := partsData[i];
        assert partsData[..i + 1][..i] == partsData[..i];
        if CheckedIn(participant) {
          participants := participants + [ParticipantOf(participant)];
        }
        participantID := participantID[participant.id := participant.name];
        i := i + 1;
      }
      assert partsData[..i] == partsData;
    }

    /** Match pass: appends the complete, recognised matches and returns the
        elimination style and the largest round; a failed lookup aborts it. */
    method PrepareMatchData(matchesData: seq<RawMatch>) returns (r: Result<Summary, LookupError>)
      modifies this
      ensures matches == old(matches) + MatchFold(matchesData, participantID, playerRaces).kept
      ensures r == PassResult(MatchFold(matchesData, participantID, playerRaces))
      ensures players == old(players) && challongeNames == old(challongeNames)
      ensures participants == old(participants)
      ensures playerRaces == old(playerRaces) && participantID == old(participantID)
    {
      var rounds := 0;
      var elim := Single;
      var i := 0;
      while i < |matchesData|
        invariant 0 <= i <= |matchesData|
        invariant |old(matches)| <= |matches| && matches[..|old(matches)|] == old(matches)
        invariant MatchFold(matchesData[..i], participantID, playerRaces)
               == MatchPass(matches[|old(matches)|..], rounds, elim, None)
        invariant players == old(players) && challongeNames == old(challongeNames)
        invariant participants == old(participants)
        invariant playerRaces == old(playerRaces) && participantID == old(participantID)
      {
        var m := matchesData[i];
        assert matchesData[..i + 1][..i] == matchesData[..i];
        if m.state == "complete" {
          var skip := false;
          if m.winnerId !in participantID || m.loserId !in participantID
             || participantID[m.winnerId] !in playerRaces || participantID[m.loserId] !in playerRaces {
            var e := Resolve(m, participantID, playerRaces).error;
            FailureSticks(matchesData, i + 1, participantID, playerRaces);
            assert matches == old(matches) + matches[|old(matches)|..];
            return Err(e);
          }
          var winnerName := participantID[m.winnerId];
          var loserName := participantID[m.loserId];
          var winnerRace := playerRaces[winnerName];
          var loserRace := playerRaces[loserName];
          var (winnerScore, loserScore) := ScoreFix(m.scoresCsv);
          if winnerScore == -2 {
            skip := true;
          }
          if rounds < m.round {
            rounds := m.round;
          }
          if m.round < 0 {
            elim := Double;
          }
          if !skip {
            ghost var before := matches;
            matches := matches + [MatchRow(m.id, m.tournamentId, m.winnerId, m.loserId,
                                           winnerScore, loserScore, m.round, winnerRace, loserRace)];
            assert matches[|old(matches)|..] == before[|old(matches)|..] + [matches[|matches| - 1]];
          }
        }
        i := i + 1;
      }
      assert matchesData[..i] == matchesData;
      assert matches == old(matches) + matches[|old(matches)|..];
      r := Ok(Summary(elim, rounds));
    }
  }
}
