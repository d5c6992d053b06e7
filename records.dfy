/** Records shared by both ingestion scripts: the rows read from the roster
    file and the tournament host's JSON dumps, the rows written to the
    database tables, and the small wrappers used for error paths. Every value
    the scripts pass through `str(...)` is already a string here. */
module Records {

  datatype Option<+T> = None | Some(value: T)

  datatype Result<+T, +E> = Ok(value: T) | Err(error: E)

  /** One row of the roster file (columns Name, Normal Name, Race, Country,
      Team, OffRace). `name` is a tournament-host username, `normalName` the
      canonical player it belongs to. */
  datatype RosterRow = RosterRow(
    name: string,
    normalName: string,
    race: string,
    country: string,
    team: string,
    offRace: string)

  /** One participant record of a tournament. `finalRank` is absent (JSON
      null) for those who signed up but never checked in. */
  datatype RawParticipant = RawParticipant(
    id: string,
    name: string,
    challongeUserId: string,
    tournamentId: string,
    finalRank: Option<int>)

  /** One match record of a tournament. `round` is signed: negative rounds
      belong to the losers' bracket. */
  datatype RawMatch = RawMatch(
    id: string,
    tournamentId: string,
    winnerId: string,
    loserId: string,
    scoresCsv: string,
    round: int,
    state: string,
    startedAt: string)

  /** A row of the ChallongeNames table: username and canonical name. */
  datatype NameRow = NameRow(cname: string, name: string)

  /** A row of the Player table. */
  datatype PlayerRow = PlayerRow(
    name: string,
    mainRace: string,
    country: string,
    team: string,
    offRace: string)

  /** A row of the Participants table. */
  datatype ParticipantRow = ParticipantRow(
    challongeId: string,
    cname: string,
    accountId: string,
    tournamentId: string)

  /** A row of the Matches table. */
  datatype MatchRow = MatchRow(
    matchId: string,
    tournamentId: string,
    winnerId: string,
    loserId: string,
    winnerScore: int,
    loserScore: int,
    round: int,
    winnerRace: string,
    loserRace: string)

  /** Elimination style of a tournament: single ("s" in the MMC table) or
      double ("d"). */
  datatype Elimination = Single | Double

  /** The key that a dictionary lookup of a match loop failed on: an unknown
      participant id, or a username without a race entry. */
  datatype LookupError = UnknownParticipant(id: string) | UnknownRaceOf(name: string)

  /** A participant counts as checked in when its final rank is truthy:
      present and non-zero. */
  predicate CheckedIn(p: RawParticipant) {
    p.finalRank.Some? && p.finalRank.value != 0
  }

  predicate IsComplete(m: RawMatch) {
    m.state == "complete"
  }

  /** The Player row built from a roster row. */
  function PlayerOf(r: RosterRow): PlayerRow {
    PlayerRow(r.normalName, r.race, r.country, r.team, r.offRace)
  }

  /** The Participants row built from a participant record. */
  function ParticipantOf(p: RawParticipant): ParticipantRow {
    ParticipantRow(p.id, p.name, p.challongeUserId, p.tournamentId)
  }

  /** The dictionary left after assigning `d[key(x)] = value(x)` for each
      `x` of `xs` in order, starting from `d`: later assignments win. */
  function Overwrite<T>(d: map<string, string>, xs: seq<T>, key: T -> string, value: T -> string): map<string, string> {
    if xs == [] then d
    else Overwrite(d, xs[..|xs| - 1], key, value)[key(xs[|xs| - 1]) := value(xs[|xs| - 1])]
  }

  /** A key is in the overwritten dictionary iff it was there before or some
      element assigns it; an element that no later element overrides leaves
      its value; a key no element assigns keeps its old value. */
  lemma {:induction false} OverwriteLastWins<T>(d: map<string, string>, xs: seq<T>, key: T -> string, value: T -> string)
    ensures forall k :: k in Overwrite(d, xs, key, value) <==> k in d || exists i :: 0 <= i < |xs| && key(xs[i]) == k
    ensures forall i | 0 <= i < |xs| && (forall j :: i < j < |xs| ==> key(xs[j]) != key(xs[i])) ::
              Overwrite(d, xs, key, value)[key(xs[i])] == value(xs[i])
    ensures forall k | k in d && (forall i :: 0 <= i < |xs| ==> key(xs[i]) != k) ::
              Overwrite(d, xs, key, value)[k] == d[k]
  {
    if xs != [] {
      var init := xs[..|xs| - 1];
      OverwriteLastWins(d, init, key, value);
      forall k | k in Overwrite(d, xs, key, value) && k !in d
        ensures exists i :: 0 <= i < |xs| && key(xs[i]) == k
      {
        if k != key(xs[|xs| - 1]) {
          var i :| 0 <= i < |init| && key(init[i]) == k;
          assert xs[i] == init[i];
        }
      }
      forall k | exists i :: 0 <= i < |xs| && key(xs[i]) == k
        ensures k in Overwrite(d, xs, key, value)
      {
        var i :| 0 <= i < |xs| && key(xs[i]) == k;
        if i < |init| { assert init[i] == xs[i]; }
      }
      forall i | 0 <= i < |xs| && (forall j :: i < j < |xs| ==> key(xs[j]) != key(xs[i]))
        ensures Overwrite(d, xs, key, value)[key(xs[i])] == value(xs[i])
      {
        if i < |init| {
          assert init[i] == xs[i];
          forall j | i < j < |init| ensures key(init[j]) != key(init[i]) { assert init[j] == xs[j]; }
        }
      }
      forall k | k in d && (forall i :: 0 <= i < |xs| ==> key(xs[i]) != k)
        ensures Overwrite(d, xs, key, value)[k] == d[k]
      {
        forall i | 0 <= i < |init| ensures key(init[i]) != k { assert init[i] == xs[i]; }
      }
    }
  }
}
