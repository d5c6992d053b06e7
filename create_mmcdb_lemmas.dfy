/** What the preparation passes of the rebuild script promise, stated about
    the functions their methods are proved against. */
module CreateMMCDBLemmas {
  import opened Records
  import opened CreateMMCDB

  // ---------------------------------------------------------------------
  // Roster pass
  // ---------------------------------------------------------------------

  /** Row `i` is the first roster row carrying its canonical name. */
  predicate FirstOfItsName(rows: seq<RosterRow>, i: int) {
    0 <= i < |rows| && forall j :: 0 <= j < i ==> rows[j].normalName != rows[i].normalName
  }

  /** No canonical name is given two Player tuples. */
  lemma {:induction false} NewPlayersDistinct(rows: seq<RosterRow>)
    ensures forall i, j :: 0 <= i < j < |NewPlayers(rows)| ==> NewPlayers(rows)[i].name != NewPlayers(rows)[j].name
    ensures forall p :: p in NewPlayers(rows) ==> p.name in NormalNames(rows)
  {
    if rows != [] {
      var init, last := rows[..|rows| - 1], rows[|rows| - 1];
      NewPlayersDistinct(init);
      assert rows == init + [last];
      assert NormalNames(rows) == NormalNames(init) + {last.normalName};
    }
  }

  /** The Player tuples are exactly those of the first row of each
      canonical name, and every canonical name of the roster gets one. */
  lemma {:induction false} NewPlayersAreFirstRows(rows: seq<RosterRow>)
    ensures forall p :: p in NewPlayers(rows) ==> exists i :: FirstOfItsName(rows, i) && p == PlayerOf(rows[i])
    ensures forall i :: FirstOfItsName(rows, i) ==> PlayerOf(rows[i]) in NewPlayers(rows)
    ensures forall n :: n in NormalNames(rows) ==> exists p :: p in NewPlayers(rows) && p.name == n
  {
    if rows != [] {
      var init, last := rows[..|rows| - 1], rows[|rows| - 1];
      NewPlayersAreFirstRows(init);
      assert rows == init + [last];
      assert NormalNames(rows) == NormalNames(init) + {last.normalName};
      forall p | p in NewPlayers(rows)
        ensures exists i :: FirstOfItsName(rows, i) && p == PlayerOf(rows[i])
      {
        if p in NewPlayers(init) {
          var i :| FirstOfItsName(init, i) && p == PlayerOf(init[i]);
          assert FirstOfItsName(rows, i);
        } else {
          assert p == PlayerOf(last) && last.normalName !in NormalNames(init);
          forall j | 0 <= j < |init| ensures rows[j].normalName != last.normalName {
            assert init[j] in init;
          }
          assert FirstOfItsName(rows, |init|);
        }
      }
      forall i | FirstOfItsName(rows, i)
        ensures PlayerOf(rows[i]) in NewPlayers(rows)
      {
        if i < |init| {
          assert FirstOfItsName(init, i);
        }
      }
      forall n | n in NormalNames(rows)
        ensures exists p :: p in NewPlayers(rows) && p.name == n
      {
        if n !in NormalNames(init) {
          assert n == last.normalName;
          assert PlayerOf(last) in NewPlayers(rows);
        }
      }
    }
  }

  // ---------------------------------------------------------------------
  // Participant pass
  // ---------------------------------------------------------------------

  /** The participant filter keeps input order: filtering a concatenation
      concatenates the filtered parts. */
  lemma {:induction false} CheckedInRowsAppend(a: seq<RawParticipant>, b: seq<RawParticipant>)
    ensures CheckedInRows(a + b) == CheckedInRows(a) + CheckedInRows(b)
    decreases |b|
  {
    if b == [] {
      assert a + b == a;
    } else {
      var init, last := b[..|b| - 1], b[|b| - 1];
      assert (a + b)[..|a + b| - 1] == a + init;
      CheckedInRowsAppend(a, init);
    }
  }

  /** A Participants tuple is added exactly for the checked-in participants. */
  lemma {:induction false} CheckedInRowsMembers(parts: seq<RawParticipant>)
    ensures forall row :: row in CheckedInRows(parts) <==>
              exists i :: 0 <= i < |parts| && CheckedIn(parts[i]) && row == ParticipantOf(parts[i])
  {
    if parts != [] {
      var init, last := parts[..|parts| - 1], parts[|parts| - 1];
      CheckedInRowsMembers(init);
      forall row | exists i :: 0 <= i < |parts| && CheckedIn(parts[i]) && row == ParticipantOf(parts[i])
        ensures row in CheckedInRows(parts)
      {
        var i :| 0 <= i < |parts| && CheckedIn(parts[i]) && row == ParticipantOf(parts[i]);
        if i < |init| { assert init[i] == parts[i]; }
      }
      forall row | row in CheckedInRows(parts)
        ensures exists i :: 0 <= i < |parts| && CheckedIn(parts[i]) && row == ParticipantOf(parts[i])
      {
        if row in CheckedInRows(init) {
          var i :| 0 <= i < |init| && CheckedIn(init[i]) && row == ParticipantOf(init[i]);
          assert init[i] == parts[i];
        } else {
          assert CheckedIn(parts[|parts| - 1]) && row == ParticipantOf(parts[|parts| - 1]);
        }
      }
    }
  }

  /** Every participant, checked in or not, has its id mapped to its
      username; of two participants with the same id the later one wins. */
  lemma ParticipantIdsLastWins(d: map<string, string>, parts: seq<RawParticipant>)
    ensures forall i | 0 <= i < |parts| :: parts[i].id in Overwrite(d, parts, IdOf, UsernameOfParticipant)
    ensures forall i | 0 <= i < |parts| && (forall j :: i < j < |parts| ==> parts[j].id != parts[i].id) ::
              Overwrite(d, parts, IdOf, UsernameOfParticipant)[parts[i].id] == parts[i].name
  {
    OverwriteLastWins(d, parts, IdOf, UsernameOfParticipant);
  }

  // ---------------------------------------------------------------------
  // Match pass
  // ---------------------------------------------------------------------

  /** Reference definition of the tuples a match pass should keep: every
      complete match whose lookups succeed and whose score is recognised. */
  function Recorded(ms: seq<RawMatch>, ids: map<string, string>, races: map<string, string>): seq<MatchRow> {
    if ms == [] then []
    else
      var init, m := ms[..|ms| - 1], ms[|ms| - 1];
      Recorded(init, ids, races)
      + (if IsComplete(m) && Resolve(m, ids, races).Ok? && ScoreFix(m.scoresCsv).0 != -2
         then [MatchRowOf(m, Resolve(m, ids, races).value)] else [])
  }

  /** `Recorded` keeps input order. */
  lemma {:induction false} RecordedAppend(a: seq<RawMatch>, b: seq<RawMatch>, ids: map<string, string>, races: map<string, string>)
    ensures Recorded(a + b, ids, races) == Recorded(a, ids, races) + Recorded(b, ids, races)
    decreases |b|
  {
    if b == [] {
      assert a + b == a;
    } else {
      assert (a + b)[..|a + b| - 1] == a + b[..|b| - 1];
      RecordedAppend(a, b[..|b| - 1], ids, races);
    }
  }

  /** A pass that no lookup aborts keeps exactly the `Recorded` tuples. */
  lemma {:induction false} MatchFoldKeepsRecorded(ms: seq<RawMatch>, ids: map<string, string>, races: map<string, string>)
    requires MatchFold(ms, ids, races).failure == None
    ensures MatchFold(ms, ids, races).kept == Recorded(ms, ids, races)
  {
    if ms != [] {
      MatchFoldKeepsRecorded(ms[..|ms| - 1], ids, races);
    }
  }

  /** A pass is aborted iff some complete match has a missing key, and then
      by the first such match, with the key its lookups miss first. */
  lemma {:induction false} MatchFoldFailure(ms: seq<RawMatch>, ids: map<string, string>, races: map<string, string>)
    ensures MatchFold(ms, ids, races).failure == None <==>
              forall i :: 0 <= i < |ms| && IsComplete(ms[i]) ==> Resolve(ms[i], ids, races).Ok?
    ensures MatchFold(ms, ids, races).failure.Some? ==>
              exists i :: 0 <= i < |ms| && IsComplete(ms[i]) && Resolve(ms[i], ids, races).Err?
                && MatchFold(ms, ids, races).failure == Some(Resolve(ms[i], ids, races).error)
                && forall j :: 0 <= j < i && IsComplete(ms[j]) ==> Resolve(ms[j], ids, races).Ok?
  {
    if ms != [] {
      var init, m := ms[..|ms| - 1], ms[|ms| - 1];
      MatchFoldFailure(init, ids, races);
      assert forall i :: 0 <= i < |init| ==> init[i] == ms[i];
      if MatchFold(init, ids, races).failure.Some? {
        var i :| 0 <= i < |init| && IsComplete(init[i]) && Resolve(init[i], ids, races).Err?
                 && MatchFold(init, ids, races).failure == Some(Resolve(init[i], ids, races).error)
                 && forall j :: 0 <= j < i && IsComplete(init[j]) ==> Resolve(init[j], ids, races).Ok?;
        assert ms[i] == init[i];
      }
    }
  }

  /** The rounds a pass returns: at least 0, at least the round of every
      complete match (recognised score or not), and either 0 or one of those
      rounds. Losers'-bracket rounds are negative and never raise it. */
  lemma {:induction false} MatchFoldRoundsIsMax(ms: seq<RawMatch>, ids: map<string, string>, races: map<string, string>)
    requires MatchFold(ms, ids, races).failure == None
    ensures MatchFold(ms, ids, races).rounds >= 0
    ensures forall i :: 0 <= i < |ms| && IsComplete(ms[i]) ==> ms[i].round <= MatchFold(ms, ids, races).rounds
    ensures MatchFold(ms, ids, races).rounds == 0
            || exists i :: 0 <= i < |ms| && IsComplete(ms[i]) && ms[i].round == MatchFold(ms, ids, races).rounds
  {
    if ms != [] {
      var init, m := ms[..|ms| - 1], ms[|ms| - 1];
      MatchFoldRoundsIsMax(init, ids, races);
      assert forall i :: 0 <= i < |init| ==> init[i] == ms[i];
    }
  }

  /** The pass reports double elimination iff some complete match, recognised
      score or not, is in a negative (losers'-bracket) round. */
  lemma {:induction false} MatchFoldElimination(ms: seq<RawMatch>, ids: map<string, string>, races: map<string, string>)
    requires MatchFold(ms, ids, races).failure == None
    ensures MatchFold(ms, ids, races).elim == Double <==>
              exists i :: 0 <= i < |ms| && IsComplete(ms[i]) && ms[i].round < 0
  {
    if ms != [] {
      var init, m := ms[..|ms| - 1], ms[|ms| - 1];
      MatchFoldElimination(init, ids, races);
      assert forall i :: 0 <= i < |init| ==> init[i] == ms[i];
    }
  }

  /** Two complete matches between the same players: "2-1" in round 1 and the
      unknown "weird" in round 2. Only the first is kept, "weird" is
      reported, and the skipped match still sets the rounds to 2. */
  lemma SkippedMatchStillCountsRound()
    ensures var ms := [RawMatch("1", "T", "A", "B", "2-1", 1, "complete", ""),
                       RawMatch("2", "T", "A", "B", "weird", 2, "complete", "")];
            var ids, races := map["A" := "a", "B" := "b"], map["a" := "Zerg", "b" := "Terran"];
            && MatchFold(ms, ids, races)
               == MatchPass([MatchRow("1", "T", "A", "B", 2, 1, 1, "Zerg", "Terran")], 2, Single, None)
            && UnknownScoreReport("weird") == Some("weird is unknown to the system")
  {
    var ms := [RawMatch("1", "T", "A", "B", "2-1", 1, "complete", ""),
               RawMatch("2", "T", "A", "B", "weird", 2, "complete", "")];
    assert ms[..1][..0] == [];
    assert ms[..|ms| - 1] == ms[..1];
    assert "weird" + " is unknown to the system" == "weird is unknown to the system";
  }
}
