/** What the incremental script's insertion step promises, stated about the
    functions its methods are proved against. */
module AddMMCLemmas {
  import opened Records
  import opened AddMMC

  // ---------------------------------------------------------------------
  // Participant loop
  // ---------------------------------------------------------------------

  /** Participants whose username is in the roster. */
  function Known(roster: seq<RosterRow>, parts: seq<RawParticipant>): seq<RawParticipant> {
    if parts == [] then []
    else
      var init, p := parts[..|parts| - 1], parts[|parts| - 1];
      Known(roster, init) + (if FindName(roster, p.name).Some? then [p] else [])
  }

  /** Rows already in ChallongeNames, Player and Participants are never
      overwritten by the participant loop. */
  lemma {:induction false} EnterAllNeverOverwrites(e: Entries, roster: seq<RosterRow>, parts: seq<RawParticipant>)
    ensures var e' := EnterAll(e, roster, parts);
            && (forall k :: k in e.challongeNames ==> k in e'.challongeNames && e'.challongeNames[k] == e.challongeNames[k])
            && (forall k :: k in e.players ==> k in e'.players && e'.players[k] == e.players[k])
            && (forall k :: k in e.participants ==> k in e'.participants && e'.participants[k] == e.participants[k])
  {
    if parts != [] {
      EnterAllNeverOverwrites(e, roster, parts[..|parts| - 1]);
    }
  }

  /** A participant missing from the roster has no effect at all: the loop
      over all participants ends where the loop over the known ones does. */
  lemma {:induction false} UnknownParticipantsIgnored(e: Entries, roster: seq<RosterRow>, parts: seq<RawParticipant>)
    ensures EnterAll(e, roster, parts) == EnterAll(e, roster, Known(roster, parts))
  {
    if parts != [] {
      var init, p := parts[..|parts| - 1], parts[|parts| - 1];
      UnknownParticipantsIgnored(e, roster, init);
      if FindName(roster, p.name).Some? {
        var k := Known(roster, parts);
        assert k == Known(roster, init) + [p];
        assert k[..|k| - 1] == Known(roster, init) && k[|k| - 1] == p;
        calc {
          EnterAll(e, roster, parts);
          EnterOne(EnterAll(e, roster, init), roster, p);
          EnterOne(EnterAll(e, roster, Known(roster, init)), roster, p);
          EnterAll(e, roster, k);
        }
      } else {
        assert EnterAll(e, roster, parts) == EnterAll(e, roster, init);
        assert Known(roster, parts) == Known(roster, init);
      }
    }
  }

  /** The loop reports, in order, exactly the usernames missing from the
      roster. */
  lemma {:induction false} NotAddedAreUnknown(roster: seq<RosterRow>, parts: seq<RawParticipant>)
    ensures forall n :: n in NotAdded(roster, parts) <==>
              exists i :: 0 <= i < |parts| && parts[i].name == n && forall j :: 0 <= j < |roster| ==> roster[j].name != n
  {
    if parts != [] {
      var init := parts[..|parts| - 1];
      NotAddedAreUnknown(roster, init);
      assert forall i :: 0 <= i < |init| ==> init[i] == parts[i];
    }
  }

  /** Some participant of the list carries id `k` and is in the roster. */
  predicate KnownId(roster: seq<RosterRow>, parts: seq<RawParticipant>, k: string) {
    exists i :: 0 <= i < |parts| && parts[i].id == k && FindName(roster, parts[i].name).Some?
  }

  /** Some participant of the list carries username `n` and it is in the roster. */
  predicate KnownName(roster: seq<RosterRow>, parts: seq<RawParticipant>, n: string) {
    exists i :: 0 <= i < |parts| && parts[i].name == n && FindName(roster, n).Some?
  }

  /** Keys one iteration of the loop adds: those of the participant, when
      its username is in the roster. */
  lemma EnterOneKeys(e: Entries, roster: seq<RosterRow>, p: RawParticipant)
    ensures var e', found := EnterOne(e, roster, p), FindName(roster, p.name).Some?;
            && (forall k :: k in e'.participants <==> k in e.participants || (found && k == p.id))
            && (forall k :: k in e'.participantID <==> k in e.participantID || (found && k == p.id))
            && (forall n :: n in e'.challongeNames <==> n in e.challongeNames || (found && n == p.name))
            && (forall n :: n in e'.playerRaces <==> n in e.playerRaces || (found && n == p.name))
  {
  }

  /** A Participants key, or a participant-id entry, is new after the loop
      iff some participant with that id is in the roster. */
  lemma {:induction false} EnterAllIdKeys(e: Entries, roster: seq<RosterRow>, parts: seq<RawParticipant>)
    ensures forall k :: k in EnterAll(e, roster, parts).participants <==> k in e.participants || KnownId(roster, parts, k)
    ensures forall k :: k in EnterAll(e, roster, parts).participantID <==> k in e.participantID || KnownId(roster, parts, k)
  {
    if parts != [] {
      var init, p := parts[..|parts| - 1], parts[|parts| - 1];
      EnterAllIdKeys(e, roster, init);
      assert EnterAll(e, roster, parts) == EnterOne(EnterAll(e, roster, init), roster, p);
      EnterOneKeys(EnterAll(e, roster, init), roster, p);
      forall k ensures KnownId(roster, parts, k) <==> KnownId(roster, init, k) || (p.id == k && FindName(roster, p.name).Some?) {
        KnownIdStep(roster, parts, k);
      }
    }
  }

  lemma KnownIdStep(roster: seq<RosterRow>, parts: seq<RawParticipant>, k: string)
    requires parts != []
    ensures var init, p := parts[..|parts| - 1], parts[|parts| - 1];
            KnownId(roster, parts, k) <==> KnownId(roster, init, k) || (p.id == k && FindName(roster, p.name).Some?)
  {
    var init, p := parts[..|parts| - 1], parts[|parts| - 1];
    if KnownId(roster, parts, k) && !(p.id == k && FindName(roster, p.name).Some?) {
      var i :| 0 <= i < |parts| && parts[i].id == k && FindName(roster, parts[i].name).Some?;
      assert init[i] == parts[i];
    }
    if KnownId(roster, init, k) {
      var i :| 0 <= i < |init| && init[i].id == k && FindName(roster, init[i].name).Some?;
      assert init[i] == parts[i];
    }
  }

  /** A ChallongeNames row, or a race entry, is new after the loop iff some
      participant with that username is in the roster. */
  lemma {:induction false} EnterAllNameKeys(e: Entries, roster: seq<RosterRow>, parts: seq<RawParticipant>)
    ensures forall n :: n in EnterAll(e, roster, parts).challongeNames <==> n in e.challongeNames || KnownName(roster, parts, n)
    ensures forall n :: n in EnterAll(e, roster, parts).playerRaces <==> n in e.playerRaces || KnownName(roster, parts, n)
  {
    if parts != [] {
      var init, p := parts[..|parts| - 1], parts[|parts| - 1];
      var e0 := EnterAll(e, roster, init);
      assert EnterAll(e, roster, parts) == EnterOne(e0, roster, p);
      EnterAllNameKeys(e, roster, init);
      EnterOneKeys(e0, roster, p);
      forall n ensures KnownName(roster, parts, n) <==> KnownName(roster, init, n) || (p.name == n && FindName(roster, n).Some?) {
        KnownNameStep(roster, parts, n);
      }
    }
  }

  lemma KnownNameStep(roster: seq<RosterRow>, parts: seq<RawParticipant>, n: string)
    requires parts != []
    ensures var init, p := parts[..|parts| - 1], parts[|parts| - 1];
            KnownName(roster, parts, n) <==> KnownName(roster, init, n) || (p.name == n && FindName(roster, n).Some?)
  {
    var init, p := parts[..|parts| - 1], parts[|parts| - 1];
    if KnownName(roster, parts, n) && !(p.name == n && FindName(roster, n).Some?) {
      var i :| 0 <= i < |parts| && parts[i].name == n && FindName(roster, n).Some?;
      assert init[i] == parts[i];
    }
    if KnownName(roster, init, n) {
      var i :| 0 <= i < |init| && init[i].name == n && FindName(roster, n).Some?;
      assert init[i] == parts[i];
    }
  }

  /** Participant `p` is in the roster and its first roster row carries the
      canonical name `n`. */
  predicate HasPlayer(roster: seq<RosterRow>, p: RawParticipant, n: string) {
    FindName(roster, p.name).Some? && FindName(roster, p.name).value.normalName == n
  }

  /** Some participant of the list is in the roster under canonical name `n`. */
  predicate KnownPlayer(roster: seq<RosterRow>, parts: seq<RawParticipant>, n: string) {
    exists i :: 0 <= i < |parts| && HasPlayer(roster, parts[i], n)
  }

  /** Participant `i` is the first one in the roster under canonical name `n`. */
  predicate FirstWithPlayer(roster: seq<RosterRow>, parts: seq<RawParticipant>, i: int, n: string) {
    0 <= i < |parts| && HasPlayer(roster, parts[i], n)
    && forall j :: 0 <= j < i ==> !HasPlayer(roster, parts[j], n)
  }

  /** Participant `p` carries id `k` and its username is in the roster. */
  predicate HasId(roster: seq<RosterRow>, p: RawParticipant, k: string) {
    p.id == k && FindName(roster, p.name).Some?
  }

  /** Participant `i` is the first one in the roster carrying id `k`. */
  predicate FirstWithId(roster: seq<RosterRow>, parts: seq<RawParticipant>, i: int, k: string) {
    0 <= i < |parts| && HasId(roster, parts[i], k)
    && forall j :: 0 <= j < i ==> !HasId(roster, parts[j], k)
  }

  /** Participant `i` is the last one in the roster carrying id `k`. */
  predicate LastWithId(roster: seq<RosterRow>, parts: seq<RawParticipant>, i: int, k: string) {
    0 <= i < |parts| && HasId(roster, parts[i], k)
    && forall j :: i < j < |parts| ==> !HasId(roster, parts[j], k)
  }

  /** One iteration keeps the Player and Participants rows it finds and adds
      at most the participant's own. */
  lemma EnterOneRows(e: Entries, roster: seq<RosterRow>, p: RawParticipant)
    ensures var e' := EnterOne(e, roster, p);
            && (forall n | n in e.players :: n in e'.players && e'.players[n] == e.players[n])
            && (forall n | n in e'.players && n !in e.players ::
                  HasPlayer(roster, p, n) && e'.players[n] == PlayerOf(FindName(roster, p.name).value))
            && (forall k | k in e.participants :: k in e'.participants && e'.participants[k] == e.participants[k])
            && (forall k | k in e'.participants && k !in e.participants ::
                  HasId(roster, p, k) && e'.participants[k] == ParticipantOf(p))
  {
  }

  /** One iteration adds a Player key exactly for the participant's
      canonical name, when it is in the roster. */
  lemma EnterOnePlayerKeys(e: Entries, roster: seq<RosterRow>, p: RawParticipant)
    ensures forall n :: n in EnterOne(e, roster, p).players <==> n in e.players || HasPlayer(roster, p, n)
  {
  }

  lemma KnownPlayerStep(roster: seq<RosterRow>, parts: seq<RawParticipant>, n: string)
    requires parts != []
    ensures KnownPlayer(roster, parts, n)
            <==> KnownPlayer(roster, parts[..|parts| - 1], n) || HasPlayer(roster, parts[|parts| - 1], n)
  {
    var init, p := parts[..|parts| - 1], parts[|parts| - 1];
    if KnownPlayer(roster, parts, n) && !HasPlayer(roster, p, n) {
      var i :| 0 <= i < |parts| && HasPlayer(roster, parts[i], n);
      assert init[i] == parts[i];
    }
    if KnownPlayer(roster, init, n) {
      var i :| 0 <= i < |init| && HasPlayer(roster, init[i], n);
      assert init[i] == parts[i];
    }
  }

  /** When no earlier participant is listed under `n`, the last participant
      is the first one that is. */
  lemma NoPlayerBefore(roster: seq<RosterRow>, parts: seq<RawParticipant>, n: string)
    requires parts != [] && !KnownPlayer(roster, parts[..|parts| - 1], n)
    ensures forall j :: 0 <= j < |parts| - 1 ==> !HasPlayer(roster, parts[j], n)
  {
    var init := parts[..|parts| - 1];
    forall j | 0 <= j < |parts| - 1 ensures !HasPlayer(roster, parts[j], n) {
      assert init[j] == parts[j];
    }
  }

  /** A canonical name is in Player after the loop iff it was there before
      or some participant in the roster is listed under it. */
  lemma {:induction false} EnterAllPlayerKeys(e: Entries, roster: seq<RosterRow>, parts: seq<RawParticipant>)
    ensures forall n :: n in EnterAll(e, roster, parts).players <==> n in e.players || KnownPlayer(roster, parts, n)
  {
    if parts != [] {
      var init, p := parts[..|parts| - 1], parts[|parts| - 1];
      var e0 := EnterAll(e, roster, init);
      assert EnterAll(e, roster, parts) == EnterOne(e0, roster, p);
      EnterAllPlayerKeys(e, roster, init);
      EnterOnePlayerKeys(e0, roster, p);
      forall n ensures KnownPlayer(roster, parts, n) <==> KnownPlayer(roster, init, n) || HasPlayer(roster, p, n) {
        KnownPlayerStep(roster, parts, n);
      }
    }
  }

  /** A Player row the loop adds is built from the first roster row of the
      first participant listed under that canonical name. */
  lemma {:induction false} EnterAllPlayerRows(e: Entries, roster: seq<RosterRow>, parts: seq<RawParticipant>)
    ensures var e' := EnterAll(e, roster, parts);
            forall n | n in e'.players && n !in e.players ::
              exists i :: FirstWithPlayer(roster, parts, i, n) && e'.players[n] == PlayerOf(FindName(roster, parts[i].name).value)
  {
    if parts != [] {
      var init, p := parts[..|parts| - 1], parts[|parts| - 1];
      var e0 := EnterAll(e, roster, init);
      var e' := EnterAll(e, roster, parts);
      assert e' == EnterOne(e0, roster, p);
      EnterOneRows(e0, roster, p);
      forall n | n in e'.players && n !in e.players
        ensures exists i :: FirstWithPlayer(roster, parts, i, n) && e'.players[n] == PlayerOf(FindName(roster, parts[i].name).value)
      {
        if n in e0.players {
          EnterAllPlayerRows(e, roster, init);
          var i :| FirstWithPlayer(roster, init, i, n) && e0.players[n] == PlayerOf(FindName(roster, init[i].name).value);
          assert forall j :: 0 <= j <= i ==> init[j] == parts[j];
          assert FirstWithPlayer(roster, parts, i, n);
        } else {
          assert HasPlayer(roster, p, n);
          EnterAllPlayerKeys(e, roster, init);
          assert !KnownPlayer(roster, init, n);
          NoPlayerBefore(roster, parts, n);
          assert FirstWithPlayer(roster, parts, |init|, n);
        }
      }
    }
  }

  /** A Participants row the loop adds is that of the first participant in
      the roster carrying its id: later ones with the same id are ignored. */
  lemma {:induction false} EnterAllParticipantRows(e: Entries, roster: seq<RosterRow>, parts: seq<RawParticipant>)
    ensures var e' := EnterAll(e, roster, parts);
            forall k | k in e'.participants && k !in e.participants ::
              exists i :: FirstWithId(roster, parts, i, k) && e'.participants[k] == ParticipantOf(parts[i])
  {
    if parts != [] {
      var init, p := parts[..|parts| - 1], parts[|parts| - 1];
      var e0 := EnterAll(e, roster, init);
      var e' := EnterAll(e, roster, parts);
      assert e' == EnterOne(e0, roster, p);
      EnterOneRows(e0, roster, p);
      forall k | k in e'.participants && k !in e.participants
        ensures exists i :: FirstWithId(roster, parts, i, k) && e'.participants[k] == ParticipantOf(parts[i])
      {
        if k in e0.participants {
          EnterAllParticipantRows(e, roster, init);
          var i :| FirstWithId(roster, init, i, k) && e0.participants[k] == ParticipantOf(init[i]);
          assert forall j :: 0 <= j <= i ==> init[j] == parts[j];
          assert FirstWithId(roster, parts, i, k);
        } else {
          assert HasId(roster, p, k);
          EnterAllIdKeys(e, roster, init);
          assert !KnownId(roster, init, k);
          NoIdBefore(roster, parts, k);
          assert FirstWithId(roster, parts, |init|, k);
        }
      }
    }
  }

  /** What the loop writes under a username: a new ChallongeNames row holds
      the canonical name of the username's first roster row, and the race
      entry of every participant in the roster holds that row's races. */
  lemma {:induction false} EnterAllNameRows(e: Entries, roster: seq<RosterRow>, parts: seq<RawParticipant>)
    ensures var e' := EnterAll(e, roster, parts);
            forall n | n in e'.challongeNames && n !in e.challongeNames ::
              FindName(roster, n).Some? && e'.challongeNames[n] == FindName(roster, n).value.normalName
    ensures var e' := EnterAll(e, roster, parts);
            forall n | KnownName(roster, parts, n) ::
              n in e'.playerRaces && e'.playerRaces[n] == Races(FindName(roster, n).value.race, FindName(roster, n).value.offRace)
  {
    if parts != [] {
      var init, p := parts[..|parts| - 1], parts[|parts| - 1];
      EnterAllNameRows(e, roster, init);
      forall n | KnownName(roster, parts, n) && n != p.name ensures KnownName(roster, init, n) {
        var i :| 0 <= i < |parts| && parts[i].name == n && FindName(roster, n).Some?;
        assert init[i] == parts[i];
      }
    }
  }

  /** When no earlier participant in the roster carries id `k`, the last
      participant is the first one that does. */
  lemma NoIdBefore(roster: seq<RosterRow>, parts: seq<RawParticipant>, k: string)
    requires parts != [] && !KnownId(roster, parts[..|parts| - 1], k)
    ensures forall j :: 0 <= j < |parts| - 1 ==> !HasId(roster, parts[j], k)
  {
    var init := parts[..|parts| - 1];
    forall j | 0 <= j < |parts| - 1 ensures !HasId(roster, parts[j], k) {
      assert init[j] == parts[j];
    }
  }

  /** One iteration maps the participant's id to its username when it is in
      the roster, and leaves every other id alone. */
  lemma EnterOneIds(e: Entries, roster: seq<RosterRow>, p: RawParticipant)
    ensures EnterOne(e, roster, p).participantID
            == if FindName(roster, p.name).Some? then e.participantID[p.id := p.name] else e.participantID
  {
  }

  /** The last participant carrying `k` among the earlier ones stays the
      last when the new participant does not carry it. */
  lemma LastWithIdExtend(roster: seq<RosterRow>, parts: seq<RawParticipant>, i: int, k: string)
    requires parts != [] && LastWithId(roster, parts[..|parts| - 1], i, k) && !HasId(roster, parts[|parts| - 1], k)
    ensures LastWithId(roster, parts, i, k) && parts[..|parts| - 1][i] == parts[i]
  {
    var init := parts[..|parts| - 1];
    forall j | i < j < |parts| ensures !HasId(roster, parts[j], k) {
      if j < |init| { assert init[j] == parts[j]; }
    }
  }

  /** After the loop, every id of a participant in the roster maps to the
      username of the last such participant carrying it. */
  lemma {:induction false} EnterAllParticipantIds(e: Entries, roster: seq<RosterRow>, parts: seq<RawParticipant>)
    ensures var e' := EnterAll(e, roster, parts);
            forall k | KnownId(roster, parts, k) ::
              k in e'.participantID && exists i :: LastWithId(roster, parts, i, k) && e'.participantID[k] == parts[i].name
  {
    if parts != [] {
      var init, p := parts[..|parts| - 1], parts[|parts| - 1];
      var e0 := EnterAll(e, roster, init);
      var e' := EnterAll(e, roster, parts);
      assert e' == EnterOne(e0, roster, p);
      EnterOneIds(e0, roster, p);
      forall k | KnownId(roster, parts, k)
        ensures k in e'.participantID && exists i :: LastWithId(roster, parts, i, k) && e'.participantID[k] == parts[i].name
      {
        if HasId(roster, p, k) {
          assert LastWithId(roster, parts, |init|, k);
        } else {
          KnownIdStep(roster, parts, k);
          EnterAllParticipantIds(e, roster, init);
          var i :| LastWithId(roster, init, i, k) && e0.participantID[k] == init[i].name;
          LastWithIdExtend(roster, parts, i, k);
        }
      }
    }
  }

  // ---------------------------------------------------------------------
  // Match loop
  // ---------------------------------------------------------------------

  /** Stored matches are never overwritten; every new row is that of a
      complete match of the file, not stored before, whose lookups succeeded
      and whose score was recognised. */
  lemma {:induction false} MatchFoldInserts(table: map<string, MatchRow>, ms: seq<RawMatch>, tid: string,
                                            ids: map<string, string>, races: map<string, Races>)
    ensures var t' := MatchFold(table, ms, tid, ids, races).table;
            forall k :: k in table ==> k in t' && t'[k] == table[k]
    ensures var t' := MatchFold(table, ms, tid, ids, races).table;
            forall k :: k in t' && k !in table ==>
              exists i :: 0 <= i < |ms| && IsComplete(ms[i]) && ms[i].id == k && Resolve(ms[i], ids, races).Ok?
                && ScoreFix(ms[i].scoresCsv).0 != -2 && t'[k] == MatchRowOf(ms[i], tid, Resolve(ms[i], ids, races).value)
  {
    if ms != [] {
      var init, m := ms[..|ms| - 1], ms[|ms| - 1];
      MatchFoldInserts(table, init, tid, ids, races);
      var p := MatchFold(table, init, tid, ids, races);
      var t' := MatchFold(table, ms, tid, ids, races).table;
      MatchStepInserts(p, m, tid, ids, races);
      forall k | k in t' && k !in table
        ensures exists i :: 0 <= i < |ms| && IsComplete(ms[i]) && ms[i].id == k && Resolve(ms[i], ids, races).Ok?
                  && ScoreFix(ms[i].scoresCsv).0 != -2 && t'[k] == MatchRowOf(ms[i], tid, Resolve(ms[i], ids, races).value)
      {
        if k in p.table {
          var i :| 0 <= i < |init| && IsComplete(init[i]) && init[i].id == k && Resolve(init[i], ids, races).Ok?
                   && ScoreFix(init[i].scoresCsv).0 != -2 && p.table[k] == MatchRowOf(init[i], tid, Resolve(init[i], ids, races).value);
          assert ms[i] == init[i];
        } else {
          assert ms[|ms| - 1] == m;
        }
      }
    }
  }

  /** One step of the match loop keeps every stored row and adds at most the
      row of the match it looks at. */
  lemma MatchStepInserts(p: MatchPass, m: RawMatch, tid: string, ids: map<string, string>, races: map<string, Races>)
    ensures var t' := MatchStep(p, m, tid, ids, races).table;
            forall k :: k in p.table ==> k in t' && t'[k] == p.table[k]
    ensures var t' := MatchStep(p, m, tid, ids, races).table;
            forall k :: k in t' && k !in p.table ==>
              k == m.id && IsComplete(m) && Resolve(m, ids, races).Ok?
              && ScoreFix(m.scoresCsv).0 != -2 && t'[k] == MatchRowOf(m, tid, Resolve(m, ids, races).value)
  {
  }

  /** Conversely, when no lookup aborts the loop, every complete match with
      a recognised score ends up stored. */
  lemma {:induction false} MatchFoldStoresRecognised(table: map<string, MatchRow>, ms: seq<RawMatch>, tid: string,
                                                     ids: map<string, string>, races: map<string, Races>)
    requires MatchFold(table, ms, tid, ids, races).failure == None
    ensures forall i :: 0 <= i < |ms| && IsComplete(ms[i]) && ScoreFix(ms[i].scoresCsv).0 != -2 ==>
              ms[i].id in MatchFold(table, ms, tid, ids, races).table
  {
    if ms != [] {
      var init := ms[..|ms| - 1];
      MatchFoldStoresRecognised(table, init, tid, ids, races);
      MatchFoldInserts(table, init, tid, ids, races);
      assert forall i :: 0 <= i < |init| ==> init[i] == ms[i];
      var p := MatchFold(table, init, tid, ids, races);
      assert forall k :: k in p.table ==> k in MatchFold(table, ms, tid, ids, races).table;
    }
  }

  /** After a successful pass, a complete match that is not stored had
      lookups that succeed and an unrecognised score. */
  lemma {:induction false} UnstoredAreUnrecognised(table: map<string, MatchRow>, ms: seq<RawMatch>, tid: string,
                                                   ids: map<string, string>, races: map<string, Races>)
    requires MatchFold(table, ms, tid, ids, races).failure == None
    ensures forall i :: 0 <= i < |ms| && IsComplete(ms[i]) && ms[i].id !in MatchFold(table, ms, tid, ids, races).table ==>
              Resolve(ms[i], ids, races).Ok? && ScoreFix(ms[i].scoresCsv).0 == -2
  {
    if ms != [] {
      var init := ms[..|ms| - 1];
      UnstoredAreUnrecognised(table, init, tid, ids, races);
      var p := MatchFold(table, init, tid, ids, races);
      MatchFoldInserts(p.table, [ms[|ms| - 1]], tid, ids, races);
      assert forall i :: 0 <= i < |init| ==> init[i] == ms[i];
    }
  }

  /** A pass over a table that already holds every complete match except
      resolvable ones with unrecognised scores stores nothing. */
  lemma {:induction false} PassOverStoredChangesNothing(table: map<string, MatchRow>, ms: seq<RawMatch>, tid: string,
                                                        ids: map<string, string>, races: map<string, Races>)
    requires forall i :: 0 <= i < |ms| && IsComplete(ms[i]) && ms[i].id !in table ==>
               Resolve(ms[i], ids, races).Ok? && ScoreFix(ms[i].scoresCsv).0 == -2
    ensures MatchFold(table, ms, tid, ids, races).failure == None
    ensures MatchFold(table, ms, tid, ids, races).table == table
  {
    if ms != [] {
      var init := ms[..|ms| - 1];
      assert forall i :: 0 <= i < |init| ==> init[i] == ms[i];
      PassOverStoredChangesNothing(table, init, tid, ids, races);
    }
  }

  /** Running the match loop a second time over the same file, with the
      same dictionaries, inserts nothing and raises nothing. */
  lemma MatchFoldIdempotent(table: map<string, MatchRow>, ms: seq<RawMatch>, tid: string,
                            ids: map<string, string>, races: map<string, Races>)
    requires MatchFold(table, ms, tid, ids, races).failure == None
    ensures var t := MatchFold(table, ms, tid, ids, races).table;
            MatchFold(t, ms, tid, ids, races).failure == None && MatchFold(t, ms, tid, ids, races).table == t
  {
    var t := MatchFold(table, ms, tid, ids, races).table;
    UnstoredAreUnrecognised(table, ms, tid, ids, races);
    PassOverStoredChangesNothing(t, ms, tid, ids, races);
  }

  /** Match ids of the file are pairwise distinct. */
  predicate DistinctIds(ms: seq<RawMatch>) {
    forall i, j :: 0 <= i < j < |ms| ==> ms[i].id != ms[j].id
  }

  /** A complete match not yet stored when the pass starts. */
  predicate Fresh(table: map<string, MatchRow>, m: RawMatch) {
    IsComplete(m) && m.id !in table
  }

  /** With distinct match ids, the rounds of a pass are at least 0, at least
      the round of every fresh match (recognised score or not), and either 0
      or one of those rounds; matches already stored do not count. */
  lemma {:induction false} MatchFoldRounds(table: map<string, MatchRow>, ms: seq<RawMatch>, tid: string,
                                           ids: map<string, string>, races: map<string, Races>)
    requires DistinctIds(ms)
    requires MatchFold(table, ms, tid, ids, races).failure == None
    ensures MatchFold(table, ms, tid, ids, races).rounds >= 0
    ensures forall i :: 0 <= i < |ms| && Fresh(table, ms[i]) ==> ms[i].round <= MatchFold(table, ms, tid, ids, races).rounds
    ensures MatchFold(table, ms, tid, ids, races).rounds == 0
            || exists i :: 0 <= i < |ms| && Fresh(table, ms[i]) && ms[i].round == MatchFold(table, ms, tid, ids, races).rounds
    ensures MatchFold(table, ms, tid, ids, races).elim == Double <==>
              exists i :: 0 <= i < |ms| && Fresh(table, ms[i]) && ms[i].round < 0
  {
    if ms != [] {
      var init, m := ms[..|ms| - 1], ms[|ms| - 1];
      assert forall i :: 0 <= i < |init| ==> init[i] == ms[i];
      MatchFoldRounds(table, init, tid, ids, races);
      MatchFoldInserts(table, init, tid, ids, races);
      var p := MatchFold(table, init, tid, ids, races);
      assert IsComplete(m) ==> (m.id in p.table <==> m.id in table);
    }
  }

  // ---------------------------------------------------------------------
  // MMC row and the whole match part
  // ---------------------------------------------------------------------

  /** After a successful match part the MMC table has a row for the edition,
      rows stored before are kept, and a row was inserted only when none had
      the edition's number. */
  lemma AddEditionSpec(mmc: map<string, MmcRow>, row: MmcRow)
    ensures AddEdition(mmc, row).Err? <==> !HasEdition(mmc, row.number) && row.tournamentId in mmc
    ensures AddEdition(mmc, row).Ok? ==>
              var mmc' := AddEdition(mmc, row).value;
              && HasEdition(mmc', row.number)
              && (forall t :: t in mmc ==> t in mmc' && mmc'[t] == mmc[t])
              && (mmc' != mmc ==> !HasEdition(mmc, row.number) && mmc' == mmc[row.tournamentId := row])
  {
    if !HasEdition(mmc, row.number) && row.tournamentId !in mmc {
      assert mmc[row.tournamentId := row][row.tournamentId].number == row.number;
    }
  }

  /** Running the whole match part a second time over the same file and
      edition leaves the Matches and MMC tables as they are and succeeds. */
  lemma EnterMatchesIdempotent(matches: map<string, MatchRow>, mmc: map<string, MmcRow>, ms: seq<RawMatch>, edition: int,
                               ids: map<string, string>, races: map<string, Races>)
    requires EnterMatchesSpec(matches, mmc, ms, edition, ids, races).outcome == None
    ensures var eff := EnterMatchesSpec(matches, mmc, ms, edition, ids, races);
            EnterMatchesSpec(eff.matches, eff.mmc, ms, edition, ids, races) == eff
  {
    var eff := EnterMatchesSpec(matches, mmc, ms, edition, ids, races);
    var tid := ms[0].tournamentId;
    var p := MatchFold(matches, ms, tid, ids, races);
    MatchFoldIdempotent(matches, ms, tid, ids, races);
    AddEditionSpec(mmc, MmcRow(tid, edition, p.elim, p.rounds, ms[0].startedAt));
    var q := MatchFold(eff.matches, ms, tid, ids, races);
    assert HasEdition(eff.mmc, edition);
    assert AddEdition(eff.mmc, MmcRow(tid, edition, q.elim, q.rounds, ms[0].startedAt)) == Ok(eff.mmc);
  }
}
