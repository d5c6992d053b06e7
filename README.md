# MMC-Stats ingestion core, modelled in Dafny

MMC-Stats stores bracket-tournament results for the Magikarp Masters Cup
series. Participants and matches are pulled from the Challonge hosting
service, and the results go into an SQLite database. Two scripts do the work:

- `createMMCDB.py` rebuilds the database from scratch. Three preparation
  passes fill module-level lists and dictionaries, which are then written in
  bulk.
- `addMMC.py` adds one new edition to an existing database. Before it
  inserts a ChallongeNames, Player, Participants or Matches row, it checks
  whether the row's primary key is already present. The MMC row is the
  exception: the check looks up the edition's NUMBER, while the table's
  primary key is TOURNAMENTID. A taken tournament id then makes the insert
  fail.

Both scripts rely on `scoreFix`. It maps the inconsistently typed score
strings of the hosting service to a canonical `(winner games, loser games)`
pair. A walkover gives `(0, -1)`. An unrecognised string gives the skip
sentinel `(-2, -2)`.

The model has one module per script plus shared records:

- `Records` (`records.dfy`): the roster rows, participant records and match
  records read as input; the table rows written as output; the lookup
  errors; and `Overwrite`, the dictionary left by a loop of assignments.
- `CreateMMCDB` (`create_mmcdb.dfy`): the script's `scoreFix` copy and the
  class `Collector`. Its fields are the module-level lists `players`,
  `challongeNames`, `participants` and `matches`, and the dictionaries
  `playerRaces` and `participantID`. Its methods are the three preparation
  passes, each a loop proved against a specification function on values.
- `AddMMC` (`add_mmc.dfy`): the script's own `scoreFix` copy, the roster
  check `newChallongeNames`, and the class `Store`. The fields of `Store` are
  the tables ChallongeNames, Player, Participants, Matches and MMC, each a
  map keyed by its primary key, plus the module-level dictionaries.
  `insertData` is split into its participant loop and its match part.
- `ScoreFixLemmas`, `CreateMMCDBLemmas` and `AddMMCLemmas`: what these
  operations promise, proved about the specification functions.

Two facts about the match passes of both scripts shape the model:

- `rounds` is the largest signed round, starting from 0. Losers'-bracket
  rounds are negative, so they never raise it.
- Both scripts update `rounds` and the elimination style before deciding to
  skip a match with an unrecognised score, so skipped matches still count
  toward both. `SkippedMatchStillCountsRound` works through an example:
  "2-1" in round 1, then "weird" in round 2, gives rounds 2.

## Model

| member | source | states |
|---|---|---|
| `CreateMMCDB.ScoreFix` | createMMCDB.py:350-397 | The result is the skip sentinel (-2, -2) exactly when the string is in none of the seven lists. A winner of -2 occurs only in that sentinel. Every other result is the walkover (0, -1) or a game count with 3 >= winner > loser >= 0. |
| `ScoreFixLemmas.ListsDisjoint` | createMMCDB.py:359-367 | No literal appears in two of the seven lists, so the order of the membership tests does not matter. |
| `ScoreFixLemmas.ScoreFixByList` | createMMCDB.py:362-389 | Every literal of a list gets that list's pair: oneZero (1,0), twoZero (2,0), twoOne (2,1), threeZero (3,0), threeOne (3,1), threeTwo (3,2). Every walkover literal gets (0,-1). |
| `ScoreFixLemmas.ScoreFixSentinel` | createMMCDB.py:356-397 | "" gives (-2,-2) and no diagnostic. Any string gives (-2,-2) iff it is unlisted. A diagnostic is emitted iff the string is non-empty and unrecognised, and it is one line: the string followed by "is unknown to the system". |
| `AddMMC.ScoreFix` | addMMC.py:97-144 | The second script's copy: (-2,-2) iff unlisted, and otherwise the walkover or winner > loser >= 0. |
| `ScoreFixLemmas.ScoreFixCopiesAgree` | addMMC.py:97-144 | The two scripts' copies return the same pair and emit the same diagnostic for every string. |
| `CreateMMCDB.Collector.PreparePlayerData` | createMMCDB.py:176-199 | ChallongeNames grows by one (Name, Normal Name) tuple per roster row, in order. Players grows by `NewPlayers` of the rows. Each username's main race is assigned in row order. Nothing else changes. |
| `CreateMMCDBLemmas.NewPlayersDistinct` | createMMCDB.py:184-194 | No canonical name gets two Player tuples in one pass, and every Player tuple's name is a canonical name of the roster. |
| `CreateMMCDBLemmas.NewPlayersAreFirstRows` | createMMCDB.py:186-194 | The Player tuples are exactly those built from the first row of each canonical name, and every canonical name of the roster gets one. |
| `Records.OverwriteLastWins` | createMMCDB.py:196 | After the assignment loop, a key is present iff it was before or some element assigns it. The value is that of the last element assigning the key. Keys that no element assigns keep their old value. |
| `CreateMMCDB.Collector.PreparePartsData` | createMMCDB.py:201-221 | Participants grows by the tuples of the checked-in participants. Every participant's id is mapped to its username. Nothing else changes. |
| `CreateMMCDBLemmas.CheckedInRowsAppend` | createMMCDB.py:209-213 | The participant filter keeps input order: filtering a concatenation concatenates the filtered parts. |
| `CreateMMCDBLemmas.CheckedInRowsMembers` | createMMCDB.py:211-213 | A tuple is appended iff it comes from a participant whose final rank is truthy (present and non-zero). |
| `CreateMMCDBLemmas.ParticipantIdsLastWins` | createMMCDB.py:214-218 | Every participant's id is in participantID, checked in or not. Of participants sharing an id, the later one's username wins. |
| `CreateMMCDB.Collector.PrepareMatchData` | createMMCDB.py:223-263 | Only appends to matches: the new tuples are those of `MatchFold`. The result is (elim, rounds) of that pass, or the first failed lookup. The other lists and dictionaries do not change. |
| `CreateMMCDBLemmas.RecordedAppend` | createMMCDB.py:235-260 | The reference selection of kept matches preserves input order across concatenation. |
| `CreateMMCDBLemmas.MatchFoldKeepsRecorded` | createMMCDB.py:235-260 | A pass with no failed lookup appends exactly the complete matches whose winner score is not -2. It keeps input order, and each tuple carries the normalised pair, the round verbatim and both main races. |
| `CreateMMCDBLemmas.MatchFoldFailure` | createMMCDB.py:240-245 | The pass fails iff some complete match has an unknown participant id or a username without a race. The failure is the first missing key of the first such match. |
| `CreateMMCDBLemmas.MatchFoldRoundsIsMax` | createMMCDB.py:232-254 | rounds >= 0 and at least every complete match's signed round, skipped ones included. It is 0 or one of those rounds. |
| `CreateMMCDBLemmas.MatchFoldElimination` | createMMCDB.py:233-257 | elim is "d" iff some complete match, skipped or not, has a negative round, else "s". |
| `CreateMMCDBLemmas.SkippedMatchStillCountsRound` | createMMCDB.py:247-260 | For "2-1" in round 1 then "weird" in round 2: one tuple (2, 1, round 1) is kept, "weird" is reported, and rounds is 2 with single elimination. |
| `AddMMC.NewChallongeNames` | addMMC.py:78-95 | The reported names are exactly the participant usernames missing from the roster's Name column. The stop flag (exit code 1) is set iff there is at least one. |
| `AddMMC.FindName` | addMMC.py:166-168 | Gives the first roster row whose Name is the username. It gives nothing iff no row has it, which is where the source's index lookup raises. |
| `AddMMC.Store.EnterParticipants` | addMMC.py:162-203 | Tables and dictionaries end as `EnterAll` of the old ones. The not-added usernames are reported in order. Matches and MMC do not change. |
| `AddMMCLemmas.EnterAllNeverOverwrites` | addMMC.py:173-200 | Existing ChallongeNames, Player and Participants rows are never overwritten. |
| `AddMMCLemmas.UnknownParticipantsIgnored` | addMMC.py:163-202 | A participant missing from the roster has no effect at all. The loop ends exactly where the loop over the known participants ends. |
| `AddMMCLemmas.EnterAllPlayerKeys` | addMMC.py:166-190 | A canonical name is in Player iff it was there before or it is the Normal Name of the first roster row of some participant found in the roster. |
| `AddMMCLemmas.EnterAllPlayerRows` | addMMC.py:182-190 | A new Player row holds the first roster row of the first participant listed under that canonical name: name, main race, country, team and off-race. |
| `AddMMCLemmas.EnterAllParticipantRows` | addMMC.py:192-200 | A new Participants row for an id is that of the first participant found in the roster carrying the id. Later ones with the same id are ignored. |
| `AddMMCLemmas.EnterAllNameRows` | addMMC.py:166-180 | A new ChallongeNames row for a username holds the Normal Name of its first roster row. Every username found in the roster maps to that row's main race and off-race in playerRaces. |
| `AddMMCLemmas.EnterAllParticipantIds` | addMMC.py:170 | Every id of a participant found in the roster maps to the username of the last such participant carrying it. |
| `AddMMCLemmas.NotAddedAreUnknown` | addMMC.py:201-202 | A username is reported as not added iff some participant carries it and no roster row does. |
| `AddMMCLemmas.EnterAllIdKeys` | addMMC.py:170-200 | A CHALLONGEID is in Participants, and an id in participantID, iff it was there before or belongs to a participant found in the roster. |
| `AddMMCLemmas.EnterAllNameKeys` | addMMC.py:169-180 | A CNAME is in ChallongeNames, and a username in playerRaces, iff it was there before or belongs to a participant found in the roster. |
| `AddMMC.Store.EnterMatches` | addMMC.py:206-253 | Matches and MMC end as `EnterMatchesSpec` says, and the outcome is the one it gives: an empty file, a failed lookup, a taken tournament id, or success. The participant tables and dictionaries do not change. |
| `AddMMC.Store.InsertData` | addMMC.py:146-255 | The participant loop's effect, followed by the match part run with the dictionaries it filled. |
| `AddMMCLemmas.MatchFoldInserts` | addMMC.py:216-243 | Stored matches are never overwritten. Every new row comes from a complete match of the file that was not stored, whose lookups succeeded and whose score was recognised. |
| `AddMMCLemmas.MatchFoldStoresRecognised` | addMMC.py:217-243 | When no lookup fails, every complete match with a recognised score ends up stored. |
| `AddMMCLemmas.UnstoredAreUnrecognised` | addMMC.py:221-243 | After a successful pass, every complete match left unstored had successful lookups and an unrecognised score. |
| `AddMMCLemmas.MatchFoldIdempotent` | addMMC.py:221-243 | A second match loop over the same file inserts nothing and raises nothing. |
| `AddMMCLemmas.MatchFoldRounds` | addMMC.py:212-238 | rounds and elim reflect only the complete matches not already stored, skipped ones included. rounds is their largest signed round or 0. elim is "d" iff one of them has a negative round. |
| `AddMMCLemmas.AddEditionSpec` | addMMC.py:246-253 | The MMC row is inserted only when no row has the edition's NUMBER. Existing rows are kept. The insert fails iff the tournament id is already taken. After success a row with the number exists. |
| `AddMMCLemmas.EnterMatchesIdempotent` | addMMC.py:206-253 | Re-running the match part over the same file and edition changes neither Matches nor MMC, and succeeds. |

## Left out

- `pullMMCData` in both scripts is left out: Challonge API calls, directory creation, JSON file writes and date formatting. The loaded participant and match lists are parameters instead.
- `connect`, `createTables` and the five bulk `insert*Data` functions of `createMMCDB.py` are left out. They are SQL wrappers with no logic.
- `main` in both scripts is left out, and so is the `mmc` list it fills. That covers file opening, JSON and CSV parsing, the loop over editions and the exit codes. `NewChallongeNames` returns the stop flag instead of exiting. Both match passes return the failed lookup instead of raising.
- `print` output is left out. The diagnostics that matter are returned values. `UnknownScoreReport` in each script gives the whole printed line. The not-added list of `EnterParticipants` and the reported set of `NewChallongeNames` give only the usernames, without the fixed text printed around them. The extra print of the raw score at addMMC.py:232 is not modelled.
- `CreateMMCDB.Collector.PrepareMatchData`: in the source an unresolvable id or username raises out of the loop and ends the whole run. The model stops at that match, keeps the tuples appended so far and returns the error.
- `AddMMC.Store.EnterMatches`: a failed lookup likewise stops the loop. Rows inserted before it stay, as they were committed one by one. The MMC row is not written.
- `CreateMMCDB.Collector.PreparePlayerData`: records only the main race in `playerRaces`. At createMMCDB.py:196 the source stores the whole OffRace column as the second element, and only element 0 is ever read.
- `CreateMMCDB.Collector.PreparePartsData`: the `try`/`except` around the participantID assignment is not modelled, because nothing in the model can fail there.
- `AddMMCLemmas.MatchFoldRounds`: stated only for match files whose match ids are pairwise distinct. With repeated ids, whether a later duplicate counts depends on whether an earlier one was stored. `MatchFoldInserts`, `MatchFoldStoresRecognised` and `MatchFoldIdempotent` do not need this hypothesis.
- Every value the source passes through `str(...)` is a string in the model. The round is already an integer, so a malformed round is not modelled.
- Pandas DataFrames are represented as sequences of roster records. `namesData.index[0]` is the first matching row, as with the default row index that `read_csv` gives.
- SQLite is represented as maps keyed by primary key. Commits, foreign keys, NOT NULL checks and type affinity are not modelled. The only constraint violation the insertion step can hit is a duplicate MMC tournament id, and that one is modelled.
