/**
 * The tournament list and its update operations (`TournamentProvider`).
 * Each operation computes a whole new list from the current one, as the
 * provider does with `map` and spread; the provider then replaces its state
 * with that list. Persistence to browser storage is not part of this model.
 */
module TournamentContext {
  import opened Optional
  import opened Collections
  import opened Interfaces
  import opened BracketGenerator
  import opened BracketProperties

  /** What the caller passes to `createTournament`: every field except id, participants, matches and status. */
  datatype TournamentDraft = TournamentDraft(
    name: string,
    game: string,
    startDate: string,
    endDate: string,
    maxTeams: int,
    organizerId: string)

  /** What the caller passes to `registerTeam`: every field except the id. */
  datatype TeamDraft = TeamDraft(name: string, members: seq<string>, logo: Option<string>)

  // ---------------------------------------------------------------------------
  // The update functions
  // ---------------------------------------------------------------------------

  function NewTournament(draft: TournamentDraft, id: string): Tournament {
    Tournament(id, draft.name, draft.game, draft.startDate, draft.endDate, draft.maxTeams,
               draft.organizerId, [], [], Upcoming)
  }

  /**
   * `createTournament`: the list with one new tournament at the end. It takes
   * the draft's fields and the given id, and starts upcoming with no
   * participants and no matches. The id is the caller's (the provider uses the
   * clock) and is not checked against existing ids.
   */
  function Created(ts: seq<Tournament>, draft: TournamentDraft, id: string): (r: seq<Tournament>)
    ensures |r| == |ts| + 1 && r[..|ts|] == ts
    ensures var t := r[|ts|];
      && t.id == id && t.status == Upcoming && t.participants == [] && t.matches == []
      && t.name == draft.name && t.game == draft.game && t.startDate == draft.startDate
      && t.endDate == draft.endDate && t.maxTeams == draft.maxTeams && t.organizerId == draft.organizerId
  {
    ts + [NewTournament(draft, id)]
  }

  /** The position of the first tournament with the given id. */
  function TournamentIndex(ts: seq<Tournament>, id: string): (r: Option<nat>)
    ensures r.Some? ==> r.value < |ts| && ts[r.value].id == id
    ensures r.Some? ==> forall j :: 0 <= j < r.value ==> ts[j].id != id
    ensures r.None? <==> forall j :: 0 <= j < |ts| ==> ts[j].id != id
  {
    FindIndex(ts, (t: Tournament) => t.id == id)
  }

  /** `getTournament`: the first tournament with the given id, or none. */
  function Lookup(ts: seq<Tournament>, id: string): (r: Option<Tournament>)
    ensures r.None? <==> forall j :: 0 <= j < |ts| ==> ts[j].id != id
    ensures r.Some? ==> r.value.id == id
    ensures r.Some? ==> exists k :: 0 <= k < |ts| && ts[k] == r.value && forall j :: 0 <= j < k ==> ts[j].id != id
  {
    match TournamentIndex(ts, id)
    case None => None
    case Some(k) => Some(ts[k])
  }

  /**
   * The result of one match: both scores recorded, and the winner is team 1
   * when its score is strictly greater, team 2 otherwise (so a tie goes to
   * team 2, and an empty slot gives no winner). Nothing else changes.
   */
  function ScoreMatch(m: Match, score1: int, score2: int): (r: Match)
    ensures r.id == m.id && r.round == m.round && r.bracket == m.bracket
    ensures r.team1Id == m.team1Id && r.team2Id == m.team2Id
    ensures r.score1 == Some(score1) && r.score2 == Some(score2)
    ensures score1 > score2 ==> r.winnerId == m.team1Id
    ensures score1 <= score2 ==> r.winnerId == m.team2Id
  {
    var winnerId := if score1 > score2 then m.team1Id else m.team2Id;
    m.(score1 := Some(score1), score2 := Some(score2), winnerId := winnerId)
  }

  function ScoreMatches(ms: seq<Match>, matchId: string, score1: int, score2: int): seq<Match> {
    seq(|ms|, j requires 0 <= j < |ms| => if ms[j].id == matchId then ScoreMatch(ms[j], score1, score2) else ms[j])
  }

  /**
   * `updateMatchResult`: in every tournament with the given id, every match
   * with the given id gets the result; all else is left as it was. The
   * tournament's status is not consulted and earlier scores are not checked.
   */
  function WithResult(ts: seq<Tournament>, tournamentId: string, matchId: string, score1: int, score2: int): (r: seq<Tournament>)
    ensures |r| == |ts|
    ensures forall k :: 0 <= k < |ts| && ts[k].id != tournamentId ==> r[k] == ts[k]
    ensures forall k :: 0 <= k < |ts| && ts[k].id == tournamentId ==>
      && r[k] == ts[k].(matches := r[k].matches)
      && |r[k].matches| == |ts[k].matches|
      && (forall j :: 0 <= j < |ts[k].matches| && ts[k].matches[j].id == matchId ==>
            r[k].matches[j] == ScoreMatch(ts[k].matches[j], score1, score2))
      && (forall j :: 0 <= j < |ts[k].matches| && ts[k].matches[j].id != matchId ==>
            r[k].matches[j] == ts[k].matches[j])
  {
    seq(|ts|, k requires 0 <= k < |ts| =>
      if ts[k].id == tournamentId then ts[k].(matches := ScoreMatches(ts[k].matches, matchId, score1, score2)) else ts[k])
  }

  function NewTeam(draft: TeamDraft, id: string): Team {
    Team(id, draft.name, draft.members, draft.logo)
  }

  /**
   * `registerTeam`: every tournament with the given id gets the new team at
   * the end of its participants. Neither `maxTeams` nor the status is checked.
   */
  function WithTeam(ts: seq<Tournament>, tournamentId: string, draft: TeamDraft, teamId: string): (r: seq<Tournament>)
    ensures |r| == |ts|
    ensures forall k :: 0 <= k < |ts| && ts[k].id != tournamentId ==> r[k] == ts[k]
    ensures forall k :: 0 <= k < |ts| && ts[k].id == tournamentId ==>
      && r[k] == ts[k].(participants := r[k].participants)
      && |r[k].participants| == |ts[k].participants| + 1
      && r[k].participants[..|ts[k].participants|] == ts[k].participants
      && r[k].participants[|ts[k].participants|] == Team(teamId, draft.name, draft.members, draft.logo)
  {
    seq(|ts|, k requires 0 <= k < |ts| =>
      if ts[k].id == tournamentId then ts[k].(participants := ts[k].participants + [NewTeam(draft, teamId)]) else ts[k])
  }

  /** Starting one tournament: only an upcoming one with the given id changes. */
  function StartOne(t: Tournament, tournamentId: string): Tournament {
    if t.id == tournamentId && t.status == Upcoming then t.(status := Ongoing, matches := Bracket(t.participants)) else t
  }

  /**
   * `startTournament`: every upcoming tournament with the given id becomes
   * ongoing with the generated bracket as its matches; every other tournament,
   * including an ongoing or completed one with that id, is left as it was.
   * The number of participants is not checked.
   */
  function Started(ts: seq<Tournament>, tournamentId: string): (r: seq<Tournament>)
    ensures |r| == |ts|
    ensures forall k :: 0 <= k < |ts| ==>
      if ts[k].id == tournamentId && ts[k].status == Upcoming
      then r[k] == ts[k].(status := Ongoing, matches := Bracket(ts[k].participants))
      else r[k] == ts[k]
  {
    seq(|ts|, k requires 0 <= k < |ts| => StartOne(ts[k], tournamentId))
  }

  // ---------------------------------------------------------------------------
  // Properties
  // ---------------------------------------------------------------------------

  /** A created tournament is found by its id when the id was not in use, and other lookups are unaffected. */
  lemma LookupAfterCreate(ts: seq<Tournament>, draft: TournamentDraft, id: string, other: string)
    requires forall k :: 0 <= k < |ts| ==> ts[k].id != id
    requires other != id
    ensures Lookup(Created(ts, draft, id), id) == Some(NewTournament(draft, id))
    ensures Lookup(Created(ts, draft, id), other) == Lookup(ts, other)
  {
    var r := Created(ts, draft, id);
    assert r == ts + [NewTournament(draft, id)];
    FindIndexAppend(ts, NewTournament(draft, id), (t: Tournament) => t.id == id);
    FindIndexAppend(ts, NewTournament(draft, id), (t: Tournament) => t.id == other);
  }

  /** An id that is already in use keeps resolving to the older tournament. */
  lemma CreateWithTakenId(ts: seq<Tournament>, draft: TournamentDraft, id: string)
    requires Lookup(ts, id).Some?
    ensures Lookup(Created(ts, draft, id), id) == Lookup(ts, id)
  {
    FindIndexAppend(ts, NewTournament(draft, id), (t: Tournament) => t.id == id);
  }

  lemma ScoreMatchTwice(m: Match, a: int, b: int, c: int, d: int)
    ensures ScoreMatch(ScoreMatch(m, a, b), c, d) == ScoreMatch(m, c, d)
  {
  }

  /** Recording a result again for the same match overwrites the first one completely. */
  lemma RescoreOverwrites(ts: seq<Tournament>, tournamentId: string, matchId: string, a: int, b: int, c: int, d: int)
    ensures WithResult(WithResult(ts, tournamentId, matchId, a, b), tournamentId, matchId, c, d)
         == WithResult(ts, tournamentId, matchId, c, d)
  {
    var once := WithResult(ts, tournamentId, matchId, a, b);
    var twice := WithResult(once, tournamentId, matchId, c, d);
    var direct := WithResult(ts, tournamentId, matchId, c, d);
    forall k | 0 <= k < |ts| ensures twice[k] == direct[k] {
      if ts[k].id == tournamentId {
        var ms := ts[k].matches;
        assert twice[k].matches == direct[k].matches by {
          forall j | 0 <= j < |ms| ensures twice[k].matches[j] == direct[k].matches[j] {
            if ms[j].id == matchId {
              ScoreMatchTwice(ms[j], a, b, c, d);
            }
          }
        }
      }
    }
  }

  /** Results for two different matches can be recorded in either order. */
  lemma ResultsCommute(ts: seq<Tournament>, tournamentId: string, m1: string, a: int, b: int, m2: string, c: int, d: int)
    requires m1 != m2
    ensures WithResult(WithResult(ts, tournamentId, m1, a, b), tournamentId, m2, c, d)
         == WithResult(WithResult(ts, tournamentId, m2, c, d), tournamentId, m1, a, b)
  {
    var x := WithResult(WithResult(ts, tournamentId, m1, a, b), tournamentId, m2, c, d);
    var y := WithResult(WithResult(ts, tournamentId, m2, c, d), tournamentId, m1, a, b);
    forall k | 0 <= k < |ts| ensures x[k] == y[k] {
      if ts[k].id == tournamentId {
        assert x[k].matches == y[k].matches;
      }
    }
  }

  /** A result for an unknown tournament or an unknown match changes nothing. */
  lemma ResultForUnknownMatch(ts: seq<Tournament>, tournamentId: string, matchId: string, score1: int, score2: int)
    requires forall k :: 0 <= k < |ts| && ts[k].id == tournamentId ==>
      forall j :: 0 <= j < |ts[k].matches| ==> ts[k].matches[j].id != matchId
    ensures WithResult(ts, tournamentId, matchId, score1, score2) == ts
  {
    var r := WithResult(ts, tournamentId, matchId, score1, score2);
    forall k | 0 <= k < |ts| ensures r[k] == ts[k] {
      if ts[k].id == tournamentId {
        assert r[k].matches == ts[k].matches;
      }
    }
  }

  /** After a result, looking the tournament up shows the match with its recorded scores and winner. */
  lemma LookupAfterResult(ts: seq<Tournament>, tournamentId: string, matchId: string, score1: int, score2: int)
    requires Lookup(ts, tournamentId).Some?
    ensures var before := Lookup(ts, tournamentId).value;
      var after := Lookup(WithResult(ts, tournamentId, matchId, score1, score2), tournamentId);
      && after.Some?
      && after.value == before.(matches := after.value.matches)
      && |after.value.matches| == |before.matches|
      && forall j :: 0 <= j < |before.matches| ==>
           after.value.matches[j] == (if before.matches[j].id == matchId then ScoreMatch(before.matches[j], score1, score2) else before.matches[j])
  {
    var r := WithResult(ts, tournamentId, matchId, score1, score2);
    FindIndexAgree(ts, r, (t: Tournament) => t.id == tournamentId);
  }

  /** The new team can be found in the tournament it was registered for. */
  lemma LookupAfterRegister(ts: seq<Tournament>, tournamentId: string, draft: TeamDraft, teamId: string)
    requires Lookup(ts, tournamentId).Some?
    ensures var before := Lookup(ts, tournamentId).value;
      Lookup(WithTeam(ts, tournamentId, draft, teamId), tournamentId)
        == Some(before.(participants := before.participants + [NewTeam(draft, teamId)]))
  {
    var r := WithTeam(ts, tournamentId, draft, teamId);
    FindIndexAgree(ts, r, (t: Tournament) => t.id == tournamentId);
    var k := TournamentIndex(ts, tournamentId).value;
    assert r[k].participants == ts[k].participants + [NewTeam(draft, teamId)];
  }

  /** Registration has no capacity check: a full tournament still grows past `maxTeams`. */
  lemma RegisterIgnoresCapacity(ts: seq<Tournament>, tournamentId: string, draft: TeamDraft, teamId: string, k: nat)
    requires k < |ts| && ts[k].id == tournamentId && |ts[k].participants| >= ts[k].maxTeams
    ensures |WithTeam(ts, tournamentId, draft, teamId)[k].participants| > WithTeam(ts, tournamentId, draft, teamId)[k].maxTeams
  {
  }

  /** A team registered after the start does not enter the bracket: the matches stay as generated. */
  lemma LateRegistrationNotSeated(ts: seq<Tournament>, tournamentId: string, draft: TeamDraft, teamId: string, k: nat)
    requires k < |ts| && ts[k].id == tournamentId && ts[k].status == Ongoing
    ensures var r := WithTeam(Started(ts, tournamentId), tournamentId, draft, teamId);
      r[k].matches == ts[k].matches && r[k].status == Ongoing
      && |r[k].participants| == |ts[k].participants| + 1
  {
  }

  /** Starting twice is the same as starting once. */
  lemma StartIdempotent(ts: seq<Tournament>, tournamentId: string)
    ensures Started(Started(ts, tournamentId), tournamentId) == Started(ts, tournamentId)
  {
    var once := Started(ts, tournamentId);
    var twice := Started(once, tournamentId);
    forall k | 0 <= k < |ts| ensures twice[k] == once[k] {
    }
  }

  /**
   * Starting an upcoming tournament with at least two participants gives it a
   * bracket in which every participant holds exactly one first-round slot; with
   * fewer it becomes ongoing with no matches at all.
   */
  lemma StartSeatsParticipants(ts: seq<Tournament>, tournamentId: string, k: nat)
    requires k < |ts| && ts[k].id == tournamentId && ts[k].status == Upcoming
    ensures var t := Started(ts, tournamentId)[k];
      && t.status == Ongoing
      && t.participants == ts[k].participants
      && (|t.participants| >= 2 ==> SlotIds(t.matches) == TeamIds(t.participants))
      && (|t.participants| < 2 <==> t.matches == [])
  {
    BracketSeating(ts[k].participants);
    BracketNeedsTwo(ts[k].participants);
  }

  /** The lifecycle only moves forward: a status stays, or goes from upcoming to ongoing. */
  predicate StatusStep(before: TournamentStatus, after: TournamentStatus) {
    before == after || (before == Upcoming && after == Ongoing)
  }

  predicate Lifecycle(ts: seq<Tournament>, r: seq<Tournament>) {
    |r| == |ts| && forall k :: 0 <= k < |ts| ==> r[k].id == ts[k].id && StatusStep(ts[k].status, r[k].status)
  }

  /**
   * No operation renames or removes a tournament or moves its status backwards,
   * and none ever marks a tournament completed.
   */
  lemma OperationsKeepLifecycle(ts: seq<Tournament>, tournamentId: string, matchId: string, score1: int, score2: int,
                                team: TeamDraft, teamId: string, draft: TournamentDraft, newId: string)
    ensures Lifecycle(ts, WithResult(ts, tournamentId, matchId, score1, score2))
    ensures Lifecycle(ts, WithTeam(ts, tournamentId, team, teamId))
    ensures Lifecycle(ts, Started(ts, tournamentId))
    ensures Lifecycle(ts, Created(ts, draft, newId)[..|ts|])
    ensures forall k :: 0 <= k < |ts| && ts[k].status != Completed ==>
      && WithResult(ts, tournamentId, matchId, score1, score2)[k].status != Completed
      && WithTeam(ts, tournamentId, team, teamId)[k].status != Completed
      && Started(ts, tournamentId)[k].status != Completed
  {
  }

  // ---------------------------------------------------------------------------
  // The provider
  // ---------------------------------------------------------------------------

  /** The provider's state: the current tournament list, replaced wholesale by each operation. */
  class TournamentProvider {
    var tournaments: seq<Tournament>

    constructor()
      ensures tournaments == []
    {
      tournaments := [];
    }

    method CreateTournament(draft: TournamentDraft, id: string) returns (t: Tournament)
      modifies this
      ensures t == NewTournament(draft, id)
      ensures tournaments == Created(old(tournaments), draft, id)
    {
      t := NewTournament(draft, id);
      tournaments := tournaments + [t];
    }

    method UpdateMatchResult(tournamentId: string, matchId: string, score1: int, score2: int)
      modifies this
      ensures tournaments == WithResult(old(tournaments), tournamentId, matchId, score1, score2)
    {
      tournaments := WithResult(tournaments, tournamentId, matchId, score1, score2);
    }

    method RegisterTeam(tournamentId: string, draft: TeamDraft, teamId: string)
      modifies this
      ensures tournaments == WithTeam(old(tournaments), tournamentId, draft, teamId)
    {
      tournaments := WithTeam(tournaments, tournamentId, draft, teamId);
    }

    function GetTournament(id: string): (r: Option<Tournament>)
      reads this
      ensures r.None? <==> forall j :: 0 <= j < |tournaments| ==> tournaments[j].id != id
      ensures r.Some? ==> r.value.id == id && r.value in tournaments
      ensures r.Some? ==> exists k :: 0 <= k < |tournaments| && tournaments[k] == r.value &&
                            forall j :: 0 <= j < k ==> tournaments[j].id != id
    {
      Lookup(tournaments, id)
    }

    /** Builds the new list tournament by tournament, generating a bracket for each one it starts. */
    method StartTournament(tournamentId: string)
      modifies this
      ensures tournaments == Started(old(tournaments), tournamentId)
    {
      var ts := tournaments;
      var updated: seq<Tournament> := [];
      var k := 0;
      while k < |ts|
        invariant 0 <= k <= |ts|
        invariant |updated| == k
        invariant forall j :: 0 <= j < k ==> updated[j] == StartOne(ts[j], tournamentId)
      {
        var t := ts[k];
        if t.id == tournamentId && t.status == Upcoming {
          var matches := GenerateDoubleEliminationBracket(t);
          updated := updated + [t.(status := Ongoing, matches := matches)];
        } else {
          updated := updated + [t];
        }
        k := k + 1;
      }
      assert updated == Started(ts, tournamentId);
      tournaments := updated;
    }
  }
}
