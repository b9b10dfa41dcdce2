/**
 * The tournament records: tournaments, teams and matches. Ids are strings; `null` slots and scores are `None`.
 */
module Interfaces {
  import opened Optional

  datatype TournamentStatus = Upcoming | Ongoing | Completed

  /** The section of the bracket that a match belongs to (`bracket` in the record). */
  datatype BracketSection = Winners | Losers | Final

  datatype Team = Team(id: string, name: string, members: seq<string>, logo: Option<string>)

  datatype Match = Match(
    id: string,
    round: nat,
    bracket: BracketSection,
    team1Id: Option<string>,
    team2Id: Option<string>,
    score1: Option<int>,
    score2: Option<int>,
    winnerId: Option<string>)

  datatype Tournament = Tournament(
    id: string,
    name: string,
    game: string,
    startDate: string,
    endDate: string,
    maxTeams: int,
    organizerId: string,
    participants: seq<Team>,
    matches: seq<Match>,
    status: TournamentStatus)
}
