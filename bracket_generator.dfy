/**
 * The double-elimination bracket generator: a flat list of matches made of a
 * winners section, a losers section and two final matches, with round 1 of the
 * winners section seeded from the participant order.
 *
 * The generator builds the match records only: it links no match to the next,
 * propagates no winner and advances no bye. An odd participant leaves a `None`
 * slot.
 */
module BracketGenerator {
  import opened Optional
  import opened Decimal
  import opened Interfaces

  // ---------------------------------------------------------------------------
  // Integer stand-ins for Math.pow(2, _), Math.ceil(Math.log2(_)) and Math.ceil(_ / _)
  // ---------------------------------------------------------------------------

  function Pow2(k: nat): (p: nat)
    ensures p >= 1
  {
    if k == 0 then 1 else 2 * Pow2(k - 1)
  }

  /** `Math.ceil(Math.log2(n))` for `n >= 1`: the least `w` with `2^w >= n`. */
  function CeilLog2(n: nat): (w: nat)
    ensures n <= Pow2(w)
    ensures w > 0 ==> Pow2(w - 1) < n
    decreases n
  {
    if n <= 1 then 0 else 1 + CeilLog2((n + 1) / 2)
  }

  /** `Math.ceil(a / b)` for whole numbers. */
  function CeilDiv(a: nat, b: nat): nat
    requires b > 0
  {
    (a + b - 1) / b
  }

  /** Matches in winners round `r` (1-based) for `n` participants: `ceil(n / 2^r)`. */
  function WinnersRoundSize(n: nat, r: nat): nat {
    CeilDiv(n, Pow2(r))
  }

  /**
   * Matches in losers round `r` (0-based) when the winners section has `w`
   * rounds. Round 0 has `2^(w-2)`; for `w = 1` that is 0.5, and the loop
   * `for (m = 0; m < 0.5; m++)` still runs once, hence one match.
   */
  function LosersRoundSize(w: nat, r: nat): nat
    requires r < 2 * w - 1
  {
    if r == 0 then (if w >= 2 then Pow2(w - 2) else 1)
    else if r % 2 == 1 then Pow2(w - 1 - (r + 1) / 2)
    else Pow2(w - 1 - r / 2)
  }

  /** The sizes of the winners rounds, first round first. */
  function WinnersSizes(n: nat): seq<nat> {
    seq(CeilLog2(n), r requires 0 <= r => WinnersRoundSize(n, r + 1))
  }

  /** The sizes of the `2w - 1` losers rounds, first round first. */
  function LosersSizes(w: nat): seq<nat>
    requires w >= 1
  {
    seq(2 * w - 1, r requires 0 <= r < 2 * w - 1 => LosersRoundSize(w, r))
  }

  // ---------------------------------------------------------------------------
  // The matches, in generation order
  // ---------------------------------------------------------------------------

  /** A match position within a section: (0-based round, index within the round). */
  type Key = (nat, nat)

  function RoundKeys(r: nat, count: nat): seq<Key> {
    seq(count, i => (r, i))
  }

  /** The keys of a section in the order the nested loops visit them. */
  function SectionKeys(sizes: seq<nat>): seq<Key>
    decreases |sizes|
  {
    if |sizes| == 0 then []
    else SectionKeys(sizes[..|sizes| - 1]) + RoundKeys(|sizes| - 1, sizes[|sizes| - 1])
  }

  /** `${prefix}-${round}-${match}` with the 0-based round and index. */
  function MatchId(prefix: string, r: nat, i: nat): string {
    prefix + "-" + NatToString(r) + "-" + NatToString(i)
  }

  function SectionPrefix(section: BracketSection): string {
    match section
    case Winners => "w"
    case Losers => "l"
    case Final => "final"
  }

  /** The record pushed for key `k` of the winners or losers section. */
  function BlankMatch(section: BracketSection, k: Key): Match {
    Match(MatchId(SectionPrefix(section), k.0, k.1), k.0 + 1, section, None, None, None, None, None)
  }

  function SectionMatches(section: BracketSection, keys: seq<Key>): seq<Match> {
    seq(|keys|, p requires 0 <= p < |keys| => BlankMatch(section, keys[p]))
  }

  function FinalMatches(): seq<Match> {
    [ Match("final-1", 1, Final, None, None, None, None, None),
      Match("final-2", 2, Final, None, None, None, None, None) ]
  }

  /** Round-1 match `i` receives participants `2i` and `2i + 1`, where they exist. */
  function SeedMatch(m: Match, participants: seq<Team>, i: nat): Match {
    m.(team1Id := if 2 * i < |participants| then Some(participants[2 * i].id) else m.team1Id,
       team2Id := if 2 * i + 1 < |participants| then Some(participants[2 * i + 1].id) else m.team2Id)
  }

  /** The first `count` matches seeded, the rest left as they are. */
  function Seeded(ms: seq<Match>, participants: seq<Team>, count: nat): seq<Match> {
    seq(|ms|, k requires 0 <= k < |ms| => if k < count then SeedMatch(ms[k], participants, k) else ms[k])
  }

  /** What `generateDoubleEliminationBracket` returns for a participant list. */
  function Bracket(participants: seq<Team>): seq<Match> {
    var n := |participants|;
    if n < 2 then []
    else
      Seeded(SectionMatches(Winners, SectionKeys(WinnersSizes(n))), participants, WinnersRoundSize(n, 1))
      + SectionMatches(Losers, SectionKeys(LosersSizes(CeilLog2(n))))
      + FinalMatches()
  }

  // ---------------------------------------------------------------------------
  // The generator
  // ---------------------------------------------------------------------------

  method GenerateDoubleEliminationBracket(tournament: Tournament) returns (matches: seq<Match>)
    ensures matches == Bracket(tournament.participants)
  {
    var participants := tournament.participants;
    var participantCount := |participants|;
    if participantCount < 2 {
      return [];
    }
    var winnersRounds := CeilLog2(participantCount);
    var winnersMatches := BuildWinnersSection(participantCount, winnersRounds);
    var losersMatches := BuildLosersSection(winnersRounds);
    var finalMatches := [
      Match("final-1", 1, Final, None, None, None, None, None),
      Match("final-2", 2, Final, None, None, None, None, None)
    ];
    WinnersRoundOnePrefix(participantCount);
    winnersMatches := SeedFirstRound(winnersMatches, participants);
    matches := winnersMatches + losersMatches + finalMatches;
  }

  /** Step 1: the nested loops that push the winners matches, round by round. */
  method BuildWinnersSection(participantCount: nat, winnersRounds: nat) returns (winnersMatches: seq<Match>)
    requires winnersRounds == CeilLog2(participantCount)
    ensures winnersMatches == SectionMatches(Winners, SectionKeys(WinnersSizes(participantCount)))
  {
    ghost var sizes := WinnersSizes(participantCount);
    winnersMatches := [];
    var round := 0;
    while round < winnersRounds
      invariant round <= winnersRounds
      invariant winnersMatches == SectionMatches(Winners, SectionKeys(sizes[..round]))
    {
      var matchesInRound := CeilDiv(participantCount, Pow2(round + 1));
      assert matchesInRound == sizes[round];
      var m := 0;
      while m < matchesInRound
        invariant m <= matchesInRound
        invariant winnersMatches == SectionMatches(Winners, SectionKeys(sizes[..round]) + RoundKeys(round, m))
      {
        PushKey(Winners, SectionKeys(sizes[..round]), round, m);
        IdLiteral("w", round, m);
        winnersMatches := winnersMatches
          + [Match("w-" + NatToString(round) + "-" + NatToString(m), round + 1, Winners, None, None, None, None, None)];
        m := m + 1;
      }
      assert m == sizes[round];
      SectionStep(sizes, round);
      round := round + 1;
    }
    assert sizes[..winnersRounds] == sizes;
  }

  /** Step 2: the nested loops that push the `2w - 1` losers rounds. */
  method BuildLosersSection(winnersRounds: nat) returns (losersMatches: seq<Match>)
    requires winnersRounds >= 1
    ensures losersMatches == SectionMatches(Losers, SectionKeys(LosersSizes(winnersRounds)))
  {
    var losersRounds := winnersRounds * 2 - 1;
    ghost var sizes := LosersSizes(winnersRounds);
    losersMatches := [];
    var round := 0;
    while round < losersRounds
      invariant round <= losersRounds
      invariant losersMatches == SectionMatches(Losers, SectionKeys(sizes[..round]))
    {
      var matchesInRound := 0;
      if round == 0 {
        matchesInRound := if winnersRounds >= 2 then Pow2(winnersRounds - 2) else 1;
      } else if round % 2 == 1 {
        matchesInRound := Pow2(winnersRounds - 1 - (round + 1) / 2);
      } else {
        matchesInRound := Pow2(winnersRounds - 1 - round / 2);
      }
      assert matchesInRound == sizes[round];
      var m := 0;
      while m < matchesInRound
        invariant m <= matchesInRound
        invariant losersMatches == SectionMatches(Losers, SectionKeys(sizes[..round]) + RoundKeys(round, m))
      {
        PushKey(Losers, SectionKeys(sizes[..round]), round, m);
        IdLiteral("l", round, m);
        losersMatches := losersMatches
          + [Match("l-" + NatToString(round) + "-" + NatToString(m), round + 1, Losers, None, None, None, None, None)];
        m := m + 1;
      }
      assert m == sizes[round];
      SectionStep(sizes, round);
      round := round + 1;
    }
    assert sizes[..losersRounds] == sizes;
  }

  /**
   * Step 4: `filter(m => m.round === 1)` yields references into the winners
   * list; here they are positions, and the team slots are set in place.
   */
  method SeedFirstRound(unseeded: seq<Match>, participants: seq<Team>) returns (winnersMatches: seq<Match>)
    requires RoundOnePrefix(unseeded, WinnersRoundSize(|participants|, 1))
    ensures winnersMatches == Seeded(unseeded, participants, WinnersRoundSize(|participants|, 1))
  {
    var participantCount := |participants|;
    ghost var firstCount := WinnersRoundSize(participantCount, 1);
    winnersMatches := unseeded;
    var firstRoundMatches: seq<nat> := [];
    var k := 0;
    while k < |winnersMatches|
      invariant k <= |winnersMatches|
      invariant |firstRoundMatches| == if k < firstCount then k else firstCount
      invariant forall j :: 0 <= j < |firstRoundMatches| ==> firstRoundMatches[j] == j
    {
      if winnersMatches[k].round == 1 {
        firstRoundMatches := firstRoundMatches + [k];
      }
      k := k + 1;
    }

    var i := 0;
    while i < |firstRoundMatches|
      invariant i <= |firstRoundMatches|
      invariant winnersMatches == Seeded(unseeded, participants, i)
    {
      var position := firstRoundMatches[i];
      ghost var before := winnersMatches;
      assert position == i && before[i] == unseeded[i];
      var team1Index := i * 2;
      var team2Index := i * 2 + 1;
      ghost var seeded := SeedMatch(unseeded[i], participants, i);
      if team1Index < participantCount {
        winnersMatches := winnersMatches[position := winnersMatches[position].(team1Id := Some(participants[team1Index].id))];
      }
      assert winnersMatches == before[i := before[i].(team1Id := seeded.team1Id)];
      if team2Index < participantCount {
        winnersMatches := winnersMatches[position := winnersMatches[position].(team2Id := Some(participants[team2Index].id))];
      }
      assert winnersMatches[i] == seeded;
      assert winnersMatches == before[i := seeded];
      SeedStep(unseeded, participants, i);
      i := i + 1;
    }
  }

  /** Seeding match `i` extends the seeded prefix by one. */
  lemma SeedStep(ms: seq<Match>, participants: seq<Team>, i: nat)
    requires i < |ms|
    ensures Seeded(ms, participants, i + 1) == Seeded(ms, participants, i)[i := SeedMatch(ms[i], participants, i)]
  {
  }

  /** One push of the inner loop extends the section by the record for `(r, m)`. */
  lemma PushKey(section: BracketSection, keys: seq<Key>, r: nat, m: nat)
    ensures RoundKeys(r, m + 1) == RoundKeys(r, m) + [(r, m)]
    ensures SectionMatches(section, keys + RoundKeys(r, m + 1))
         == SectionMatches(section, keys + RoundKeys(r, m)) + [BlankMatch(section, (r, m))]
  {
    assert RoundKeys(r, m + 1) == RoundKeys(r, m) + [(r, m)];
    assert keys + RoundKeys(r, m + 1) == (keys + RoundKeys(r, m)) + [(r, m)];
  }

  /** The id the loops write out, `prefix + "-" + round + "-" + index`, is `MatchId`. */
  lemma IdLiteral(prefix: string, r: nat, i: nat)
    requires |prefix| == 1
    ensures [prefix[0], '-'] + NatToString(r) + "-" + NatToString(i) == MatchId(prefix, r, i)
  {
    assert [prefix[0], '-'] == prefix + "-";
  }

  /** Finishing round `r` appends its keys to the section built so far. */
  lemma SectionStep(sizes: seq<nat>, r: nat)
    requires r < |sizes|
    ensures SectionKeys(sizes[..r + 1]) == SectionKeys(sizes[..r]) + RoundKeys(r, sizes[r])
  {
    assert sizes[..r + 1][..r] == sizes[..r];
  }

  /** The matches of round 1 are exactly the first `c`. */
  predicate RoundOnePrefix(ms: seq<Match>, c: nat) {
    c <= |ms| && forall p :: 0 <= p < |ms| ==> (ms[p].round == 1 <==> p < c)
  }

  /** In the winners section, the round-1 matches are exactly the first `ceil(n/2)`. */
  lemma WinnersRoundOnePrefix(n: nat)
    requires n >= 2
    ensures RoundOnePrefix(SectionMatches(Winners, SectionKeys(WinnersSizes(n))), WinnersRoundSize(n, 1))
  {
    var sizes := WinnersSizes(n);
    assert CeilLog2(n) >= 1;
    FirstRoundKeys(sizes);
  }

  function Sum(sizes: seq<nat>): nat
    decreases |sizes|
  {
    if |sizes| == 0 then 0 else Sum(sizes[..|sizes| - 1]) + sizes[|sizes| - 1]
  }

  /** The first round of a section occupies exactly its first `sizes[0]` positions. */
  lemma {:induction false} FirstRoundKeys(sizes: seq<nat>)
    requires |sizes| >= 1
    ensures |SectionKeys(sizes)| == Sum(sizes) >= sizes[0]
    ensures forall p :: 0 <= p < |SectionKeys(sizes)| ==> (SectionKeys(sizes)[p].0 == 0 <==> p < sizes[0])
    decreases |sizes|
  {
    var prefix := sizes[..|sizes| - 1];
    if |sizes| == 1 {
      assert prefix == [];
    } else {
      assert prefix[0] == sizes[0];
      FirstRoundKeys(prefix);
    }
  }
}
