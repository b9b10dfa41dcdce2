/**
 * Properties of the generated bracket: the size of every round, the order of
 * the matches, the uniqueness of their ids and where the participants go.
 */
module BracketProperties {
  import opened Optional
  import opened Collections
  import opened Decimal
  import opened Interfaces
  import opened BracketGenerator

  // ---------------------------------------------------------------------------
  // Arithmetic of the round sizes
  // ---------------------------------------------------------------------------

  /** `CeilDiv(a, b)` is the `q` with `b(q - 1) < a <= bq`. */
  lemma CeilDivBounds(a: nat, b: nat)
    requires b > 0
    ensures b * (CeilDiv(a, b) - 1) < a <= b * CeilDiv(a, b)
  {
    var x := a + b - 1;
    assert x == b * (x / b) + x % b;
  }

  lemma {:induction false} CeilDivUnique(a: nat, b: nat, q: int)
    requires b > 0
    requires b * (q - 1) < a <= b * q
    ensures CeilDiv(a, b) == q
  {
    var c := CeilDiv(a, b);
    CeilDivBounds(a, b);
    if c < q {
      MulMonotone(b, c, q - 1);
      assert false;
    } else if c > q {
      MulMonotone(b, q, c - 1);
      assert false;
    }
  }

  /** Dividing by less than `a` itself leaves more than one. */
  lemma CeilDivAboveOne(a: nat, b: nat)
    requires 0 < b < a
    ensures CeilDiv(a, b) >= 2
  {
    CeilDivBounds(a, b);
    if CeilDiv(a, b) <= 1 {
      MulMonotone(b, CeilDiv(a, b), 1);
      assert false;
    }
  }

  lemma MulMonotone(a: nat, x: int, y: int)
    requires x <= y
    ensures a * x <= a * y
  {
  }

  lemma MulTwice(a: nat, x: int)
    ensures a * (2 * x) == (2 * a) * x
  {
  }

  /** Halving twice in a row: `ceil(ceil(n / a) / 2) == ceil(n / 2a)`. */
  lemma {:induction false} CeilDivNested(n: nat, a: nat)
    requires a > 0
    ensures CeilDiv(n, 2 * a) == CeilDiv(CeilDiv(n, a), 2)
  {
    var q: int := CeilDiv(n, a);
    var m: int := CeilDiv(q, 2);
    CeilDivBounds(n, a);
    CeilDivBounds(q, 2);
    assert a * q >= n && a * (q - 1) < n;
    assert q <= 2 * m && 2 * m - 2 <= q - 1;
    assert (2 * a) * m >= n by {
      MulMonotone(a, q, 2 * m);
      MulTwice(a, m);
    }
    assert (2 * a) * (m - 1) < n by {
      MulMonotone(a, 2 * m - 2, q - 1);
      MulTwice(a, m - 1);
    }
    CeilDivUnique(n, 2 * a, m);
  }

  /** Each winners round has `ceil(previous / 2)` matches. */
  lemma {:induction false} WinnersHalving(n: nat, r: nat)
    ensures WinnersRoundSize(n, r + 1) == CeilDiv(WinnersRoundSize(n, r), 2)
  {
    assert Pow2(r + 1) == 2 * Pow2(r);
    CeilDivNested(n, Pow2(r));
  }

  lemma {:induction false} Pow2Monotone(i: nat, j: nat)
    requires i <= j
    ensures Pow2(i) <= Pow2(j)
    decreases j
  {
    if i < j {
      Pow2Monotone(i, j - 1);
    }
  }

  /**
   * The winners section has `w = ceil(log2 n)` rounds; round 1 has `ceil(n/2)`
   * matches, every round before the last at least two, and the last exactly one.
   */
  lemma WinnersShape(n: nat)
    requires n >= 2
    ensures |WinnersSizes(n)| == CeilLog2(n) >= 1
    ensures WinnersSizes(n)[0] == CeilDiv(n, 2)
    ensures WinnersSizes(n)[CeilLog2(n) - 1] == 1
    ensures forall r :: 0 <= r < CeilLog2(n) - 1 ==> WinnersSizes(n)[r] >= 2
    ensures forall r :: 0 <= r < CeilLog2(n) - 1 ==> WinnersSizes(n)[r + 1] == CeilDiv(WinnersSizes(n)[r], 2)
  {
    var w := CeilLog2(n);
    assert Pow2(1) == 2;
    CeilDivUnique(n, Pow2(w), 1);
    forall r | 0 <= r < w - 1 ensures WinnersSizes(n)[r] >= 2 {
      Pow2Monotone(r + 1, w - 1);
      CeilDivAboveOne(n, Pow2(r + 1));
    }
    forall r | 0 <= r < w - 1 ensures WinnersSizes(n)[r + 1] == CeilDiv(WinnersSizes(n)[r], 2) {
      WinnersHalving(n, r + 1);
    }
  }

  ghost predicate IsPowerOfTwo(x: nat) {
    exists k: nat :: Pow2(k) == x
  }

  /**
   * The losers section has `2w - 1` rounds whose sizes are powers of two, never
   * grow from one round to the next, and end in a single match.
   */
  lemma LosersShape(w: nat)
    requires w >= 1
    ensures |LosersSizes(w)| == 2 * w - 1
    ensures LosersSizes(w)[0] == if w >= 2 then Pow2(w - 2) else 1
    ensures LosersSizes(w)[2 * w - 2] == 1
    ensures forall r :: 0 <= r < 2 * w - 1 ==> IsPowerOfTwo(LosersSizes(w)[r])
    ensures forall r :: 0 <= r < 2 * w - 2 ==> LosersSizes(w)[r + 1] <= LosersSizes(w)[r]
  {
    var sizes := LosersSizes(w);
    forall r | 0 <= r < 2 * w - 1 ensures IsPowerOfTwo(sizes[r]) {
      if r == 0 {
        assert Pow2(0) == 1;
      }
    }
    forall r | 0 <= r < 2 * w - 2 ensures sizes[r + 1] <= sizes[r] {
      if r % 2 == 0 && r > 0 {
        Pow2Monotone(w - 1 - (r + 2) / 2, w - 1 - r / 2);
      }
    }
  }

  /** With two participants there is one winners round and one losers match. */
  lemma TwoParticipantsShape()
    ensures CeilLog2(2) == 1
    ensures WinnersSizes(2) == [1]
    ensures LosersSizes(1) == [1]
  {
    assert Pow2(1) == 2;
    assert CeilLog2(1) == 0;
  }

  lemma {:induction false} SumConcat(a: seq<nat>, b: seq<nat>)
    ensures Sum(a + b) == Sum(a) + Sum(b)
    decreases |b|
  {
    if |b| > 0 {
      assert (a + b)[..|a + b| - 1] == a + b[..|b| - 1];
      SumConcat(a, b[..|b| - 1]);
    } else {
      assert a + b == a;
    }
  }

  /** Adding a winners round puts three rounds of `2^(w-2)` in front of the old losers rounds after the first. */
  lemma LosersGrowth(w: nat)
    requires w >= 2
    ensures LosersSizes(w) == [Pow2(w - 2), Pow2(w - 2), Pow2(w - 2)] + LosersSizes(w - 1)[1..]
  {
    var a := Pow2(w - 2);
    var prev := LosersSizes(w - 1);
    forall r | 0 <= r < 2 * w - 1 ensures LosersSizes(w)[r] == ([a, a, a] + prev[1..])[r] {
      if r >= 3 {
        assert ([a, a, a] + prev[1..])[r] == prev[r - 2];
      }
    }
  }

  lemma SumFront(x: nat, s: seq<nat>)
    ensures Sum([x] + s) == x + Sum(s)
  {
    SumConcat([x], s);
    assert [x][..0] == [];
  }

  lemma SumThreeFront(a: nat, t: seq<nat>)
    ensures Sum([a, a, a] + t) == 3 * a + Sum(t)
  {
    assert [a, a, a] + t == [a] + ([a] + ([a] + t));
    SumFront(a, [a] + ([a] + t));
    SumFront(a, [a] + t);
    SumFront(a, t);
  }

  lemma SumTail(s: seq<nat>)
    requires |s| >= 1
    ensures Sum(s) == s[0] + Sum(s[1..])
  {
    assert s == [s[0]] + s[1..];
    SumFront(s[0], s[1..]);
  }

  /** The losers section has `2^(w-2) + 2^w - 2` matches in all (one when `w = 1`). */
  lemma {:induction false} LosersTotal(w: nat)
    requires w >= 1
    ensures Sum(LosersSizes(w)) == if w >= 2 then Pow2(w - 2) + Pow2(w) - 2 else 1
    decreases w
  {
    if w == 1 {
      assert LosersSizes(1) == [1];
      SumFront(1, []);
    } else {
      var a := Pow2(w - 2);
      var prev := LosersSizes(w - 1);
      LosersGrowth(w);
      SumThreeFront(a, prev[1..]);
      SumTail(prev);
      LosersTotal(w - 1);
      assert Sum(LosersSizes(w)) == 3 * a + Sum(prev) - prev[0];
      assert Pow2(w) == 4 * a;
      if w >= 3 {
        assert prev[0] == Pow2(w - 3) && a == 2 * Pow2(w - 3);
      } else {
        assert prev[0] == 1 && a == 1;
      }
    }
  }

  // ---------------------------------------------------------------------------
  // The order of a section: rounds ascend, indices ascend within a round
  // ---------------------------------------------------------------------------

  predicate LexLess(a: Key, b: Key) {
    a.0 < b.0 || (a.0 == b.0 && a.1 < b.1)
  }

  predicate LexSorted(keys: seq<Key>) {
    forall p, q :: 0 <= p < q < |keys| ==> LexLess(keys[p], keys[q])
  }

  /**
   * A section lists `sizes[r]` keys `(r, 0), (r, 1), ...` per round `r`, in
   * strictly increasing (round, index) order.
   */
  lemma {:induction false} SectionKeysShape(sizes: seq<nat>)
    ensures |SectionKeys(sizes)| == Sum(sizes)
    ensures forall p :: 0 <= p < |SectionKeys(sizes)| ==>
      SectionKeys(sizes)[p].0 < |sizes| && SectionKeys(sizes)[p].1 < sizes[SectionKeys(sizes)[p].0]
    ensures LexSorted(SectionKeys(sizes))
    decreases |sizes|
  {
    if |sizes| > 0 {
      var last := |sizes| - 1;
      var prefix := sizes[..last];
      SectionKeysShape(prefix);
      var pk := SectionKeys(prefix);
      var ks := SectionKeys(sizes);
      assert ks == pk + RoundKeys(last, sizes[last]);
      forall p | 0 <= p < |ks| ensures ks[p].0 < |sizes| && ks[p].1 < sizes[ks[p].0] {
        if p < |pk| {
          assert ks[p] == pk[p];
          assert prefix[pk[p].0] == sizes[pk[p].0];
        }
      }
      forall p, q | 0 <= p < q < |ks| ensures LexLess(ks[p], ks[q]) {
        if q < |pk| {
          assert ks[p] == pk[p] && ks[q] == pk[q];
        } else if p < |pk| {
          assert ks[p] == pk[p];
        }
      }
    }
  }

  lemma SectionMatchesConcat(section: BracketSection, a: seq<Key>, b: seq<Key>)
    ensures SectionMatches(section, a + b) == SectionMatches(section, a) + SectionMatches(section, b)
  {
  }

  // ---------------------------------------------------------------------------
  // Counting the matches of each round
  // ---------------------------------------------------------------------------

  /** The number of matches of `section` whose round is `round`. */
  function CountRound(ms: seq<Match>, section: BracketSection, round: nat): nat {
    if |ms| == 0 then 0
    else (if ms[0].bracket == section && ms[0].round == round then 1 else 0) + CountRound(ms[1..], section, round)
  }

  lemma {:induction false} CountConcat(a: seq<Match>, b: seq<Match>, section: BracketSection, round: nat)
    ensures CountRound(a + b, section, round) == CountRound(a, section, round) + CountRound(b, section, round)
  {
    if |a| == 0 {
      assert a + b == b;
    } else {
      assert (a + b)[1..] == a[1..] + b;
      CountConcat(a[1..], b, section, round);
    }
  }

  lemma {:induction false} CountRoundBlock(section: BracketSection, r: nat, c: nat, other: BracketSection, round: nat)
    ensures CountRound(SectionMatches(section, RoundKeys(r, c)), other, round)
         == if other == section && round == r + 1 then c else 0
  {
    if c > 0 {
      CountRoundBlock(section, r, c - 1, other, round);
      PushKey(section, [], r, c - 1);
      assert [] + RoundKeys(r, c) == RoundKeys(r, c);
      assert [] + RoundKeys(r, c - 1) == RoundKeys(r, c - 1);
      var single := [BlankMatch(section, (r, c - 1))];
      CountConcat(SectionMatches(section, RoundKeys(r, c - 1)), single, other, round);
      assert single[1..] == [];
    }
  }

  /** Round `round` (1-based) of a section has `sizes[round - 1]` matches. */
  lemma {:induction false} CountSection(section: BracketSection, sizes: seq<nat>, other: BracketSection, round: nat)
    ensures CountRound(SectionMatches(section, SectionKeys(sizes)), other, round)
         == if other == section && 1 <= round <= |sizes| then sizes[round - 1] else 0
    decreases |sizes|
  {
    if |sizes| > 0 {
      var last := |sizes| - 1;
      var prefix := sizes[..last];
      CountSection(section, prefix, other, round);
      SectionMatchesConcat(section, SectionKeys(prefix), RoundKeys(last, sizes[last]));
      CountConcat(SectionMatches(section, SectionKeys(prefix)), SectionMatches(section, RoundKeys(last, sizes[last])), other, round);
      CountRoundBlock(section, last, sizes[last], other, round);
    }
  }

  lemma {:induction false} CountSameShape(a: seq<Match>, b: seq<Match>, section: BracketSection, round: nat)
    requires |a| == |b|
    requires forall k :: 0 <= k < |a| ==> a[k].bracket == b[k].bracket && a[k].round == b[k].round
    ensures CountRound(a, section, round) == CountRound(b, section, round)
  {
    if |a| > 0 {
      CountSameShape(a[1..], b[1..], section, round);
    }
  }

  lemma FinalCounts(section: BracketSection, round: nat)
    ensures CountRound(FinalMatches(), section, round) == if section == Final && (round == 1 || round == 2) then 1 else 0
  {
    var fm := FinalMatches();
    assert fm[1..][1..] == [];
    assert CountRound(fm[1..][1..], section, round) == 0;
    assert fm[1..][0] == fm[1];
  }

  /** Seeding changes no round or section, so the bracket counts as its three unseeded parts. */
  lemma BracketCountSplit(participants: seq<Team>, section: BracketSection, round: nat)
    requires |participants| >= 2
    ensures var n := |participants|;
      CountRound(Bracket(participants), section, round)
      == CountRound(SectionMatches(Winners, SectionKeys(WinnersSizes(n))), section, round)
       + CountRound(SectionMatches(Losers, SectionKeys(LosersSizes(CeilLog2(n)))), section, round)
       + CountRound(FinalMatches(), section, round)
  {
    var n := |participants|;
    var unseeded := SectionMatches(Winners, SectionKeys(WinnersSizes(n)));
    var winners := Seeded(unseeded, participants, WinnersRoundSize(n, 1));
    var losers := SectionMatches(Losers, SectionKeys(LosersSizes(CeilLog2(n))));
    assert Bracket(participants) == winners + losers + FinalMatches();
    CountConcat(winners + losers, FinalMatches(), section, round);
    CountConcat(winners, losers, section, round);
    CountSameShape(winners, unseeded, section, round);
  }

  /** What a section with round sizes `ws`, a losers section with `ls` and the finals hold of `(section, round)`. */
  function PartCount(ws: seq<nat>, ls: seq<nat>, section: BracketSection, round: nat): nat {
    match section
    case Winners => if 1 <= round <= |ws| then ws[round - 1] else 0
    case Losers => if 1 <= round <= |ls| then ls[round - 1] else 0
    case Final => if round == 1 || round == 2 then 1 else 0
  }

  lemma PartsCount(ws: seq<nat>, ls: seq<nat>, section: BracketSection, round: nat)
    ensures CountRound(SectionMatches(Winners, SectionKeys(ws)), section, round)
          + CountRound(SectionMatches(Losers, SectionKeys(ls)), section, round)
          + CountRound(FinalMatches(), section, round)
         == PartCount(ws, ls, section, round)
  {
    FinalCounts(section, round);
    CountSection(Winners, ws, section, round);
    CountSection(Losers, ls, section, round);
  }

  lemma BracketSectionCounts(participants: seq<Team>, section: BracketSection, round: nat)
    requires |participants| >= 2
    ensures CountRound(Bracket(participants), section, round)
         == PartCount(WinnersSizes(|participants|), LosersSizes(CeilLog2(|participants|)), section, round)
  {
    var n := |participants|;
    BracketCountSplit(participants, section, round);
    PartsCount(WinnersSizes(n), LosersSizes(CeilLog2(n)), section, round);
  }

  lemma WinnersSizesAt(n: nat, r: nat)
    requires r < CeilLog2(n)
    ensures WinnersSizes(n)[r] == WinnersRoundSize(n, r + 1)
  {
  }

  /** Winners round `r` has `ceil(n/2^r)` matches for `r = 1..w` and no other round has any. */
  lemma WinnersRoundCounts(participants: seq<Team>, round: nat)
    requires |participants| >= 2
    ensures CountRound(Bracket(participants), Winners, round)
         == if 1 <= round <= CeilLog2(|participants|) then WinnersRoundSize(|participants|, round) else 0
  {
    var n := |participants|;
    var ws := WinnersSizes(n);
    BracketSectionCounts(participants, Winners, round);
    assert |ws| == CeilLog2(n);
    if 1 <= round <= |ws| {
      var r: nat := round - 1;
      WinnersSizesAt(n, r);
      assert r + 1 == round;
    }
  }

  /** Losers round `r` has the losers size of `r - 1` for `r = 1..2w-1` and no other round has any. */
  lemma LosersRoundCounts(participants: seq<Team>, round: nat)
    requires |participants| >= 2
    ensures var w := CeilLog2(|participants|);
      CountRound(Bracket(participants), Losers, round) == if 1 <= round <= 2 * w - 1 then LosersRoundSize(w, round - 1) else 0
  {
    var n := |participants|;
    BracketSectionCounts(participants, Losers, round);
    LosersPartCount(WinnersSizes(n), CeilLog2(n), round);
  }

  lemma LosersPartCount(ws: seq<nat>, w: nat, round: nat)
    requires w >= 1
    ensures PartCount(ws, LosersSizes(w), Losers, round) == if 1 <= round <= 2 * w - 1 then LosersRoundSize(w, round - 1) else 0
  {
    var ls := LosersSizes(w);
    assert |ls| == 2 * w - 1;
    if 1 <= round <= |ls| {
      assert ls[round - 1] == LosersRoundSize(w, round - 1);
    }
  }

  /** The final section has exactly one match in round 1 and one in round 2. */
  lemma FinalRoundCounts(participants: seq<Team>, round: nat)
    requires |participants| >= 2
    ensures CountRound(Bracket(participants), Final, round) == if round == 1 || round == 2 then 1 else 0
  {
    BracketSectionCounts(participants, Final, round);
  }

  // ---------------------------------------------------------------------------
  // Layout, order and ids
  // ---------------------------------------------------------------------------

  /**
   * `b` is a winners section laid out by the keys `wk`, then a losers section
   * laid out by `lk`, then `final-1` (round 1) and `final-2` (round 2): the
   * match at each position of a section carries the section, the round and the
   * id `w-{r}-{i}` / `l-{r}-{i}` of its key.
   */
  predicate SectionLayout(b: seq<Match>, wk: seq<Key>, lk: seq<Key>) {
    && |b| == |wk| + |lk| + 2
    && (forall p :: 0 <= p < |wk| ==>
          b[p].bracket == Winners && b[p].round == wk[p].0 + 1 && b[p].id == MatchId("w", wk[p].0, wk[p].1))
    && (forall q :: |wk| <= q < |wk| + |lk| ==>
          b[q].bracket == Losers && b[q].round == lk[q - |wk|].0 + 1 && b[q].id == MatchId("l", lk[q - |wk|].0, lk[q - |wk|].1))
    && b[|wk| + |lk|] == Match("final-1", 1, Final, None, None, None, None, None)
    && b[|wk| + |lk| + 1] == Match("final-2", 2, Final, None, None, None, None, None)
  }

  /** Seeding keeps the section, round and id of every winners match. */
  lemma SeededWinners(wk: seq<Key>, participants: seq<Team>, count: nat)
    ensures var ws := Seeded(SectionMatches(Winners, wk), participants, count);
      && |ws| == |wk|
      && forall p :: 0 <= p < |wk| ==>
           ws[p].bracket == Winners && ws[p].round == wk[p].0 + 1 && ws[p].id == MatchId("w", wk[p].0, wk[p].1)
  {
    var wm := SectionMatches(Winners, wk);
    var ws := Seeded(wm, participants, count);
    forall p | 0 <= p < |wk|
      ensures ws[p].bracket == Winners && ws[p].round == wk[p].0 + 1 && ws[p].id == MatchId("w", wk[p].0, wk[p].1)
    {
      assert wm[p] == BlankMatch(Winners, wk[p]);
    }
  }

  lemma PartsLayout(b: seq<Match>, ws: seq<Match>, ls: seq<Match>, wk: seq<Key>, lk: seq<Key>)
    requires b == ws + ls + FinalMatches()
    requires |ws| == |wk| && ls == SectionMatches(Losers, lk)
    requires forall p :: 0 <= p < |wk| ==>
      ws[p].bracket == Winners && ws[p].round == wk[p].0 + 1 && ws[p].id == MatchId("w", wk[p].0, wk[p].1)
    ensures SectionLayout(b, wk, lk)
  {
    forall p | 0 <= p < |wk|
      ensures b[p].bracket == Winners && b[p].round == wk[p].0 + 1 && b[p].id == MatchId("w", wk[p].0, wk[p].1)
    {
      assert b[p] == ws[p];
    }
    forall q | |wk| <= q < |wk| + |lk|
      ensures b[q].bracket == Losers && b[q].round == lk[q - |wk|].0 + 1 && b[q].id == MatchId("l", lk[q - |wk|].0, lk[q - |wk|].1)
    {
      assert b[q] == ls[q - |wk|];
    }
    assert b[|wk| + |lk|] == FinalMatches()[0];
    assert b[|wk| + |lk| + 1] == FinalMatches()[1];
  }

  /**
   * The bracket is laid out as `SectionLayout` says, with the keys of the
   * winners and the losers rounds, and the keys of each section run in
   * increasing (round, index) order.
   */
  lemma BracketLayout(participants: seq<Team>)
    requires |participants| >= 2
    ensures var n := |participants|;
      var wk := SectionKeys(WinnersSizes(n));
      var lk := SectionKeys(LosersSizes(CeilLog2(n)));
      SectionLayout(Bracket(participants), wk, lk) && LexSorted(wk) && LexSorted(lk)
  {
    var n := |participants|;
    var wk := SectionKeys(WinnersSizes(n));
    var lk := SectionKeys(LosersSizes(CeilLog2(n)));
    assert LexSorted(wk) && LexSorted(lk) by {
      SectionKeysShape(WinnersSizes(n));
      SectionKeysShape(LosersSizes(CeilLog2(n)));
    }
    var ws := Seeded(SectionMatches(Winners, wk), participants, WinnersRoundSize(n, 1));
    var ls := SectionMatches(Losers, lk);
    assert Bracket(participants) == ws + ls + FinalMatches();
    SeededWinners(wk, participants, WinnersRoundSize(n, 1));
    PartsLayout(Bracket(participants), ws, ls, wk, lk);
  }

  function SectionRank(section: BracketSection): nat {
    match section
    case Winners => 0
    case Losers => 1
    case Final => 2
  }

  /** Sections never interleave, and within a section the rounds never decrease. */
  predicate Ordered(b: seq<Match>) {
    forall p, q :: 0 <= p < q < |b| ==>
      && SectionRank(b[p].bracket) <= SectionRank(b[q].bracket)
      && (b[p].bracket == b[q].bracket ==> b[p].round <= b[q].round)
  }

  lemma LayoutOrdered(b: seq<Match>, wk: seq<Key>, lk: seq<Key>)
    requires SectionLayout(b, wk, lk) && LexSorted(wk) && LexSorted(lk)
    ensures Ordered(b)
  {
    forall p, q | 0 <= p < q < |b|
      ensures SectionRank(b[p].bracket) <= SectionRank(b[q].bracket)
      ensures b[p].bracket == b[q].bracket ==> b[p].round <= b[q].round
    {
      if q < |wk| {
        assert LexLess(wk[p], wk[q]);
      } else if |wk| <= p && q < |wk| + |lk| {
        assert LexLess(lk[p - |wk|], lk[q - |wk|]);
      }
    }
  }

  /** Sections appear as winners, losers, final, and rounds never decrease within a section. */
  lemma BracketOrder(participants: seq<Team>)
    ensures Ordered(Bracket(participants))
  {
    if |participants| >= 2 {
      var n := |participants|;
      BracketLayout(participants);
      LayoutOrdered(Bracket(participants), SectionKeys(WinnersSizes(n)), SectionKeys(LosersSizes(CeilLog2(n))));
    }
  }

  /** `w-{r}-{i}` and `l-{r}-{i}` determine their prefix, round and index. */
  lemma MatchIdInjective(x1: string, r1: nat, i1: nat, x2: string, r2: nat, i2: nat)
    requires '-' !in x1 && '-' !in x2
    requires MatchId(x1, r1, i1) == MatchId(x2, r2, i2)
    ensures x1 == x2 && r1 == r2 && i1 == i2
  {
    var d1, e1 := NatToString(r1), NatToString(i1);
    var d2, e2 := NatToString(r2), NatToString(i2);
    assert MatchId(x1, r1, i1) == x1 + ['-'] + (d1 + ['-'] + e1);
    assert MatchId(x2, r2, i2) == x2 + ['-'] + (d2 + ['-'] + e2);
    SplitAtSeparator(x1, d1 + ['-'] + e1, x2, d2 + ['-'] + e2, '-');
    assert '-' !in d1 && '-' !in d2;
    SplitAtSeparator(d1, e1, d2, e2, '-');
    NatToStringInjective(r1, r2);
    NatToStringInjective(i1, i2);
  }

  /** Distinct keys give distinct ids, and section prefixes and finals never clash. */
  lemma LayoutIdsDistinct(b: seq<Match>, wk: seq<Key>, lk: seq<Key>)
    requires SectionLayout(b, wk, lk) && LexSorted(wk) && LexSorted(lk)
    ensures forall p, q :: 0 <= p < q < |b| ==> b[p].id != b[q].id
  {
    forall p, q | 0 <= p < q < |b| ensures b[p].id != b[q].id {
      if q < |wk| + |lk| && b[p].id == b[q].id {
        if q < |wk| {
          assert LexLess(wk[p], wk[q]);
          MatchIdInjective("w", wk[p].0, wk[p].1, "w", wk[q].0, wk[q].1);
        } else if p < |wk| {
          MatchIdInjective("w", wk[p].0, wk[p].1, "l", lk[q - |wk|].0, lk[q - |wk|].1);
        } else {
          assert LexLess(lk[p - |wk|], lk[q - |wk|]);
          MatchIdInjective("l", lk[p - |wk|].0, lk[p - |wk|].1, "l", lk[q - |wk|].0, lk[q - |wk|].1);
        }
      } else if q >= |wk| + |lk| && p < |wk| + |lk| {
        assert b[q].id[0] == 'f';
        if p < |wk| {
          assert b[p].id[0] == 'w';
        } else {
          assert b[p].id[0] == 'l';
        }
      }
    }
  }

  /** All match ids in a bracket are pairwise distinct. */
  lemma BracketIdsDistinct(participants: seq<Team>)
    ensures var b := Bracket(participants);
      forall p, q :: 0 <= p < q < |b| ==> b[p].id != b[q].id
  {
    if |participants| >= 2 {
      var n := |participants|;
      BracketLayout(participants);
      LayoutIdsDistinct(Bracket(participants), SectionKeys(WinnersSizes(n)), SectionKeys(LosersSizes(CeilLog2(n))));
    }
  }

  // ---------------------------------------------------------------------------
  // Seeding and the contents of the records
  // ---------------------------------------------------------------------------

  function OptionToSeq(o: Option<string>): seq<string> {
    match o
    case None => []
    case Some(x) => [x]
  }

  /** The filled team slots of one match, `team1Id` before `team2Id`. */
  function MatchSlots(m: Match): seq<string> {
    OptionToSeq(m.team1Id) + OptionToSeq(m.team2Id)
  }

  /** The filled team slots of a list of matches, read in order. */
  function SlotIds(ms: seq<Match>): seq<string>
    decreases |ms|
  {
    if |ms| == 0 then [] else SlotIds(ms[..|ms| - 1]) + MatchSlots(ms[|ms| - 1])
  }

  function TeamIds(participants: seq<Team>): seq<string> {
    seq(|participants|, k requires 0 <= k < |participants| => participants[k].id)
  }

  lemma {:induction false} SlotIdsConcat(a: seq<Match>, b: seq<Match>)
    ensures SlotIds(a + b) == SlotIds(a) + SlotIds(b)
    decreases |b|
  {
    if |b| == 0 {
      assert a + b == a;
    } else {
      var last := |b| - 1;
      var ab := a + b;
      var front := b[..last];
      var tail := MatchSlots(b[last]);
      assert ab[..|ab| - 1] == a + front;
      assert ab[|ab| - 1] == b[last];
      assert SlotIds(b) == SlotIds(front) + tail;
      assert SlotIds(ab) == SlotIds(a + front) + tail;
      SlotIdsConcat(a, front);
      assert SlotIds(a + front) + tail == SlotIds(a) + (SlotIds(front) + tail);
    }
  }

  /**
   * The records of a bracket with `c` round-1 matches: the first `c` matches
   * are the round-1 winners matches and hold participants `2i` and `2i + 1`
   * (`None` past the end); every other slot, and every score and winner, is
   * `None`.
   */
  predicate RoundOneSeated(b: seq<Match>, participants: seq<Team>, c: nat) {
    var n := |participants|;
    && c <= |b|
    && (forall i :: 0 <= i < c ==>
          && 2 * i < n
          && b[i].bracket == Winners && b[i].round == 1
          && b[i].team1Id == Some(participants[2 * i].id)
          && b[i].team2Id == (if 2 * i + 1 < n then Some(participants[2 * i + 1].id) else None))
    && (forall q :: c <= q < |b| ==> b[q].team1Id == None && b[q].team2Id == None)
    && (forall q :: 0 <= q < |b| ==> b[q].score1 == None && b[q].score2 == None && b[q].winnerId == None)
  }

  /** A section as generated: every slot, score and winner is `None`. */
  predicate Blank(ms: seq<Match>) {
    forall p :: 0 <= p < |ms| ==>
      ms[p].team1Id == None && ms[p].team2Id == None && ms[p].score1 == None && ms[p].score2 == None && ms[p].winnerId == None
  }

  lemma SectionIsBlank(section: BracketSection, keys: seq<Key>)
    ensures Blank(SectionMatches(section, keys))
  {
  }

  lemma PartsSeated(b: seq<Match>, wm: seq<Match>, ls: seq<Match>, participants: seq<Team>, c: nat)
    requires b == Seeded(wm, participants, c) + ls + FinalMatches()
    requires Blank(wm) && Blank(ls) && c <= |wm| && (c > 0 ==> 2 * (c - 1) < |participants|)
    requires forall p :: 0 <= p < |wm| ==> wm[p].bracket == Winners && (wm[p].round == 1 <==> p < c)
    ensures RoundOneSeated(b, participants, c)
  {
    var ws := Seeded(wm, participants, c);
    forall q | 0 <= q < |b|
      ensures q < c ==>
        && 2 * q < |participants|
        && b[q].bracket == Winners && b[q].round == 1
        && b[q].team1Id == Some(participants[2 * q].id)
        && b[q].team2Id == (if 2 * q + 1 < |participants| then Some(participants[2 * q + 1].id) else None)
      ensures c <= q ==> b[q].team1Id == None && b[q].team2Id == None
      ensures b[q].score1 == None && b[q].score2 == None && b[q].winnerId == None
    {
      if q < |ws| {
        assert b[q] == ws[q];
      } else if q < |ws| + |ls| {
        assert b[q] == ls[q - |ws|];
      } else {
        assert b[q] == FinalMatches()[q - |ws| - |ls|];
      }
    }
  }

  /**
   * The first `CeilDiv(n, 2)` matches of a bracket are the round-1 winners
   * matches holding participants `2i` and `2i + 1`; every other slot, score and
   * winner is `None`.
   */
  lemma BracketRecords(participants: seq<Team>)
    requires |participants| >= 2
    ensures RoundOneSeated(Bracket(participants), participants, CeilDiv(|participants|, 2))
  {
    var n := |participants|;
    var c := CeilDiv(n, 2);
    var wk := SectionKeys(WinnersSizes(n));
    var lk := SectionKeys(LosersSizes(CeilLog2(n)));
    var wm := SectionMatches(Winners, wk);
    var ls := SectionMatches(Losers, lk);
    assert WinnersRoundSize(n, 1) == c by {
      assert Pow2(1) == 2;
    }
    assert Bracket(participants) == Seeded(wm, participants, c) + ls + FinalMatches();
    assert c <= |wm| && forall p :: 0 <= p < |wm| ==> wm[p].bracket == Winners && (wm[p].round == 1 <==> p < c) by {
      WinnersRoundOnePrefix(n);
    }
    assert 2 * (c - 1) < n by {
      CeilDivBounds(n, 2);
    }
    SectionIsBlank(Winners, wk);
    SectionIsBlank(Losers, lk);
    PartsSeated(Bracket(participants), wm, ls, participants, c);
  }

  /** Reading the slots of matches that hold participants `2i`, `2i + 1` gives the participants in order. */
  lemma {:induction false} PairedSlots(ms: seq<Match>, participants: seq<Team>, k: nat)
    requires k <= |ms| && 2 * k <= |participants| + 1
    requires forall i :: 0 <= i < k ==>
      2 * i < |participants|
      && ms[i].team1Id == Some(participants[2 * i].id)
      && ms[i].team2Id == (if 2 * i + 1 < |participants| then Some(participants[2 * i + 1].id) else None)
    ensures SlotIds(ms[..k]) == TeamIds(participants)[..if 2 * k < |participants| then 2 * k else |participants|]
    decreases k
  {
    var n := |participants|;
    if k > 0 {
      var i := k - 1;
      PairedSlots(ms, participants, i);
      assert ms[..k][..i] == ms[..i];
      assert ms[..k][i] == ms[i];
      assert SlotIds(ms[..k]) == SlotIds(ms[..i]) + MatchSlots(ms[i]);
      var ids := TeamIds(participants);
      assert SlotIds(ms[..i]) == ids[..2 * i];
      if 2 * i + 1 < n {
        assert MatchSlots(ms[i]) == [ids[2 * i], ids[2 * i + 1]];
        assert ids[..2 * k] == ids[..2 * i] + [ids[2 * i], ids[2 * i + 1]];
      } else {
        assert MatchSlots(ms[i]) == [ids[2 * i]];
        assert ids[..n] == ids[..2 * i] + [ids[2 * i]];
      }
    }
  }

  lemma SeatedSlots(b: seq<Match>, participants: seq<Team>, c: nat)
    requires RoundOneSeated(b, participants, c) && |participants| <= 2 * c
    ensures SlotIds(b) == TeamIds(participants)
  {
    var n := |participants|;
    assert 2 * c <= n + 1 by {
      if c > 0 {
        assert 2 * (c - 1) < n;
      }
    }
    PairedSlots(b, participants, c);
    assert TeamIds(participants)[..n] == TeamIds(participants);
    assert b == b[..c] + b[c..];
    SlotIdsConcat(b[..c], b[c..]);
    EmptySlots(b[c..]);
  }

  /**
   * Reading every team slot of the bracket in order yields exactly the
   * participants in order, so each one is placed exactly once.
   */
  lemma BracketSeating(participants: seq<Team>)
    ensures SlotIds(Bracket(participants)) == (if |participants| < 2 then [] else TeamIds(participants))
  {
    var n := |participants|;
    if n >= 2 {
      BracketRecords(participants);
      CeilDivBounds(n, 2);
      SeatedSlots(Bracket(participants), participants, CeilDiv(n, 2));
    }
  }

  lemma {:induction false} EmptySlots(ms: seq<Match>)
    requires forall q :: 0 <= q < |ms| ==> ms[q].team1Id == None && ms[q].team2Id == None
    ensures SlotIds(ms) == []
    decreases |ms|
  {
    if |ms| > 0 {
      EmptySlots(ms[..|ms| - 1]);
    }
  }

  /** With fewer than two participants there is no bracket at all. */
  lemma BracketNeedsTwo(participants: seq<Team>)
    ensures |participants| < 2 <==> Bracket(participants) == []
  {
    if |participants| >= 2 {
      BracketLayout(participants);
    }
  }

  // ---------------------------------------------------------------------------
  // Concrete brackets
  // ---------------------------------------------------------------------------

  /** The shape for four participants: two winners rounds (2 and 1 matches), three losers rounds of one. */
  lemma FourShape()
    ensures CeilLog2(4) == 2 && CeilDiv(4, 2) == 2
    ensures SectionKeys(WinnersSizes(4)) == [(0, 0), (0, 1), (1, 0)]
    ensures SectionKeys(LosersSizes(2)) == [(0, 0), (1, 0), (2, 0)]
  {
    assert Pow2(0) == 1 && Pow2(1) == 2 && Pow2(2) == 4;
    assert CeilLog2(4) == 2 by {
      assert CeilLog2(1) == 0;
      assert CeilLog2(2) == 1;
    }
    assert WinnersSizes(4) == [2, 1];
    assert LosersSizes(2) == [1, 1, 1];
    assert SectionKeys([2, 1]) == SectionKeys([2]) + RoundKeys(1, 1);
    assert SectionKeys([2]) == SectionKeys([]) + RoundKeys(0, 2);
    assert SectionKeys([1, 1, 1]) == SectionKeys([1, 1]) + RoundKeys(2, 1);
    assert SectionKeys([1, 1]) == SectionKeys([1]) + RoundKeys(1, 1);
    assert SectionKeys([1]) == SectionKeys([]) + RoundKeys(0, 1);
  }

  lemma SmallIds()
    ensures MatchId("w", 1, 0) == "w-1-0" && MatchId("l", 0, 0) == "l-0-0" && MatchId("l", 2, 0) == "l-2-0"
  {
    assert NatToString(0) == "0" && NatToString(1) == "1" && NatToString(2) == "2";
  }

  /**
   * Four participants A, B, C, D: the first round pairs A with B and C with D
   * (sequential pairing), and the bracket has 3 winners, 3 losers and 2 final
   * matches.
   */
  lemma FourParticipants(participants: seq<Team>)
    requires |participants| == 4
    ensures var b := Bracket(participants);
      && |b| == 8
      && b[0].team1Id == Some(participants[0].id) && b[0].team2Id == Some(participants[1].id)
      && b[1].team1Id == Some(participants[2].id) && b[1].team2Id == Some(participants[3].id)
      && b[2].id == "w-1-0" && b[2].team1Id == None && b[2].team2Id == None
      && b[3].id == "l-0-0" && b[5].id == "l-2-0" && b[6].id == "final-1" && b[7].id == "final-2"
  {
    var b := Bracket(participants);
    FourShape();
    SmallIds();
    BracketRecords(participants);
    BracketLayout(participants);
    var wk: seq<Key> := [(0, 0), (0, 1), (1, 0)];
    var lk: seq<Key> := [(0, 0), (1, 0), (2, 0)];
    assert SectionLayout(b, wk, lk);
    assert RoundOneSeated(b, participants, 2);
    assert b[2].id == MatchId("w", wk[2].0, wk[2].1);
    assert b[3].id == MatchId("l", lk[0].0, lk[0].1);
    assert b[5].id == MatchId("l", lk[2].0, lk[2].1);
  }

  /**
   * Five participants: the third first-round match holds the fifth participant
   * and an empty second slot, and nothing marks it as a bye.
   */
  lemma FiveParticipants(participants: seq<Team>)
    requires |participants| == 5
    ensures var b := Bracket(participants);
      && |b| >= 3
      && b[2].round == 1 && b[2].team1Id == Some(participants[4].id) && b[2].team2Id == None
      && b[2].winnerId == None && b[2].score1 == None
  {
    assert Pow2(1) == 2;
    assert CeilDiv(5, 2) == 3;
    BracketRecords(participants);
  }
}
