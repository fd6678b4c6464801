/**
 * The consensus figures: `buildConsensusSummary` (the plurality pick of one game,
 * shown when it reaches 40% of the picks, rounded) and `buildConsensusLeaders`
 * (the three games with the strongest consensus).
 */
module Consensus {
  import opened Wrappers
  import opened Text
  import opened Json
  import opened Records
  import opened Collections

  /** `Math.round(count / total * 100)`, in exact arithmetic. */
  function RoundPercent(count: nat, total: nat): int
    requires total > 0
  {
    (200 * count + total) / (2 * total)
  }

  lemma MulMonotonic(d: int, a: int, b: int)
    requires d >= 0 && a <= b
    ensures d * a <= d * b
  {
    assert d * b - d * a == d * (b - a);
  }

  /** For a positive divisor, the quotient reaches `k` exactly when the dividend reaches `k * d`. */
  lemma QuotientAtLeast(n: int, d: int, k: int)
    requires d > 0
    ensures n / d >= k <==> n >= d * k
  {
    var q := n / d;
    assert n == d * q + n % d;
    if q >= k {
      MulMonotonic(d, k, q);
    } else {
      MulMonotonic(d, q, k - 1);
      assert d * (k - 1) == d * k - d;
    }
  }

  /** It is the whole percentage nearest to `100 * count / total`, halves rounding up. */
  lemma RoundPercentNearest(count: nat, total: nat)
    requires total > 0
    ensures var p := RoundPercent(count, total);
      2 * total * p <= 200 * count + total < 2 * total * (p + 1)
  {
    var p := RoundPercent(count, total);
    QuotientAtLeast(200 * count + total, 2 * total, p);
    QuotientAtLeast(200 * count + total, 2 * total, p + 1);
  }

  /** The 40% threshold in exact terms: the rounded share is at least 40 iff `200 * count >= 79 * total`. */
  lemma RoundPercentReaches40(count: nat, total: nat)
    requires total > 0
    ensures RoundPercent(count, total) >= 40 <==> 200 * count >= 79 * total
  {
    QuotientAtLeast(200 * count + total, 2 * total, 40);
  }

  lemma RoundPercentMonotonic(c1: nat, c2: nat, total: nat)
    requires total > 0 && c1 <= c2
    ensures RoundPercent(c1, total) <= RoundPercent(c2, total)
  {
    var p1 := RoundPercent(c1, total);
    QuotientAtLeast(200 * c1 + total, 2 * total, p1);
    QuotientAtLeast(200 * c2 + total, 2 * total, p1);
  }

  /** Every share rounds to 100 when it is the whole. */
  lemma RoundPercentWhole(total: nat)
    requires total > 0
    ensures RoundPercent(total, total) == 100
  {
    QuotientAtLeast(201 * total, 2 * total, 100);
    QuotientAtLeast(201 * total, 2 * total, 101);
  }

  /** A share of the total is a percentage between 0 and 100. */
  lemma RoundPercentRange(count: nat, total: nat)
    requires 0 < total && count <= total
    ensures 0 <= RoundPercent(count, total) <= 100
  {
    RoundPercentMonotonic(count, total, total);
    RoundPercentWhole(total);
  }

  /** Picks `(pick || 'Other').trim()` can key: a truthy pick must be text, or `.trim()` would throw. */
  predicate TextPicks(ps: seq<Prediction>) {
    forall j :: 0 <= j < |ps| ==> ps[j].pick.Str? || !Truthy(ps[j].pick)
  }

  /** `(pick || 'Other').trim()`. */
  function ConsensusKey(pick: Value): string
    requires pick.Str? || !Truthy(pick)
  {
    if Truthy(pick) then Trim(pick.s) else "Other"
  }

  function ConsensusKeys(ps: seq<Prediction>): (r: seq<string>)
    requires TextPicks(ps)
    ensures |r| == |ps| && forall j :: 0 <= j < |ps| ==> r[j] == ConsensusKey(ps[j].pick)
  {
    seq(|ps|, j requires 0 <= j < |ps| => ConsensusKey(ps[j].pick))
  }

  /** `{ pick, count, total, percent }`. */
  datatype Summary = Summary(pick: string, count: nat, total: nat, percent: int)

  /** What `buildConsensusSummary(predictions)` returns, `null` being none. */
  function ConsensusOf(ps: seq<Prediction>): (r: Option<Summary>)
    requires TextPicks(ps)
    ensures |ps| == 0 ==> r.None?
    ensures r.Some? ==> r.value.total == |ps| && r.value.percent >= 40
  {
    if |ps| == 0 then None
    else
      var keys := ConsensusKeys(ps);
      TallyNonEmpty(keys);
      var top := SortDesc(Tally(keys), Second)[0];
      var percent := RoundPercent(top.1, |ps|);
      if percent < 40 then None else Some(Summary(top.0, top.1, |ps|, percent))
  }

  /** `buildConsensusSummary(predictions)`: counts the keys in a `Map`, then sorts its entries by count. */
  method BuildConsensusSummary(predictions: seq<Prediction>) returns (summary: Option<Summary>)
    requires TextPicks(predictions)
    ensures summary == ConsensusOf(predictions)
  {
    if |predictions| == 0 {
      return None;
    }
    ghost var keys := ConsensusKeys(predictions);
    var counts: seq<(string, nat)> := [];
    for i := 0 to |predictions|
      invariant counts == Tally(keys[..i])
    {
      var key := ConsensusKey(predictions[i].pick);
      assert keys[i] == key;
      PrefixSnoc(keys, i);
      TallyIncrement(keys[..i], key);
      counts := Increment(counts, key);
    }
    assert keys[..|predictions|] == keys;
    var sorted := SortDesc(counts, Second);
    TallyNonEmpty(keys);
    var (pick, count) := sorted[0];
    var total := |predictions|;
    var percent := RoundPercent(count, total);
    if percent < 40 {
      return None;
    }
    return Some(Summary(pick, count, total, percent));
  }

  /**
   * A summary is the plurality pick: `total` is the number of predictions, `count`
   * is how many have the summary's key, no key has more, the percentage is
   * rounded from them and reaches 40, and a tie goes to the key met first. There
   * is no summary exactly when there are no predictions or no key reaches 40%.
   */
  lemma ConsensusIsPlurality(ps: seq<Prediction>)
    requires TextPicks(ps)
    ensures |ps| == 0 ==> ConsensusOf(ps).None?
    ensures ConsensusOf(ps).Some? ==> (var s := ConsensusOf(ps).value; var keys := ConsensusKeys(ps);
      && s.total == |ps|
      && s.pick in keys
      && s.count == Count(keys, s.pick)
      && (forall k :: Count(keys, k) <= s.count)
      && s.percent == RoundPercent(s.count, s.total) && s.percent >= 40
      && (forall k, m :: 0 <= m < |keys| && keys[m] == k && k != s.pick && Count(keys, k) == s.count ==> s.pick in keys[..m]))
    ensures |ps| > 0 && ConsensusOf(ps).None? ==>
      forall k :: RoundPercent(Count(ConsensusKeys(ps), k), |ps|) < 40
  {
    if |ps| > 0 {
      var keys := ConsensusKeys(ps);
      Plurality(keys);
      var top := SortDesc(Tally(keys), Second)[0];
      var percent := RoundPercent(top.1, |ps|);
      assert ConsensusOf(ps) == if percent < 40 then None else Some(Summary(top.0, top.1, |ps|, percent));
      if percent < 40 {
        forall k
          ensures RoundPercent(Count(keys, k), |ps|) < 40
        {
          RoundPercentMonotonic(Count(keys, k), top.1, |ps|);
        }
      }
    }
  }

  /** `{ game, summary }`. */
  datatype Leader = Leader(game: Game, summary: Summary)

  predicate TextBoard(games: seq<Game>) {
    forall i :: 0 <= i < |games| ==> TextPicks(games[i].predictions)
  }

  /** `games.map((game) => ({ game, summary })).filter((entry) => entry.summary)`. */
  function Candidates(games: seq<Game>): (r: seq<Leader>)
    requires TextBoard(games)
    ensures |r| <= |games|
  {
    if |games| == 0 then []
    else
      var init := games[..|games| - 1];
      var g := games[|games| - 1];
      SplitLast(games);
      var s := ConsensusOf(g.predictions);
      Candidates(init) + (if s.Some? then [Leader(g, s.value)] else [])
  }

  /** Every candidate is a game of the board paired with its own consensus summary. */
  lemma {:induction false} CandidateSound(games: seq<Game>, e: Leader)
    requires TextBoard(games) && e in Candidates(games)
    ensures e.game in games && TextPicks(e.game.predictions) && ConsensusOf(e.game.predictions) == Some(e.summary)
  {
    var init := games[..|games| - 1];
    var g := games[|games| - 1];
    SplitLast(games);
    if e in Candidates(init) {
      CandidateSound(init, e);
    }
  }

  /** Every game with a consensus summary is a candidate. */
  lemma {:induction false} CandidateComplete(games: seq<Game>, i: nat)
    requires TextBoard(games) && i < |games| && ConsensusOf(games[i].predictions).Some?
    ensures Leader(games[i], ConsensusOf(games[i].predictions).value) in Candidates(games)
  {
    var init := games[..|games| - 1];
    var g := games[|games| - 1];
    SplitLast(games);
    if i < |init| {
      CandidateComplete(init, i);
      assert init[i] == games[i];
    }
  }

  function LeaderPercent(e: Leader): int {
    e.summary.percent
  }

  /** `buildConsensusLeaders(games)`: candidates sorted by percentage, the first three; none if there are none. */
  function ConsensusLeaders(games: seq<Game>): (r: Option<seq<Leader>>)
    requires TextBoard(games)
    ensures r.None? <==> |Candidates(games)| == 0
    ensures r.Some? ==> 1 <= |r.value| <= 3
  {
    var top := Take(SortDesc(Candidates(games), LeaderPercent), 3);
    if |top| == 0 then None else Some(top)
  }

  lemma LeadersNoneIff(games: seq<Game>)
    requires TextBoard(games)
    ensures ConsensusLeaders(games).None? <==> forall i :: 0 <= i < |games| ==> ConsensusOf(games[i].predictions).None?
  {
    var cands := Candidates(games);
    TopByRank(cands, LeaderPercent, 3);
    if |cands| > 0 {
      var e := cands[0];
      CandidateSound(games, e);
      var i :| 0 <= i < |games| && games[i] == e.game;
      assert ConsensusOf(games[i].predictions).Some?;
    }
    forall i | 0 <= i < |games| && ConsensusOf(games[i].predictions).Some?
      ensures |cands| > 0
    {
      CandidateComplete(games, i);
    }
  }

  lemma LeadersAreCandidates(games: seq<Game>)
    requires TextBoard(games)
    ensures var top := Take(SortDesc(Candidates(games), LeaderPercent), 3);
      forall e :: e in top ==>
        && e.game in games && ConsensusOf(e.game.predictions) == Some(e.summary)
        && e.summary.percent >= 40
  {
    var cands := Candidates(games);
    var top := Take(SortDesc(cands, LeaderPercent), 3);
    TopByRank(cands, LeaderPercent, 3);
    forall e | e in top
      ensures e.game in games && ConsensusOf(e.game.predictions) == Some(e.summary) && e.summary.percent >= 40
    {
      assert e in multiset(top);
      CandidateSound(games, e);
      ConsensusIsPlurality(e.game.predictions);
    }
  }

  lemma LeadersOutrank(games: seq<Game>)
    requires TextBoard(games)
    ensures var top := Take(SortDesc(Candidates(games), LeaderPercent), 3);
      forall e, i ::
        (e in top && 0 <= i < |games| && ConsensusOf(games[i].predictions).Some? &&
         Leader(games[i], ConsensusOf(games[i].predictions).value) !in top) ==>
          e.summary.percent >= ConsensusOf(games[i].predictions).value.percent
  {
    var cands := Candidates(games);
    var top := Take(SortDesc(cands, LeaderPercent), 3);
    forall e, i |
      e in top && 0 <= i < |games| && ConsensusOf(games[i].predictions).Some? &&
      Leader(games[i], ConsensusOf(games[i].predictions).value) !in top
      ensures e.summary.percent >= ConsensusOf(games[i].predictions).value.percent
    {
      var y := Leader(games[i], ConsensusOf(games[i].predictions).value);
      CandidateComplete(games, i);
      TopOutranks(cands, LeaderPercent, 3, e, y);
    }
  }

  /**
   * The consensus board lists the first three games with a consensus (all of them
   * when there are fewer), each with its own consensus summary, in non-increasing
   * percentage, none outranked by a game left off, and games of equal percentage in
   * board order; it is absent exactly when no game has a consensus.
   */
  lemma ConsensusLeadersTop(games: seq<Game>)
    requires TextBoard(games)
    ensures ConsensusLeaders(games).None? <==> forall i :: 0 <= i < |games| ==> ConsensusOf(games[i].predictions).None?
    ensures ConsensusLeaders(games).Some? ==> var top := ConsensusLeaders(games).value;
      && 1 <= |top| <= 3
      && |top| == Min(3, |Candidates(games)|)
      && SortedDesc(top, LeaderPercent)
      && (forall c :: OfRank(top, LeaderPercent, c) <= OfRank(Candidates(games), LeaderPercent, c))
      && (forall e :: e in top ==> e.game in games && ConsensusOf(e.game.predictions) == Some(e.summary) && e.summary.percent >= 40)
      && (forall e, i ::
            (e in top && 0 <= i < |games| && ConsensusOf(games[i].predictions).Some? &&
             Leader(games[i], ConsensusOf(games[i].predictions).value) !in top) ==>
              e.summary.percent >= ConsensusOf(games[i].predictions).value.percent)
  {
    LeadersNoneIff(games);
    LeadersAreCandidates(games);
    LeadersOutrank(games);
    TopByRank(Candidates(games), LeaderPercent, 3);
  }
}
