/**
 * The board's counts and rankings: the snapshot figures (`renderSnapshot`), the
 * market coverage list (`buildMarketBreakdown`), the highest-confidence board
 * (`buildConfidenceLeaders`), a market block's pick bar (`buildSummaryBar`) and
 * its prediction order (`renderMarketBlock`).
 */
module Aggregate {
  import opened Wrappers
  import opened Json
  import opened Records
  import opened Collections
  import Markets
  import Consensus

  // Snapshot figures.

  /** `typeof prediction.confidence === 'number' && prediction.confidence >= 70`. */
  predicate IsHighConfidence(p: Prediction) {
    p.confidence.Some? && p.confidence.value >= 70
  }

  /** The "70%+ Confidence" figure: the number of predictions on the board with confidence of at least 70. */
  function HighConfidenceCount(games: seq<Game>): nat {
    Count(MapSeq(IsHighConfidence, AllPredictions(games)), true)
  }

  /** It counts only predictions on the board, and is zero exactly when none of them has confidence 70 or more. */
  lemma HighConfidenceBounds(games: seq<Game>)
    ensures HighConfidenceCount(games) <= TotalPredictions(games)
    ensures HighConfidenceCount(games) == 0 <==>
      forall i, j :: 0 <= i < |games| && 0 <= j < |games[i].predictions| ==> !IsHighConfidence(games[i].predictions[j])
  {
    var all := AllPredictions(games);
    var flags := MapSeq(IsHighConfidence, all);
    CountPositive(flags, true);
    if HighConfidenceCount(games) > 0 {
      var k :| 0 <= k < |flags| && flags[k];
      PredictionOnBoard(games, k);
    }
  }

  lemma {:induction false} PredictionOnBoard(games: seq<Game>, k: nat)
    requires k < |AllPredictions(games)|
    ensures exists i, j ::
      0 <= i < |games| && 0 <= j < |games[i].predictions| && games[i].predictions[j] == AllPredictions(games)[k]
  {
    var n := |games| - 1;
    var init := AllPredictions(games[..n]);
    assert games[..n] + [games[n]] == games;
    AllPredictionsAppend(games[..n], games[n]);
    if k < |init| {
      PredictionOnBoard(games[..n], k);
      var i, j :| 0 <= i < n && 0 <= j < |games[..n][i].predictions| &&
        games[..n][i].predictions[j] == init[k];
      assert games[i] == games[..n][i];
    } else {
      assert AllPredictions(games)[k] == games[n].predictions[k - |init|];
    }
  }

  /** `[totalGames, totalPicks, highConfidence]`. */
  datatype Snapshot = Snapshot(games: nat, picks: nat, highConfidence: nat)

  function SnapshotOf(games: seq<Game>): (r: Snapshot)
    ensures r.highConfidence <= r.picks
  {
    HighConfidenceBounds(games);
    Snapshot(|games|, TotalPredictions(games), HighConfidenceCount(games))
  }

  // Market coverage.

  /** `formatMarketLabel(prediction.market)`. */
  function MarketLabelOf(p: Prediction): string {
    Markets.FormatMarketLabel(Str(p.market))
  }

  function MarketLabels(games: seq<Game>): seq<string> {
    MapSeq(MarketLabelOf, AllPredictions(games))
  }

  /** A market coverage row: the canonical market, its number of picks and its rounded share. */
  datatype MarketShare = MarketShare(market: string, count: nat, percent: int)

  function ShareOf(e: (string, nat), total: nat): MarketShare
    requires total > 0
  {
    MarketShare(e.0, e.1, Consensus.RoundPercent(e.1, total))
  }

  /** The rows `buildMarketBreakdown(games)` lists, or none when the board has no predictions. */
  function MarketBreakdown(games: seq<Game>): (r: Option<seq<MarketShare>>)
    ensures r.None? <==> TotalPredictions(games) == 0
  {
    var total := TotalPredictions(games);
    if total == 0 then None
    else
      Some(SharesOf(SortDesc(Tally(MarketLabels(games)), Second), total))
  }

  /** One row per entry, in order. */
  function SharesOf(entries: seq<(string, nat)>, total: nat): (r: seq<MarketShare>)
    requires total > 0
    ensures |r| == |entries|
  {
    if |entries| == 0 then []
    else SharesOf(entries[..|entries| - 1], total) + [ShareOf(entries[|entries| - 1], total)]
  }

  lemma {:induction false} SharesOfIndex(entries: seq<(string, nat)>, total: nat, i: nat)
    requires total > 0 && i < |entries|
    ensures SharesOf(entries, total)[i] == ShareOf(entries[i], total)
  {
    var n := |entries| - 1;
    if i < n {
      SharesOfIndex(entries[..n], total, i);
    }
  }

  /** The counting half of `buildMarketBreakdown`: `total` and the `counts` map, as its entries in insertion order. */
  method CountMarkets(games: seq<Game>) returns (counts: seq<(string, nat)>, total: nat)
    ensures counts == Tally(MarketLabels(games))
    ensures total == TotalPredictions(games)
  {
    counts := [];
    total := 0;
    ghost var seen: seq<Prediction> := [];
    for gi := 0 to |games|
      invariant seen == AllPredictions(games[..gi])
      invariant total == |seen|
      invariant counts == Tally(MapSeq(MarketLabelOf, seen))
    {
      var ps := games[gi].predictions;
      for pj := 0 to |ps|
        invariant seen == AllPredictions(games[..gi]) + ps[..pj]
        invariant total == |seen|
        invariant counts == Tally(MapSeq(MarketLabelOf, seen))
      {
        total := total + 1;
        var market := MarketLabelOf(ps[pj]);
        MapSeqSnoc(MarketLabelOf, seen, ps[pj]);
        TallyIncrement(MapSeq(MarketLabelOf, seen), market);
        counts := Increment(counts, market);
        PrefixSnoc(ps, pj);
        seen := seen + [ps[pj]];
      }
      PrefixSnoc(games, gi);
      AllPredictionsAppend(games[..gi], games[gi]);
      assert ps[..|ps|] == ps;
    }
    assert games[..|games|] == games;
  }

  /** `buildMarketBreakdown(games)`: counts every prediction's canonical market, then ranks the counts. */
  method BuildMarketBreakdown(games: seq<Game>) returns (breakdown: Option<seq<MarketShare>>)
    ensures breakdown == MarketBreakdown(games)
  {
    var counts, total := CountMarkets(games);
    if total == 0 {
      return None;
    }
    var entries := SortDesc(counts, Second);
    var shares: seq<MarketShare> := [];
    for i := 0 to |entries|
      invariant shares == SharesOf(entries[..i], total)
    {
      PrefixSnoc(entries, i);
      shares := shares + [ShareOf(entries[i], total)];
    }
    assert entries[..|entries|] == entries;
    return Some(shares);
  }

  function ShareCount(s: MarketShare): int {
    s.count
  }

  lemma {:induction false} SharesSum(entries: seq<(string, nat)>, total: nat)
    requires total > 0
    ensures SumOf(SharesOf(entries, total), ShareCount) == SumOf(entries, Second)
  {
    if |entries| > 0 {
      var n := |entries| - 1;
      SharesSum(entries[..n], total);
      assert entries == entries[..n] + [entries[n]];
      SumOfAppend(entries[..n], [entries[n]], Second);
      SumOfAppend(SharesOf(entries[..n], total), [ShareOf(entries[n], total)], ShareCount);
    }
  }

  function SharePercent(s: MarketShare): int {
    s.percent
  }

  /** Adding one row's rounding error, at most half a point either way, to the running error. */
  lemma ErrorStep(t: int, n: int, p0: int, c0: int, p: int, c: int)
    requires t > 0
    requires -(n * t) <= 2 * t * p0 - 200 * c0 <= n * t
    requires 2 * t * p <= 200 * c + t < 2 * t * (p + 1)
    ensures -((n + 1) * t) <= 2 * t * (p0 + p) - 200 * (c0 + c) <= (n + 1) * t
  {
    assert 2 * t * (p0 + p) == 2 * t * p0 + 2 * t * p;
    assert 2 * t * (p + 1) == 2 * t * p + 2 * t;
    assert (n + 1) * t == n * t + t;
  }

  /** Dividing the total error by `2 * total` when the counts add up to `total`. */
  lemma ErrorPerRow(t: int, n: int, sum: int)
    requires t > 0
    requires -(n * t) <= 2 * t * sum - 200 * t <= n * t
    ensures -n <= 2 * sum - 200 <= n
  {
    var q := 2 * sum - 200;
    assert 2 * t * sum - 200 * t == t * q;
    assert t * q <= t * n && t * -n <= t * q;
    CancelFactor(t, q, n);
    CancelFactor(t, -n, q);
  }

  /** A positive factor can be cancelled from both sides of `<=`. */
  lemma CancelFactor(t: int, a: int, b: int)
    requires t > 0 && t * a <= t * b
    ensures a <= b
  {
    assert t * (b - a) >= 0;
  }

  /**
   * Each rounded share is within half a point of the exact share, so over the
   * rows the error `2 * total * (sum of percents) - 200 * (sum of counts)` stays
   * within one `total` per row.
   */
  lemma {:induction false} SharesPercentError(entries: seq<(string, nat)>, total: nat)
    requires total > 0
    ensures var d := 2 * total * SumOf(SharesOf(entries, total), SharePercent) - 200 * SumOf(entries, Second);
      -(|entries| * total) <= d <= |entries| * total
  {
    if |entries| > 0 {
      var n := |entries| - 1;
      var e := entries[n];
      var row := ShareOf(e, total);
      SharesPercentError(entries[..n], total);
      assert entries == entries[..n] + [e];
      SumOfAppend(entries[..n], [e], Second);
      SumOfAppend(SharesOf(entries[..n], total), [row], SharePercent);
      Consensus.RoundPercentNearest(e.1, total);
      ErrorStep(total, n, SumOf(SharesOf(entries[..n], total), SharePercent), SumOf(entries[..n], Second),
        row.percent, e.1);
    }
  }

  /** The rounded shares of all rows add up to 100, give or take half a point per row. */
  lemma RowsPercentSum(labels: seq<string>, total: nat)
    requires total > 0 && total == |labels|
    ensures var rows := SharesOf(SortDesc(Tally(labels), Second), total);
      -|rows| <= 2 * SumOf(rows, SharePercent) - 200 <= |rows|
  {
    var entries := SortDesc(Tally(labels), Second);
    var rows := SharesOf(entries, total);
    SharesPercentError(entries, total);
    SharesSum(entries, total);
    RowsSum(labels, total);
    ErrorPerRow(total, |rows|, SumOf(rows, SharePercent));
  }

  /** Some row of `rows` is about `market`. */
  predicate HasRow(rows: seq<MarketShare>, market: string) {
    exists i :: 0 <= i < |rows| && rows[i].market == market
  }

  lemma RowsSum(labels: seq<string>, total: nat)
    requires total > 0
    ensures SumOf(SharesOf(SortDesc(Tally(labels), Second), total), ShareCount) == |labels|
  {
    SharesSum(SortDesc(Tally(labels), Second), total);
    RankedTally(labels);
  }

  lemma RowsOrdered(labels: seq<string>, total: nat)
    requires total > 0
    ensures var rows := SharesOf(SortDesc(Tally(labels), Second), total);
      forall i, j :: 0 <= i < j < |rows| ==> rows[i].count >= rows[j].count
  {
    var entries := SortDesc(Tally(labels), Second);
    forall i, j | 0 <= i < j < |entries|
      ensures SharesOf(entries, total)[i].count >= SharesOf(entries, total)[j].count
    {
      SharesOfIndex(entries, total, i);
      SharesOfIndex(entries, total, j);
      assert Second(entries[i]) >= Second(entries[j]);
    }
  }

  lemma RowsCount(labels: seq<string>, total: nat)
    requires total > 0
    ensures var rows := SharesOf(SortDesc(Tally(labels), Second), total);
      forall i :: 0 <= i < |rows| ==>
        && rows[i].market in labels
        && rows[i].count == Count(labels, rows[i].market)
        && rows[i].percent == Consensus.RoundPercent(rows[i].count, total)
  {
    var entries := SortDesc(Tally(labels), Second);
    forall i | 0 <= i < |entries|
      ensures var row := SharesOf(entries, total)[i];
        row.market in labels && row.count == Count(labels, row.market) &&
        row.percent == Consensus.RoundPercent(row.count, total)
    {
      SharesOfIndex(entries, total, i);
      RankedTallyEntry(labels, i);
    }
  }

  lemma RowsCover(labels: seq<string>, total: nat, m: nat)
    requires total > 0 && m < |labels|
    ensures HasRow(SharesOf(SortDesc(Tally(labels), Second), total), labels[m])
  {
    var entries := SortDesc(Tally(labels), Second);
    RankedTallyCovers(labels, m);
    var i :| 0 <= i < |entries| && entries[i].0 == labels[m];
    SharesOfIndex(entries, total, i);
    var rows := SharesOf(entries, total);
    assert rows[i].market == labels[m];
  }

  /**
   * Market coverage is absent exactly when the board has no predictions. Otherwise
   * each row is a canonical market with its number of picks and its rounded share
   * of the total, the rows are in non-increasing count order, their counts add up
   * to the number of predictions, and every prediction's market has a row.
   */
  lemma MarketBreakdownCounts(games: seq<Game>)
    ensures MarketBreakdown(games).None? <==> TotalPredictions(games) == 0
    ensures MarketBreakdown(games).Some? ==> var rows := MarketBreakdown(games).value;
      && SumOf(rows, ShareCount) == TotalPredictions(games)
      && (forall i, j :: 0 <= i < j < |rows| ==> rows[i].count >= rows[j].count)
      && (forall i :: 0 <= i < |rows| ==>
            && rows[i].market in MarketLabels(games)
            && rows[i].count == Count(MarketLabels(games), rows[i].market)
            && rows[i].percent == Consensus.RoundPercent(rows[i].count, TotalPredictions(games)))
      && (forall p :: p in AllPredictions(games) ==> HasRow(rows, MarketLabelOf(p)))
  {
    var total := TotalPredictions(games);
    if total > 0 {
      var labels := MarketLabels(games);
      RowsSum(labels, total);
      RowsOrdered(labels, total);
      RowsCount(labels, total);
      forall p | p in AllPredictions(games)
        ensures HasRow(MarketBreakdown(games).value, MarketLabelOf(p))
      {
        var m :| 0 <= m < |AllPredictions(games)| && AllPredictions(games)[m] == p;
        assert labels[m] == MarketLabelOf(p);
        RowsCover(labels, total, m);
      }
    }
  }

  /**
   * Whenever the board has a prediction, the market shares add up to 100 up to
   * rounding: each row's share is rounded to the nearest whole percent, so the
   * total is off by at most half a point per row.
   */
  lemma MarketBreakdownPercents(games: seq<Game>)
    ensures MarketBreakdown(games).Some? ==> var rows := MarketBreakdown(games).value;
      -|rows| <= 2 * SumOf(rows, SharePercent) - 200 <= |rows|
  {
    var total := TotalPredictions(games);
    if total > 0 {
      assert |MarketLabels(games)| == total;
      RowsPercentSum(MarketLabels(games), total);
    }
  }

  // The highest-confidence board.

  /** A prediction together with the game it belongs to, as pushed onto `entries`. */
  datatype Pick = Pick(game: Game, prediction: Prediction)

  /** The picks of `g` among `ps` that carry a confidence, in order. */
  function ConfidentIn(g: Game, ps: seq<Prediction>): (r: seq<Pick>)
    ensures |r| <= |ps|
  {
    if |ps| == 0 then []
    else
      var n := |ps| - 1;
      ConfidentIn(g, ps[..n]) + (if ps[n].confidence.Some? then [Pick(g, ps[n])] else [])
  }

  lemma {:induction false} ConfidentInSound(g: Game, ps: seq<Prediction>, k: nat)
    requires k < |ConfidentIn(g, ps)|
    ensures var e := ConfidentIn(g, ps)[k];
      e.game == g && e.prediction in ps && e.prediction.confidence.Some?
  {
    var n := |ps| - 1;
    var init := ConfidentIn(g, ps[..n]);
    if k < |init| {
      ConfidentInSound(g, ps[..n], k);
      var e := init[k];
      var j :| 0 <= j < n && ps[..n][j] == e.prediction;
      assert ps[j] == e.prediction;
    }
  }

  lemma {:induction false} ConfidentInComplete(g: Game, ps: seq<Prediction>, j: nat)
    requires j < |ps| && ps[j].confidence.Some?
    ensures Pick(g, ps[j]) in ConfidentIn(g, ps)
  {
    var n := |ps| - 1;
    if j < n {
      ConfidentInComplete(g, ps[..n], j);
      assert ps[..n][j] == ps[j];
    }
  }

  /** Every pick on the board that carries a confidence, game by game, in encounter order. */
  function Confident(games: seq<Game>): (r: seq<Pick>)
    ensures |r| <= TotalPredictions(games)
  {
    if |games| == 0 then []
    else
      var n := |games| - 1;
      Confident(games[..n]) + ConfidentIn(games[n], games[n].predictions)
  }

  /** Each confident pick is a prediction, with a confidence, of a game on the board. */
  lemma {:induction false} ConfidentSound(games: seq<Game>, k: nat)
    requires k < |Confident(games)|
    ensures var e := Confident(games)[k];
      e.game in games && e.prediction in e.game.predictions && e.prediction.confidence.Some?
  {
    var n := |games| - 1;
    var init := Confident(games[..n]);
    if k < |init| {
      ConfidentSound(games[..n], k);
      var e := init[k];
      var i :| 0 <= i < n && games[..n][i] == e.game;
      assert games[i] == e.game;
    } else {
      ConfidentInSound(games[n], games[n].predictions, k - |init|);
    }
  }

  /** Each prediction with a confidence yields a confident pick. */
  lemma {:induction false} ConfidentComplete(games: seq<Game>, i: nat, j: nat)
    requires i < |games| && j < |games[i].predictions| && games[i].predictions[j].confidence.Some?
    ensures Pick(games[i], games[i].predictions[j]) in Confident(games)
  {
    var n := |games| - 1;
    if i < n {
      ConfidentComplete(games[..n], i, j);
      assert games[..n][i] == games[i];
    } else {
      ConfidentInComplete(games[n], games[n].predictions, j);
    }
  }

  /** `prediction.confidence` as the sort key. */
  function PickConfidence(e: Pick): int {
    ConfidenceRank(e.prediction)
  }

  /** The top five confident picks by confidence, or none when no pick has a confidence. */
  function ConfidenceLeaders(games: seq<Game>): (r: Option<seq<Pick>>)
    ensures r.None? <==> |Confident(games)| == 0
    ensures r.Some? ==> 1 <= |r.value| <= 5
  {
    var entries := Confident(games);
    if |entries| == 0 then None else Some(Take(SortDesc(entries, PickConfidence), 5))
  }

  /** `buildConfidenceLeaders(games)`: collects the confident picks, sorts them and keeps the first five. */
  method BuildConfidenceLeaders(games: seq<Game>) returns (top: Option<seq<Pick>>)
    ensures top == ConfidenceLeaders(games)
  {
    var entries: seq<Pick> := [];
    for gi := 0 to |games|
      invariant entries == Confident(games[..gi])
    {
      var game := games[gi];
      var ps := game.predictions;
      for pj := 0 to |ps|
        invariant entries == Confident(games[..gi]) + ConfidentIn(game, ps[..pj])
      {
        PrefixSnoc(ps, pj);
        if ps[pj].confidence.Some? {
          entries := entries + [Pick(game, ps[pj])];
        }
      }
      PrefixSnoc(games, gi);
      assert ps[..|ps|] == ps;
    }
    assert games[..|games|] == games;
    if |entries| == 0 {
      return None;
    }
    var sorted := SortDesc(entries, PickConfidence);
    return Some(sorted[..Min(5, |sorted|)]);
  }

  /**
   * The board is absent exactly when no prediction carries a confidence. Otherwise it
   * holds the first five confident picks (all of them when there are fewer), each a
   * pick on the board with a confidence, in non-increasing confidence order; no pick
   * left out has a higher confidence than one listed, and picks of equal confidence
   * appear in the order they were encountered.
   */
  lemma ConfidenceLeadersTop(games: seq<Game>)
    ensures ConfidenceLeaders(games).None? <==>
      forall i, j :: 0 <= i < |games| && 0 <= j < |games[i].predictions| ==> games[i].predictions[j].confidence.None?
    ensures ConfidenceLeaders(games).Some? ==> var top := ConfidenceLeaders(games).value;
      var entries := Confident(games);
      && |top| == Min(5, |entries|)
      && SortedDesc(top, PickConfidence)
      && (forall k :: 0 <= k < |top| ==>
            top[k].game in games && top[k].prediction in top[k].game.predictions && top[k].prediction.confidence.Some?)
      && (forall x, y :: x in top && y in entries && y !in top ==> PickConfidence(x) >= PickConfidence(y))
      && (forall c :: OfRank(top, PickConfidence, c) <= OfRank(entries, PickConfidence, c))
  {
    ConfidentNoneIff(games);
    if |Confident(games)| > 0 {
      TopByRank(Confident(games), PickConfidence, 5);
      ConfidentTopOnBoard(games);
    }
  }

  lemma ConfidentNoneIff(games: seq<Game>)
    ensures |Confident(games)| == 0 <==>
      forall i, j :: 0 <= i < |games| && 0 <= j < |games[i].predictions| ==> games[i].predictions[j].confidence.None?
  {
    var entries := Confident(games);
    if |entries| > 0 {
      ConfidentSound(games, 0);
      var i :| 0 <= i < |games| && games[i] == entries[0].game;
      var j :| 0 <= j < |games[i].predictions| && games[i].predictions[j] == entries[0].prediction;
    }
    forall i, j | 0 <= i < |games| && 0 <= j < |games[i].predictions| && games[i].predictions[j].confidence.Some?
      ensures |entries| > 0
    {
      ConfidentComplete(games, i, j);
    }
  }

  lemma ConfidentTopOnBoard(games: seq<Game>)
    ensures var top := Take(SortDesc(Confident(games), PickConfidence), 5);
      forall k :: 0 <= k < |top| ==>
        top[k].game in games && top[k].prediction in top[k].game.predictions && top[k].prediction.confidence.Some?
  {
    var entries := Confident(games);
    var top := Take(SortDesc(entries, PickConfidence), 5);
    PrefixMultiset(SortDesc(entries, PickConfidence), |top|);
    forall k | 0 <= k < |top|
      ensures top[k].game in games && top[k].prediction in top[k].game.predictions && top[k].prediction.confidence.Some?
    {
      assert top[k] in multiset(entries);
      var m :| 0 <= m < |entries| && entries[m] == top[k];
      ConfidentSound(games, m);
    }
  }

  // A market block: its pick bar and its prediction order.

  /** `prediction.pick || 'Other'`. */
  function SummaryKey(p: Prediction): Value {
    if Truthy(p.pick) then p.pick else Str("Other")
  }

  /** The pick bar's segments: each pick with its number of predictions, largest first. */
  function SummaryBar(predictions: seq<Prediction>): (r: seq<(Value, nat)>)
    ensures SortedDesc(r, Second)
  {
    SortDesc(Tally(MapSeq(SummaryKey, predictions)), Second)
  }

  /** `buildSummaryBar(predictions)`: groups by pick, then ranks the groups by size. */
  method BuildSummaryBar(predictions: seq<Prediction>) returns (segments: seq<(Value, nat)>)
    ensures segments == SummaryBar(predictions)
  {
    var keys := MapSeq(SummaryKey, predictions);
    var order, groups := GroupBy(predictions, SummaryKey);
    var entries: seq<(Value, nat)> := [];
    for i := 0 to |order|
      invariant entries == TallyOf(order[..i], keys)
    {
      var key := order[i];
      assert key in groups;
      assert |groups[key]| == Count(keys, key);
      PrefixSnoc(order, i);
      TallyOfSnocKey(order[..i], key, keys);
      entries := entries + [(key, |groups[key]|)];
    }
    assert order[..|order|] == order;
    segments := SortDesc(entries, Second);
  }

  /**
   * The segments are in non-increasing size order, each is a pick (or `'Other'`) with
   * the number of predictions showing it, every prediction's pick has a segment, and
   * the sizes add up to the number of predictions.
   */
  lemma SummaryBarCounts(predictions: seq<Prediction>)
    ensures var bar := SummaryBar(predictions); var keys := MapSeq(SummaryKey, predictions);
      && SortedDesc(bar, Second)
      && SumOf(bar, Second) == |predictions|
      && (forall i :: 0 <= i < |bar| ==> bar[i].0 in keys && bar[i].1 == Count(keys, bar[i].0))
      && (forall m :: 0 <= m < |predictions| ==> HasKey(bar, SummaryKey(predictions[m])))
  {
    var keys := MapSeq(SummaryKey, predictions);
    RankedTally(keys);
    forall m | 0 <= m < |predictions|
      ensures HasKey(SummaryBar(predictions), SummaryKey(predictions[m]))
    {
      assert keys[m] == SummaryKey(predictions[m]);
    }
  }

  /** `typeof confidence === 'number' ? confidence : -1`. */
  function ConfidenceRank(p: Prediction): int {
    if p.confidence.Some? then p.confidence.value else -1
  }

  /** A market block's predictions, highest confidence first, a missing confidence counting as -1. */
  function ByConfidence(predictions: seq<Prediction>): (r: seq<Prediction>)
    ensures multiset(r) == multiset(predictions)
    ensures SortedDesc(r, ConfidenceRank)
  {
    SortDesc(predictions, ConfidenceRank)
  }

  /**
   * The order is a rearrangement of the predictions, in non-increasing confidence;
   * predictions of equal rank keep their relative order; and no prediction without
   * a confidence comes before one whose confidence is zero or more.
   */
  lemma ByConfidenceOrder(predictions: seq<Prediction>)
    ensures var sorted := ByConfidence(predictions);
      && multiset(sorted) == multiset(predictions)
      && SortedDesc(sorted, ConfidenceRank)
      && (forall c :: OfRank(sorted, ConfidenceRank, c) == OfRank(predictions, ConfidenceRank, c))
      && (forall i, j :: 0 <= i < j < |sorted| && sorted[i].confidence.None? ==>
            sorted[j].confidence.None? || sorted[j].confidence.value < 0)
  {
    var sorted := ByConfidence(predictions);
    forall c
      ensures OfRank(sorted, ConfidenceRank, c) == OfRank(predictions, ConfidenceRank, c)
    {
      SortStable(predictions, ConfidenceRank, c);
    }
    forall i, j | 0 <= i < j < |sorted| && sorted[i].confidence.None?
      ensures sorted[j].confidence.None? || sorted[j].confidence.value < 0
    {
      assert ConfidenceRank(sorted[i]) >= ConfidenceRank(sorted[j]);
    }
  }
}
