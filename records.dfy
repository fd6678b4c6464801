/**
 * The board's records once `normalizeGames` has shaped them: a game with its
 * predictions. Fields the board does not interpret keep their raw `Json.Value`
 * (a non-string team name survives normalisation unchanged); keys it does not
 * know are carried along in `extra`, as the object spread `...game` does.
 */
module Records {
  import opened Wrappers
  import opened Json

  /** A prediction. `confidence` is a finite number or absent. */
  datatype Prediction = Prediction(
    id: Value,
    source: Value,
    market: string,
    pick: Value,
    line: Value,
    notes: Value,
    link: Value,
    confidence: Option<int>,
    extra: map<string, Value>)

  datatype Game = Game(
    id: Value,
    homeTeam: Value,
    awayTeam: Value,
    kickoff: Value,
    location: Value,
    notes: Value,
    tags: seq<Value>,
    predictions: seq<Prediction>,
    extra: map<string, Value>)

  /** The keys `normalizeGames` writes on a game and on a prediction. */
  const GameKeys: set<string> := {"id", "homeTeam", "awayTeam", "kickoff", "location", "notes", "tags", "predictions"}
  const PredictionKeys: set<string> := {"id", "source", "market", "pick", "line", "notes", "link", "confidence"}

  /** `games.flatMap((game) => game.predictions)`. */
  function AllPredictions(games: seq<Game>): (r: seq<Prediction>)
    ensures |r| == TotalPredictions(games)
    ensures forall i, j :: 0 <= i < |games| && 0 <= j < |games[i].predictions| ==> games[i].predictions[j] in r
  {
    if |games| == 0 then []
    else
      var init := games[..|games| - 1];
      assert forall i :: 0 <= i < |init| ==> init[i] == games[i];
      AllPredictions(init) + games[|games| - 1].predictions
  }

  /** `games.reduce((acc, game) => acc + game.predictions.length, 0)`. */
  function TotalPredictions(games: seq<Game>): nat {
    if |games| == 0 then 0 else TotalPredictions(games[..|games| - 1]) + |games[|games| - 1].predictions|
  }

  lemma AllPredictionsAppend(games: seq<Game>, g: Game)
    ensures AllPredictions(games + [g]) == AllPredictions(games) + g.predictions
  {
    assert (games + [g])[..|games|] == games;
  }
}
