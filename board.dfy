/**
 * The board's state, `state.games`, and the four ways the user changes it: saving
 * a game from the game form, saving a prediction from the prediction form, and
 * deleting a game or a prediction. Loading a board (local storage or an imported
 * file) replaces it with the normalised `games` array of the parsed document.
 *
 * Each change is stated first as a function of the old board (`SaveGameResult`,
 * `SavePredictionResult`, `WithoutGame`, `WithoutPredictionIn`); the `Board`
 * class's methods perform the change in place and are proved to agree with it.
 */
module BoardState {
  import opened Wrappers
  import opened Json
  import opened Text
  import opened Records
  import Collections
  import Normalize

  /** Why a save did or did not change the board. */
  datatype Outcome =
    | Saved
    | MissingTeams          // "Home and away teams are required."
    | NoGameSelected        // "Please select a game before saving a prediction."
    | MissingSourceOrPick   // "Source and pick are required."
    | UnknownGame           // "Could not locate game for prediction."

  // Finding and removing records by id.

  function GameId(g: Game): Value {
    g.id
  }

  function PredictionId(p: Prediction): Value {
    p.id
  }

  /** `s.findIndex((x) => id(x) === v)`, with -1 as none. */
  function FirstIndex<T>(s: seq<T>, id: T -> Value, v: Value): (r: Option<nat>)
    ensures r.Some? ==> r.value < |s| && id(s[r.value]) == v
    ensures r.Some? ==> forall j :: 0 <= j < r.value ==> id(s[j]) != v
    ensures r.None? ==> forall j :: 0 <= j < |s| ==> id(s[j]) != v
  {
    if |s| == 0 then None
    else if id(s[0]) == v then Some(0)
    else
      match FirstIndex(s[1..], id, v)
      case None => None
      case Some(k) => Some(k + 1)
  }

  /** The first record with id `v` is where `findIndex` stops. */
  lemma {:induction false} FirstIndexAt<T>(s: seq<T>, id: T -> Value, v: Value, i: nat)
    requires i < |s| && id(s[i]) == v
    requires forall j :: 0 <= j < i ==> id(s[j]) != v
    ensures FirstIndex(s, id, v) == Some(i)
  {
    if i > 0 {
      assert id(s[0]) != v;
      FirstIndexAt(s[1..], id, v, i - 1);
    }
  }

  /** `s.filter((x) => id(x) !== v)`. */
  function Without<T>(s: seq<T>, id: T -> Value, v: Value): (r: seq<T>)
    ensures |r| <= |s|
  {
    if |s| == 0 then []
    else
      var n := |s| - 1;
      Without(s[..n], id, v) + (if id(s[n]) != v then [s[n]] else [])
  }

  /** What filtering keeps: only records without id `v`, and every one of them. */
  lemma {:induction false} WithoutMembers<T>(s: seq<T>, id: T -> Value, v: Value)
    ensures forall k :: 0 <= k < |Without(s, id, v)| ==> Without(s, id, v)[k] in s && id(Without(s, id, v)[k]) != v
    ensures forall j :: 0 <= j < |s| && id(s[j]) != v ==> s[j] in Without(s, id, v)
  {
    if |s| > 0 {
      var n := |s| - 1;
      WithoutMembers(s[..n], id, v);
      assert forall j :: 0 <= j < n ==> s[..n][j] == s[j];
    }
  }

  /** Filtering distributes over concatenation, so it keeps the order of what it keeps. */
  lemma {:induction false} WithoutAppend<T>(a: seq<T>, b: seq<T>, id: T -> Value, v: Value)
    ensures Without(a + b, id, v) == Without(a, id, v) + Without(b, id, v)
  {
    if |b| > 0 {
      var n := |b| - 1;
      var ab := a + b;
      assert ab[..|ab| - 1] == a + b[..n];
      assert ab[|ab| - 1] == b[n];
      var last := if id(b[n]) != v then [b[n]] else [];
      assert Without(ab, id, v) == Without(a + b[..n], id, v) + last;
      assert Without(b, id, v) == Without(b[..n], id, v) + last;
      WithoutAppend(a, b[..n], id, v);
    } else {
      assert a + b == a;
    }
  }

  /** Exactly the matching records go: as many as there are records with id `v`. */
  lemma {:induction false} WithoutCount<T>(s: seq<T>, id: T -> Value, v: Value)
    ensures |Without(s, id, v)| + Collections.Count(Collections.MapSeq(id, s), v) == |s|
  {
    if |s| > 0 {
      var n := |s| - 1;
      WithoutCount(s[..n], id, v);
      Collections.SplitLast(s);
      Collections.MapSeqSnoc(id, s[..n], s[n]);
      Collections.CountAppend(Collections.MapSeq(id, s[..n]), id(s[n]), v);
    }
  }

  /** Filtering out an id no record has changes nothing. */
  lemma {:induction false} WithoutAbsent<T>(s: seq<T>, id: T -> Value, v: Value)
    requires forall j :: 0 <= j < |s| ==> id(s[j]) != v
    ensures Without(s, id, v) == s
  {
    if |s| > 0 {
      var n := |s| - 1;
      WithoutAbsent(s[..n], id, v);
      assert s[..n] + [s[n]] == s;
    }
  }

  // Saving a game.

  /** The text fields of the game form, as the browser hands them over. */
  datatype GameForm = GameForm(homeTeam: string, awayTeam: string, kickoff: string, location: string, tags: string, notes: string)

  function AsText(s: string): Value {
    Str(s)
  }

  /** The non-empty strings of `parts`, in order (`filter(Boolean)`). */
  function NonEmpty(parts: seq<string>): (r: seq<string>)
    ensures |r| <= |parts|
  {
    if |parts| == 0 then []
    else
      var n := |parts| - 1;
      NonEmpty(parts[..n]) + (if parts[n] != "" then [parts[n]] else [])
  }

  /** What `filter(Boolean)` keeps: only non-empty parts, and every one of them. */
  lemma {:induction false} NonEmptyMembers(parts: seq<string>)
    ensures forall k :: 0 <= k < |NonEmpty(parts)| ==> NonEmpty(parts)[k] != "" && NonEmpty(parts)[k] in parts
    ensures forall j :: 0 <= j < |parts| && parts[j] != "" ==> parts[j] in NonEmpty(parts)
  {
    if |parts| > 0 {
      var n := |parts| - 1;
      NonEmptyMembers(parts[..n]);
      assert forall j :: 0 <= j < n ==> parts[..n][j] == parts[j];
    }
  }

  /** `parts.map((part) => part.trim())`. */
  function TrimEach(parts: seq<string>): (r: seq<string>)
    ensures |r| == |parts|
    ensures forall j :: 0 <= j < |parts| ==> r[j] == Trim(parts[j])
  {
    seq(|parts|, j requires 0 <= j < |parts| => Trim(parts[j]))
  }

  /** `tags.split(',').map((tag) => tag.trim()).filter(Boolean)`. */
  function FormTags(tags: string): seq<string> {
    NonEmpty(TrimEach(Split(tags, ',')))
  }

  /** The game `handleGameSubmit` builds from the form: every text trimmed, no predictions, nothing else. */
  function GamePayload(form: GameForm, id: Value): Game {
    Game(
      id := id,
      homeTeam := Str(Trim(form.homeTeam)),
      awayTeam := Str(Trim(form.awayTeam)),
      kickoff := Str(Trim(form.kickoff)),
      location := Str(Trim(form.location)),
      notes := Str(Trim(form.notes)),
      tags := Collections.MapSeq(AsText, FormTags(form.tags)),
      predictions := [],
      extra := map[])
  }

  /** The game with the payload's id replaced, keeping its predictions, or the payload appended. */
  function PutGame(games: seq<Game>, payload: Game): (r: seq<Game>)
    ensures |games| <= |r| <= |games| + 1
    ensures exists i :: 0 <= i < |r| && r[i].id == payload.id
  {
    match FirstIndex(games, GameId, payload.id)
    case Some(i) =>
      var r := games[i := payload.(predictions := games[i].predictions)];
      assert r[i].id == payload.id;
      r
    case None => assert (games + [payload])[|games|] == payload; games + [payload]
  }

  /** What `handleGameSubmit` reports and leaves in `state.games`, given the id it settled on. */
  function SaveGameResult(games: seq<Game>, form: GameForm, id: Value): (r: (Outcome, seq<Game>))
    ensures r.0 == Saved || r.0 == MissingTeams
    ensures r.0 == MissingTeams ==> r.1 == games
  {
    SavePayload(games, GamePayload(form, id))
  }

  /** `if (!payload.homeTeam || !payload.awayTeam)` refuses the save; otherwise the payload is put. */
  function SavePayload(games: seq<Game>, payload: Game): (Outcome, seq<Game>) {
    if payload.homeTeam == Str("") || payload.awayTeam == Str("") then (MissingTeams, games)
    else (Saved, PutGame(games, payload))
  }

  lemma FormTagClean(parts: seq<string>, t: string)
    requires forall j :: 0 <= j < |parts| ==> ',' !in parts[j]
    requires t in NonEmpty(TrimEach(parts))
    ensures t != "" && Trimmed(t) && ',' !in t
  {
    var trimmed := TrimEach(parts);
    NonEmptyMembers(trimmed);
    var k :| 0 <= k < |NonEmpty(trimmed)| && NonEmpty(trimmed)[k] == t;
    assert t in trimmed;
    var j :| 0 <= j < |trimmed| && trimmed[j] == t;
    assert t == Trim(parts[j]);
    TrimAvoids(parts[j], ',');
  }

  /** Each form tag is a non-empty trimmed string without a comma. */
  lemma FormTagsClean(tags: string)
    ensures forall k :: 0 <= k < |FormTags(tags)| ==>
      var t := FormTags(tags)[k]; t != "" && Trimmed(t) && ',' !in t
  {
    var parts := Split(tags, ',');
    forall k | 0 <= k < |FormTags(tags)|
      ensures var t := FormTags(tags)[k]; t != "" && Trimmed(t) && ',' !in t
    {
      FormTagClean(parts, FormTags(tags)[k]);
    }
  }

  lemma {:induction false} NonEmptyAll(parts: seq<string>)
    requires forall j :: 0 <= j < |parts| ==> parts[j] != ""
    ensures NonEmpty(parts) == parts
  {
    if |parts| > 0 {
      var n := |parts| - 1;
      NonEmptyAll(parts[..n]);
      assert parts[..n] + [parts[n]] == parts;
    }
  }

  /** Each part with a space in front, as `join(', ')` lays out the parts after the first. */
  function Spaced(parts: seq<string>): (r: seq<string>)
    ensures |r| == |parts|
    ensures forall j :: 0 <= j < |parts| ==> r[j] == " " + parts[j]
  {
    seq(|parts|, j requires 0 <= j < |parts| => " " + parts[j])
  }

  lemma {:induction false} JoinSpaced(parts: seq<string>)
    requires |parts| >= 1
    ensures " " + Join(", ", parts) == Join([','], Spaced(parts))
  {
    if |parts| >= 2 {
      JoinSpaced(parts[1..]);
      assert Spaced(parts)[1..] == Spaced(parts[1..]);
      assert " " + Join(", ", parts) == (" " + parts[0]) + [','] + (" " + Join(", ", parts[1..]));
    }
  }

  /** The pieces `split(',')` cuts `tags.join(', ')` into: the first tag, then each later one after a space. */
  lemma SplitShownTags(tags: seq<string>)
    requires |tags| >= 1
    requires forall j :: 0 <= j < |tags| ==> ',' !in tags[j]
    ensures Split(Join(", ", tags), ',') == [tags[0]] + Spaced(tags[1..])
  {
    if |tags| == 1 {
      SplitPlain(tags[0], ',');
    } else {
      SplitShownMany(tags);
    }
  }

  lemma SplitShownMany(tags: seq<string>)
    requires |tags| >= 2
    requires forall j :: 0 <= j < |tags| ==> ',' !in tags[j]
    ensures Split(Join(", ", tags), ',') == [tags[0]] + Spaced(tags[1..])
  {
    var rest := Spaced(tags[1..]);
    var tail := Join([','], rest);
    JoinShown(tags);
    SpacedAvoids(tags[1..], ',');
    SplitJoin(rest, ',');
    SplitAfter(tags[0], tail, ',');
  }

  lemma Regroup<T>(a: seq<T>, x: T, y: T, b: seq<T>)
    ensures a + [x, y] + b == a + [x] + ([y] + b)
  {
  }

  lemma JoinShown(tags: seq<string>)
    requires |tags| >= 2
    ensures Join(", ", tags) == tags[0] + [','] + Join([','], Spaced(tags[1..]))
  {
    JoinSpaced(tags[1..]);
    Regroup(tags[0], ',', ' ', Join(", ", tags[1..]));
  }

  lemma SpacedAvoids(parts: seq<string>, d: char)
    requires d != ' '
    requires forall j :: 0 <= j < |parts| ==> d !in parts[j]
    ensures forall j :: 0 <= j < |parts| ==> d !in Spaced(parts)[j]
  {
    forall j | 0 <= j < |parts|
      ensures d !in Spaced(parts)[j]
    {
      assert Spaced(parts)[j] == [' '] + parts[j];
    }
  }

  lemma TrimSpaced(t: string)
    requires Trimmed(t)
    ensures Trim(" " + t) == t
  {
    assert " " + t == " " + t + "";
    TrimPadded(" ", t, "");
  }

  lemma TrimShownTag(tags: seq<string>, j: nat)
    requires j < |tags| && Trimmed(tags[j])
    ensures Trim(([tags[0]] + Spaced(tags[1..]))[j]) == tags[j]
  {
    if j == 0 {
      TrimOfTrimmed(tags[0]);
    } else {
      assert ([tags[0]] + Spaced(tags[1..]))[j] == Spaced(tags[1..])[j - 1] == " " + tags[j];
      TrimSpaced(tags[j]);
    }
  }

  lemma TrimEachPointwise(parts: seq<string>, t: seq<string>)
    requires |parts| == |t|
    requires forall j :: 0 <= j < |parts| ==> Trim(parts[j]) == t[j]
    ensures TrimEach(parts) == t
  {
  }

  /** Trimming those pieces gives the tags back. */
  lemma TrimShownTags(tags: seq<string>)
    requires |tags| >= 1
    requires forall j :: 0 <= j < |tags| ==> Trimmed(tags[j])
    ensures TrimEach([tags[0]] + Spaced(tags[1..])) == tags
  {
    var shown := [tags[0]] + Spaced(tags[1..]);
    forall j | 0 <= j < |tags|
      ensures Trim(shown[j]) == tags[j]
    {
      TrimShownTag(tags, j);
    }
    TrimEachPointwise(shown, tags);
  }

  lemma FormTagsOfEmpty()
    ensures FormTags("") == []
  {
    assert Split("", ',') == [""];
    TrimOfTrimmed("");
    assert TrimEach([""]) == [""];
    assert NonEmpty([""]) == [];
  }

  /**
   * Editing a game shows its tags as `tags.join(', ')`; saving the form unchanged
   * splits that text back into exactly the same tags, provided each tag is
   * non-empty, trimmed and free of commas (as every saved tag is).
   */
  lemma FormTagsRoundTrip(tags: seq<string>)
    requires forall j :: 0 <= j < |tags| ==> tags[j] != "" && Trimmed(tags[j]) && ',' !in tags[j]
    ensures FormTags(Join(", ", tags)) == tags
  {
    if |tags| == 0 {
      FormTagsOfEmpty();
    } else {
      SplitShownTags(tags);
      TrimShownTags(tags);
    }
    NonEmptyAll(tags);
  }

  /** A save is refused, and the board left as it was, exactly when a trimmed team name is empty. */
  lemma SaveGameRejected(games: seq<Game>, form: GameForm, id: Value)
    ensures SaveGameResult(games, form, id).0 != Saved <==> Trim(form.homeTeam) == "" || Trim(form.awayTeam) == ""
    ensures SaveGameResult(games, form, id).0 != Saved ==>
      SaveGameResult(games, form, id) == (MissingTeams, games)
  {
  }

  /** Putting a game over the first game with its id replaces that game, keeping its predictions. */
  lemma PutGameReplaces(games: seq<Game>, payload: Game, i: nat)
    requires i < |games| && games[i].id == payload.id
    requires forall j :: 0 <= j < i ==> games[j].id != payload.id
    ensures PutGame(games, payload) == games[i := payload.(predictions := games[i].predictions)]
  {
    FirstIndexAt(games, GameId, payload.id, i);
  }

  /** Putting a game whose id no game has appends it. */
  lemma PutGameAppends(games: seq<Game>, payload: Game)
    requires forall j :: 0 <= j < |games| ==> games[j].id != payload.id
    ensures PutGame(games, payload) == games + [payload]
  {
  }

  /**
   * Saving over the first game with the same id replaces that game with the form's
   * game, keeping its predictions; every other game, and the number of games, stay
   * as they were.
   */
  lemma SaveGameReplaces(games: seq<Game>, form: GameForm, id: Value, i: nat)
    requires Trim(form.homeTeam) != "" && Trim(form.awayTeam) != ""
    requires i < |games| && games[i].id == id
    requires forall j :: 0 <= j < i ==> games[j].id != id
    ensures SaveGameResult(games, form, id) == (Saved, games[i := GamePayload(form, id).(predictions := games[i].predictions)])
  {
    var p := GamePayload(form, id);
    assert p.homeTeam != Str("") && p.awayTeam != Str("");
    PutGameReplaces(games, p, i);
    assert SavePayload(games, p) == (Saved, PutGame(games, p));
  }

  /** Saving a game with a new id appends exactly the form's game, with no predictions, after the others. */
  lemma SaveGameAppends(games: seq<Game>, form: GameForm, id: Value)
    requires Trim(form.homeTeam) != "" && Trim(form.awayTeam) != ""
    requires forall j :: 0 <= j < |games| ==> games[j].id != id
    ensures SaveGameResult(games, form, id) == (Saved, games + [GamePayload(form, id)])
    ensures GamePayload(form, id).predictions == []
  {
    var p := GamePayload(form, id);
    assert p.homeTeam != Str("") && p.awayTeam != Str("");
    PutGameAppends(games, p);
    assert SavePayload(games, p) == (Saved, PutGame(games, p));
  }

  // Saving a prediction.

  /** The text fields of the prediction form; `confidence` is the slider's text. */
  datatype PredictionForm = PredictionForm(
    source: string, market: string, pick: string, line: string, confidence: string, notes: string, link: string)

  /** `''` gives no confidence; otherwise `Number(value)`, none when that is `NaN`. */
  function FormConfidence(raw: string, parse: string -> Option<int>): (r: Option<int>)
    ensures raw == "" ==> r.None?
    ensures raw != "" && AllSpace(raw) ==> r == Some(0)
    ensures !AllSpace(raw) ==> r == parse(Trim(raw))
  {
    if raw == "" then None else Normalize.ToNumber(Str(raw), parse)
  }

  /** The prediction `handlePredictionSubmit` builds from the form: every text trimmed, nothing else. */
  function PredictionPayload(form: PredictionForm, id: Value, parse: string -> Option<int>): Prediction {
    Prediction(
      id := id,
      source := Str(Trim(form.source)),
      market := Trim(form.market),
      pick := Str(Trim(form.pick)),
      line := Str(Trim(form.line)),
      notes := Str(Trim(form.notes)),
      link := Str(Trim(form.link)),
      confidence := FormConfidence(form.confidence, parse),
      extra := map[])
  }

  /** `{ ...old, ...payload }`: the payload's fields win; the old record's other keys stay. */
  function Merge(prior: Prediction, payload: Prediction): (r: Prediction)
    ensures r.(extra := map[]) == payload.(extra := map[])
    ensures forall k :: k in r.extra <==> k in prior.extra && k !in PredictionKeys
    ensures forall k :: k in r.extra ==> r.extra[k] == prior.extra[k]
  {
    payload.(extra := prior.extra - PredictionKeys)
  }

  /** The prediction with the payload's id merged with it, or the payload appended. */
  function PutPrediction(ps: seq<Prediction>, payload: Prediction): (r: seq<Prediction>)
    ensures |ps| <= |r| <= |ps| + 1
    ensures exists k :: 0 <= k < |r| && r[k].id == payload.id
  {
    match FirstIndex(ps, PredictionId, payload.id)
    case Some(k) =>
      var merged := Merge(ps[k], payload);
      assert merged.id == merged.(extra := map[]).id == payload.(extra := map[]).id == payload.id;
      var r := ps[k := merged];
      assert r[k] == merged;
      r
    case None => assert (ps + [payload])[|ps|] == payload; ps + [payload]
  }

  /**
   * What `handlePredictionSubmit` reports and leaves in `state.games`, given the
   * selected game's id (`Undefined` when none is selected) and the prediction id it
   * settled on.
   */
  function SavePredictionResult(games: seq<Game>, gameId: Value, form: PredictionForm, id: Value,
                                parse: string -> Option<int>): (r: (Outcome, seq<Game>))
    ensures |r.1| == |games|
    ensures r.0 != Saved ==> r.1 == games
  {
    if !Truthy(gameId) then (NoGameSelected, games)
    else if Trim(form.source) == "" || Trim(form.pick) == "" then (MissingSourceOrPick, games)
    else
      match FirstIndex(games, GameId, gameId)
      case None => (UnknownGame, games)
      case Some(g) =>
        var payload := PredictionPayload(form, id, parse);
        (Saved, games[g := games[g].(predictions := PutPrediction(games[g].predictions, payload))])
  }

  /**
   * A prediction save is refused, with the board left as it was, when no game is
   * selected, when the trimmed source or pick is empty, or when no game has the
   * selected id, checked in that order; otherwise it succeeds.
   */
  lemma SavePredictionGuards(games: seq<Game>, gameId: Value, form: PredictionForm, id: Value,
                             parse: string -> Option<int>)
    ensures var (outcome, after) := SavePredictionResult(games, gameId, form, id, parse);
      && (outcome != Saved ==> after == games)
      && (outcome == NoGameSelected <==> !Truthy(gameId))
      && (outcome == MissingSourceOrPick <==> Truthy(gameId) && (Trim(form.source) == "" || Trim(form.pick) == ""))
      && (outcome == UnknownGame <==>
            Truthy(gameId) && Trim(form.source) != "" && Trim(form.pick) != "" &&
            forall j :: 0 <= j < |games| ==> games[j].id != gameId)
  {
    var result := SavePredictionResult(games, gameId, form, id, parse);
    if Truthy(gameId) && Trim(form.source) != "" && Trim(form.pick) != "" {
      var r := FirstIndex(games, GameId, gameId);
      if r.Some? {
        assert result.0 == Saved;
        assert GameId(games[r.value]) == gameId;
      } else {
        assert result == (UnknownGame, games);
      }
    }
  }

  /**
   * Saving a prediction touches only the first game with the selected id: every
   * other game, that game's other fields and the number of games stay as they were.
   */
  lemma SavePredictionScope(games: seq<Game>, gameId: Value, form: PredictionForm, id: Value,
                            parse: string -> Option<int>, g: nat)
    requires Truthy(gameId) && Trim(form.source) != "" && Trim(form.pick) != ""
    requires g < |games| && games[g].id == gameId
    requires forall j :: 0 <= j < g ==> games[j].id != gameId
    ensures SavePredictionResult(games, gameId, form, id, parse) ==
      (Saved, games[g := games[g].(predictions := PutPrediction(games[g].predictions, PredictionPayload(form, id, parse)))])
  {
    FirstIndexAt(games, GameId, gameId, g);
  }

  /**
   * Within the game, a prediction whose id is taken by the first prediction `k` is
   * merged into it: the form's fields replace the old ones, the old record's other
   * keys stay, and every other prediction and the number of predictions are kept.
   */
  lemma PutPredictionMerges(ps: seq<Prediction>, payload: Prediction, k: nat)
    requires k < |ps| && ps[k].id == payload.id
    requires forall j :: 0 <= j < k ==> ps[j].id != payload.id
    ensures var after := PutPrediction(ps, payload);
      && |after| == |ps|
      && after[k] == Merge(ps[k], payload)
      && (forall j :: 0 <= j < |ps| && j != k ==> after[j] == ps[j])
  {
    FirstIndexAt(ps, PredictionId, payload.id, k);
  }

  /** A prediction with a new id is appended after the game's others. */
  lemma PutPredictionAppends(ps: seq<Prediction>, payload: Prediction)
    requires forall j :: 0 <= j < |ps| ==> ps[j].id != payload.id
    ensures PutPrediction(ps, payload) == ps + [payload]
  {
  }

  // Deleting.

  /** `state.games.filter((game) => game.id !== gameId)`. */
  function WithoutGame(games: seq<Game>, gameId: Value): (r: seq<Game>)
    ensures |r| <= |games|
    ensures forall i :: 0 <= i < |r| ==> r[i] in games && r[i].id != gameId
  {
    WithoutMembers(games, GameId, gameId);
    Without(games, GameId, gameId)
  }

  /**
   * Deleting a game removes every game with that id and nothing else: what is left
   * has no game with the id, keeps every other game, in order, and is shorter by the
   * number of games that had it.
   */
  lemma DeleteGameRemoves(games: seq<Game>, gameId: Value)
    ensures var after := WithoutGame(games, gameId);
      && (forall k :: 0 <= k < |after| ==> after[k].id != gameId && after[k] in games)
      && (forall j :: 0 <= j < |games| && games[j].id != gameId ==> games[j] in after)
      && |after| + Collections.Count(Collections.MapSeq(GameId, games), gameId) == |games|
      && (forall a, b :: a + b == games ==> after == WithoutGame(a, gameId) + WithoutGame(b, gameId))
  {
    WithoutMembers(games, GameId, gameId);
    WithoutCount(games, GameId, gameId);
    forall a, b | a + b == games
      ensures WithoutGame(games, gameId) == WithoutGame(a, gameId) + WithoutGame(b, gameId)
    {
      WithoutAppend(a, b, GameId, gameId);
    }
  }

  /**
   * `deletePrediction(gameId, predictionId)`: the first game with `gameId` loses its
   * predictions with `predictionId`; without such a game nothing changes.
   */
  function WithoutPredictionIn(games: seq<Game>, gameId: Value, predictionId: Value): (r: seq<Game>)
    ensures |r| == |games|
    ensures forall i :: 0 <= i < |r| ==> r[i].id == games[i].id
  {
    match FirstIndex(games, GameId, gameId)
    case None => games
    case Some(g) => games[g := games[g].(predictions := Without(games[g].predictions, PredictionId, predictionId))]
  }

  /**
   * Deleting a prediction leaves every game but the first with the id untouched, and
   * that game's fields other than its predictions; its predictions lose exactly those
   * with the id. With no game of that id, or no prediction of that id in it, the
   * board is unchanged.
   */
  lemma DeletePredictionScope(games: seq<Game>, gameId: Value, predictionId: Value)
    ensures var after := WithoutPredictionIn(games, gameId, predictionId);
      && |after| == |games|
      && ((forall j :: 0 <= j < |games| ==> games[j].id != gameId) ==> after == games)
      && (forall g :: 0 <= g < |games| && games[g].id == gameId && (forall j :: 0 <= j < g ==> games[j].id != gameId) ==>
            && after[g] == games[g].(predictions := Without(games[g].predictions, PredictionId, predictionId))
            && (forall j :: 0 <= j < |games| && j != g ==> after[j] == games[j]))
  {
    forall g | 0 <= g < |games| && games[g].id == gameId && (forall j :: 0 <= j < g ==> games[j].id != gameId)
      ensures FirstIndex(games, GameId, gameId) == Some(g)
    {
      FirstIndexAt(games, GameId, gameId, g);
    }
  }

  /** Deleting an id no prediction of the (first matching) game has leaves the board as it was. */
  lemma DeletePredictionAbsent(games: seq<Game>, gameId: Value, predictionId: Value, g: nat)
    requires g < |games| && games[g].id == gameId
    requires forall j :: 0 <= j < g ==> games[j].id != gameId
    requires forall j :: 0 <= j < |games[g].predictions| ==> games[g].predictions[j].id != predictionId
    ensures WithoutPredictionIn(games, gameId, predictionId) == games
  {
    FirstIndexAt(games, GameId, gameId, g);
    WithoutAbsent(games[g].predictions, PredictionId, predictionId);
  }

  // Loading a board.

  /** `Array.isArray(parsed.games)` and `normalizeGames(parsed.games)` does not throw. */
  predicate Loadable(parsed: Value) {
    var games := Get(parsed, "games");
    games.Arr? && Normalize.Normalizable(games.items)
  }

  /** The board: `state.games`. */
  class Board {
    var games: seq<Game>

    constructor (initial: seq<Game>)
      ensures games == initial
    {
      games := initial;
    }

    /** `handleGameSubmit`, with `id` the editing game's id or a generated one. */
    method SaveGame(form: GameForm, id: Value) returns (outcome: Outcome)
      modifies this
      ensures (outcome, games) == SaveGameResult(old(games), form, id)
    {
      var payload := GamePayload(form, id);
      outcome := SubmitGame(payload);
    }

    /** The guard and the upsert of `handleGameSubmit`, once the payload is built. */
    method SubmitGame(payload: Game) returns (outcome: Outcome)
      modifies this
      ensures (outcome, games) == SavePayload(old(games), payload)
    {
      if payload.homeTeam == Str("") || payload.awayTeam == Str("") {
        return MissingTeams;
      }
      var existing := FirstIndex(games, GameId, payload.id);
      if existing.Some? {
        var i := existing.value;
        PutGameReplaces(games, payload, i);
        games := games[i := payload.(predictions := games[i].predictions)];
      } else {
        PutGameAppends(games, payload);
        games := games + [payload];
      }
      return Saved;
    }

    /**
     * `handlePredictionSubmit`, with `gameId` the selected game's id (`Undefined`
     * when none is selected) and `id` the editing prediction's id or a generated one.
     */
    method SavePrediction(gameId: Value, form: PredictionForm, id: Value, parse: string -> Option<int>)
      returns (outcome: Outcome)
      modifies this
      ensures (outcome, games) == SavePredictionResult(old(games), gameId, form, id, parse)
    {
      if !Truthy(gameId) {
        return NoGameSelected;
      }
      var payload := PredictionPayload(form, id, parse);
      if Trim(form.source) == "" || Trim(form.pick) == "" {
        return MissingSourceOrPick;
      }
      var found := FirstIndex(games, GameId, gameId);
      if found.None? {
        return UnknownGame;
      }
      var g := found.value;
      var ps := games[g].predictions;
      var existing := FirstIndex(ps, PredictionId, payload.id);
      if existing.Some? {
        var k := existing.value;
        ps := ps[k := Merge(ps[k], payload)];
      } else {
        ps := ps + [payload];
      }
      games := games[g := games[g].(predictions := ps)];
      return Saved;
    }

    /** `deleteGame(gameId)` once the user has confirmed. */
    method DeleteGame(gameId: Value)
      modifies this
      ensures games == WithoutGame(old(games), gameId)
    {
      games := Without(games, GameId, gameId);
    }

    /** `deletePrediction(gameId, predictionId)`. */
    method DeletePrediction(gameId: Value, predictionId: Value)
      modifies this
      ensures games == WithoutPredictionIn(old(games), gameId, predictionId)
    {
      var found := FirstIndex(games, GameId, gameId);
      if found.None? {
        return;
      }
      var g := found.value;
      games := games[g := games[g].(predictions := Without(games[g].predictions, PredictionId, predictionId))];
    }

    /**
     * Loading a parsed document (`hydrate`, `handleImportFile`): when it has a
     * `games` array that normalises, the board becomes the normalised games;
     * otherwise the load fails and the board is left as it was.
     */
    method Load(parsed: Value, newId: Normalize.Slot -> string, parse: string -> Option<int>) returns (loaded: bool)
      modifies this
      ensures loaded <==> Loadable(parsed)
      ensures loaded ==> Some(games) == Normalize.NormalizeGames(Get(parsed, "games").items, newId, parse)
      ensures !loaded ==> games == old(games)
    {
      var raw := Get(parsed, "games");
      if !raw.Arr? {
        return false;
      }
      var normalized := Normalize.NormalizeGames(raw.items, newId, parse);
      if normalized.None? {
        return false;
      }
      games := normalized.value;
      return true;
    }
  }
}
