/**
 * `normalizeGames`: shapes parsed records into the board's games. String fields
 * are trimmed and other values pass through, tags are cleaned, `market` becomes a
 * string, confidence is parsed permissively and missing ids are filled in.
 *
 * Id generation is a supplied function `newId` of the position being filled, and
 * the parsing of a numeric string by `Number` is a supplied function `parse`.
 */
module Normalize {
  import opened Wrappers
  import opened Text
  import opened Json
  import opened Records
  import Collections

  /** Where a generated id is needed: a game, or a prediction of a game. */
  datatype Slot = GameSlot(game: nat) | PredictionSlot(game: nat, prediction: nat)

  /** `typeof v === 'string' ? v.trim() : v`. */
  function TrimIfText(v: Value): (r: Value)
    ensures v.Str? ==> r == Str(Trim(v.s))
    ensures !v.Str? ==> r == v
  {
    if v.Str? then Str(Trim(v.s)) else v
  }

  /** `v ?? generateId()`. */
  function FillId(v: Value, slot: Slot, newId: Slot -> string): (r: Value)
    ensures !Nullish(r)
    ensures !Nullish(v) ==> r == v
  {
    if Nullish(v) then Str(newId(slot)) else v
  }

  /** `k` is the decimal form of an index below `n`. */
  ghost predicate IsIndexKey(k: string, n: nat) {
    exists i :: 0 <= i < n && k == NatToString(i)
  }

  /** An array's own enumerable properties: each element under its decimal index. */
  function Indexed(items: seq<Value>): (r: map<string, Value>)
    ensures forall k :: k in r <==> IsIndexKey(k, |items|)
    ensures forall i :: 0 <= i < |items| ==> NatToString(i) in r && r[NatToString(i)] == items[i]
  {
    NatToStringInjective();
    map i | 0 <= i < |items| :: NatToString(i) := items[i]
  }

  /** A string's characters, one-character strings, as `...s` sees them. */
  function Chars(s: string): (r: seq<Value>)
    ensures |r| == |s|
    ensures forall i :: 0 <= i < |s| ==> r[i] == Str([s[i]])
  {
    seq(|s|, i requires 0 <= i < |s| => Str([s[i]]))
  }

  /**
   * The own enumerable properties that `...v` copies: an object's fields, the
   * index keys of an array or a string, and nothing for any other value.
   */
  function Spread(v: Value): map<string, Value> {
    match v
    case Obj(fields) => fields
    case Arr(items) => Indexed(items)
    case Str(s) => Indexed(Chars(s))
    case _ => map[]
  }

  /** Tags: trimmed when strings, falsy ones dropped; anything but an array gives no tags. */
  function NormalizeTags(v: Value): seq<Value> {
    if v.Arr? then KeepTruthy(Collections.MapSeq(TrimIfText, v.items)) else []
  }

  /** `market`: trimmed when a string, `String(market)` when truthy, `''` otherwise. */
  function NormalizeMarket(v: Value): string {
    if v.Str? then Trim(v.s) else if Truthy(v) then ToString(v) else ""
  }

  /**
   * `Number(v)` followed by `Number.isFinite`, as an optional integer. Strings
   * that are blank convert to 0, others go to `parse` trimmed; an array converts
   * via its string form; a plain object converts to NaN.
   */
  function ToNumber(v: Value, parse: string -> Option<int>): Option<int> {
    match v
    case Undefined => None
    case Null => Some(0)
    case Bool(b) => Some(if b then 1 else 0)
    case Num(n) => if n.Finite? then Some(n.v) else None
    case Str(s) => if AllSpace(s) then Some(0) else parse(Trim(s))
    case Arr(_) => var s := ToString(v); if AllSpace(s) then Some(0) else parse(Trim(s))
    case Obj(_) => None
  }

  /** Confidence: absent, `null` and `''` give none; otherwise `Number` must give a finite value. */
  function NormalizeConfidence(v: Value, parse: string -> Option<int>): Option<int> {
    if v == Undefined || v == Null || v == Str("") then None
    else if v.Num? then (if v.n.Finite? then Some(v.n.v) else None)
    else ToNumber(v, parse)
  }

  /** One entry of `game.predictions.map(...)`; a `null` or `undefined` entry makes the map throw. */
  function NormalizePrediction(p: Value, slot: Slot, newId: Slot -> string, parse: string -> Option<int>): (r: Prediction)
    requires !Nullish(p)
    ensures !Nullish(r.id)
    ensures r.extra.Keys !! PredictionKeys
  {
    Prediction(
      id := FillId(Get(p, "id"), slot, newId),
      source := TrimIfText(Get(p, "source")),
      market := NormalizeMarket(Get(p, "market")),
      pick := TrimIfText(Get(p, "pick")),
      line := TrimIfText(Get(p, "line")),
      notes := TrimIfText(Get(p, "notes")),
      link := TrimIfText(Get(p, "link")),
      confidence := NormalizeConfidence(Get(p, "confidence"), parse),
      extra := Spread(p) - PredictionKeys)
  }

  /** The raw predictions of a raw game: `game.predictions` when it is an array. */
  function RawPredictions(v: Value): seq<Value> {
    var raw := Get(v, "predictions");
    if raw.Arr? then raw.items else []
  }

  /** Whether a game's entry of `games.map(...)` completes: neither the game nor one of its predictions is nullish. */
  predicate GameNormalizable(v: Value) {
    !Nullish(v) && forall j :: 0 <= j < |RawPredictions(v)| ==> !Nullish(RawPredictions(v)[j])
  }

  /** One entry of `games.map(...)`, for the game at position `g`. */
  function NormalizeGame(v: Value, g: nat, newId: Slot -> string, parse: string -> Option<int>): (r: Game)
    requires GameNormalizable(v)
    ensures !Nullish(r.id)
    ensures |r.predictions| == |RawPredictions(v)|
    ensures r.extra.Keys !! GameKeys
  {
    var ps := RawPredictions(v);
    Game(
      id := FillId(Get(v, "id"), GameSlot(g), newId),
      homeTeam := TrimIfText(Get(v, "homeTeam")),
      awayTeam := TrimIfText(Get(v, "awayTeam")),
      kickoff := TrimIfText(Get(v, "kickoff")),
      location := TrimIfText(Get(v, "location")),
      notes := TrimIfText(Get(v, "notes")),
      tags := NormalizeTags(Get(v, "tags")),
      predictions := seq(|ps|, j requires 0 <= j < |ps| =>
        NormalizePrediction(ps[j], PredictionSlot(g, j), newId, parse)),
      extra := Spread(v) - GameKeys)
  }

  /** Whether `normalizeGames` completes rather than throwing a `TypeError`. */
  predicate Normalizable(games: seq<Value>) {
    forall i :: 0 <= i < |games| ==> GameNormalizable(games[i])
  }

  /** `normalizeGames(games)`, or none when it would throw. */
  function NormalizeGames(games: seq<Value>, newId: Slot -> string, parse: string -> Option<int>): (r: Option<seq<Game>>)
    ensures r.Some? <==> Normalizable(games)
  {
    if Normalizable(games) then
      Some(seq(|games|, i requires 0 <= i < |games| => NormalizeGame(games[i], i, newId, parse)))
    else None
  }

  // What normalisation guarantees.

  /** Normalisation keeps the number of games and, per game, the number of predictions. */
  lemma NormalizeKeepsCounts(games: seq<Value>, newId: Slot -> string, parse: string -> Option<int>)
    requires Normalizable(games)
    ensures var gs := NormalizeGames(games, newId, parse).value;
      && |gs| == |games|
      && forall i :: 0 <= i < |gs| ==> |gs[i].predictions| == |RawPredictions(games[i])|
  {
  }

  /** Index keys are decimal digits, so no named record key removes one. */
  lemma IndexKeysSurvive(items: seq<Value>, names: set<string>)
    requires forall k :: k in names ==> |k| > 0 && !('0' <= k[0] <= '9')
    ensures Indexed(items) - names == Indexed(items)
  {
    forall k | k in Indexed(items)
      ensures k !in names
    {
      var i :| 0 <= i < |items| && k == NatToString(i);
    }
  }

  /** `...s` on a string: one key per character, its decimal index, holding that character. */
  lemma SpreadOfText(s: string)
    ensures forall k :: k in Spread(Str(s)) <==> IsIndexKey(k, |s|)
    ensures forall i :: 0 <= i < |s| ==> NatToString(i) in Spread(Str(s)) && Spread(Str(s))[NatToString(i)] == Str([s[i]])
  {
    assert Spread(Str(s)) == Indexed(Chars(s));
  }

  /** `...xs` on an array: one key per element, its decimal index, holding that element. */
  lemma SpreadOfArray(xs: seq<Value>)
    ensures forall k :: k in Spread(Arr(xs)) <==> IsIndexKey(k, |xs|)
    ensures forall i :: 0 <= i < |xs| ==> NatToString(i) in Spread(Arr(xs)) && Spread(Arr(xs))[NatToString(i)] == xs[i]
  {
  }

  /**
   * A string or array entry is spread into its record: every index key stays
   * in `extra` (a string entry `"ab"` keeps `"0": "a"` and `"1": "b"`), both as
   * a game and as a prediction.
   */
  lemma IndexKeysKept(v: Value, g: nat, j: nat, newId: Slot -> string, parse: string -> Option<int>)
    requires v.Str? || v.Arr?
    ensures GameNormalizable(v)
    ensures NormalizeGame(v, g, newId, parse).extra == Spread(v)
    ensures NormalizePrediction(v, PredictionSlot(g, j), newId, parse).extra == Spread(v)
  {
    SpreadIndexed(v);
    GameExtra(v, g, newId, parse);
    PredictionExtra(v, PredictionSlot(g, j), newId, parse);
  }

  /** On a string or an array, the spread holds index keys only, which no record key removes. */
  lemma SpreadIndexed(v: Value)
    requires v.Str? || v.Arr?
    ensures Spread(v) - GameKeys == Spread(v)
    ensures Spread(v) - PredictionKeys == Spread(v)
  {
    var items := if v.Arr? then v.items else Chars(v.s);
    assert Spread(v) == Indexed(items);
    RecordKeysNamed();
    IndexKeysSurvive(items, GameKeys);
    IndexKeysSurvive(items, PredictionKeys);
  }

  /** Every record key starts with a letter. */
  lemma RecordKeysNamed()
    ensures forall k :: k in GameKeys ==> |k| > 0 && !('0' <= k[0] <= '9')
    ensures forall k :: k in PredictionKeys ==> |k| > 0 && !('0' <= k[0] <= '9')
  {
    assert "id"[0] == 'i' && "homeTeam"[0] == 'h' && "awayTeam"[0] == 'a' && "kickoff"[0] == 'k';
    assert "location"[0] == 'l' && "notes"[0] == 'n' && "tags"[0] == 't' && "predictions"[0] == 'p';
    assert "source"[0] == 's' && "market"[0] == 'm' && "pick"[0] == 'p' && "line"[0] == 'l';
    assert "link"[0] == 'l' && "confidence"[0] == 'c';
  }

  lemma GameExtra(v: Value, g: nat, newId: Slot -> string, parse: string -> Option<int>)
    requires GameNormalizable(v)
    ensures NormalizeGame(v, g, newId, parse).extra == Spread(v) - GameKeys
  {
  }

  lemma PredictionExtra(p: Value, slot: Slot, newId: Slot -> string, parse: string -> Option<int>)
    requires !Nullish(p)
    ensures NormalizePrediction(p, slot, newId, parse).extra == Spread(p) - PredictionKeys
  {
  }

  /** Existing ids are kept, and every game and prediction ends up with a non-nullish id. */
  lemma NormalizeKeepsIds(games: seq<Value>, newId: Slot -> string, parse: string -> Option<int>)
    requires Normalizable(games)
    ensures var gs := NormalizeGames(games, newId, parse).value;
      forall i :: 0 <= i < |gs| ==>
        && !Nullish(gs[i].id)
        && (!Nullish(Get(games[i], "id")) ==> gs[i].id == Get(games[i], "id"))
        && forall j :: 0 <= j < |gs[i].predictions| ==>
          && !Nullish(gs[i].predictions[j].id)
          && (!Nullish(Get(RawPredictions(games[i])[j], "id")) ==>
                gs[i].predictions[j].id == Get(RawPredictions(games[i])[j], "id"))
  {
  }

  /**
   * Tags: anything but an array gives none; every tag kept is truthy and, when a
   * string, trimmed and non-empty; every raw tag that is still truthy once trimmed
   * is kept.
   */
  lemma NormalizeTagsClean(v: Value)
    ensures !v.Arr? ==> NormalizeTags(v) == []
    ensures forall i :: 0 <= i < |NormalizeTags(v)| ==>
      var t := NormalizeTags(v)[i];
      Truthy(t) && (t.Str? ==> t.s != "" && Trimmed(t.s))
    ensures v.Arr? ==> forall i :: 0 <= i < |v.items| && Truthy(TrimIfText(v.items[i])) ==>
      TrimIfText(v.items[i]) in NormalizeTags(v)
    ensures v.Arr? ==> |NormalizeTags(v)| <= |v.items|
  {
    if v.Arr? {
      var mapped := Collections.MapSeq(TrimIfText, v.items);
      forall i | 0 <= i < |NormalizeTags(v)|
        ensures var t := NormalizeTags(v)[i]; t.Str? ==> Trimmed(t.s)
      {
        var t := NormalizeTags(v)[i];
        KeepTruthyMember(mapped, t);
        var k :| 0 <= k < |mapped| && mapped[k] == t;
      }
      forall i | 0 <= i < |v.items| && Truthy(TrimIfText(v.items[i]))
        ensures TrimIfText(v.items[i]) in NormalizeTags(v)
      {
        assert mapped[i] == TrimIfText(v.items[i]);
        KeepTruthyMember(mapped, mapped[i]);
      }
    }
  }

  /**
   * Confidence: absent, `null` and `''` give none, never the 0 that `Number` would
   * give them; a finite number is kept and a non-finite one dropped.
   */
  lemma ConfidenceAbsent(parse: string -> Option<int>)
    ensures NormalizeConfidence(Undefined, parse) == None
    ensures NormalizeConfidence(Null, parse) == None && ToNumber(Null, parse) == Some(0)
    ensures NormalizeConfidence(Str(""), parse) == None && ToNumber(Str(""), parse) == Some(0)
  {
  }

  lemma ConfidenceOfNumber(n: JsNumber, parse: string -> Option<int>)
    ensures NormalizeConfidence(Num(n), parse) == if n.Finite? then Some(n.v) else None
  {
  }

  /**
   * A string confidence is parsed leniently: surrounding whitespace is ignored, and a
   * non-empty blank string gives 0, as `Number` does.
   */
  lemma ConfidenceOfText(s: string, parse: string -> Option<int>)
    requires s != ""
    ensures AllSpace(s) ==> NormalizeConfidence(Str(s), parse) == Some(0)
    ensures !AllSpace(s) ==> NormalizeConfidence(Str(s), parse) == parse(Trim(s))
  {
  }

  /** A present confidence is a value `Number` accepts: normalisation never invents one. */
  lemma ConfidenceFromNumber(v: Value, parse: string -> Option<int>)
    ensures NormalizeConfidence(v, parse).Some? ==> NormalizeConfidence(v, parse) == ToNumber(v, parse)
    ensures NormalizeConfidence(v, parse).None? ==> Nullish(v) || v == Str("") || ToNumber(v, parse).None?
  {
  }

  /**
   * `market` is empty exactly for a falsy value, a blank string, or an array whose
   * string form is empty (such as `[]`).
   */
  lemma MarketEmptyIff(v: Value)
    ensures NormalizeMarket(v) == "" <==> !Truthy(v) || (v.Str? && AllSpace(v.s)) || (v.Arr? && ToString(v) == "")
  {
    if v.Str? {
      TrimEmptyIff(v.s);
    } else if Truthy(v) && !v.Arr? {
      ToStringNonEmpty(v);
    }
  }

  lemma ToStringNonEmpty(v: Value)
    requires Truthy(v) && !v.Str? && !v.Arr?
    ensures ToString(v) != ""
  {
    if v.Num? {
      match v.n
      case Finite(x) =>
      case NaN =>
      case PosInfinity =>
      case NegInfinity =>
    }
  }

  // Normal form, and normalising it again.

  /** The normalised game as the object `normalizeGames` builds, with its spread keys. */
  function EncodePrediction(p: Prediction): Value {
    Obj(p.extra + map[
      "id" := p.id, "source" := p.source, "market" := Str(p.market), "pick" := p.pick,
      "line" := p.line, "notes" := p.notes, "link" := p.link,
      "confidence" := if p.confidence.Some? then Num(Finite(p.confidence.value)) else Undefined])
  }

  function EncodeGame(g: Game): Value {
    Obj(g.extra + map[
      "id" := g.id, "homeTeam" := g.homeTeam, "awayTeam" := g.awayTeam, "kickoff" := g.kickoff,
      "location" := g.location, "notes" := g.notes, "tags" := Arr(g.tags),
      "predictions" := Arr(Collections.MapSeq(EncodePrediction, g.predictions))])
  }

  predicate TextNormal(v: Value) {
    v.Str? ==> Trimmed(v.s)
  }

  predicate PredictionNormal(p: Prediction) {
    && !Nullish(p.id) && Trimmed(p.market)
    && TextNormal(p.source) && TextNormal(p.pick) && TextNormal(p.line) && TextNormal(p.notes) && TextNormal(p.link)
    && p.extra.Keys !! PredictionKeys
  }

  predicate GameNormal(g: Game) {
    && !Nullish(g.id)
    && TextNormal(g.homeTeam) && TextNormal(g.awayTeam) && TextNormal(g.kickoff)
    && TextNormal(g.location) && TextNormal(g.notes)
    && (forall i :: 0 <= i < |g.tags| ==> Truthy(g.tags[i]) && TextNormal(g.tags[i]))
    && (forall j :: 0 <= j < |g.predictions| ==> PredictionNormal(g.predictions[j]))
    && g.extra.Keys !! GameKeys
  }

  lemma TrimIfTextNormal(v: Value)
    ensures TextNormal(TrimIfText(v))
    ensures TextNormal(v) ==> TrimIfText(v) == v
  {
    if v.Str? && Trimmed(v.s) {
      TrimOfTrimmed(v.s);
    }
  }

  /** A string or falsy market normalises to a trimmed string. */
  lemma MarketTrimmed(v: Value)
    requires v.Str? || !Truthy(v)
    ensures Trimmed(NormalizeMarket(v))
  {
  }

  lemma SpreadWithout(extra: map<string, Value>, fields: map<string, Value>, keys: set<string>)
    requires extra.Keys !! keys && fields.Keys == keys
    ensures Spread(Obj(extra + fields)) - keys == extra
  {
    var m := Spread(Obj(extra + fields)) - keys;
    assert m.Keys == extra.Keys;
    forall k | k in m.Keys
      ensures m[k] == extra[k]
    {
    }
  }

  lemma {:induction false} KeepTruthyAll(s: seq<Value>)
    requires forall i :: 0 <= i < |s| ==> Truthy(s[i])
    ensures KeepTruthy(s) == s
  {
    if |s| > 0 {
      var pre := s[..|s| - 1];
      assert forall i :: 0 <= i < |pre| ==> Truthy(pre[i]) by {
        forall i | 0 <= i < |pre| ensures Truthy(pre[i]) {
          assert pre[i] == s[i];
        }
      }
      KeepTruthyAll(pre);
      assert KeepTruthy(s) == pre + [s[|s| - 1]];
      Collections.SplitLast(s);
    }
  }

  /** The encoded prediction's first four fields read back as stored. */
  lemma EncodedHead(p: Prediction)
    ensures Get(EncodePrediction(p), "id") == p.id
    ensures Get(EncodePrediction(p), "source") == p.source
    ensures Get(EncodePrediction(p), "market") == Str(p.market)
    ensures Get(EncodePrediction(p), "pick") == p.pick
  {
  }

  /** The encoded prediction's last four fields read back as stored. */
  lemma EncodedTail(p: Prediction)
    ensures Get(EncodePrediction(p), "line") == p.line
    ensures Get(EncodePrediction(p), "notes") == p.notes
    ensures Get(EncodePrediction(p), "link") == p.link
    ensures Get(EncodePrediction(p), "confidence") == if p.confidence.Some? then Num(Finite(p.confidence.value)) else Undefined
  {
  }

  /** A prediction in normal form comes back unchanged, whatever ids or parser are supplied. */
  lemma PredictionFixed(p: Prediction, slot: Slot, newId: Slot -> string, parse: string -> Option<int>)
    requires PredictionNormal(p)
    ensures NormalizePrediction(EncodePrediction(p), slot, newId, parse) == p
  {
    EncodedHead(p);
    EncodedTail(p);
    TrimIfTextNormal(p.source);
    TrimIfTextNormal(p.pick);
    TrimIfTextNormal(p.line);
    TrimIfTextNormal(p.notes);
    TrimIfTextNormal(p.link);
    TrimOfTrimmed(p.market);
    EncodedExtra(p);
  }

  /** The encoded prediction's other keys are its `extra`. */
  lemma EncodedExtra(p: Prediction)
    requires p.extra.Keys !! PredictionKeys
    ensures Spread(EncodePrediction(p)) - PredictionKeys == p.extra
  {
    SpreadWithout(p.extra, map[
      "id" := p.id, "source" := p.source, "market" := Str(p.market), "pick" := p.pick,
      "line" := p.line, "notes" := p.notes, "link" := p.link,
      "confidence" := if p.confidence.Some? then Num(Finite(p.confidence.value)) else Undefined], PredictionKeys);
  }

  lemma TagsFixed(tags: seq<Value>)
    requires forall i :: 0 <= i < |tags| ==> Truthy(tags[i]) && TextNormal(tags[i])
    ensures NormalizeTags(Arr(tags)) == tags
  {
    var mapped := Collections.MapSeq(TrimIfText, tags);
    forall i | 0 <= i < |tags|
      ensures mapped[i] == tags[i]
    {
      TrimIfTextNormal(tags[i]);
    }
    assert mapped == tags;
    KeepTruthyAll(tags);
  }

  /** The encoded game's text fields read back as stored. */
  lemma EncodedGameText(g: Game)
    ensures Get(EncodeGame(g), "id") == g.id
    ensures Get(EncodeGame(g), "homeTeam") == g.homeTeam
    ensures Get(EncodeGame(g), "awayTeam") == g.awayTeam
    ensures Get(EncodeGame(g), "kickoff") == g.kickoff
    ensures Get(EncodeGame(g), "location") == g.location
    ensures Get(EncodeGame(g), "notes") == g.notes
  {
  }

  /** The encoded game's lists and other keys read back as stored. */
  lemma EncodedGameRest(g: Game)
    requires g.extra.Keys !! GameKeys
    ensures Get(EncodeGame(g), "tags") == Arr(g.tags)
    ensures RawPredictions(EncodeGame(g)) == Collections.MapSeq(EncodePrediction, g.predictions)
    ensures Spread(EncodeGame(g)) - GameKeys == g.extra
  {
    var ps := Collections.MapSeq(EncodePrediction, g.predictions);
    assert Get(EncodeGame(g), "predictions") == Arr(ps);
    SpreadWithout(g.extra, map[
      "id" := g.id, "homeTeam" := g.homeTeam, "awayTeam" := g.awayTeam, "kickoff" := g.kickoff,
      "location" := g.location, "notes" := g.notes, "tags" := Arr(g.tags),
      "predictions" := Arr(ps)], GameKeys);
  }

  /** A game in normal form comes back unchanged, whatever ids or parser are supplied. */
  lemma GameFixed(g: Game, i: nat, newId: Slot -> string, parse: string -> Option<int>)
    requires GameNormal(g)
    ensures GameNormalizable(EncodeGame(g))
    ensures NormalizeGame(EncodeGame(g), i, newId, parse) == g
  {
    var v := EncodeGame(g);
    var ps := Collections.MapSeq(EncodePrediction, g.predictions);
    EncodedGameText(g);
    EncodedGameRest(g);
    TagsFixed(g.tags);
    TrimIfTextNormal(g.homeTeam);
    TrimIfTextNormal(g.awayTeam);
    TrimIfTextNormal(g.kickoff);
    TrimIfTextNormal(g.location);
    TrimIfTextNormal(g.notes);
    forall j | 0 <= j < |ps|
      ensures NormalizePrediction(ps[j], PredictionSlot(i, j), newId, parse) == g.predictions[j]
    {
      PredictionFixed(g.predictions[j], PredictionSlot(i, j), newId, parse);
    }
    assert NormalizeGame(v, i, newId, parse).predictions == g.predictions;
  }

  /** Normalising a board already in normal form changes nothing. */
  lemma NormalFormFixed(gs: seq<Game>, newId: Slot -> string, parse: string -> Option<int>)
    requires forall i :: 0 <= i < |gs| ==> GameNormal(gs[i])
    ensures NormalizeGames(Collections.MapSeq(EncodeGame, gs), newId, parse) == Some(gs)
  {
    var raw := Collections.MapSeq(EncodeGame, gs);
    forall i | 0 <= i < |gs|
      ensures GameNormalizable(raw[i]) && NormalizeGame(raw[i], i, newId, parse) == gs[i]
    {
      GameFixed(gs[i], i, newId, parse);
    }
    assert NormalizeGames(raw, newId, parse).value == gs;
  }

  lemma PredictionNormalized(p: Value, slot: Slot, newId: Slot -> string, parse: string -> Option<int>)
    requires !Nullish(p)
    requires Trimmed(NormalizeMarket(Get(p, "market")))
    ensures PredictionNormal(NormalizePrediction(p, slot, newId, parse))
  {
    TrimIfTextNormal(Get(p, "source"));
    TrimIfTextNormal(Get(p, "pick"));
    TrimIfTextNormal(Get(p, "line"));
    TrimIfTextNormal(Get(p, "notes"));
    TrimIfTextNormal(Get(p, "link"));
  }

  lemma GameNormalized(v: Value, i: nat, newId: Slot -> string, parse: string -> Option<int>)
    requires GameNormalizable(v)
    requires forall j :: 0 <= j < |RawPredictions(v)| ==> Trimmed(NormalizeMarket(Get(RawPredictions(v)[j], "market")))
    ensures GameNormal(NormalizeGame(v, i, newId, parse))
  {
    var g := NormalizeGame(v, i, newId, parse);
    TrimIfTextNormal(Get(v, "homeTeam"));
    TrimIfTextNormal(Get(v, "awayTeam"));
    TrimIfTextNormal(Get(v, "kickoff"));
    TrimIfTextNormal(Get(v, "location"));
    TrimIfTextNormal(Get(v, "notes"));
    NormalizeTagsClean(Get(v, "tags"));
    forall j | 0 <= j < |g.predictions|
      ensures PredictionNormal(g.predictions[j])
    {
      PredictionNormalized(RawPredictions(v)[j], PredictionSlot(i, j), newId, parse);
    }
  }

  /**
   * `normalizeGames` is idempotent: normalising its output again, with any id source
   * and parser, gives the same games, provided every market came out trimmed (it is
   * whenever the raw market was a string or falsy; see `MarketTrimmed`).
   */
  lemma NormalizeIdempotent(games: seq<Value>, newId: Slot -> string, parse: string -> Option<int>,
                            newId': Slot -> string, parse': string -> Option<int>)
    requires Normalizable(games)
    requires var gs := NormalizeGames(games, newId, parse).value;
      forall i, j :: 0 <= i < |gs| && 0 <= j < |gs[i].predictions| ==> Trimmed(gs[i].predictions[j].market)
    ensures var gs := NormalizeGames(games, newId, parse).value;
      NormalizeGames(Collections.MapSeq(EncodeGame, gs), newId', parse') == Some(gs)
  {
    var gs := NormalizeGames(games, newId, parse).value;
    forall i | 0 <= i < |gs|
      ensures GameNormal(gs[i])
    {
      forall j | 0 <= j < |RawPredictions(games[i])|
        ensures Trimmed(NormalizeMarket(Get(RawPredictions(games[i])[j], "market")))
      {
        assert gs[i].predictions[j].market == NormalizeMarket(Get(RawPredictions(games[i])[j], "market"));
      }
      GameNormalized(games[i], i, newId, parse);
    }
    NormalFormFixed(gs, newId', parse');
  }

  /**
   * Without that proviso idempotence fails: a market `[' x']` is stringified but
   * not trimmed, and the next pass trims it.
   */
  lemma MarketNotIdempotent()
    ensures NormalizeMarket(Arr([Str(" x")])) == " x"
    ensures NormalizeMarket(Str(" x")) == "x"
  {
    SingletonToString(Str(" x"));
    TrimPadded(" ", "x", "");
    assert " " + "x" + "" == " x";
  }

  lemma SingletonToString(v: Value)
    requires !Nullish(v)
    ensures ToString(Arr([v])) == ToString(v)
  {
    var parts := seq(1, i requires 0 <= i < 1 => if Nullish([v][i]) then "" else ToString([v][i]));
    assert parts == [ToString(v)];
  }
}

