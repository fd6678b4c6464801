/**
 * `filterGame`: the board's search box. A game matches when the search text
 * occurs in the lower-cased, space-joined text of its truthy searchable fields.
 */
module Search {
  import opened Text
  import opened Json
  import opened Records
  import Collections

  /** The fields a prediction contributes to the search text. */
  function PredictionFields(ps: seq<Prediction>): (r: seq<Value>)
    ensures forall j :: 0 <= j < |ps| ==>
      ps[j].source in r && Str(ps[j].market) in r && ps[j].pick in r && ps[j].notes in r
  {
    if |ps| == 0 then []
    else [ps[0].source, Str(ps[0].market), ps[0].pick, ps[0].notes] + PredictionFields(ps[1..])
  }

  /** Teams, location, kickoff, tags, notes, then each prediction's source, market, pick and notes. */
  function SearchFields(g: Game): seq<Value> {
    [g.homeTeam, g.awayTeam, g.location, g.kickoff] + g.tags + [g.notes] + PredictionFields(g.predictions)
  }

  /** `[...].filter(Boolean).join(' ').toLowerCase()`. */
  function Haystack(g: Game): string {
    Lower(Join(" ", Collections.MapSeq(ToString, KeepTruthy(SearchFields(g)))))
  }

  /** `filterGame(game, needle)`. */
  function FilterGame(g: Game, needle: string): (r: bool)
    ensures needle == "" ==> r
    ensures r && needle != "" ==> |needle| <= |Haystack(g)|
  {
    needle == "" || Contains(Haystack(g), needle)
  }

  /** The search box's text as `filterGame` receives it: trimmed and lower-cased. */
  function Needle(input: string): string {
    Lower(Trim(input))
  }

  /** An empty search keeps every game. */
  lemma FilterEmptyNeedle(g: Game)
    ensures FilterGame(g, "")
  {
  }

  /** A needle found in the lower-cased text of any truthy searchable field matches. */
  lemma FilterFindsField(g: Game, f: Value, needle: string)
    requires f in SearchFields(g) && Truthy(f)
    requires Contains(Lower(ToString(f)), needle)
    ensures FilterGame(g, needle)
  {
    var kept := KeepTruthy(SearchFields(g));
    var parts := Collections.MapSeq(ToString, kept);
    KeepTruthyMember(SearchFields(g), f);
    var k :| 0 <= k < |kept| && kept[k] == f;
    JoinContainsPart(" ", parts, k);
    ContainsLower(Join(" ", parts), parts[k]);
    ContainsTransitive(Haystack(g), Lower(ToString(f)), needle);
  }

  /** Searching is case-insensitive: text typed in any casing finds a field that contains it. */
  lemma FilterIgnoresCase(g: Game, f: Value, input: string)
    requires f in SearchFields(g) && Truthy(f)
    requires Contains(ToString(f), Trim(input))
    ensures FilterGame(g, Needle(input))
  {
    ContainsLower(ToString(f), Trim(input));
    FilterFindsField(g, f, Needle(input));
  }

  /**
   * Conversely a non-empty needle without a space matches only if it occurs in
   * the lower-cased text of one truthy searchable field.
   */
  lemma FilterOnlyInField(g: Game, needle: string)
    requires needle != "" && ' ' !in needle
    requires FilterGame(g, needle)
    ensures exists f :: f in SearchFields(g) && Truthy(f) && Contains(Lower(ToString(f)), needle)
  {
    var kept := KeepTruthy(SearchFields(g));
    var parts := Collections.MapSeq(ToString, kept);
    var lowered := seq(|parts|, i requires 0 <= i < |parts| => Lower(parts[i]));
    assert " " == [' '];
    LowerJoin(' ', parts);
    JoinContainsOnlyInPart(' ', lowered, needle);
    var k :| 0 <= k < |lowered| && Contains(lowered[k], needle);
    KeepTruthyMember(SearchFields(g), kept[k]);
  }
}
