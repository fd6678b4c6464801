/**
 * The market-label canonicaliser: free-text market labels are mapped onto the
 * fixed table of canonical markets by case-insensitive alias, and the display
 * metadata of a label is looked up after canonicalising it again.
 */
module Markets {
  import opened Wrappers
  import opened Text
  import opened Json

  /** One row of the fixed market table: its aliases, canonical label, icon and description. */
  datatype Preset = Preset(labels: seq<string>, value: string, icon: string, description: string)

  const MarketPresets: seq<Preset> := [
    Preset(["spread", "against the spread", "ats", "point spread"], "Spread",
           "\U{1F4CF}", "Against the spread selections"),
    Preset(["moneyline", "money line", "ml"], "Moneyline",
           "\U{1F4B0}", "Straight-up winners"),
    Preset(["total", "over/under", "o/u", "ou", "over under"], "Total",
           "\U{1F4CA}", "Game totals and tempo reads"),
    Preset(["player prop", "props", "prop"], "Player Prop",
           "\U{1F3AF}", "Individual player markets"),
    Preset(["team total"], "Team Total",
           "\U{1F3DF}\U{FE0F}", "Team scoring outlooks")
  ]

  /** The pseudo-market of predictions that name no market. */
  const GeneralPicks := "General Picks"

  datatype Meta = Meta(icon: string, description: string)

  const GeneralMeta := Meta("\U{1F9E0}", "Mixed markets or unspecified angles")
  const CustomMeta := Meta("\U{1F4CC}", "")

  /** Index of the first preset, at or after `k`, that lists `alias`. */
  function AliasIndexFrom(alias: string, k: nat): (r: Option<nat>)
    requires k <= |MarketPresets|
    decreases |MarketPresets| - k
    ensures r.Some? ==> k <= r.value < |MarketPresets| && alias in MarketPresets[r.value].labels
    ensures r.Some? ==> forall j :: k <= j < r.value ==> alias !in MarketPresets[j].labels
    ensures r.None? <==> forall j :: k <= j < |MarketPresets| ==> alias !in MarketPresets[j].labels
  {
    if k == |MarketPresets| then None
    else if alias in MarketPresets[k].labels then Some(k)
    else AliasIndexFrom(alias, k + 1)
  }

  function AliasIndex(alias: string): Option<nat> {
    AliasIndexFrom(alias, 0)
  }

  /** Index of the first preset, at or after `k`, whose canonical label is `value`. */
  function ValueIndexFrom(value: string, k: nat): (r: Option<nat>)
    requires k <= |MarketPresets|
    decreases |MarketPresets| - k
    ensures r.Some? ==> k <= r.value < |MarketPresets| && MarketPresets[r.value].value == value
    ensures r.None? <==> forall j :: k <= j < |MarketPresets| ==> MarketPresets[j].value != value
  {
    if k == |MarketPresets| then None
    else if MarketPresets[k].value == value then Some(k)
    else ValueIndexFrom(value, k + 1)
  }

  /** `formatMarketLabel(input)`. */
  function FormatMarketLabel(input: Value): (r: string)
    ensures r != ""
  {
    if !Truthy(input) then GeneralPicks
    else
      var raw := Trim(ToString(input));
      if raw == "" then GeneralPicks
      else
        match AliasIndex(Lower(raw))
        case Some(k) => PresetValuesNonEmpty(); MarketPresets[k].value
        case None => raw
  }

  /** `getMarketMeta(market)`: it canonicalises `market` itself before the table lookup. */
  function MarketMeta(market: Value): (r: Meta)
    ensures !Truthy(market) ==> r == GeneralMeta
    ensures r == GeneralMeta || r == CustomMeta
      || exists k :: 0 <= k < |MarketPresets| && r == Meta(MarketPresets[k].icon, MarketPresets[k].description)
  {
    var normalized := FormatMarketLabel(market);
    if !Truthy(market) || normalized == GeneralPicks then GeneralMeta
    else
      match ValueIndexFrom(normalized, 0)
      case Some(k) => Meta(MarketPresets[k].icon, MarketPresets[k].description)
      case None => CustomMeta
  }

  // Facts about the constant table.

  /** Every canonical label is non-empty. */
  lemma PresetValuesNonEmpty()
    ensures forall k :: 0 <= k < |MarketPresets| ==> MarketPresets[k].value != ""
  {
  }

  /** No alias is listed by two presets. */
  lemma AliasesDisjoint()
    ensures forall i, j, a :: 0 <= i < j < |MarketPresets| && a in MarketPresets[i].labels
              ==> a !in MarketPresets[j].labels
  {
  }

  predicate NormalAlias(a: string) {
    a != "" && Trimmed(a) && Lower(a) == a
  }

  lemma SpreadAliasesNormal()
    ensures forall a :: a in MarketPresets[0].labels ==> NormalAlias(a)
  {
    assert NormalAlias("spread") && NormalAlias("against the spread");
    assert NormalAlias("ats") && NormalAlias("point spread");
  }

  lemma MoneylineAliasesNormal()
    ensures forall a :: a in MarketPresets[1].labels ==> NormalAlias(a)
  {
    assert NormalAlias("moneyline") && NormalAlias("money line") && NormalAlias("ml");
  }

  lemma TotalAliasesNormal()
    ensures forall a :: a in MarketPresets[2].labels ==> NormalAlias(a)
  {
    assert NormalAlias("total") && NormalAlias("over/under") && NormalAlias("o/u");
    assert NormalAlias("ou") && NormalAlias("over under");
  }

  lemma PropAliasesNormal()
    ensures forall a :: a in MarketPresets[3].labels ==> NormalAlias(a)
  {
    assert NormalAlias("player prop") && NormalAlias("props") && NormalAlias("prop");
  }

  lemma TeamTotalAliasesNormal()
    ensures forall a :: a in MarketPresets[4].labels ==> NormalAlias(a)
  {
    assert NormalAlias("team total");
  }

  /** Every alias is non-empty, lower-case and without surrounding white space. */
  lemma AliasesNormal(k: nat, a: string)
    requires k < |MarketPresets| && a in MarketPresets[k].labels
    ensures NormalAlias(a)
  {
    SpreadAliasesNormal();
    MoneylineAliasesNormal();
    TotalAliasesNormal();
    PropAliasesNormal();
    TeamTotalAliasesNormal();
  }

  lemma ValuesTrimmed(k: nat)
    requires k < |MarketPresets|
    ensures Trimmed(MarketPresets[k].value) && MarketPresets[k].value != ""
  {
  }

  /** The lower-case form of each canonical label is its preset's first alias. */
  lemma LowerValue(k: nat)
    requires k < |MarketPresets|
    ensures Lower(MarketPresets[k].value) == MarketPresets[k].labels[0]
  {
    if k == 0 {
      assert Lower("Spread") == "spread";
    } else if k == 1 {
      assert Lower("Moneyline") == "moneyline";
    } else if k == 2 {
      assert Lower("Total") == "total";
    } else if k == 3 {
      assert Lower("Player Prop") == "player prop";
    } else {
      assert Lower("Team Total") == "team total";
    }
  }

  /** Each canonical label, lower-cased, is an alias of its own preset. */
  lemma ValueIsOwnAlias(k: nat)
    requires k < |MarketPresets|
    ensures Trimmed(MarketPresets[k].value) && MarketPresets[k].value != ""
    ensures Lower(MarketPresets[k].value) in MarketPresets[k].labels
  {
    ValuesTrimmed(k);
    LowerValue(k);
  }

  lemma GeneralPicksIsNoAlias()
    ensures Trimmed(GeneralPicks)
    ensures AliasIndex(Lower(GeneralPicks)).None?
    ensures ValueIndexFrom(GeneralPicks, 0).None?
  {
  }

  lemma ValuesDistinct()
    ensures forall i, j :: 0 <= i < j < |MarketPresets| ==> MarketPresets[i].value != MarketPresets[j].value
    ensures forall i :: 0 <= i < |MarketPresets| ==> MarketPresets[i].value != GeneralPicks
  {
  }

  /** The alias search finds exactly the preset that lists the alias. */
  lemma AliasIndexOf(k: nat, alias: string)
    requires k < |MarketPresets| && alias in MarketPresets[k].labels
    ensures AliasIndex(alias) == Some(k)
  {
    AliasesDisjoint();
  }

  lemma ValueIndexOf(k: nat)
    requires k < |MarketPresets|
    ensures ValueIndexFrom(MarketPresets[k].value, 0) == Some(k)
  {
    ValuesDistinct();
  }

  // Properties of the canonicaliser.

  /** A missing or falsy label, or one made only of white space, canonicalises to General Picks. */
  lemma FormatBlank(input: Value)
    requires !Truthy(input) || (input.Str? && AllSpace(input.s))
    ensures FormatMarketLabel(input) == GeneralPicks
  {
    if Truthy(input) {
      TrimEmptyIff(input.s);
    }
  }

  /** Any alias, in any letter case and with any surrounding white space, canonicalises to its preset's label. */
  lemma FormatAlias(k: nat, alias: string, v: string, p: string, q: string)
    requires k < |MarketPresets| && alias in MarketPresets[k].labels
    requires Lower(v) == alias && AllSpace(p) && AllSpace(q)
    ensures FormatMarketLabel(Str(p + v + q)) == MarketPresets[k].value
  {
    AliasesNormal(k, alias);
    LowerCharSpace(v[0]);
    LowerCharSpace(v[|v| - 1]);
    assert Trimmed(v);
    TrimPadded(p, v, q);
    AliasIndexOf(k, alias);
    CanonicalOfRaw(Str(p + v + q), v, k);
  }

  /** How a label whose trimmed text is `raw`, with `raw` an alias spelling of preset `k`, canonicalises. */
  lemma CanonicalOfRaw(input: Value, raw: string, k: nat)
    requires input.Str? && Trim(input.s) == raw && raw != ""
    requires k < |MarketPresets| && AliasIndex(Lower(raw)) == Some(k)
    ensures FormatMarketLabel(input) == MarketPresets[k].value
  {
    assert Truthy(input);
    assert Trim(ToString(input)) == raw;
  }

  /** How a label whose trimmed text `raw` matches no alias canonicalises. */
  lemma PassThroughOfRaw(input: Value, raw: string)
    requires input.Str? && Trim(input.s) == raw && raw != ""
    requires AliasIndex(Lower(raw)).None?
    ensures FormatMarketLabel(input) == raw
  {
    assert Truthy(input);
    assert Trim(ToString(input)) == raw;
  }

  /** A non-blank label that matches no alias is returned trimmed and otherwise as it was written. */
  lemma FormatPassThrough(s: string)
    requires Trim(s) != ""
    requires forall k :: 0 <= k < |MarketPresets| ==> Lower(Trim(s)) !in MarketPresets[k].labels
    ensures FormatMarketLabel(Str(s)) == Trim(s)
  {
    PassThroughOfRaw(Str(s), Trim(s));
  }

  /** The three outcomes of canonicalisation: General Picks, a preset's label, or the trimmed text. */
  lemma FormatCases(input: Value)
    ensures var raw := Trim(ToString(input));
      || (FormatMarketLabel(input) == GeneralPicks && (!Truthy(input) || raw == ""))
      || (Truthy(input) && raw != "" && AliasIndex(Lower(raw)).Some?
          && FormatMarketLabel(input) == MarketPresets[AliasIndex(Lower(raw)).value].value)
      || (Truthy(input) && raw != "" && AliasIndex(Lower(raw)).None? && FormatMarketLabel(input) == raw)
  {
  }

  lemma GeneralPicksFixed()
    ensures FormatMarketLabel(Str(GeneralPicks)) == GeneralPicks
  {
    GeneralPicksIsNoAlias();
    TrimOfTrimmed(GeneralPicks);
    PassThroughOfRaw(Str(GeneralPicks), GeneralPicks);
  }

  lemma PresetValueFixed(k: nat)
    requires k < |MarketPresets|
    ensures FormatMarketLabel(Str(MarketPresets[k].value)) == MarketPresets[k].value
  {
    var n := MarketPresets[k].value;
    ValueIsOwnAlias(k);
    AliasIndexOf(k, Lower(n));
    TrimOfTrimmed(n);
    CanonicalOfRaw(Str(n), n, k);
  }

  lemma PassThroughFixed(t: string)
    requires Trim(t) != "" && AliasIndex(Lower(Trim(t))).None?
    ensures FormatMarketLabel(Str(Trim(t))) == Trim(t)
  {
    TrimIdempotent(t);
    PassThroughOfRaw(Str(Trim(t)), Trim(t));
  }

  /** Every canonical label is non-empty and is its own canonical form. */
  lemma FormatIdempotent(input: Value)
    ensures FormatMarketLabel(input) != ""
    ensures FormatMarketLabel(Str(FormatMarketLabel(input))) == FormatMarketLabel(input)
  {
    FormatCases(input);
    var raw := Trim(ToString(input));
    if !Truthy(input) || raw == "" {
      GeneralPicksFixed();
    } else if AliasIndex(Lower(raw)).Some? {
      PresetValueFixed(AliasIndex(Lower(raw)).value);
      ValueIsOwnAlias(AliasIndex(Lower(raw)).value);
    } else {
      PassThroughFixed(ToString(input));
    }
  }

  /** The metadata of a label is the metadata of its canonical form, so callers may pass either. */
  lemma MetaOfCanonical(input: Value)
    ensures MarketMeta(Str(FormatMarketLabel(input))) == MarketMeta(input)
  {
    FormatIdempotent(input);
  }

  /** Any spelling of an alias gets its preset's icon and description. */
  lemma MetaOfAlias(k: nat, alias: string, v: string, p: string, q: string)
    requires k < |MarketPresets| && alias in MarketPresets[k].labels
    requires Lower(v) == alias && AllSpace(p) && AllSpace(q)
    ensures MarketMeta(Str(p + v + q)) == Meta(MarketPresets[k].icon, MarketPresets[k].description)
  {
    FormatAlias(k, alias, v, p, q);
    ValuesDistinct();
    ValueIndexOf(k);
    AliasesNormal(k, alias);
  }

  /** A label that canonicalises to no preset and is not General Picks gets the generic pin and no description. */
  lemma MetaOfCustom(input: Value)
    requires Truthy(input)
    requires FormatMarketLabel(input) != GeneralPicks
    requires forall k :: 0 <= k < |MarketPresets| ==> FormatMarketLabel(input) != MarketPresets[k].value
    ensures MarketMeta(input) == CustomMeta
  {
  }
}
