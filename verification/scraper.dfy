/** The loop body of `parse_page`: the leaflet record of one
    `.brochure-thumb` tile, each field resolved by its own fallback chain. A
    tile is given as the optional text and attributes its CSS selectors reach,
    and the run's timestamp is a parameter. */
module Scraper {
  import opened Wrappers
  import opened Text
  import opened Dates
  import opened Validity

  /** The `img` inside `.img-container`, with its optional attributes. */
  datatype ImageNode = ImageNode(src: Option<string>, dataSrc: Option<string>)

  /** The `img` inside `.grid-logo`; its `alt` may be missing. */
  datatype LogoNode = LogoNode(alt: Option<string>)

  /** One tile: the `strong` text of its content area, its image and logo
      nodes, and the text of its `small.hidden-sm` and `small.visible-sm`
      nodes. `None` is a selector that found nothing. */
  datatype Tile = Tile(
    strong: Option<string>,
    image: Option<ImageNode>,
    logo: Option<LogoNode>,
    hiddenSmall: Option<string>,
    visibleSmall: Option<string>)

  /** The six-key record `parse_page` appends for a tile. */
  datatype Leaflet = Leaflet(
    title: string,
    thumbnail: string,
    shopName: string,
    validFrom: string,
    validTo: string,
    parsedTime: string)

  const LogoPrefix: string := "Logo "

  /** Python truthiness of an optional attribute: present and non-empty. */
  predicate Truthy(a: Option<string>) {
    a.Some? && a.value != ""
  }

  /** A logo node that lacks `alt`: indexing `["alt"]` raises. */
  predicate LacksAlt(t: Tile) {
    t.logo.Some? && t.logo.value.alt.None?
  }

  /** The title: the `strong` text, even an empty one, or "Unknown" when the
      node is absent. */
  function Title(t: Tile): (r: string)
    ensures t.strong.Some? ==> r == t.strong.value
    ensures t.strong.None? ==> r == Unknown
  {
    match t.strong
    case Some(text) => text
    case None => Unknown
  }

  /** The thumbnail: `(src or data-src) if img else ""`. */
  function Thumbnail(t: Tile): (r: string)
    ensures r == "" <==> t.image.None? || (!Truthy(t.image.value.src) && !Truthy(t.image.value.dataSrc))
    ensures t.image.Some? && Truthy(t.image.value.src) ==> r == t.image.value.src.value
    ensures t.image.Some? && !Truthy(t.image.value.src) && t.image.value.dataSrc.Some? ==> r == t.image.value.dataSrc.value
  {
    match t.image
    case None => ""
    case Some(img) => if Truthy(img.src) then img.src.value else img.dataSrc.GetOr("")
  }

  /** The shop name: the logo's `alt` with every `"Logo "` removed, or
      "Unknown" without a logo node; `None` is the `KeyError` of a logo node
      without `alt`. */
  function ShopName(t: Tile): (r: Option<string>)
    ensures r.None? <==> LacksAlt(t)
    ensures t.logo.None? ==> r == Some(Unknown)
  {
    match t.logo
    case None => Some(Unknown)
    case Some(logo) =>
      match logo.alt
      case None => None
      case Some(alt) => Some(ReplaceAll(alt, LogoPrefix, ""))
  }

  /** The date text: the `hidden-sm` node wins whenever it exists, even with
      empty text; then the `visible-sm` node; then the empty string. */
  function DateText(t: Tile): (r: string)
    ensures t.hiddenSmall.Some? ==> r == t.hiddenSmall.value
    ensures t.hiddenSmall.None? && t.visibleSmall.Some? ==> r == t.visibleSmall.value
    ensures t.hiddenSmall.None? && t.visibleSmall.None? ==> r == ""
  {
    match t.hiddenSmall
    case Some(text) => text
    case None => t.visibleSmall.GetOr("")
  }

  /** The record for one tile, stamped with the run's time `now`; `None` when
      the tile raises. */
  function BuildLeaflet(t: Tile, now: string): (r: Option<Leaflet>)
    ensures r.None? <==> LacksAlt(t)
    ensures r.Some? ==> r.value.parsedTime == now
  {
    match ShopName(t)
    case None => None
    case Some(shop) =>
      var period := ClassifyValidity(DateText(t));
      Some(Leaflet(Title(t), Thumbnail(t), shop, period.validFrom, period.validTo, now))
  }

  // ---------------------------------------------------------------------------
  // Shop name: `str.replace` removes every occurrence in one pass

  /** An `alt` without `"Logo "` is kept as it is. */
  lemma ShopNameKeepsPlainAlt(t: Tile, alt: string)
    requires t.logo == Some(LogoNode(Some(alt))) && !Contains(alt, LogoPrefix)
    ensures ShopName(t) == Some(alt)
  {
    ReplaceAllAbsent(alt, LogoPrefix, "");
  }

  /** A lone `"Logo "` is cut out wherever it stands, when no other
      occurrence starts before it or follows it. */
  lemma ShopNameDropsOneLogo(t: Tile, a: string, b: string)
    requires t.logo == Some(LogoNode(Some(a + LogoPrefix + b)))
    requires !Contains(a + "Logo", LogoPrefix) && !Contains(b, LogoPrefix)
    ensures ShopName(t) == Some(a + b)
  {
    assert LogoPrefix[..|LogoPrefix| - 1] == "Logo";
    ReplaceAllOnce(a, LogoPrefix, b, "");
    assert a + "" + b == a + b;
  }

  /** The usual shape: `"Logo " + shop` names the shop. */
  lemma ShopNameStripsLeadingLogo(t: Tile, shop: string)
    requires t.logo == Some(LogoNode(Some(LogoPrefix + shop))) && !Contains(shop, LogoPrefix)
    ensures ShopName(t) == Some(shop)
  {
    assert !Contains("Logo", LogoPrefix);
    assert "" + "Logo" == "Logo" && "" + LogoPrefix + shop == LogoPrefix + shop;
    ShopNameDropsOneLogo(t, "", shop);
    assert "" + shop == shop;
  }

  /** The name is five characters shorter than `alt` for each occurrence
      removed, one fewer than the pieces `alt` splits into. */
  lemma ShopNameLength(t: Tile, alt: string)
    requires t.logo == Some(LogoNode(Some(alt)))
    ensures |ShopName(t).value| == |alt| - |LogoPrefix| * (|Split(alt, LogoPrefix)| - 1)
  {
    ReplaceAllLength(alt, LogoPrefix, "");
  }

  /** Every occurrence goes, not just the first: two disjoint occurrences
      take at least ten characters out. */
  lemma ShopNameRemovesEveryLogo(t: Tile, alt: string, i: nat, j: nat)
    requires t.logo == Some(LogoNode(Some(alt)))
    requires OccursAt(alt, LogoPrefix, i) && OccursAt(alt, LogoPrefix, j) && i + |LogoPrefix| <= j
    ensures |ShopName(t).value| <= |alt| - 2 * |LogoPrefix|
  {
    SplitTwoOccurrences(alt, LogoPrefix, i, j);
    ShopNameLength(t, alt);
  }

  // ---------------------------------------------------------------------------
  // Records: defaults and where each field comes from

  /** A tile where no selector finds anything still yields a full record of
      defaults. */
  lemma BareTileDefaults(t: Tile, now: string)
    requires t == Tile(None, None, None, None, None)
    ensures BuildLeaflet(t, now) == Some(Leaflet(Unknown, "", Unknown, Unknown, Unknown, now))
  {
    NoDateFound("");
  }

  /** Each field of a record is its default or was read from the tile: the
      strong text, an image attribute, a date token found in the date text. */
  lemma LeafletProvenance(t: Tile, now: string)
    requires BuildLeaflet(t, now).Some?
    ensures var l := BuildLeaflet(t, now).value;
      (l.title == Unknown || t.strong == Some(l.title))
      && (l.thumbnail == "" || (t.image.Some? && (t.image.value.src == Some(l.thumbnail) || t.image.value.dataSrc == Some(l.thumbnail))))
      && (t.logo.None? ==> l.shopName == Unknown)
      && (t.logo.Some? ==> l.shopName == ReplaceAll(t.logo.value.alt.value, LogoPrefix, ""))
      && (l.validFrom == Unknown || (IsDottedDate(l.validFrom) && Contains(DateText(t), l.validFrom)))
      && (l.validTo == Unknown || (IsDottedDate(l.validTo) && Contains(DateText(t), l.validTo)))
  {
  }

  /** An existing `hidden-sm` node decides the dates on its own, even when its
      text is empty: the `visible-sm` node is then never read. */
  lemma HiddenSmallShadowsVisible(t: Tile, now: string, visible: Option<string>)
    requires t.hiddenSmall.Some?
    ensures BuildLeaflet(t.(visibleSmall := visible), now) == BuildLeaflet(t, now)
  {
  }

  /** An empty `hidden-sm` text gives no dates, whatever `visible-sm` holds. */
  lemma EmptyHiddenSmallHidesDates(t: Tile, now: string)
    requires t.hiddenSmall == Some("") && !LacksAlt(t)
    ensures BuildLeaflet(t, now).value.validFrom == Unknown
    ensures BuildLeaflet(t, now).value.validTo == Unknown
  {
    NoDateFound("");
  }

  // ---------------------------------------------------------------------------
  // The record with normalized dates

  /** The record the comment above the date code describes: the same fields,
      with each matched date passed through `format_date`. */
  function CorrectedLeaflet(t: Tile, now: string): (r: Option<Leaflet>)
    ensures r.None? <==> LacksAlt(t)
    ensures r.Some? ==>
      (r.value.validFrom == Unknown || (IsIsoShaped(r.value.validFrom) && IsRealDate(DecodeIso(r.value.validFrom))))
    ensures r.Some? ==>
      (r.value.validTo == Unknown || (IsIsoShaped(r.value.validTo) && IsRealDate(DecodeIso(r.value.validTo))))
  {
    match BuildLeaflet(t, now)
    case None => None
    case Some(l) =>
      var v := NormalizedValidity(DateText(t));
      Some(l.(validFrom := v.validFrom, validTo := v.validTo))
  }

  /** Only the two dates differ from the record as written, and a date
      range of real dates comes out in ISO form from the same digits. */
  lemma CorrectedLeafletDates(t: Tile, now: string, i: nat)
    requires !LacksAlt(t)
    requires RangeAt(DateText(t), i) && forall q :: 0 <= q < i ==> !RangeAt(DateText(t), q)
    requires IsRealDate(DottedDate(DateText(t)[i..i + 10])) && IsRealDate(DottedDate(DateText(t)[i + 13..i + 23]))
    ensures CorrectedLeaflet(t, now).value == BuildLeaflet(t, now).value.(
      validFrom := Rearranged(DateText(t)[i..i + 10]),
      validTo := Rearranged(DateText(t)[i + 13..i + 23]))
  {
    NormalizedRange(DateText(t), i);
  }
}
