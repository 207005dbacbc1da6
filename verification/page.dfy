/** `parse_page` after HTML parsing: the tiles in document order, each turned
    into a record appended to the list, all stamped with the one timestamp
    taken before the loop. The first tile whose logo lacks `alt` raises and
    aborts the whole page. */
module Page {
  import opened Wrappers
  import opened Scraper

  /** The `KeyError` raised for a logo node without `alt`, with the index of
      the tile that raised it. */
  datatype PageError = MissingLogoAlt(tile: nat)

  type PageResult = Result<seq<Leaflet>, PageError>

  /** What the loop body yields for each tile, in order: a record, or `None`
      for a tile that raises. */
  function Builds(tiles: seq<Tile>, now: string): (b: seq<Option<Leaflet>>)
    ensures |b| == |tiles|
    ensures forall k :: 0 <= k < |tiles| ==> b[k] == BuildLeaflet(tiles[k], now)
  {
    seq(|tiles|, k requires 0 <= k < |tiles| => BuildLeaflet(tiles[k], now))
  }

  /** The loop over what the tiles yield: records are appended in order and
      the first raising tile ends the loop with its index. */
  function Collect(built: seq<Option<Leaflet>>): (r: PageResult)
    ensures r.Success? ==> |r.value| == |built|
    ensures r.Failure? ==> r.error.tile < |built|
    decreases |built|
  {
    if |built| == 0 then Success([])
    else
      var last := |built| - 1;
      Extend(Collect(built[..last]), built[last], last)
  }

  /** One turn of the loop, for the tile at `index`: an earlier error stands;
      otherwise the tile's record is appended, or the tile raises. */
  function Extend(prev: PageResult, built: Option<Leaflet>, index: nat): PageResult {
    match prev
    case Failure(e) => Failure(e)
    case Success(done) =>
      match built
      case None => Failure(MissingLogoAlt(index))
      case Some(l) => Success(done + [l])
  }

  function ParsePage(tiles: seq<Tile>, now: string): (r: PageResult)
    ensures r.Success? ==> |r.value| == |tiles|
    ensures r.Failure? ==> r.error.tile < |tiles|
  {
    Collect(Builds(tiles, now))
  }

  // ---------------------------------------------------------------------------
  // The loop

  lemma CollectSnoc(init: seq<Option<Leaflet>>, b: Option<Leaflet>)
    ensures Collect(init + [b]) == Extend(Collect(init), b, |init|)
  {
    assert (init + [b])[..|init|] == init;
  }

  /** The loop succeeds exactly when every tile yields a record, and then
      holds those records in order. */
  lemma {:induction false} CollectRecords(built: seq<Option<Leaflet>>)
    ensures Collect(built).Success? <==> forall k :: 0 <= k < |built| ==> built[k].Some?
    ensures Collect(built).Success? ==> forall k :: 0 <= k < |built| ==> built[k] == Some(Collect(built).value[k])
    decreases |built|
  {
    if |built| > 0 {
      var last := |built| - 1;
      var init := built[..last];
      assert built == init + [built[last]];
      CollectRecords(init);
      CollectSnoc(init, built[last]);
    }
  }

  /** The error names the first tile that raises. */
  lemma {:induction false} CollectFirstError(built: seq<Option<Leaflet>>)
    ensures Collect(built).Failure? ==>
      var e := Collect(built).error.tile;
      built[e].None? && forall k :: 0 <= k < e ==> built[k].Some?
    decreases |built|
  {
    if |built| > 0 {
      var last := |built| - 1;
      var init := built[..last];
      assert built == init + [built[last]];
      CollectFirstError(init);
      CollectRecords(init);
      CollectSnoc(init, built[last]);
    }
  }

  /** The result of a page made of two runs of tiles, from the results of
      the runs: an error in the first run stands, an error in the second is
      moved past the first run's `offset` tiles, and records concatenate. */
  function Concat(first: PageResult, second: PageResult, offset: nat): PageResult {
    match first
    case Failure(e) => Failure(e)
    case Success(a) =>
      match second
      case Failure(e) => Failure(MissingLogoAlt(offset + e.tile))
      case Success(b) => Success(a + b)
  }

  /** One more turn of the loop commutes with joining the result of an
      earlier run in front. */
  lemma ConcatExtend(first: PageResult, prev: PageResult, b: Option<Leaflet>, offset: nat, index: nat)
    ensures Extend(Concat(first, prev, offset), b, offset + index)
         == Concat(first, Extend(prev, b, index), offset)
  {
    if first.Success? && prev.Success? && b.Some? {
      assert first.value + (prev.value + [b.value]) == (first.value + prev.value) + [b.value];
    }
  }

  lemma {:induction false} CollectAppend(xs: seq<Option<Leaflet>>, ys: seq<Option<Leaflet>>)
    ensures Collect(xs + ys) == Concat(Collect(xs), Collect(ys), |xs|)
    decreases |ys|
  {
    if |ys| == 0 {
      assert xs + ys == xs;
      if Collect(xs).Success? {
        assert Collect(xs).value + [] == Collect(xs).value;
      }
    } else {
      var init, y := ys[..|ys| - 1], ys[|ys| - 1];
      assert ys == init + [y] && xs + ys == (xs + init) + [y];
      CollectAppend(xs, init);
      CollectSnoc(xs + init, y);
      CollectSnoc(init, y);
      ConcatExtend(Collect(xs), Collect(init), y, |xs|, |init|);
    }
  }

  // ---------------------------------------------------------------------------
  // The page

  /** The page parses exactly when no tile's logo lacks `alt`, and then the
      record at each position is the one built from the tile there. */
  lemma ParsePageRecords(tiles: seq<Tile>, now: string)
    ensures ParsePage(tiles, now).Success? <==> forall k :: 0 <= k < |tiles| ==> !LacksAlt(tiles[k])
    ensures ParsePage(tiles, now).Success? ==>
      forall k :: 0 <= k < |tiles| ==> BuildLeaflet(tiles[k], now) == Some(ParsePage(tiles, now).value[k])
  {
    CollectRecords(Builds(tiles, now));
  }

  /** The error names the first tile whose logo lacks `alt`. */
  lemma ParsePageFirstError(tiles: seq<Tile>, now: string)
    ensures ParsePage(tiles, now).Failure? ==>
      var e := ParsePage(tiles, now).error.tile;
      LacksAlt(tiles[e]) && forall k :: 0 <= k < e ==> !LacksAlt(tiles[k])
  {
    CollectFirstError(Builds(tiles, now));
  }

  /** Every record carries the one timestamp taken before the loop. */
  lemma ParsePageSharedTime(tiles: seq<Tile>, now: string)
    ensures ParsePage(tiles, now).Success? ==>
      forall k :: 0 <= k < |tiles| ==> ParsePage(tiles, now).value[k].parsedTime == now
  {
    ParsePageRecords(tiles, now);
  }

  /** One tile alone gives its own record, or the error at index 0. */
  lemma ParsePageSingle(t: Tile, now: string)
    ensures ParsePage([t], now) == match BuildLeaflet(t, now)
      case Some(l) => Success([l])
      case None => Failure(MissingLogoAlt(0))
  {
    var b := BuildLeaflet(t, now);
    assert Builds([t], now) == [b] == [] + [b];
    CollectSnoc([], b);
    assert Collect([]) == Success([]);
    if b.Some? {
      assert [] + [b.value] == [b.value];
    }
  }

  /** Parsing two runs of tiles one after the other is parsing their
      concatenation. */
  lemma ParsePageAppend(xs: seq<Tile>, ys: seq<Tile>, now: string)
    ensures ParsePage(xs + ys, now) == Concat(ParsePage(xs, now), ParsePage(ys, now), |xs|)
  {
    assert Builds(xs + ys, now) == Builds(xs, now) + Builds(ys, now);
    CollectAppend(Builds(xs, now), Builds(ys, now));
  }

  /** Running the parse again at another time gives the same records apart
      from `parsedTime`, or the same error. */
  lemma ParsePageRerun(tiles: seq<Tile>, now: string, later: string)
    ensures ParsePage(tiles, now).Success? <==> ParsePage(tiles, later).Success?
    ensures ParsePage(tiles, now).Success? ==>
      forall k :: 0 <= k < |tiles| ==>
        ParsePage(tiles, later).value[k] == ParsePage(tiles, now).value[k].(parsedTime := later)
    ensures ParsePage(tiles, now).Failure? ==> ParsePage(tiles, later) == ParsePage(tiles, now)
  {
    ParsePageRecords(tiles, now);
    ParsePageRecords(tiles, later);
    var r, s := ParsePage(tiles, now), ParsePage(tiles, later);
    if r.Success? {
      forall k | 0 <= k < |tiles| ensures s.value[k] == r.value[k].(parsedTime := later) {
        BuildLeafletRerun(tiles[k], now, later);
      }
    } else {
      ParsePageFirstError(tiles, now);
      ParsePageFirstError(tiles, later);
      var e, f := r.error.tile, s.error.tile;
      assert !(e < f) && !(f < e);
    }
  }

  /** A tile's record does not depend on the time apart from `parsedTime`. */
  lemma BuildLeafletRerun(t: Tile, now: string, later: string)
    ensures BuildLeaflet(t, later) == match BuildLeaflet(t, now)
      case None => None
      case Some(l) => Some(l.(parsedTime := later))
  {
  }
}
