/**
 Tile addressing of `Pipeline.get_tile_names`: the truncated bounding box of a
 projected footprint is turned into easting indices (cells of 100 units) and
 northing indices (cells of 1000 units), every cell of the index rectangle is
 enumerated as an `"e-n"` key, and a file name is rendered with the template of
 one of three German states. As written, only the key left in the loop variable
 after the loop, the last cell, is rendered.
 */
module Tiles {
  import opened Wrappers
  import opened Text

  /** Bounding box of the reprojected footprint after `int()` truncation. */
  datatype BBox = BBox(minx: int, miny: int, maxx: int, maxy: int)

  /** Bounds as a geometry reports them: no minimum above its maximum. */
  type Bounds = b: BBox | b.minx <= b.maxx && b.miny <= b.maxy witness BBox(0, 0, 0, 0)

  /** A tile index pair (easting index, northing index). */
  datatype Cell = Cell(easting: int, northing: int)

  /** The index rectangle spanned by a bounding box, both ends inclusive. */
  datatype IndexRange = IndexRange(minE: int, maxE: int, minN: int, maxN: int)

  const EastingCellSize: int := 100
  const NorthingCellSize: int := 1000

  /** `int(x) // 100`: the 100-unit easting cell holding `x` (Python floors, as does Dafny for a positive divisor). */
  function EastingIndex(x: int): (e: int)
    ensures EastingCellSize * e <= x < EastingCellSize * e + EastingCellSize
  {
    x / EastingCellSize
  }

  /** `int(y) // 1000`: the 1000-unit northing cell holding `y`. */
  function NorthingIndex(y: int): (n: int)
    ensures NorthingCellSize * n <= y < NorthingCellSize * n + NorthingCellSize
  {
    y / NorthingCellSize
  }

  function Range(b: Bounds): (r: IndexRange)
    ensures r.minE <= r.maxE && r.minN <= r.maxN
  {
    IndexRange(EastingIndex(b.minx), EastingIndex(b.maxx), NorthingIndex(b.miny), NorthingIndex(b.maxy))
  }

  predicate InRange(r: IndexRange, c: Cell) {
    r.minE <= c.easting <= r.maxE && r.minN <= c.northing <= r.maxN
  }

  /** The 100 x 1000 cell `c` shares at least one integer point with the box. */
  predicate MeetsBox(b: Bounds, c: Cell) {
    && EastingCellSize * c.easting <= b.maxx && b.minx < EastingCellSize * c.easting + EastingCellSize
    && NorthingCellSize * c.northing <= b.maxy && b.miny < NorthingCellSize * c.northing + NorthingCellSize
  }

  /** The index rectangle holds exactly the grid cells the bounding box touches. */
  lemma RangeIsTouchedCells(b: Bounds, c: Cell)
    ensures InRange(Range(b), c) <==> MeetsBox(b, c)
  {
  }

  /** Cells `(e, minN) .. (e, maxN)`, ascending. */
  function Column(e: int, minN: int, maxN: int): seq<Cell>
    decreases maxN - minN
  {
    if maxN < minN then [] else Column(e, minN, maxN - 1) + [Cell(e, maxN)]
  }

  /** The nested `range` loops of the source: easting outer, northing inner, both ascending. */
  function Grid(minE: int, maxE: int, minN: int, maxN: int): seq<Cell>
    decreases maxE - minE
  {
    if maxE < minE then [] else Grid(minE, maxE - 1, minN, maxN) + Column(maxE, minN, maxN)
  }

  function GridOf(r: IndexRange): seq<Cell> {
    Grid(r.minE, r.maxE, r.minN, r.maxN)
  }

  /** Easting-major lexicographic order on cells. */
  predicate Before(c: Cell, d: Cell) {
    c.easting < d.easting || (c.easting == d.easting && c.northing < d.northing)
  }

  lemma {:induction false} ColumnElements(e: int, minN: int, maxN: int)
    requires minN <= maxN + 1
    ensures |Column(e, minN, maxN)| == maxN - minN + 1
    ensures forall i :: 0 <= i < |Column(e, minN, maxN)| ==> Column(e, minN, maxN)[i] == Cell(e, minN + i)
    decreases maxN - minN
  {
    if minN <= maxN {
      ColumnElements(e, minN, maxN - 1);
    }
  }

  lemma {:induction false} GridLength(minE: int, maxE: int, minN: int, maxN: int)
    requires minE <= maxE + 1 && minN <= maxN + 1
    ensures |Grid(minE, maxE, minN, maxN)| == (maxE - minE + 1) * (maxN - minN + 1)
    decreases maxE - minE
  {
    if minE <= maxE {
      GridLength(minE, maxE - 1, minN, maxN);
      ColumnElements(maxE, minN, maxN);
      assert (maxE - minE + 1) * (maxN - minN + 1) == (maxE - 1 - minE + 1) * (maxN - minN + 1) + (maxN - minN + 1);
    }
  }

  lemma {:induction false} GridMembership(minE: int, maxE: int, minN: int, maxN: int, c: Cell)
    requires minN <= maxN + 1
    ensures c in Grid(minE, maxE, minN, maxN) <==> InRange(IndexRange(minE, maxE, minN, maxN), c)
    decreases maxE - minE
  {
    if minE <= maxE {
      GridMembership(minE, maxE - 1, minN, maxN, c);
      ColumnElements(maxE, minN, maxN);
      var col := Column(maxE, minN, maxN);
      if c.easting == maxE && minN <= c.northing <= maxN {
        assert col[c.northing - minN] == c;
      }
    }
  }

  lemma {:induction false} GridAscending(minE: int, maxE: int, minN: int, maxN: int)
    requires minN <= maxN + 1
    ensures forall i, j :: 0 <= i < j < |Grid(minE, maxE, minN, maxN)| ==>
      Before(Grid(minE, maxE, minN, maxN)[i], Grid(minE, maxE, minN, maxN)[j])
    decreases maxE - minE
  {
    if minE <= maxE {
      var front := Grid(minE, maxE - 1, minN, maxN);
      var col := Column(maxE, minN, maxN);
      var g := Grid(minE, maxE, minN, maxN);
      assert g == front + col;
      GridAscending(minE, maxE - 1, minN, maxN);
      ColumnElements(maxE, minN, maxN);
      forall i | 0 <= i < |front| ensures front[i].easting < maxE {
        GridMembership(minE, maxE - 1, minN, maxN, front[i]);
      }
      forall i, j | 0 <= i < j < |g| ensures Before(g[i], g[j]) {
        if j < |front| {
          assert g[i] == front[i] && g[j] == front[j];
        } else if i < |front| {
          assert g[i] == front[i] && g[j] == col[j - |front|];
        } else {
          assert g[i] == col[i - |front|] && g[j] == col[j - |front|];
        }
      }
    }
  }

  /** The last enumerated cell is the top corner of the index rectangle. */
  lemma GridLast(minE: int, maxE: int, minN: int, maxN: int)
    requires minE <= maxE && minN <= maxN
    ensures |Grid(minE, maxE, minN, maxN)| > 0
    ensures Grid(minE, maxE, minN, maxN)[|Grid(minE, maxE, minN, maxN)| - 1] == Cell(maxE, maxN)
  {
    ColumnElements(maxE, minN, maxN);
  }

  /** The enumeration lists every cell of the index rectangle exactly once,
      in strictly ascending easting-major order, ending at the top corner. */
  lemma GridIsRectangle(r: IndexRange)
    requires r.minE <= r.maxE && r.minN <= r.maxN
    ensures |GridOf(r)| == (r.maxE - r.minE + 1) * (r.maxN - r.minN + 1)
    ensures forall c :: c in GridOf(r) <==> InRange(r, c)
    ensures forall i, j :: 0 <= i < j < |GridOf(r)| ==> Before(GridOf(r)[i], GridOf(r)[j])
    ensures GridOf(r)[|GridOf(r)| - 1] == Cell(r.maxE, r.maxN)
  {
    GridLength(r.minE, r.maxE, r.minN, r.maxN);
    forall c ensures c in GridOf(r) <==> InRange(r, c) {
      GridMembership(r.minE, r.maxE, r.minN, r.maxN, c);
    }
    GridAscending(r.minE, r.maxE, r.minN, r.maxN);
    GridLast(r.minE, r.maxE, r.minN, r.maxN);
  }

  /** `f"{easting_index}-{northing_index}"`. */
  function CellKey(c: Cell): string {
    IntToString(c.easting) + "-" + IntToString(c.northing)
  }

  /** The keys of `cells`, position by position. */
  function Keys(cells: seq<Cell>): seq<string> {
    seq(|cells|, i requires 0 <= i < |cells| => CellKey(cells[i]))
  }

  lemma KeysAppend(cells: seq<Cell>, c: Cell)
    ensures Keys(cells + [c]) == Keys(cells) + [CellKey(c)]
  {
  }

  /** For non-negative indices `split('-')` recovers both decimal parts of a key. */
  lemma SplitCellKey(c: Cell)
    requires c.easting >= 0 && c.northing >= 0
    ensures Split(CellKey(c), '-') == [Decimal(c.easting), Decimal(c.northing)]
  {
    var a, b := Decimal(c.easting), Decimal(c.northing);
    NonDigitNotInDecimal(c.easting, '-');
    NonDigitNotInDecimal(c.northing, '-');
    SplitNoSeparator(b, '-');
    SplitConcat(a, '-', b);
  }

  /** Distinct non-negative cells have distinct keys. */
  lemma CellKeyInjective(c: Cell, d: Cell)
    requires c.easting >= 0 && c.northing >= 0 && d.easting >= 0 && d.northing >= 0
    requires CellKey(c) == CellKey(d)
    ensures c == d
  {
    SplitCellKey(c);
    SplitCellKey(d);
    DecimalInjective(c.easting, d.easting);
    DecimalInjective(c.northing, d.northing);
  }

  /** The nested loops of `get_tile_names`: `tileNames` is the list the source
      builds, `tileName` the loop variable as it stands after the loops. */
  method EnumerateTileKeys(r: IndexRange) returns (tileNames: seq<string>, tileName: string)
    requires r.minE <= r.maxE && r.minN <= r.maxN
    ensures tileNames == Keys(GridOf(r))
    ensures tileName == CellKey(Cell(r.maxE, r.maxN))
    ensures tileName == tileNames[|tileNames| - 1]
  {
    tileNames := [];
    tileName := "";
    var e := r.minE;
    while e <= r.maxE
      invariant r.minE <= e <= r.maxE + 1
      invariant tileNames == Keys(Grid(r.minE, e - 1, r.minN, r.maxN))
      invariant e > r.minE ==> tileName == CellKey(Cell(e - 1, r.maxN))
      decreases r.maxE - e
    {
      tileNames, tileName := AppendColumnKeys(r, e, tileNames);
      e := e + 1;
    }
    assert e - 1 == r.maxE;
    assert Grid(r.minE, e - 1, r.minN, r.maxN) == GridOf(r);
    GridLast(r.minE, r.maxE, r.minN, r.maxN);
  }

  /** The inner loop of `get_tile_names` for easting index `e`: the keys of the
      column `(e, minN) .. (e, maxN)` are appended to those of the columns before it. */
  method AppendColumnKeys(r: IndexRange, e: int, before: seq<string>) returns (tileNames: seq<string>, tileName: string)
    requires r.minE <= e <= r.maxE && r.minN <= r.maxN
    requires before == Keys(Grid(r.minE, e - 1, r.minN, r.maxN))
    ensures tileNames == Keys(Grid(r.minE, e, r.minN, r.maxN))
    ensures tileName == CellKey(Cell(e, r.maxN))
  {
    ghost var done := Grid(r.minE, e - 1, r.minN, r.maxN);
    tileNames := before;
    tileName := "";
    var n := r.minN;
    while n <= r.maxN
      invariant r.minN <= n <= r.maxN + 1
      invariant tileNames == Keys(done + Column(e, r.minN, n - 1))
      invariant n > r.minN ==> tileName == CellKey(Cell(e, n - 1))
      decreases r.maxN - n
    {
      tileName := CellKey(Cell(e, n));
      KeysAppend(done + Column(e, r.minN, n - 1), Cell(e, n));
      assert done + Column(e, r.minN, n - 1) + [Cell(e, n)] == done + Column(e, r.minN, n) by {
        assert Column(e, r.minN, n) == Column(e, r.minN, n - 1) + [Cell(e, n)];
      }
      tileNames := tileNames + [tileName];
      n := n + 1;
    }
    assert n - 1 == r.maxN;
    assert Grid(r.minE, e, r.minN, r.maxN) == done + Column(e, r.minN, n - 1);
  }

  /** The three state naming rules of the source. */
  datatype NamingRule = Brandenburg | Bayern | NordrheinWestfalen

  /** The `state_name` a rule is registered under. */
  function RuleStateName(rule: NamingRule): string {
    match rule
    case Brandenburg => "Brandenburg"
    case Bayern => "Bayern"
    case NordrheinWestfalen => "Nordrhein-Westfalen"
  }

  /** The rule selected by a configuration's `state_name`, if any. */
  function RuleFor(stateName: string): (r: Option<NamingRule>)
    ensures r.Some? ==> RuleStateName(r.value) == stateName
    ensures forall rule: NamingRule :: RuleStateName(rule) == stateName ==> r == Some(rule)
  {
    if stateName == "Brandenburg" then Some(Brandenburg)
    else if stateName == "Bayern" then Some(Bayern)
    else if stateName == "Nordrhein-Westfalen" then Some(NordrheinWestfalen)
    else None
  }

  /** Each rule is selected by its own state name: the registry round-trips. */
  lemma RuleForStateName(rule: NamingRule)
    ensures RuleFor(RuleStateName(rule)) == Some(rule)
  {
    match rule
    case Brandenburg =>
    case Bayern =>
    case NordrheinWestfalen =>
  }

  /** A state's file-name template, from the truncated easting text `t`, the northing text `n`
      and the source extension. */
  function Template(rule: NamingRule, t: string, n: string, ext: string): string {
    match rule
    case Brandenburg => "als_33" + t + "-" + n + "." + ext
    case Bayern => t + "_" + n + "." + ext
    case NordrheinWestfalen => "3dm_32_" + t + "_" + n + "_1_nw." + ext
  }

  /** Rendering a key as the source does: split on `-`, drop the last character of the first piece. */
  function Render(rule: NamingRule, tileName: string, ext: string): string {
    var parts := Split(tileName, '-');
    Template(rule, DropLast(parts[0]), parts[|parts| - 1], ext)
  }

  /** The loop variable `tile_name` after the loops: the key of the last enumerated cell. */
  function LastKey(r: IndexRange): (key: string)
    requires r.minE <= r.maxE && r.minN <= r.maxN
    ensures key == CellKey(Cell(r.maxE, r.maxN))
  {
    var cells := GridOf(r);
    GridLast(r.minE, r.maxE, r.minN, r.maxN);
    CellKey(cells[|cells| - 1])
  }

  /** The `if`/`elif` chain on `state_name`: the key split on `-`, rendered with the
      matching state's template, or `''` for any other state. */
  function NameForKey(stateName: string, tileName: string, sourceExt: string): (name: string)
    ensures RuleFor(stateName).None? ==> name == ""
    ensures RuleFor(stateName).Some? ==> name == Render(RuleFor(stateName).value, tileName, sourceExt) && name != ""
  {
    var parts := Split(tileName, '-');
    var t, n := DropLast(parts[0]), parts[|parts| - 1];
    if stateName == "Brandenburg" then "als_33" + t + "-" + n + "." + sourceExt
    else if stateName == "Bayern" then t + "_" + n + "." + sourceExt
    else if stateName == "Nordrhein-Westfalen" then "3dm_32_" + t + "_" + n + "_1_nw." + sourceExt
    else ""
  }

  /** The value `get_tile_names` returns, as written: the key of the last
      enumerated cell, rendered with the configured state's rule, or `''`. */
  function TileFileName(b: Bounds, stateName: string, sourceExt: string): (name: string)
    ensures name == "" <==> RuleFor(stateName).None?
  {
    NameForKey(stateName, LastKey(Range(b)), sourceExt)
  }

  /** For non-negative indices the name is the state template applied to the
      decimal easting index less its last digit and the decimal northing index
      of the top corner cell. */
  lemma TileFileNameTemplate(b: Bounds, stateName: string, sourceExt: string)
    requires Range(b).maxE >= 0 && Range(b).maxN >= 0
    requires RuleFor(stateName).Some?
    ensures TileFileName(b, stateName, sourceExt)
      == Template(RuleFor(stateName).value, DropLast(Decimal(Range(b).maxE)), Decimal(Range(b).maxN), sourceExt)
  {
    var r := Range(b);
    SplitCellKey(Cell(r.maxE, r.maxN));
  }

  /** Only the top corner cell decides the name: boxes that agree on their
      maximum indices get the same name whatever their minimum corner. */
  lemma OnlyLastCellMatters(b1: Bounds, b2: Bounds, stateName: string, sourceExt: string)
    requires Range(b1).maxE == Range(b2).maxE && Range(b1).maxN == Range(b2).maxN
    ensures TileFileName(b1, stateName, sourceExt) == TileFileName(b2, stateName, sourceExt)
  {
    var r1, r2 := Range(b1), Range(b2);
    assert LastKey(r1) == LastKey(r2);
  }

  /** The nested loops and the state chain of `get_tile_names`, as written. */
  method GetTileNames(b: Bounds, stateName: string, sourceExt: string) returns (tileFileName: string)
    ensures tileFileName == TileFileName(b, stateName, sourceExt)
    ensures tileFileName == "" <==> RuleFor(stateName).None?
  {
    var minEastingIndex := b.minx / 100;
    var maxEastingIndex := b.maxx / 100;
    var minNorthingIndex := b.miny / 1000;
    var maxNorthingIndex := b.maxy / 1000;
    var r := IndexRange(minEastingIndex, maxEastingIndex, minNorthingIndex, maxNorthingIndex);
    assert r == Range(b);
    var tileNames, tileName := EnumerateTileKeys(r);
    assert tileName == LastKey(r);
    tileFileName := NameForKey(stateName, tileName, sourceExt);
  }

  /** The 100-unit easting index less its last digit is the kilometre index:
      the tiles are one kilometre square. */
  lemma TruncatedEastingIsKilometre(x: nat)
    requires x >= 1000
    ensures DropLast(Decimal(EastingIndex(x))) == Decimal(x / 1000)
  {
    var e := x / 100;
    assert e >= 10;
    DropLastDecimal(e);
    assert e / 10 == x / 1000;
  }

  /** The unsupported-region condition of the all-cells variant. */
  datatype UnsupportedRegion = UnsupportedRegion(stateName: string)

  /** All-cells variant: one rendered name per enumerated cell, in enumeration order,
      or an explicit unsupported-region failure. */
  function AllTileFileNames(b: Bounds, stateName: string, sourceExt: string): (r: Result<seq<string>, UnsupportedRegion>)
    ensures r.Failure? <==> RuleFor(stateName).None?
    ensures r.Success? ==> |r.value| == (Range(b).maxE - Range(b).minE + 1) * (Range(b).maxN - Range(b).minN + 1)
  {
    match RuleFor(stateName)
    case None => Failure(UnsupportedRegion(stateName))
    case Some(rule) =>
      var cells := GridOf(Range(b));
      GridIsRectangle(Range(b));
      Success(seq(|cells|, i requires 0 <= i < |cells| => Render(rule, CellKey(cells[i]), sourceExt)))
  }

  /** For non-negative indices every touched cell's templated name is in the all-cells list. */
  lemma AllCellsNamed(b: Bounds, stateName: string, sourceExt: string, c: Cell)
    requires RuleFor(stateName).Some?
    requires b.minx >= 0 && b.miny >= 0
    requires MeetsBox(b, c)
    ensures AllTileFileNames(b, stateName, sourceExt).Success?
    ensures Template(RuleFor(stateName).value, DropLast(Decimal(c.easting)), Decimal(c.northing), sourceExt)
      in AllTileFileNames(b, stateName, sourceExt).value
  {
    var r := Range(b);
    RangeIsTouchedCells(b, c);
    GridIsRectangle(r);
    var cells := GridOf(r);
    var i :| 0 <= i < |cells| && cells[i] == c;
    SplitCellKey(c);
    assert AllTileFileNames(b, stateName, sourceExt).value[i]
      == Render(RuleFor(stateName).value, CellKey(c), sourceExt);
  }

  /** Conversely, for non-negative indices every entry of the all-cells list is the
      templated name of a cell the box touches: the one enumerated at that position. */
  lemma AllNamesFromTouchedCells(b: Bounds, stateName: string, sourceExt: string, i: int)
    requires RuleFor(stateName).Some?
    requires b.minx >= 0 && b.miny >= 0
    requires 0 <= i < |AllTileFileNames(b, stateName, sourceExt).value|
    ensures var c := GridOf(Range(b))[i];
      && MeetsBox(b, c)
      && AllTileFileNames(b, stateName, sourceExt).value[i]
         == Template(RuleFor(stateName).value, DropLast(Decimal(c.easting)), Decimal(c.northing), sourceExt)
  {
    var r := Range(b);
    GridIsRectangle(r);
    var c := GridOf(r)[i];
    assert c in GridOf(r);
    RangeIsTouchedCells(b, c);
    SplitCellKey(c);
  }

  /** Ten neighbouring easting cells share one kilometre tile: cells whose easting
      indices agree but for the last digit get the same name, so the all-cells list
      repeats names and the tiles to request are the set of its entries. */
  lemma SameKilometreSameName(rule: NamingRule, e1: nat, e2: nat, n: nat, sourceExt: string)
    requires e1 >= 10 && e2 >= 10 && e1 / 10 == e2 / 10
    ensures Render(rule, CellKey(Cell(e1, n)), sourceExt) == Render(rule, CellKey(Cell(e2, n)), sourceExt)
  {
    SplitCellKey(Cell(e1, n));
    SplitCellKey(Cell(e2, n));
    DropLastDecimal(e1);
    DropLastDecimal(e2);
  }

  /** The as-written name is the last entry of the all-cells list. */
  lemma AsWrittenIsLastOfAll(b: Bounds, stateName: string, sourceExt: string)
    requires RuleFor(stateName).Some?
    ensures var all := AllTileFileNames(b, stateName, sourceExt);
      all.Success? && |all.value| > 0 && TileFileName(b, stateName, sourceExt) == all.value[|all.value| - 1]
  {
    var r := Range(b);
    var rule := RuleFor(stateName).value;
    var cells := GridOf(r);
    GridLast(r.minE, r.maxE, r.minN, r.maxN);
    var all := AllTileFileNames(b, stateName, sourceExt).value;
    assert all[|cells| - 1] == Render(rule, CellKey(cells[|cells| - 1]), sourceExt);
    assert LastKey(r) == CellKey(cells[|cells| - 1]);
  }

  /** A footprint whose top corner lies in easting cell 4412 and northing cell 5500
      is named `441_5500.<ext>` in Bayern. */
  lemma BayernNaming(b: Bounds, ext: string)
    requires 441200 <= b.maxx < 441300 && 5500000 <= b.maxy < 5501000
    ensures TileFileName(b, "Bayern", ext) == "441_5500." + ext
  {
    assert Range(b).maxE == 4412 && Range(b).maxN == 5500;
    assert Decimal(441) == "441" by {
      assert Decimal(4) == "4";
      assert Decimal(44) == "44";
    }
    assert Decimal(4412) == "441" + "2";
    assert Decimal(5500) == "5500" by {
      assert Decimal(5) == "5";
      assert Decimal(55) == "55";
      assert Decimal(550) == "550";
    }
    assert DropLast(Decimal(4412)) == "441";
    TileFileNameTemplate(b, "Bayern", ext);
    assert TileFileName(b, "Bayern", ext) == Template(Bayern, "441", "5500", ext);
    BayernTemplate441(ext);
  }

  /** The Bayern template on literal texts, kept apart so that the literal
      concatenation is evaluated without the decimal facts in scope. */
  lemma BayernTemplate441(ext: string)
    ensures Template(Bayern, "441", "5500", ext) == "441_5500." + ext
  {
  }

  /** A box from easting cell 129 to 130 within northing cell 5500 touches two kilometre
      tiles, `12_5500` and `13_5500`; as written only the second is named, so the first
      is never requested. */
  lemma SpanningBoxNamesOnlyLastTile(b: Bounds, ext: string)
    requires 12900 <= b.minx < 13000 && 13000 <= b.maxx < 13100
    requires 5500000 <= b.miny && b.maxy < 5501000
    ensures Range(b) == IndexRange(129, 130, 5500, 5500)
    ensures AllTileFileNames(b, "Bayern", ext) == Success(["12_5500." + ext, "13_5500." + ext])
    ensures TileFileName(b, "Bayern", ext) == "13_5500." + ext
  {
    var r := Range(b);
    assert r == IndexRange(129, 130, 5500, 5500);
    TwoCellNames(b, Bayern, ext);
    SpanningNames(ext);
    var all := [Render(Bayern, CellKey(Cell(129, 5500)), ext), Render(Bayern, CellKey(Cell(130, 5500)), ext)];
    assert AllTileFileNames(b, "Bayern", ext) == Success(all);
    assert all == ["12_5500." + ext, "13_5500." + ext];
    AsWrittenIsLastOfAll(b, "Bayern", ext);
  }

  /** A box spanning two adjacent easting cells at a single northing index gets two names, in easting order. */
  lemma TwoCellNames(b: Bounds, rule: NamingRule, ext: string)
    requires Range(b).maxE == Range(b).minE + 1 && Range(b).maxN == Range(b).minN
    ensures AllTileFileNames(b, RuleStateName(rule), ext) == Success([
      Render(rule, CellKey(Cell(Range(b).minE, Range(b).minN)), ext),
      Render(rule, CellKey(Cell(Range(b).maxE, Range(b).maxN)), ext)])
  {
    var r := Range(b);
    var e, n := r.minE, r.minN;
    RuleForStateName(rule);
    assert Column(e, n, n) == [Cell(e, n)] by {
      assert Column(e, n, n - 1) == [];
    }
    assert Column(e + 1, n, n) == [Cell(e + 1, n)] by {
      assert Column(e + 1, n, n - 1) == [];
    }
    assert Grid(e, e - 1, n, n) == [];
    assert Grid(e, e, n, n) == [Cell(e, n)];
    assert GridOf(r) == [Cell(e, n), Cell(e + 1, n)];
    var all := AllTileFileNames(b, RuleStateName(rule), ext).value;
    assert all[0] == Render(rule, CellKey(Cell(e, n)), ext);
    assert all[1] == Render(rule, CellKey(Cell(e + 1, n)), ext);
    assert all == [Render(rule, CellKey(Cell(e, n)), ext), Render(rule, CellKey(Cell(e + 1, n)), ext)];
  }

  lemma SpanningNames(ext: string)
    ensures Render(Bayern, CellKey(Cell(129, 5500)), ext) == "12_5500." + ext
    ensures Render(Bayern, CellKey(Cell(130, 5500)), ext) == "13_5500." + ext
  {
    assert Decimal(12) == "12" by {
      assert Decimal(1) == "1";
    }
    assert Decimal(13) == "13" by {
      assert Decimal(1) == "1";
    }
    assert Decimal(129) == "12" + "9";
    assert Decimal(130) == "13" + "0";
    assert Decimal(5500) == "5500" by {
      assert Decimal(5) == "5";
      assert Decimal(55) == "55";
      assert Decimal(550) == "550";
    }
    SplitCellKey(Cell(129, 5500));
    SplitCellKey(Cell(130, 5500));
    assert Render(Bayern, CellKey(Cell(129, 5500)), ext) == Template(Bayern, "12", "5500", ext);
    assert Render(Bayern, CellKey(Cell(130, 5500)), ext) == Template(Bayern, "13", "5500", ext);
    BayernTemplates12And13(ext);
  }

  /** The Bayern template on literal texts, kept apart as for `BayernTemplate441`. */
  lemma BayernTemplates12And13(ext: string)
    ensures Template(Bayern, "12", "5500", ext) == "12_5500." + ext
    ensures Template(Bayern, "13", "5500", ext) == "13_5500." + ext
  {
  }
}
