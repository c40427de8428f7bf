/**
 * The two grids of names: the CPU frequency governors (three to a row,
 * 15 columns apart, from column 45, the active one in green) and the video
 * codecs (nine to a row, 6 columns apart, from column 20, green when the
 * board supports the codec and red otherwise). Both loops advance a column
 * offset and start a new row once the offset passes a limit.
 */
module Layout {
  import opened Screen

  const GOVERNOR_COL := 45
  const GOVERNOR_STEP := 15
  const GOVERNOR_LIMIT := 40

  const CODEC_COL := 20
  const CODEC_STEP := 6
  const CODEC_LIMIT := 50

  /** Row offset and column of the i-th governor. */
  function GovernorRow(i: nat): nat { i / 3 }
  function GovernorCol(i: nat): int { GOVERNOR_COL + GOVERNOR_STEP * (i % 3) }

  /** Row offset and column of the i-th codec. */
  function CodecRow(i: nat): nat { i / 9 }
  function CodecCol(i: nat): int { CODEC_COL + CODEC_STEP * (i % 9) }

  /**
   * Places the governors starting at row `top`. The column offset grows by
   * 15 after each name and wraps to 0, one row down, once it exceeds 40.
   */
  method PlaceGovernors(govs: seq<string>, active: string, top: int) returns (cells: seq<Cell>)
    ensures |cells| == |govs|
    ensures forall i :: 0 <= i < |govs| ==>
      cells[i] == Cell(top + GovernorRow(i), GovernorCol(i), govs[i],
                       if govs[i] == active then Colored(Green) else Plain)
  {
    cells := [];
    var row, col := 0, 0;
    for i := 0 to |govs|
      invariant |cells| == i
      invariant row == i / 3 && col == GOVERNOR_STEP * (i % 3)
      invariant forall j :: 0 <= j < i ==>
        cells[j] == Cell(top + GovernorRow(j), GovernorCol(j), govs[j],
                         if govs[j] == active then Colored(Green) else Plain)
    {
      var item := govs[i];
      if item == active {
        cells := cells + [Cell(top + row, GOVERNOR_COL + col, item, Colored(Green))];
      } else {
        cells := cells + [Cell(top + row, GOVERNOR_COL + col, item, Plain)];
      }
      col := col + GOVERNOR_STEP;
      if col > GOVERNOR_LIMIT {
        col := 0;
        row := row + 1;
      }
    }
  }

  /**
   * Places the codec names starting at row `top`, colouring each by whether
   * it is among `supported`. The column offset grows by 6 after each name and
   * wraps to 0, one row down, once it exceeds 50.
   */
  method PlaceCodecs(codecs: seq<string>, supported: seq<string>, top: int) returns (cells: seq<Cell>)
    ensures |cells| == |codecs|
    ensures forall i :: 0 <= i < |codecs| ==>
      cells[i] == Cell(top + CodecRow(i), CodecCol(i), codecs[i],
                       Colored(if codecs[i] in supported then Green else Red))
  {
    cells := [];
    var row, col := 0, 0;
    for i := 0 to |codecs|
      invariant |cells| == i
      invariant row == i / 9 && col == CODEC_STEP * (i % 9)
      invariant forall j :: 0 <= j < i ==>
        cells[j] == Cell(top + CodecRow(j), CodecCol(j), codecs[j],
                         Colored(if codecs[j] in supported then Green else Red))
    {
      var item := codecs[i];
      if item in supported {
        cells := cells + [Cell(top + row, CODEC_COL + col, item, Colored(Green))];
      } else {
        cells := cells + [Cell(top + row, CODEC_COL + col, item, Colored(Red))];
      }
      col := col + CODEC_STEP;
      if col > CODEC_LIMIT {
        col := 0;
        row := row + 1;
      }
    }
  }

  /**
   * The governor grid is filled row by row: no two governors share a
   * position, and a later governor is on a later row or further right.
   */
  lemma GovernorsRowMajor(i: nat, j: nat)
    requires i < j
    ensures GovernorRow(i) < GovernorRow(j)
         || (GovernorRow(i) == GovernorRow(j) && GovernorCol(i) < GovernorCol(j))
  {
  }

  /** Each governor row holds three names, in columns 45, 60 and 75. */
  lemma GovernorsPerRow(r: nat)
    ensures forall i: nat :: GovernorRow(i) == r <==> 3 * r <= i < 3 * r + 3
    ensures GovernorCol(3 * r) == 45 && GovernorCol(3 * r + 1) == 60 && GovernorCol(3 * r + 2) == 75
  {
  }

  /** The codec grid is filled row by row, without two codecs sharing a position. */
  lemma CodecsRowMajor(i: nat, j: nat)
    requires i < j
    ensures CodecRow(i) < CodecRow(j)
         || (CodecRow(i) == CodecRow(j) && CodecCol(i) < CodecCol(j))
  {
  }

  /** Each codec row holds nine names, from column 20 to column 68. */
  lemma CodecsPerRow(r: nat)
    ensures forall i: nat :: CodecRow(i) == r <==> 9 * r <= i < 9 * r + 9
    ensures CodecCol(9 * r) == 20 && CodecCol(9 * r + 8) == 68
  {
  }
}
