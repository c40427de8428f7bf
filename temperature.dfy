/**
 * The two temperature bars (GPU and CPU): a colour tier chosen against the
 * thresholds 55 and 65 degrees, and a bar of block characters whose length
 * is the temperature scaled to the bar width, padded with spaces.
 * Temperatures are real numbers here (the fetched text's float parsing is not
 * modelled).
 */
module Temperature {
  import opened Screen

  const WARN_AT: real := 55.0
  const HOT_AT: real := 65.0

  /** Full-scale temperature of the CPU bar, written as a literal in the source. */
  const CPU_MAX_TEMP: real := 70.0

  /** The block character the bars are drawn with. */
  const BLOCK: char := '\U{2588}'

  /** Colour tier: green below 55, yellow from 55 up to 65, red from 65 on. */
  function Tier(temp: real): (c: Color)
    ensures c == Green <==> temp < WARN_AT
    ensures c == Yellow <==> WARN_AT <= temp < HOT_AT
    ensures c == Red <==> HOT_AT <= temp
  {
    if temp < WARN_AT then Green
    else if temp < HOT_AT then Yellow
    else Red
  }

  /** The tier never drops as the temperature rises. */
  lemma TierMonotone(a: real, b: real)
    requires a <= b
    ensures PairNumber(Tier(a)) <= PairNumber(Tier(b))
  {
  }

  /** Conversion of a real to an integer by truncation toward zero, as `int(...)` does. */
  function Trunc(x: real): (n: int)
    ensures 0.0 <= x ==> 0 <= n && n as real <= x < n as real + 1.0
    ensures x < 0.0 ==> n <= 0 && n as real - 1.0 < x <= n as real
  {
    if x >= 0.0 then x.Floor else -((-x).Floor)
  }

  /** Number of block characters for `temp` on a bar `width` wide reaching full scale at `maxTemp`. */
  function Fill(temp: real, width: nat, maxTemp: real): (fill: int)
    requires maxTemp > 0.0
    ensures var v := Scaled(temp, width, maxTemp);
      0.0 <= v ==> 0 <= fill && fill as real <= v < fill as real + 1.0
    ensures var v := Scaled(temp, width, maxTemp);
      v < 0.0 ==> fill <= 0 && fill as real - 1.0 < v <= fill as real
  {
    Trunc(Scaled(temp, width, maxTemp))
  }

  lemma TruncMonotone(x: real, y: real)
    requires 0.0 <= x <= y
    ensures Trunc(x) <= Trunc(y)
  {
  }

  /** The unrounded bar length: the temperature scaled so that `maxTemp` maps to `width`. */
  function Scaled(temp: real, width: nat, maxTemp: real): (v: real)
    requires maxTemp > 0.0
    ensures v * maxTemp == temp * (width as real)
  {
    temp * (width as real) / maxTemp
  }

  lemma ScaleMonotone(a: real, b: real, width: nat, m: real)
    requires 0.0 <= a <= b && m > 0.0
    ensures 0.0 <= Scaled(a, width, m) <= Scaled(b, width, m)
  {
    var w := width as real;
    var d := b - a;
    assert d * w >= 0.0;
    assert b * w == a * w + d * w;
    assert a * w >= 0.0;
    assert (a * w + d * w) / m == a * w / m + d * w / m;
  }

  /** For temperatures from zero up, a hotter reading never gives a shorter bar. */
  lemma FillMonotone(a: real, b: real, width: nat, maxTemp: real)
    requires maxTemp > 0.0 && 0.0 <= a <= b
    ensures 0 <= Fill(a, width, maxTemp) <= Fill(b, width, maxTemp)
  {
    ScaleMonotone(a, b, width, maxTemp);
    TruncMonotone(Scaled(a, width, maxTemp), Scaled(b, width, maxTemp));
  }

  /** At the full-scale temperature the bar is exactly as long as its width. */
  lemma FillAtFullScale(width: nat, maxTemp: real)
    requires maxTemp > 0.0
    ensures Fill(maxTemp, width, maxTemp) == width
  {
    assert maxTemp * (width as real) / maxTemp == width as real;
  }

  /** Between zero and full scale the fill stays within the bar's width. */
  lemma FillWithinWidth(temp: real, width: nat, maxTemp: real)
    requires maxTemp > 0.0 && 0.0 <= temp <= maxTemp
    ensures 0 <= Fill(temp, width, maxTemp) <= width
  {
    FillMonotone(temp, maxTemp, width, maxTemp);
    FillAtFullScale(width, maxTemp);
  }

  function Max(a: int, b: int): int { if a < b then b else a }

  /**
   * The bar text: `fill` blocks (none when the fill is negative), left
   * justified to `width` with spaces; padding never shortens a longer bar.
   */
  function Bar(temp: real, width: nat, maxTemp: real): (bar: string)
    requires maxTemp > 0.0
    ensures |bar| == Max(Fill(temp, width, maxTemp), width)
    ensures forall k :: 0 <= k < |bar| ==>
      bar[k] == if k < Fill(temp, width, maxTemp) then BLOCK else ' '
  {
    var fill := Fill(temp, width, maxTemp);
    var blocks := seq(Max(fill, 0), _ => BLOCK);
    blocks + seq(Max(width - |blocks|, 0), _ => ' ')
  }

  /**
   * The three placements of one temperature line at `row`: the caption, the
   * bar in the tier's colour, and the reading `shown` (the reading's own
   * decimal text) followed by the unit after the bar.
   */
  function TempLine(row: int, caption: string, temp: real, shown: string, width: nat, maxTemp: real): (cells: seq<Cell>)
    requires maxTemp > 0.0
    ensures |cells| == 3
    ensures cells[0] == Cell(row, 3, caption, Plain)
    ensures cells[1] == Cell(row, 14, Bar(temp, width, maxTemp), Colored(Tier(temp)))
    ensures cells[2] == Cell(row, 14 + width + 2, shown + " ºC", Plain)
  {
    [ Cell(row, 3, caption, Plain),
      Cell(row, 14, Bar(temp, width, maxTemp), Colored(Tier(temp))),
      Cell(row, 14 + width + 2, shown + " ºC", Plain) ]
  }

  /**
   * The GPU line at `row` and the CPU line below it. The GPU bar reaches full
   * scale at the configured maximum, the CPU bar at 70 degrees whatever that
   * maximum is.
   */
  function TempLines(row: int, gpu: real, gpuShown: string, cpu: real, cpuShown: string,
                     width: nat, maxTemp: real): (cells: seq<Cell>)
    requires maxTemp > 0.0
    ensures |cells| == 6
    ensures cells[1].row == row && cells[4].row == row + 1
    ensures cells[1].text == Bar(gpu, width, maxTemp) && cells[4].text == Bar(cpu, width, CPU_MAX_TEMP)
    ensures cells[1].style == Colored(Tier(gpu)) && cells[4].style == Colored(Tier(cpu))
  {
    TempLine(row, "GPU Temp:", gpu, gpuShown, width, maxTemp)
    + TempLine(row + 1, "CPU Temp:", cpu, cpuShown, width, CPU_MAX_TEMP)
  }

  /** A CPU reading of 70 degrees fills its bar exactly and is shown red. */
  lemma CpuFullAt70(width: nat, maxTemp: real, row: int, gpu: real, gpuShown: string, cpuShown: string)
    requires maxTemp > 0.0
    ensures var cells := TempLines(row, gpu, gpuShown, CPU_MAX_TEMP, cpuShown, width, maxTemp);
      |cells[4].text| == width && cells[4].style == Colored(Red)
      && forall k :: 0 <= k < width ==> cells[4].text[k] == BLOCK
  {
    FillAtFullScale(width, CPU_MAX_TEMP);
  }
}
