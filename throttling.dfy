/**
 * The throttling panel: a scan over the status bit string reported by the
 * board (index 0 is the first character), listing the conditions that are
 * active now (indices 0 to 3) and those seen since the last boot (indices
 * 16 to 19) in two columns. Any character other than '1', and a '1' at any
 * other index, is skipped.
 */
module Throttling {
  import opened Wrappers
  import opened Screen

  /** The two columns of the panel. */
  datatype Group = Current | SinceBoot

  /** The four conditions each column can report, in bit order. */
  datatype Condition = UnderVoltage | FrequencyCapped | Throttled | SoftTempLimit

  /** A meaningful bit: the column it belongs to and the condition it stands for. */
  datatype Flag = Flag(group: Group, condition: Condition)

  /** The condition of the k-th bit of a column. */
  function ConditionOf(k: nat): Condition
    requires k < 4
  {
    if k == 0 then UnderVoltage
    else if k == 1 then FrequencyCapped
    else if k == 2 then Throttled
    else SoftTempLimit
  }

  /** Position of a condition within its column: the inverse of `ConditionOf`. */
  function Rank(c: Condition): (k: nat)
    ensures k < 4 && ConditionOf(k) == c
  {
    match c
    case UnderVoltage => 0
    case FrequencyCapped => 1
    case Throttled => 2
    case SoftTempLimit => 3
  }

  /** First bit index of a column. */
  function Base(g: Group): nat
  {
    if g == Current then 0 else 16
  }

  /** The fixed table of meaningful bit indices; every other index means nothing. */
  function FlagAt(i: int): (f: Option<Flag>)
    ensures f.Some? <==> 0 <= i <= 3 || 16 <= i <= 19
    ensures f.Some? ==> (f.value.group == Current <==> i <= 3)
    ensures f.Some? ==> f.value.condition == ConditionOf(i - Base(f.value.group))
  {
    if 0 <= i <= 3 then Some(Flag(Current, ConditionOf(i)))
    else if 16 <= i <= 19 then Some(Flag(SinceBoot, ConditionOf(i - 16)))
    else None
  }

  /** The words shown for a condition; the two columns word two of them differently. */
  function Label(g: Group, c: Condition): string
  {
    match (g, c)
    case (Current, UnderVoltage) => "Under voltage"
    case (Current, FrequencyCapped) => "Arm frequency capping"
    case (Current, Throttled) => "Throttling"
    case (Current, SoftTempLimit) => "Soft temperature limit"
    case (SinceBoot, UnderVoltage) => "Under voltage"
    case (SinceBoot, FrequencyCapped) => "Arm frequency capped"
    case (SinceBoot, Throttled) => "Throttled"
    case (SinceBoot, SoftTempLimit) => "Soft temperature limit"
  }

  /**
   * The two columns word under-voltage and the soft temperature limit alike,
   * and frequency capping and throttling differently.
   */
  lemma LabelWordings(c: Condition)
    ensures Label(Current, c) == Label(SinceBoot, c) <==> c == UnderVoltage || c == SoftTempLimit
  {
  }

  /** Row of the first label of either column. */
  const FIRST_ROW := 6

  /** Column of a group's labels on a screen `cols` wide. */
  function GroupCol(g: Group, cols: int): int
  {
    if g == Current then cols - 60 else cols - 30
  }

  /** Attribute of a group's labels: red bold for current conditions, yellow for past ones. */
  function GroupStyle(g: Group): Style
  {
    if g == Current then ColoredBold(Red) else Colored(Yellow)
  }

  /** Whether the character at index `i` of `status` contributes a condition to column `g`. */
  predicate Reports(status: string, i: nat, g: Group)
    requires i < |status|
  {
    status[i] == '1' && Base(g) <= i <= Base(g) + 3
  }

  /** The condition that index `i` adds to column `g`: one, or none. */
  function Added(status: string, i: nat, g: Group): seq<Condition>
    requires i < |status|
  {
    if Reports(status, i, g) then [ConditionOf(i - Base(g))] else []
  }

  /** The conditions of column `g` contributed by the first `n` characters, in index order. */
  function ReportedUpTo(status: string, n: nat, g: Group): (r: seq<Condition>)
    requires n <= |status|
    ensures |r| <= if n <= Base(g) then 0 else if n - Base(g) >= 4 then 4 else n - Base(g)
  {
    if n == 0 then [] else ReportedUpTo(status, n - 1, g) + Added(status, n - 1, g)
  }

  /** The conditions of column `g` for the whole status string. */
  function Reported(status: string, g: Group): (r: seq<Condition>)
    ensures |r| <= 4
  {
    ReportedUpTo(status, |status|, g)
  }

  /** The cells of one column: the k-th condition's words at row 6 + k. */
  function Column(conds: seq<Condition>, g: Group, cols: int): seq<Cell>
  {
    seq(|conds|, k requires 0 <= k < |conds| => Cell(FIRST_ROW + k, GroupCol(g, cols), Label(g, conds[k]), GroupStyle(g)))
  }

  lemma ColumnSnoc(conds: seq<Condition>, c: Condition, g: Group, cols: int)
    ensures Column(conds + [c], g, cols)
         == Column(conds, g, cols) + [Cell(FIRST_ROW + |conds|, GroupCol(g, cols), Label(g, c), GroupStyle(g))]
  {
  }

  /** The k-th condition of a column is drawn at row 6 + k, in the column's place and style. */
  lemma ColumnCells(conds: seq<Condition>, g: Group, cols: int)
    ensures |Column(conds, g, cols)| == |conds|
    ensures forall k :: 0 <= k < |conds| ==>
      Column(conds, g, cols)[k] == Cell(FIRST_ROW + k, GroupCol(g, cols), Label(g, conds[k]), GroupStyle(g))
  {
  }

  /** No condition of the since-boot column comes from the first 16 characters. */
  lemma {:induction false} NoBootBefore16(status: string, n: nat)
    requires n <= |status| && n <= 16
    ensures ReportedUpTo(status, n, SinceBoot) == []
  {
    if n > 0 {
      NoBootBefore16(status, n - 1);
    }
  }

  /** Both columns' cells for the first `n` characters: the current column, then the since-boot one. */
  function Columns(status: string, n: nat, cols: int): seq<Cell>
    requires n <= |status|
  {
    Column(ReportedUpTo(status, n, Current), Current, cols)
    + Column(ReportedUpTo(status, n, SinceBoot), SinceBoot, cols)
  }

  /**
   * One more character places at most one more cell, at the end: the next
   * row of the column its index belongs to.
   */
  lemma ColumnsStep(status: string, i: nat, cols: int)
    requires i < |status|
    ensures var f := FlagAt(i);
      Columns(status, i + 1, cols) == Columns(status, i, cols)
        + if status[i] == '1' && f.Some?
          then [Cell(FIRST_ROW + |ReportedUpTo(status, i, f.value.group)|, GroupCol(f.value.group, cols),
                     Label(f.value.group, f.value.condition), GroupStyle(f.value.group))]
          else []
  {
    ScanStep(status, i);
    var f := FlagAt(i);
    if status[i] == '1' && f.Some? {
      if f.value.group == Current {
        CurrentStep(status, i, cols);
      } else {
        BootStep(status, i, cols);
      }
    }
  }

  lemma CurrentStep(status: string, i: nat, cols: int)
    requires i < |status| && status[i] == '1' && i <= 3
    ensures Columns(status, i + 1, cols) == Columns(status, i, cols)
      + [Cell(FIRST_ROW + |ReportedUpTo(status, i, Current)|, GroupCol(Current, cols),
              Label(Current, ConditionOf(i)), GroupStyle(Current))]
  {
    var cur := ReportedUpTo(status, i, Current);
    NoBootBefore16(status, i);
    NoBootBefore16(status, i + 1);
    assert ReportedUpTo(status, i + 1, Current) == cur + [ConditionOf(i)];
    ColumnSnoc(cur, ConditionOf(i), Current, cols);
    assert Column([], SinceBoot, cols) == [];
  }

  lemma BootStep(status: string, i: nat, cols: int)
    requires i < |status| && status[i] == '1' && 16 <= i <= 19
    ensures Columns(status, i + 1, cols) == Columns(status, i, cols)
      + [Cell(FIRST_ROW + |ReportedUpTo(status, i, SinceBoot)|, GroupCol(SinceBoot, cols),
              Label(SinceBoot, ConditionOf(i - 16)), GroupStyle(SinceBoot))]
  {
    var boot := ReportedUpTo(status, i, SinceBoot);
    assert ReportedUpTo(status, i + 1, SinceBoot) == boot + [ConditionOf(i - 16)];
    assert ReportedUpTo(status, i + 1, Current) == ReportedUpTo(status, i, Current);
    ColumnSnoc(boot, ConditionOf(i - 16), SinceBoot, cols);
  }

  /**
   * The scan of the status string: one character at a time, counting the
   * index and the labels already placed in each column. Every label is placed
   * as it is found; since all current indices come before all since-boot
   * indices, the placements are the current column followed by the
   * since-boot column.
   */
  method DrawStatus(status: string, cols: int) returns (cells: seq<Cell>)
    ensures cells == Column(Reported(status, Current), Current, cols)
                   + Column(Reported(status, SinceBoot), SinceBoot, cols)
  {
    cells := [];
    var contcurrent, contboot := 0, 0;
    var contbit := 0;
    while contbit < |status|
      invariant 0 <= contbit <= |status|
      invariant contcurrent == |ReportedUpTo(status, contbit, Current)|
      invariant contboot == |ReportedUpTo(status, contbit, SinceBoot)|
      invariant cells == Columns(status, contbit, cols)
    {
      ColumnsStep(status, contbit, cols);
      ScanStep(status, contbit);
      var bit := status[contbit];
      var flag := FlagAt(contbit);
      if bit == '1' && flag.Some? {
        var f := flag.value;
        if f.group == Current {
          cells := cells + [Cell(FIRST_ROW + contcurrent, cols - 60, Label(Current, f.condition), ColoredBold(Red))];
          contcurrent := contcurrent + 1;
        } else {
          cells := cells + [Cell(FIRST_ROW + contboot, cols - 30, Label(SinceBoot, f.condition), Colored(Yellow))];
          contboot := contboot + 1;
        }
      }
      contbit := contbit + 1;
    }
  }

  /** What one more character adds to each column. */
  lemma ScanStep(status: string, i: nat)
    requires i < |status|
    ensures var f := FlagAt(i);
      var hit := status[i] == '1' && f.Some?;
      ReportedUpTo(status, i + 1, Current) == ReportedUpTo(status, i, Current)
        + (if hit && f.value.group == Current then [f.value.condition] else [])
    ensures var f := FlagAt(i);
      var hit := status[i] == '1' && f.Some?;
      ReportedUpTo(status, i + 1, SinceBoot) == ReportedUpTo(status, i, SinceBoot)
        + (if hit && f.value.group == SinceBoot then [f.value.condition] else [])
  {
  }

  /** The condition of the k-th bit of column `g` if that character of the first `n` is a '1'. */
  function Bit(status: string, g: Group, k: nat, n: nat): seq<Condition>
    requires n <= |status| && k < 4
  {
    if Base(g) + k < n && status[Base(g) + k] == '1' then [ConditionOf(k)] else []
  }

  /**
   * Reference reading of the table: the four bits of a column, looked up one
   * by one in table order.
   */
  function TableUpTo(status: string, n: nat, g: Group): seq<Condition>
    requires n <= |status|
  {
    Bit(status, g, 0, n) + Bit(status, g, 1, n) + Bit(status, g, 2, n) + Bit(status, g, 3, n)
  }

  /** Lengthening the prefix to `n` adds the bit at index `n - 1` and changes no other. */
  lemma BitStep(status: string, g: Group, k: nat, n: nat)
    requires 0 < n <= |status| && k < 4
    ensures Base(g) + k != n - 1 ==> Bit(status, g, k, n) == Bit(status, g, k, n - 1)
    ensures Base(g) + k == n - 1 ==> Bit(status, g, k, n - 1) == [] && Bit(status, g, k, n) == Added(status, n - 1, g)
  {
  }

  /** Extending the prefix by one character extends the table reading by that index's condition. */
  lemma TableStep(status: string, n: nat, g: Group)
    requires 0 < n <= |status|
    ensures TableUpTo(status, n, g) == TableUpTo(status, n - 1, g) + Added(status, n - 1, g)
  {
    BitStep(status, g, 0, n);
    BitStep(status, g, 1, n);
    BitStep(status, g, 2, n);
    BitStep(status, g, 3, n);
    var i := n - 1;
    if !(Base(g) <= i <= Base(g) + 3) {
      assert Added(status, i, g) == [];
    }
  }

  lemma {:induction false} ReportedAgreesUpTo(status: string, n: nat, g: Group)
    requires n <= |status|
    ensures ReportedUpTo(status, n, g) == TableUpTo(status, n, g)
  {
    if n > 0 {
      ReportedAgreesUpTo(status, n - 1, g);
      TableStep(status, n, g);
    }
  }

  /**
   * The scan reports exactly the table's conditions of a column, in index
   * order: each of the four indices of the column that holds a '1'
   * contributes its condition once, and nothing else contributes.
   */
  lemma ReportedMatchesTable(status: string, g: Group)
    ensures Reported(status, g) == TableUpTo(status, |status|, g)
  {
    ReportedAgreesUpTo(status, |status|, g);
  }

  /** Conditions listed in strictly increasing position within their column. */
  predicate Ascending(r: seq<Condition>)
  {
    forall a, b :: 0 <= a < b < |r| ==> Rank(r[a]) < Rank(r[b])
  }

  /**
   * The scan lists a column's conditions in index order, each from a
   * character already scanned, so no condition appears twice.
   */
  lemma {:induction false} ReportedAscendingUpTo(status: string, n: nat, g: Group)
    requires n <= |status|
    ensures Ascending(ReportedUpTo(status, n, g))
    ensures forall k :: 0 <= k < |ReportedUpTo(status, n, g)| ==> Base(g) + Rank(ReportedUpTo(status, n, g)[k]) < n
  {
    if n > 0 {
      ReportedAscendingUpTo(status, n - 1, g);
      var prev := ReportedUpTo(status, n - 1, g);
      var add := Added(status, n - 1, g);
      var r := ReportedUpTo(status, n, g);
      assert r == prev + add;
      if add == [] {
        assert r == prev;
      } else {
        var c := ConditionOf(n - 1 - Base(g));
        assert add == [c];
        assert Rank(c) == n - 1 - Base(g);
        forall k | 0 <= k < |r|
          ensures Base(g) + Rank(r[k]) < n
        {
          if k < |prev| {
            assert r[k] == prev[k];
          } else {
            assert r[k] == c;
          }
        }
        forall a, b | 0 <= a < b < |r|
          ensures Rank(r[a]) < Rank(r[b])
        {
          assert r[a] == prev[a];
          if b < |prev| {
            assert r[b] == prev[b];
          } else {
            assert r[b] == c;
          }
        }
      }
    }
  }

  /** Each column lists its conditions in strictly increasing position. */
  lemma ReportedAscending(status: string, g: Group)
    ensures Ascending(Reported(status, g))
  {
    ReportedAscendingUpTo(status, |status|, g);
  }

  /** A string without any '1' reports nothing in either column. */
  lemma AllZeroReportsNothing(status: string)
    requires forall k :: 0 <= k < |status| ==> status[k] != '1'
    ensures Reported(status, Current) == [] && Reported(status, SinceBoot) == []
  {
    ReportedMatchesTable(status, Current);
    ReportedMatchesTable(status, SinceBoot);
  }

  /**
   * A string whose only '1' is at index `i` reports exactly that index's
   * condition in that index's column and nothing in the other; when `i` is
   * not a meaningful index, it reports nothing at all.
   */
  lemma SingleBitReportsOne(status: string, i: nat)
    requires i < |status| && status[i] == '1'
    requires forall k :: 0 <= k < |status| && k != i ==> status[k] != '1'
    ensures FlagAt(i).Some? ==>
      Reported(status, FlagAt(i).value.group) == [FlagAt(i).value.condition] &&
      Reported(status, if FlagAt(i).value.group == Current then SinceBoot else Current) == []
    ensures FlagAt(i).None? ==> Reported(status, Current) == [] && Reported(status, SinceBoot) == []
  {
    ReportedMatchesTable(status, Current);
    ReportedMatchesTable(status, SinceBoot);
  }

  /**
   * Drawn, such a string shows one label: the words of that index in its
   * column, at row 6.
   */
  lemma SingleBitDrawn(status: string, i: nat, cols: int)
    requires i < |status| && status[i] == '1' && FlagAt(i).Some?
    requires forall k :: 0 <= k < |status| && k != i ==> status[k] != '1'
    ensures var f := FlagAt(i).value;
      Column(Reported(status, Current), Current, cols) + Column(Reported(status, SinceBoot), SinceBoot, cols)
        == [Cell(FIRST_ROW, GroupCol(f.group, cols), Label(f.group, f.condition), GroupStyle(f.group))]
  {
    SingleBitReportsOne(status, i);
  }
}
