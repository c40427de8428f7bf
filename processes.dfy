/**
 * The process counts shown beside the load averages: the fourth field of the
 * load-average reading has the form "running/total", and both numbers are
 * shown less one.
 */
module Processes {
  import opened Wrappers
  import opened Text

  datatype Counts = Counts(active: int, total: int)

  /**
   * Reads the counts from the load-average fields. There is nothing to read
   * when the fields are fewer than four, when the fourth has no '/', or when
   * either side of it is not a decimal number; the program stops in each case.
   */
  function ProcessCounts(average: seq<string>): (r: Option<Counts>)
    ensures r.Some? <==>
      |average| >= 4 && |Split(average[3], '/')| >= 2
      && ParseNat(Split(average[3], '/')[0]).Some? && ParseNat(Split(average[3], '/')[1]).Some?
    ensures r.Some? ==>
      var parts := Split(average[3], '/');
      r.value == Counts(DigitsValue(parts[0]) as int - 1, DigitsValue(parts[1]) as int - 1)
  {
    if |average| < 4 then None
    else
      var parts := Split(average[3], '/');
      if |parts| < 2 then None
      else
        match (ParseNat(parts[0]), ParseNat(parts[1]))
        case (Some(running), Some(total)) => Some(Counts(running as int - 1, total as int - 1))
        case _ => None
  }

  /** The field "a/b" gives active count a - 1 and total b - 1. */
  lemma {:induction false} CountsOfField(a: nat, b: nat, average: seq<string>)
    requires |average| >= 4 && average[3] == ShowNat(a) + "/" + ShowNat(b)
    ensures ProcessCounts(average) == Some(Counts(a as int - 1, b as int - 1))
  {
    var pa, pb := ShowNat(a), ShowNat(b);
    assert '/' !in pa && '/' !in pb;
    assert Join([pa, pb], '/') == average[3];
    SplitJoin([pa, pb], '/');
    ParseShowNat(a);
    ParseShowNat(b);
  }

  /** Extra '/'-separated parts after the second are ignored. */
  lemma {:induction false} ExtraPartsIgnored(average: seq<string>, rest: string)
    requires |average| >= 4
    ensures var more := average[3 := average[3] + "/" + rest];
      ProcessCounts(average).Some? ==> ProcessCounts(more) == ProcessCounts(average)
  {
    var more := average[3 := average[3] + "/" + rest];
    if ProcessCounts(average).Some? {
      var parts := Split(average[3], '/');
      JoinSplit(average[3], '/');
      var restParts := Split(rest, '/');
      JoinSplit(rest, '/');
      SplitJoin(parts + restParts, '/');
      JoinAppend(parts, restParts, '/');
      assert (parts + restParts)[0] == parts[0] && (parts + restParts)[1] == parts[1];
    }
  }

  lemma {:induction false} JoinAppend(xs: seq<string>, ys: seq<string>, sep: char)
    requires |xs| >= 1 && |ys| >= 1
    ensures Join(xs + ys, sep) == Join(xs, sep) + [sep] + Join(ys, sep)
    decreases |xs|
  {
    if |xs| == 1 {
      assert (xs + ys)[1..] == ys;
    } else {
      JoinAppend(xs[1..], ys, sep);
      assert (xs + ys)[1..] == xs[1..] + ys;
    }
  }
}
