/** The table the pipeline works on: one row per meter reading, plus the
    column-level building blocks that the pandas code uses over and over
    (cumulative sums, group-by first/last, masked assignment, filtering). */
module Frame {

  datatype Option<+T> = None | Some(value: T)

  /** One row of the raw table. Timestamps are whole minutes; `loadOn` is the
      nullable column that `load_on` writes. */
  datatype Reading = Reading(meter: int, timestamp: int, energy: real, power: real, loadOn: Option<real>)

  /** The parameters of `cooking_event`: the quiet gap between events and the
      sampling interval in minutes, the activity thresholds, and the smallest
      energy rise a lone reading needs to stay an event. */
  datatype EventParams = EventParams(tBetween: int, minActiveLoad: real, powerCapacity: real,
                                     timeResolution: int, minCookingEvent: real)

  /** Energy a load at the activity threshold draws in one sampling interval. */
  function EnergyThreshold(minActiveLoad: real, powerCapacity: real, timeResolution: int): real
  {
    minActiveLoad * powerCapacity * (timeResolution as real) / 60.0
  }

  /** Power of a load at the activity threshold. */
  function PowerThreshold(minActiveLoad: real, powerCapacity: real): real
  {
    minActiveLoad * powerCapacity
  }

  /** `meter != meter.shift()`: the shifted value is missing on row 0, and a
      missing value compares unequal to everything. */
  predicate MeterChangedFromPrev(rows: seq<Reading>, i: nat)
    requires i < |rows|
  {
    i == 0 || rows[i].meter != rows[i - 1].meter
  }

  /** `meter != meter.shift(-1)`: true on the last row. */
  predicate MeterChangesAtNext(rows: seq<Reading>, i: nat)
    requires i < |rows|
  {
    i + 1 == |rows| || rows[i].meter != rows[i + 1].meter
  }

  /** Timestamps never decrease between consecutive rows of the same meter. */
  ghost predicate TimeSortedWithinMeter(rows: seq<Reading>)
  {
    forall i :: 0 < i < |rows| && rows[i].meter == rows[i - 1].meter ==>
      rows[i - 1].timestamp <= rows[i].timestamp
  }

  /** Number of true entries: the reference definition of a cumulative sum. */
  function CountTrue(s: seq<bool>): (n: nat)
    ensures n <= |s|
  {
    if s == [] then 0 else CountTrue(s[..|s| - 1]) + (if s[|s| - 1] then 1 else 0)
  }

  /** `flags.cumsum()` over a boolean column: the running count of true rows. */
  function RunningCount(flags: seq<bool>): (c: seq<nat>)
    ensures |c| == |flags|
    ensures forall i :: 0 <= i < |c| ==> c[i] <= i + 1
  {
    if flags == [] then []
    else
      var p := RunningCount(flags[..|flags| - 1]);
      p + [(if p == [] then 0 else p[|p| - 1]) + (if flags[|flags| - 1] then 1 else 0)]
  }

  /** Entry i of the running count is the number of true flags among rows 0..i. */
  lemma {:induction false} RunningCountIsPrefixCount(flags: seq<bool>, i: nat)
    requires i < |flags|
    ensures RunningCount(flags)[i] == CountTrue(flags[..i + 1])
    decreases |flags|
  {
    var n := |flags|;
    var init := flags[..n - 1];
    if i < n - 1 {
      RunningCountIsPrefixCount(init, i);
      assert init[..i + 1] == flags[..i + 1];
    } else if i > 0 {
      RunningCountIsPrefixCount(init, i - 1);
      assert init[..i] == init;
      assert flags[..i + 1][..i] == init;
    } else {
      assert flags[..1][..0] == [];
    }
  }

  /** The running count starts at the first flag and rises by exactly the
      next flag at every row. */
  lemma {:induction false} RunningCountStep(flags: seq<bool>, i: nat)
    requires i < |flags|
    ensures i == 0 ==> RunningCount(flags)[0] == (if flags[0] then 1 else 0)
    ensures i > 0 ==> RunningCount(flags)[i] == RunningCount(flags)[i - 1] + (if flags[i] then 1 else 0)
  {
    RunningCountIsPrefixCount(flags, i);
    if i > 0 {
      RunningCountIsPrefixCount(flags, i - 1);
      assert flags[..i + 1][..i] == flags[..i];
    } else {
      assert flags[..1][..0] == [];
    }
  }

  /** The running count never decreases. */
  lemma {:induction false} RunningCountMonotone(flags: seq<bool>, i: nat, j: nat)
    requires i <= j < |flags|
    ensures RunningCount(flags)[i] <= RunningCount(flags)[j]
    decreases j - i
  {
    if i < j {
      RunningCountStep(flags, j);
      RunningCountMonotone(flags, i, j - 1);
    }
  }

  /** The running count is unchanged over a stretch with no true flag. */
  lemma {:induction false} RunningCountFlat(flags: seq<bool>, i: nat, j: nat)
    requires i <= j < |flags|
    requires forall k :: i < k <= j ==> !flags[k]
    ensures RunningCount(flags)[i] == RunningCount(flags)[j]
    decreases j - i
  {
    if i < j {
      RunningCountStep(flags, j);
      RunningCountFlat(flags, i, j - 1);
    }
  }

  /** If the running count is equal at rows i and j, no flag is set after i up to j. */
  lemma {:induction false} RunningCountEqualNoFlag(flags: seq<bool>, i: nat, j: nat)
    requires i <= j < |flags|
    requires RunningCount(flags)[i] == RunningCount(flags)[j]
    ensures forall k :: i < k <= j ==> !flags[k]
  {
    forall k | i < k <= j
      ensures !flags[k]
    {
      RunningCountMonotone(flags, i, k - 1);
      RunningCountMonotone(flags, k, j);
      RunningCountStep(flags, k);
    }
  }

  /** Smallest index in from..hit whose key is v; `hit` witnesses that one exists. */
  function FirstAtOrAfter(keys: seq<int>, v: int, from: nat, hit: nat): (j: nat)
    requires from <= hit < |keys| && keys[hit] == v
    ensures from <= j <= hit && keys[j] == v
    ensures forall k :: from <= k < j ==> keys[k] != v
    decreases hit - from
  {
    if keys[from] == v then from else FirstAtOrAfter(keys, v, from + 1, hit)
  }

  /** Largest index in hit..upto whose key is v. */
  function LastAtOrBefore(keys: seq<int>, v: int, upto: nat, hit: nat): (j: nat)
    requires hit <= upto < |keys| && keys[hit] == v
    ensures hit <= j <= upto && keys[j] == v
    ensures forall k :: j < k <= upto ==> keys[k] != v
    decreases upto - hit
  {
    if keys[upto] == v then upto else LastAtOrBefore(keys, v, upto - 1, hit)
  }

  /** `groupby(key).first()` mapped back onto row i: the first row of i's group. */
  function GroupFirst(keys: seq<int>, i: nat): (j: nat)
    requires i < |keys|
    ensures j <= i && keys[j] == keys[i]
    ensures forall k :: 0 <= k < j ==> keys[k] != keys[i]
  {
    FirstAtOrAfter(keys, keys[i], 0, i)
  }

  /** `groupby(key).last()` mapped back onto row i: the last row of i's group. */
  function GroupLast(keys: seq<int>, i: nat): (j: nat)
    requires i < |keys|
    ensures i <= j < |keys| && keys[j] == keys[i]
    ensures forall k :: j < k < |keys| ==> keys[k] != keys[i]
  {
    LastAtOrBefore(keys, keys[i], |keys| - 1, i)
  }

  /** The group-first row is the only row before every other row with the same key. */
  lemma GroupFirstUnique(keys: seq<int>, i: nat, j: nat)
    requires i < |keys| && j <= i && keys[j] == keys[i]
    requires forall k :: 0 <= k < j ==> keys[k] != keys[i]
    ensures GroupFirst(keys, i) == j
  {
  }

  /** The group-last row is the only row after every other row with the same key. */
  lemma GroupLastUnique(keys: seq<int>, i: nat, j: nat)
    requires i <= j < |keys| && keys[j] == keys[i]
    requires forall k :: j < k < |keys| ==> keys[k] != keys[i]
    ensures GroupLast(keys, i) == j
  {
  }

  /** In a running count, the group of row i begins at the latest true flag j
      at or before i. */
  lemma RunningCountGroupFirst(flags: seq<bool>, i: nat, j: nat)
    requires j <= i < |flags| && flags[j]
    requires forall k :: j < k <= i ==> !flags[k]
    ensures GroupFirst(RunningCount(flags), i) == j
  {
    var c := RunningCount(flags);
    RunningCountFlat(flags, j, i);
    forall k | 0 <= k < j
      ensures c[k] != c[i]
    {
      RunningCountMonotone(flags, k, j - 1);
      RunningCountStep(flags, j);
    }
    GroupFirstUnique(c, i, j);
  }

  /** In a running count, the group of row i ends at the row e before the next
      true flag (or at the last row). */
  lemma RunningCountGroupLast(flags: seq<bool>, i: nat, e: nat)
    requires i <= e < |flags|
    requires forall k :: i < k <= e ==> !flags[k]
    requires e + 1 == |flags| || flags[e + 1]
    ensures GroupLast(RunningCount(flags), i) == e
  {
    var c := RunningCount(flags);
    RunningCountFlat(flags, i, e);
    forall k | e < k < |flags|
      ensures c[k] != c[i]
    {
      RunningCountStep(flags, e + 1);
      RunningCountMonotone(flags, e + 1, k);
    }
    GroupLastUnique(c, i, e);
  }

  /** `.loc[mask, col] = v`: rows under the mask take v, the others keep their value. */
  function Assign(col: seq<bool>, mask: seq<bool>, v: bool): (r: seq<bool>)
    requires |mask| == |col|
    ensures |r| == |col|
    ensures forall i :: 0 <= i < |col| ==> r[i] == (if mask[i] then v else col[i])
  {
    seq(|col|, i requires 0 <= i < |col| => if mask[i] then v else col[i])
  }

  /** Rows (in order) whose entry in `keep` is true. */
  function Select<T(!new)>(s: seq<T>, keep: seq<bool>): (r: seq<T>)
    requires |keep| == |s|
    ensures |r| == CountTrue(keep)
    ensures forall x :: x in r <==> exists i :: 0 <= i < |s| && keep[i] && s[i] == x
    decreases |s|
  {
    if s == [] then []
    else
      var n := |s|;
      var init := Select(s[..n - 1], keep[..n - 1]);
      if keep[n - 1] then init + [s[n - 1]] else init
  }

  /** Where a selection puts each kept row: kept row i lands at position
      CountTrue(keep[..i]), the number of kept rows before it. With the
      length CountTrue(keep), this fixes the result: every kept row once, in
      input order, and nothing else. */
  lemma {:induction false} SelectPositions<T(!new)>(s: seq<T>, keep: seq<bool>, i: nat)
    requires |keep| == |s| && i < |s| && keep[i]
    ensures CountTrue(keep[..i]) < |Select(s, keep)| && Select(s, keep)[CountTrue(keep[..i])] == s[i]
    decreases |s|
  {
    var n := |s|;
    var init := Select(s[..n - 1], keep[..n - 1]);
    if i < n - 1 {
      SelectPositions(s[..n - 1], keep[..n - 1], i);
      assert keep[..n - 1][..i] == keep[..i];
    } else {
      assert keep[..i] == keep[..n - 1];
    }
  }

  /** x sits in r where a selection by keep puts kept row i: after the kept
      rows above it. */
  predicate KeptAt<T(==)>(r: seq<T>, keep: seq<bool>, i: nat, x: T)
    requires i <= |keep|
  {
    CountTrue(keep[..i]) < |r| && r[CountTrue(keep[..i])] == x
  }

  /** A selection keeps the order of its rows: kept row i lands before every
      row j > i. */
  lemma {:induction false} SelectInOrder(keep: seq<bool>, i: nat, j: nat)
    requires i < j <= |keep| && keep[i]
    ensures CountTrue(keep[..i]) < CountTrue(keep[..j])
    decreases j
  {
    assert keep[..j][..j - 1] == keep[..j - 1];
    if j == i + 1 {
      assert keep[..j - 1] == keep[..i];
    } else {
      SelectInOrder(keep, i, j - 1);
    }
  }

  /** The pass mask of p over s. */
  function Mask<T>(s: seq<T>, p: T -> bool): (m: seq<bool>)
    ensures |m| == |s|
    ensures forall i :: 0 <= i < |s| ==> m[i] == p(s[i])
  {
    seq(|s|, i requires 0 <= i < |s| => p(s[i]))
  }

  /** Rows (in order) for which p holds: a boolean-mask selection or a drop. */
  function Filter<T(!new)>(s: seq<T>, p: T -> bool): (r: seq<T>)
    ensures |r| <= |s|
    ensures forall x :: x in r <==> x in s && p(x)
    decreases |s|
  {
    if s == [] then []
    else
      var init := Filter(s[..|s| - 1], p);
      assert forall x :: x in s <==> x in s[..|s| - 1] || x == s[|s| - 1];
      if p(s[|s| - 1]) then init + [s[|s| - 1]] else init
  }

  /** A drop is the selection by its pass mask, so the rows that pass keep
      their multiplicity and their order (SelectPositions). */
  lemma {:induction false} FilterIsSelect<T(!new)>(s: seq<T>, p: T -> bool)
    ensures Filter(s, p) == Select(s, Mask(s, p))
    decreases |s|
  {
    if s != [] {
      var n := |s|;
      FilterIsSelect(s[..n - 1], p);
      assert Mask(s[..n - 1], p) == Mask(s, p)[..n - 1];
    }
  }

  /** Keeping every row keeps the table as it is. */
  lemma {:induction false} SelectAll<T(!new)>(s: seq<T>, keep: seq<bool>)
    requires |keep| == |s|
    requires forall i :: 0 <= i < |keep| ==> keep[i]
    ensures Select(s, keep) == s
    decreases |s|
  {
    if s != [] {
      SelectAll(s[..|s| - 1], keep[..|keep| - 1]);
    }
  }

  /** Filtering keeps the relative order of the rows it keeps. */
  lemma {:induction false} FilterKeepsOrder<T(!new)>(s: seq<T>, p: T -> bool, lt: (T, T) -> bool)
    requires forall i, j :: 0 <= i < j < |s| ==> lt(s[i], s[j])
    ensures forall i, j :: 0 <= i < j < |Filter(s, p)| ==> lt(Filter(s, p)[i], Filter(s, p)[j])
    decreases |s|
  {
    if s != [] {
      var n := |s|;
      var init := Filter(s[..n - 1], p);
      FilterKeepsOrder(s[..n - 1], p, lt);
      if p(s[n - 1]) {
        var r := Filter(s, p);
        assert r == init + [s[n - 1]];
        forall i, j | 0 <= i < j < |r|
          ensures lt(r[i], r[j])
        {
          assert r[i] == init[i];
          if j == |init| {
            assert init[i] in s[..n - 1];
            var k :| 0 <= k < n - 1 && s[..n - 1][k] == init[i];
            assert s[k] == init[i] && lt(s[k], s[n - 1]);
          } else {
            assert r[j] == init[j] && lt(init[i], init[j]);
          }
        }
      } else {
        assert Filter(s, p) == init;
      }
    }
  }

  /** A filter every row passes keeps the table as it is. */
  lemma {:induction false} FilterAll<T(!new)>(s: seq<T>, p: T -> bool)
    requires forall i :: 0 <= i < |s| ==> p(s[i])
    ensures Filter(s, p) == s
    decreases |s|
  {
    if s != [] {
      FilterAll(s[..|s| - 1], p);
      assert s[..|s| - 1] + [s[|s| - 1]] == s;
    }
  }
}
