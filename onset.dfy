/** Step (b) and (c) of `cooking_event`: the running count of marked
    readings (`load_on_count`) and, for every row, the timestamp of the first
    row of its count group (`time_load_on`). The count runs over the whole
    table, not per meter. */
module Onset {
  import opened Frame

  /** `load_on.isnull() == False`. */
  function Marked(s: seq<Reading>): (m: seq<bool>)
    ensures |m| == |s|
  {
    seq(|s|, i requires 0 <= i < |s| => s[i].loadOn.Some?)
  }

  /** `load_on_count`: 1 added on every marked row, then a cumulative sum. */
  function LoadOnCount(s: seq<Reading>): (c: seq<nat>)
    ensures |c| == |s|
  {
    RunningCount(Marked(s))
  }

  /** `time_load_on`: the timestamp of the first row of the row's count group. */
  function TimeLoadOn(s: seq<Reading>): (t: seq<int>)
    ensures |t| == |s|
  {
    var c := LoadOnCount(s);
    seq(|s|, i requires 0 <= i < |s| => s[GroupFirst(c, i)].timestamp)
  }

  /** Reference definition: the latest marked row at or before row i, if any. */
  function LatestOnset(s: seq<Reading>, i: nat): (o: Option<nat>)
    requires i < |s|
    ensures o.Some? ==> o.value <= i && s[o.value].loadOn.Some? &&
                        forall k :: o.value < k <= i ==> s[k].loadOn.None?
    ensures o.None? ==> forall k :: 0 <= k <= i ==> s[k].loadOn.None?
  {
    if s[i].loadOn.Some? then Some(i)
    else if i == 0 then None
    else LatestOnset(s, i - 1)
  }

  /** `time_load_on` is the timestamp of the latest marked row at or before the
      row; rows before any mark (count group 0) get row 0's timestamp. */
  lemma TimeLoadOnIsLatestOnset(s: seq<Reading>, i: nat)
    requires i < |s|
    ensures TimeLoadOn(s)[i] == s[match LatestOnset(s, i) case Some(j) => j case None => 0].timestamp
  {
    var flags := Marked(s);
    var c := LoadOnCount(s);
    match LatestOnset(s, i)
    case Some(j) =>
      RunningCountFlat(flags, j, i);
      forall k | 0 <= k < j
        ensures c[k] != c[i]
      {
        RunningCountMonotone(flags, k, j - 1);
        RunningCountStep(flags, j);
      }
      GroupFirstUnique(c, i, j);
    case None =>
      RunningCountFlat(flags, 0, i);
      GroupFirstUnique(c, i, 0);
  }
}
