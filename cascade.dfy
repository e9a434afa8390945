/** Step (d) of `cooking_event`: the ordered cascade of masked assignments that
    sets the `cooking_start` and `cooking_end` flags. Each assignment computes
    its mask from the columns as they stood before it, and overwrites the rows
    under the mask; a later assignment wins over an earlier one. A neighbour
    that does not exist (before row 0, after the last row) makes every
    comparison false except `!=`. */
module FlagCascade {
  import opened Frame

  datatype Flags = Flags(start: seq<bool>, end: seq<bool>)

  function EnergyStep(p: EventParams): real
  {
    EnergyThreshold(p.minActiveLoad, p.powerCapacity, p.timeResolution)
  }

  function PowerLevel(p: EventParams): real
  {
    PowerThreshold(p.minActiveLoad, p.powerCapacity)
  }

  /** Lines 53-55: the energy rose by at least one step and more than the quiet
      gap has passed since the previous row's onset time, or a new meter begins. */
  predicate OnsetStart(rows: seq<Reading>, tlo: seq<int>, p: EventParams, i: nat)
    requires |tlo| == |rows| && i < |rows|
  {
    (i > 0 && rows[i].timestamp - tlo[i - 1] > p.tBetween &&
     rows[i].energy - rows[i - 1].energy >= EnergyStep(p)) ||
    MeterChangedFromPrev(rows, i)
  }

  /** Lines 57-59: the energy rose by at least one step less than the quiet gap
      after the previous reading (cleared). */
  predicate QuickRise(rows: seq<Reading>, p: EventParams, i: nat)
    requires i < |rows|
  {
    i > 0 && rows[i].energy - rows[i - 1].energy >= EnergyStep(p) &&
    rows[i].timestamp - rows[i - 1].timestamp < p.tBetween
  }

  /** Lines 61-62: the onset time moved on by more than the quiet gap plus one
      interval and the power is at the threshold. */
  predicate PowerAfterQuiet(rows: seq<Reading>, tlo: seq<int>, p: EventParams, i: nat)
    requires |tlo| == |rows| && i < |rows|
  {
    i > 0 && tlo[i] - tlo[i - 1] > p.tBetween + p.timeResolution && rows[i].power >= PowerLevel(p)
  }

  /** Lines 64-65: the next row starts an event, or the meter changes after
      this row (always true on the last row). */
  predicate BeforeStart(rows: seq<Reading>, start: seq<bool>, i: nat)
    requires |start| == |rows| && i < |rows|
  {
    (i + 1 < |rows| && start[i + 1]) || MeterChangesAtNext(rows, i)
  }

  /** Lines 67-69: the next row of the same meter ends, more than the quiet gap later. */
  predicate BeforeLongGap(rows: seq<Reading>, end: seq<bool>, p: EventParams, i: nat)
    requires |end| == |rows| && i < |rows|
  {
    i + 1 < |rows| && end[i + 1] && rows[i + 1].timestamp - rows[i].timestamp > p.tBetween &&
    rows[i + 1].meter == rows[i].meter
  }

  /** Lines 71-72: this row and the previous one both end. */
  predicate DoubleEnd(end: seq<bool>, i: nat)
    requires i < |end|
  {
    i > 0 && end[i - 1] && end[i]
  }

  /** Lines 74-78: a second start in a row, close to the previous row and far
      from the next one (cleared). */
  predicate StartBeforeLongGap(rows: seq<Reading>, start: seq<bool>, p: EventParams, i: nat)
    requires |start| == |rows| && i < |rows|
  {
    i > 0 && start[i - 1] && start[i] && rows[i].timestamp - rows[i - 1].timestamp <= p.tBetween &&
    i + 1 < |rows| && rows[i + 1].timestamp - rows[i].timestamp > p.tBetween
  }

  /** Lines 80-84: a second end in a row, far from the previous row and close
      to the next one (cleared). */
  predicate EndBeforeShortGap(rows: seq<Reading>, end: seq<bool>, p: EventParams, i: nat)
    requires |end| == |rows| && i < |rows|
  {
    i > 0 && end[i - 1] && end[i] && rows[i].timestamp - rows[i - 1].timestamp > p.tBetween &&
    i + 1 < |rows| && rows[i + 1].timestamp - rows[i].timestamp <= p.tBetween
  }

  /** Lines 86-89: a second start in a row, close to a previous reading that
      already drew power at the threshold (cleared). */
  predicate StartAfterPowered(rows: seq<Reading>, start: seq<bool>, p: EventParams, i: nat)
    requires |start| == |rows| && i < |rows|
  {
    i > 0 && start[i - 1] && start[i] && rows[i].timestamp - rows[i - 1].timestamp < p.tBetween &&
    rows[i - 1].power >= PowerLevel(p)
  }

  function OnsetStartMask(rows: seq<Reading>, tlo: seq<int>, p: EventParams): (m: seq<bool>)
    requires |tlo| == |rows|
    ensures |m| == |rows|
  {
    seq(|rows|, i requires 0 <= i < |rows| => OnsetStart(rows, tlo, p, i))
  }

  function QuickRiseMask(rows: seq<Reading>, p: EventParams): (m: seq<bool>)
    ensures |m| == |rows|
  {
    seq(|rows|, i requires 0 <= i < |rows| => QuickRise(rows, p, i))
  }

  function PowerAfterQuietMask(rows: seq<Reading>, tlo: seq<int>, p: EventParams): (m: seq<bool>)
    requires |tlo| == |rows|
    ensures |m| == |rows|
  {
    seq(|rows|, i requires 0 <= i < |rows| => PowerAfterQuiet(rows, tlo, p, i))
  }

  function BeforeStartMask(rows: seq<Reading>, start: seq<bool>): (m: seq<bool>)
    requires |start| == |rows|
    ensures |m| == |rows|
  {
    seq(|rows|, i requires 0 <= i < |rows| => BeforeStart(rows, start, i))
  }

  function BeforeLongGapMask(rows: seq<Reading>, end: seq<bool>, p: EventParams): (m: seq<bool>)
    requires |end| == |rows|
    ensures |m| == |rows|
  {
    seq(|rows|, i requires 0 <= i < |rows| => BeforeLongGap(rows, end, p, i))
  }

  function DoubleEndMask(end: seq<bool>): (m: seq<bool>)
    ensures |m| == |end|
  {
    seq(|end|, i requires 0 <= i < |end| => DoubleEnd(end, i))
  }

  function StartBeforeLongGapMask(rows: seq<Reading>, start: seq<bool>, p: EventParams): (m: seq<bool>)
    requires |start| == |rows|
    ensures |m| == |rows|
  {
    seq(|rows|, i requires 0 <= i < |rows| => StartBeforeLongGap(rows, start, p, i))
  }

  function EndBeforeShortGapMask(rows: seq<Reading>, end: seq<bool>, p: EventParams): (m: seq<bool>)
    requires |end| == |rows|
    ensures |m| == |rows|
  {
    seq(|rows|, i requires 0 <= i < |rows| => EndBeforeShortGap(rows, end, p, i))
  }

  function StartAfterPoweredMask(rows: seq<Reading>, start: seq<bool>, p: EventParams): (m: seq<bool>)
    requires |start| == |rows|
    ensures |m| == |rows|
  {
    seq(|rows|, i requires 0 <= i < |rows| => StartAfterPowered(rows, start, p, i))
  }

  /** Lines 91-92: `meter != meter.shift()`, true on row 0. */
  function NewMeterMask(rows: seq<Reading>): (m: seq<bool>)
    ensures |m| == |rows|
  {
    seq(|rows|, i requires 0 <= i < |rows| => MeterChangedFromPrev(rows, i))
  }

  /** A freshly created flag column: false on every row. */
  function Cleared(n: nat): (c: seq<bool>)
    ensures |c| == n && forall i :: 0 <= i < n ==> !c[i]
  {
    seq(n, _ => false)
  }

  /** The whole cascade, in source order, from all-false columns. Row 0 and
      every row whose meter differs from the previous row's start an event and
      do not end one; the last row ends an event unless it alone is its meter's
      first reading. */
  function Cascade(rows: seq<Reading>, tlo: seq<int>, p: EventParams): (f: Flags)
    requires |tlo| == |rows|
    ensures |f.start| == |rows| && |f.end| == |rows|
    ensures forall i :: 0 <= i < |rows| && MeterChangedFromPrev(rows, i) ==> f.start[i] && !f.end[i]
    ensures |rows| > 0 ==> f.end[|rows| - 1] == !MeterChangedFromPrev(rows, |rows| - 1)
  {
    var start0 := Cleared(|rows|);
    var end0 := Cleared(|rows|);
    var start1 := Assign(start0, OnsetStartMask(rows, tlo, p), true);            // 53-55
    var start2 := Assign(start1, QuickRiseMask(rows, p), false);                 // 57-59
    var start3 := Assign(start2, PowerAfterQuietMask(rows, tlo, p), true);       // 61-62
    var end1 := Assign(end0, BeforeStartMask(rows, start3), true);               // 64-65
    var end2 := Assign(end1, BeforeLongGapMask(rows, end1, p), true);            // 67-69
    var start4 := Assign(start3, DoubleEndMask(end2), true);                     // 71-72
    var start5 := Assign(start4, StartBeforeLongGapMask(rows, start4, p), false); // 74-78
    var end3 := Assign(end2, EndBeforeShortGapMask(rows, end2, p), false);       // 80-84
    var start6 := Assign(start5, StartAfterPoweredMask(rows, start5, p), false); // 86-89
    var start7 := Assign(start6, NewMeterMask(rows), true);                      // 91
    var end4 := Assign(end3, NewMeterMask(rows), false);                         // 92
    Flags(start7, end4)
  }
}
