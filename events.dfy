/** Steps (e)-(h) of `cooking_event`: the event number is the running count of
    start flags; every row learns the first and last timestamp of its event,
    the event's duration and its own offset into it; a lone-reading event
    with too small an energy rise loses its number. The numbering, like the
    onset count, runs over the whole table. */
module Events {
  import opened Frame
  import opened Onset
  import opened FlagCascade

  /** A row of the table `cooking_event` returns: the reading and the columns
      the step adds. `event` is missing for disqualified rows; the duration
      columns are computed before the disqualification and keep their values. */
  datatype Row = Row(reading: Reading, loadOnCount: nat, timeLoadOn: int, start: bool, end: bool,
                     event: Option<nat>, timeStart: int, timeEnd: int, cookingTime: int, seqTime: int)

  /** The flags of the cascade for these readings. */
  function Boundaries(rows: seq<Reading>, p: EventParams): (f: Flags)
    ensures |f.start| == |rows| && |f.end| == |rows|
  {
    Cascade(rows, TimeLoadOn(rows), p)
  }

  /** Lines 95-97: `cooking_event`, the running count of start flags. */
  function EventIds(rows: seq<Reading>, p: EventParams): (ids: seq<nat>)
    ensures |ids| == |rows|
  {
    RunningCount(Boundaries(rows, p).start)
  }

  /** Lines 113-114: the event number differs from both neighbours' (a missing
      neighbour counts as different). */
  predicate Lone(ids: seq<nat>, i: nat)
    requires i < |ids|
  {
    (i == 0 || ids[i] != ids[i - 1]) && (i + 1 == |ids| || ids[i] != ids[i + 1])
  }

  /** No other row carries row i's event number. */
  ghost predicate SoleMember(ids: seq<nat>, i: nat)
    requires i < |ids|
  {
    forall k :: 0 <= k < |ids| && k != i ==> ids[k] != ids[i]
  }

  /** Lines 113-115: a lone row whose energy rose less than the minimum since the
      previous row (of any meter; on row 0 the comparison with the missing
      value is false). */
  predicate Disqualified(rows: seq<Reading>, ids: seq<nat>, p: EventParams, i: nat)
    requires |ids| == |rows| && i < |rows|
  {
    Lone(ids, i) && i > 0 && rows[i].energy - rows[i - 1].energy < p.minCookingEvent
  }

  /** Row i of the processed table. */
  function EventRow(rows: seq<Reading>, counts: seq<nat>, tlo: seq<int>, f: Flags, ids: seq<nat>,
                    p: EventParams, i: nat): Row
    requires |counts| == |rows| && |tlo| == |rows| && |f.start| == |rows| && |f.end| == |rows|
    requires |ids| == |rows| && i < |rows|
  {
    var timeStart := rows[GroupFirst(ids, i)].timestamp;
    var timeEnd := rows[GroupLast(ids, i)].timestamp;
    Row(rows[i], counts[i], tlo[i], f.start[i], f.end[i],
        if Disqualified(rows, ids, p, i) then None else Some(ids[i]),
        timeStart, timeEnd, timeEnd - timeStart, rows[i].timestamp - timeStart)
  }

  /** The processed table for given flags: one row per reading, in order. */
  function EventTable(rows: seq<Reading>, counts: seq<nat>, tlo: seq<int>, f: Flags, p: EventParams): (r: seq<Row>)
    requires |counts| == |rows| && |tlo| == |rows| && |f.start| == |rows| && |f.end| == |rows|
    ensures |r| == |rows|
    ensures forall i :: 0 <= i < |rows| ==> r[i].reading == rows[i]
  {
    var ids := RunningCount(f.start);
    seq(|rows|, i requires 0 <= i < |rows| => EventRow(rows, counts, tlo, f, ids, p, i))
  }

  /** The table `cooking_event` returns (before it is re-indexed by timestamp):
      one row per reading, in the same order, each carrying its reading unchanged. */
  function CookingEvent(rows: seq<Reading>, p: EventParams): (r: seq<Row>)
    ensures |r| == |rows|
    ensures forall i :: 0 <= i < |rows| ==> r[i].reading == rows[i]
  {
    EventTable(rows, LoadOnCount(rows), TimeLoadOn(rows), Boundaries(rows, p), p)
  }

  /** Every row that begins a meter (row 0 included) carries a start flag. */
  ghost predicate StartsAtMeterChanges(rows: seq<Reading>, start: seq<bool>)
  {
    |start| == |rows| && forall i :: 0 <= i < |rows| && MeterChangedFromPrev(rows, i) ==> start[i]
  }

  lemma BoundariesStartAtMeterChanges(rows: seq<Reading>, p: EventParams)
    ensures StartsAtMeterChanges(rows, Boundaries(rows, p).start)
  {
  }

  /** Event numbers start at 1 on row 0 and rise by exactly one at each start
      flag, so by one at every meter change. */
  lemma IdsStep(rows: seq<Reading>, start: seq<bool>, i: nat)
    requires StartsAtMeterChanges(rows, start) && i < |rows|
    ensures i == 0 ==> RunningCount(start)[0] == 1
    ensures i > 0 ==> RunningCount(start)[i] == RunningCount(start)[i - 1] + (if start[i] then 1 else 0)
    ensures i > 0 && rows[i].meter != rows[i - 1].meter ==> RunningCount(start)[i] == RunningCount(start)[i - 1] + 1
  {
    RunningCountStep(start, i);
  }

  /** Event numbers never decrease and are at least 1. */
  lemma IdsMonotone(rows: seq<Reading>, start: seq<bool>, i: nat, j: nat)
    requires StartsAtMeterChanges(rows, start) && i <= j < |rows|
    ensures 1 <= RunningCount(start)[i] <= RunningCount(start)[j]
  {
    RunningCountMonotone(start, 0, i);
    RunningCountMonotone(start, i, j);
    IdsStep(rows, start, 0);
  }

  /** Two rows with the same event number lie in one run of their meter:
      no event spans a meter change. */
  lemma {:induction false} IdsWithinMeter(rows: seq<Reading>, start: seq<bool>, i: nat, j: nat)
    requires StartsAtMeterChanges(rows, start) && i <= j < |rows|
    requires RunningCount(start)[i] == RunningCount(start)[j]
    ensures forall k :: i <= k <= j ==> rows[k].meter == rows[i].meter
    decreases j - i
  {
    if i < j {
      IdsMonotone(rows, start, i, j - 1);
      IdsMonotone(rows, start, j - 1, j);
      IdsWithinMeter(rows, start, i, j - 1);
      IdsStep(rows, start, j);
    }
  }

  /** Within one event, timestamps sorted per meter are sorted. */
  lemma {:induction false} IdsRunSorted(rows: seq<Reading>, start: seq<bool>, a: nat, b: nat)
    requires StartsAtMeterChanges(rows, start) && TimeSortedWithinMeter(rows)
    requires a <= b < |rows| && RunningCount(start)[a] == RunningCount(start)[b]
    ensures rows[a].timestamp <= rows[b].timestamp
    decreases b - a
  {
    if a < b {
      IdsMonotone(rows, start, a, b - 1);
      IdsMonotone(rows, start, b - 1, b);
      IdsStep(rows, start, b);
      IdsRunSorted(rows, start, a, b - 1);
    }
  }

  /** An event runs from a start-flagged row j up to the row e before the next
      start flag (or the last row); every row in j..e gets j's timestamp as
      `time_start`, e's as `time_end`, their difference as `cooking_time`, and
      its own offset from j as `seq_time`. */
  lemma TableSpanBounds(rows: seq<Reading>, counts: seq<nat>, tlo: seq<int>, f: Flags, p: EventParams,
                        i: nat, j: nat, e: nat)
    requires |counts| == |rows| && |tlo| == |rows| && |f.start| == |rows| && |f.end| == |rows|
    requires j <= i <= e < |rows|
    requires f.start[j]
    requires forall k :: j < k <= e ==> !f.start[k]
    requires e + 1 == |rows| || f.start[e + 1]
    ensures var r := EventTable(rows, counts, tlo, f, p)[i];
      && r.timeStart == rows[j].timestamp && r.timeEnd == rows[e].timestamp
      && r.cookingTime == rows[e].timestamp - rows[j].timestamp
      && r.seqTime == rows[i].timestamp - rows[j].timestamp
  {
    RunningCountGroupFirst(f.start, i, j);
    RunningCountGroupLast(f.start, i, e);
  }

  /** With timestamps sorted within each meter, 0 <= seq_time <= cooking_time. */
  lemma TableSeqTimeWithinEvent(rows: seq<Reading>, counts: seq<nat>, tlo: seq<int>, f: Flags, p: EventParams, i: nat)
    requires |counts| == |rows| && |tlo| == |rows| && |f.end| == |rows|
    requires StartsAtMeterChanges(rows, f.start) && TimeSortedWithinMeter(rows) && i < |rows|
    ensures 0 <= EventTable(rows, counts, tlo, f, p)[i].seqTime <= EventTable(rows, counts, tlo, f, p)[i].cookingTime
  {
    var ids := RunningCount(f.start);
    IdsRunSorted(rows, f.start, GroupFirst(ids, i), i);
    IdsRunSorted(rows, f.start, i, GroupLast(ids, i));
  }

  /** A row loses its event number exactly when it is the only row of its
      event, it is not row 0, and its energy rose less than the minimum since
      the previous row; every other row keeps its number. */
  lemma TableDisqualifiedIff(rows: seq<Reading>, counts: seq<nat>, tlo: seq<int>, f: Flags, p: EventParams, i: nat)
    requires |counts| == |rows| && |tlo| == |rows| && |f.end| == |rows|
    requires StartsAtMeterChanges(rows, f.start) && i < |rows|
    ensures var r := EventTable(rows, counts, tlo, f, p)[i];
            var ids := RunningCount(f.start);
      && (r.event.None? <==>
            SoleMember(ids, i) &&
            i > 0 && rows[i].energy - rows[i - 1].energy < p.minCookingEvent)
      && (r.event.Some? ==> r.event.value == ids[i])
  {
    var ids := RunningCount(f.start);
    if Lone(ids, i) {
      forall k | 0 <= k < |rows| && k != i
        ensures ids[k] != ids[i]
      {
        if k < i {
          IdsMonotone(rows, f.start, k, i - 1);
          IdsMonotone(rows, f.start, i - 1, i);
        } else {
          IdsMonotone(rows, f.start, i, i + 1);
          IdsMonotone(rows, f.start, i + 1, k);
        }
      }
    }
  }

  /** The numbering of `cooking_event`: 1 on row 0, then a rise of one exactly
      at each start flag, and therefore at every meter change. */
  lemma EventNumbering(rows: seq<Reading>, p: EventParams, i: nat)
    requires i < |rows|
    ensures i == 0 ==> EventIds(rows, p)[0] == 1
    ensures i > 0 ==> EventIds(rows, p)[i] ==
                      EventIds(rows, p)[i - 1] + (if Boundaries(rows, p).start[i] then 1 else 0)
    ensures i > 0 && rows[i].meter != rows[i - 1].meter ==> EventIds(rows, p)[i] == EventIds(rows, p)[i - 1] + 1
  {
    BoundariesStartAtMeterChanges(rows, p);
    IdsStep(rows, Boundaries(rows, p).start, i);
  }

  /** No event number of `cooking_event` spans a meter change. */
  lemma EventWithinMeter(rows: seq<Reading>, p: EventParams, i: nat, j: nat)
    requires i <= j < |rows| && EventIds(rows, p)[i] == EventIds(rows, p)[j]
    ensures forall k :: i <= k <= j ==> rows[k].meter == rows[i].meter
  {
    BoundariesStartAtMeterChanges(rows, p);
    IdsWithinMeter(rows, Boundaries(rows, p).start, i, j);
  }

  /** `time_start` and `time_end` of every row are the first and last timestamps
      of its event: the event runs from its start-flagged row j to the row e
      before the next start flag (or to the last row). */
  lemma EventBounds(rows: seq<Reading>, p: EventParams, i: nat, j: nat, e: nat)
    requires j <= i <= e < |rows|
    requires Boundaries(rows, p).start[j]
    requires forall k :: j < k <= e ==> !Boundaries(rows, p).start[k]
    requires e + 1 == |rows| || Boundaries(rows, p).start[e + 1]
    ensures var r := CookingEvent(rows, p)[i];
      && r.timeStart == rows[j].timestamp && r.timeEnd == rows[e].timestamp
      && r.cookingTime == rows[e].timestamp - rows[j].timestamp
      && r.seqTime == rows[i].timestamp - rows[j].timestamp
  {
    TableSpanBounds(rows, LoadOnCount(rows), TimeLoadOn(rows), Boundaries(rows, p), p, i, j, e);
  }

  /** With timestamps sorted within each meter, 0 <= seq_time <= cooking_time
      on every row of `cooking_event`. */
  lemma SeqTimeWithinEvent(rows: seq<Reading>, p: EventParams, i: nat)
    requires TimeSortedWithinMeter(rows) && i < |rows|
    ensures 0 <= CookingEvent(rows, p)[i].seqTime <= CookingEvent(rows, p)[i].cookingTime
  {
    BoundariesStartAtMeterChanges(rows, p);
    TableSeqTimeWithinEvent(rows, LoadOnCount(rows), TimeLoadOn(rows), Boundaries(rows, p), p, i);
  }

  /** A row of `cooking_event` loses its number exactly when its event has no
      other row, it is not row 0, and its energy rose less than the minimum
      since the previous row; every other row keeps the number. */
  lemma LoneEventDisqualified(rows: seq<Reading>, p: EventParams, i: nat)
    requires i < |rows|
    ensures var r := CookingEvent(rows, p)[i];
            var ids := EventIds(rows, p);
      && (r.event.None? <==>
            SoleMember(ids, i) &&
            i > 0 && rows[i].energy - rows[i - 1].energy < p.minCookingEvent)
      && (r.event.Some? ==> r.event.value == ids[i])
  {
    BoundariesStartAtMeterChanges(rows, p);
    TableDisqualifiedIff(rows, LoadOnCount(rows), TimeLoadOn(rows), Boundaries(rows, p), p, i);
  }
}
