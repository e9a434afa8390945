/** `timestamp_issue`: an event is dropped when its first row, plus the margin,
    has no more energy than the row above it in the table of first rows of
    the groups, on the same meter; or when its last row does so in the table
    of last rows. */
module Integrity {
  import opened Frame
  import opened Events

  /** Two rows belong to the same (meter, event) group. */
  predicate SameGroup(a: Row, b: Row)
  {
    a.reading.meter == b.reading.meter && a.event == b.event
  }

  /** Row i is kept by `groupby(['meter_number', 'cooking_event']).head(1)`:
      the first row of its group. Rows without an event number form no group. */
  predicate IsHead(rows: seq<Row>, i: nat)
    requires i < |rows|
  {
    rows[i].event.Some? && forall k :: 0 <= k < i ==> !SameGroup(rows[k], rows[i])
  }

  /** Row i is kept by `.tail(1)`: the last row of its group. */
  predicate IsTail(rows: seq<Row>, i: nat)
    requires i < |rows|
  {
    rows[i].event.Some? && forall k :: i < k < |rows| ==> !SameGroup(rows[k], rows[i])
  }

  /** The first row of every group, in table order. */
  function Heads(rows: seq<Row>): (h: seq<Row>)
    ensures |h| == CountTrue(HeadMask(rows)) <= |rows|
    ensures forall x :: x in h ==> x in rows && x.event.Some?
  {
    Select(rows, HeadMask(rows))
  }

  function HeadMask(rows: seq<Row>): (m: seq<bool>)
    ensures |m| == |rows|
  {
    seq(|rows|, i requires 0 <= i < |rows| => IsHead(rows, i))
  }

  /** The last row of every group, in table order. */
  function Tails(rows: seq<Row>): (t: seq<Row>)
    ensures |t| == CountTrue(TailMask(rows)) <= |rows|
    ensures forall x :: x in t ==> x in rows && x.event.Some?
  {
    Select(rows, TailMask(rows))
  }

  function TailMask(rows: seq<Row>): (m: seq<bool>)
    ensures |m| == |rows|
  {
    seq(|rows|, i requires 0 <= i < |rows| => IsTail(rows, i))
  }

  /** The head table lists the first row of every group once, in table
      order: head row i sits at position CountTrue(HeadMask(rows)[..i]), the
      number of head rows above it, and a later head row j sits further down. */
  lemma HeadsInOrder(rows: seq<Row>, i: nat, j: nat)
    requires i <= j < |rows| && IsHead(rows, i) && IsHead(rows, j)
    ensures KeptAt(Heads(rows), HeadMask(rows), i, rows[i])
    ensures KeptAt(Heads(rows), HeadMask(rows), j, rows[j])
    ensures i < j ==> CountTrue(HeadMask(rows)[..i]) < CountTrue(HeadMask(rows)[..j])
  {
    SelectPositions(rows, HeadMask(rows), i);
    SelectPositions(rows, HeadMask(rows), j);
    if i < j {
      SelectInOrder(HeadMask(rows), i, j);
    }
  }

  /** The tail table lists the last row of every group once, in table order. */
  lemma TailsInOrder(rows: seq<Row>, i: nat, j: nat)
    requires i <= j < |rows| && IsTail(rows, i) && IsTail(rows, j)
    ensures KeptAt(Tails(rows), TailMask(rows), i, rows[i])
    ensures KeptAt(Tails(rows), TailMask(rows), j, rows[j])
    ensures i < j ==> CountTrue(TailMask(rows)[..i]) < CountTrue(TailMask(rows)[..j])
  {
    SelectPositions(rows, TailMask(rows), i);
    SelectPositions(rows, TailMask(rows), j);
    if i < j {
      SelectInOrder(TailMask(rows), i, j);
    }
  }

  /** Lines 125-127 and 133-135: in a table of group boundary rows, row k's
      energy plus the margin is at most the previous row's, and both rows
      belong to the same meter (on row 0 the shifted values are missing). */
  predicate Regressed(t: seq<Row>, k: nat, minCookingEvent: real)
    requires k < |t|
  {
    k > 0 && t[k].reading.energy + minCookingEvent <= t[k - 1].reading.energy &&
    t[k].event.Some? && t[k].reading.meter == t[k - 1].reading.meter
  }

  /** `set_index('cooking_event')[col].to_dict()`: one entry per event number,
      a later row overwriting an earlier one with the same number. A true entry
      is the flag `True`; false stands for the missing value. */
  function ToDict(t: seq<Row>, vals: seq<bool>): map<nat, bool>
    requires |vals| == |t|
    decreases |t|
  {
    if t == [] then map[]
    else
      var d := ToDict(t[..|t| - 1], vals[..|t| - 1]);
      match t[|t| - 1].event
      case None => d
      case Some(k) => d[k := vals[|t| - 1]]
  }

  /** Reference definition: the last row of t numbered k, if any. */
  function LastWithEvent(t: seq<Row>, k: nat): (o: Option<nat>)
    ensures o.Some? ==> o.value < |t| && t[o.value].event == Some(k) &&
                        forall q :: o.value < q < |t| ==> t[q].event != Some(k)
    ensures o.None? ==> forall q :: 0 <= q < |t| ==> t[q].event != Some(k)
    decreases |t|
  {
    if t == [] then None
    else if t[|t| - 1].event == Some(k) then Some(|t| - 1)
    else LastWithEvent(t[..|t| - 1], k)
  }

  /** The dictionary holds an entry for k exactly when some row is numbered k,
      and the entry is the value on the last such row. */
  lemma {:induction false} ToDictLookup(t: seq<Row>, vals: seq<bool>, k: nat)
    requires |vals| == |t|
    ensures k in ToDict(t, vals) <==> LastWithEvent(t, k).Some?
    ensures LastWithEvent(t, k).Some? ==> ToDict(t, vals)[k] == vals[LastWithEvent(t, k).value]
    decreases |t|
  {
    if t != [] {
      ToDictLookup(t[..|t| - 1], vals[..|t| - 1], k);
    }
  }

  /** `.map(dict)` on the event column compared with `== True`. */
  predicate Flagged(d: map<nat, bool>, r: Row)
  {
    r.event.Some? && r.event.value in d && d[r.event.value]
  }

  /** The check at the start of events: a flag per head row. */
  function StartChecks(h: seq<Row>, minCookingEvent: real): (c: seq<bool>)
    ensures |c| == |h|
  {
    seq(|h|, k requires 0 <= k < |h| => Regressed(h, k, minCookingEvent))
  }

  /** Line 129: event number -> start flag. */
  function StartDict(rows: seq<Row>, minCookingEvent: real): map<nat, bool>
  {
    var h := Heads(rows);
    ToDict(h, StartChecks(h, minCookingEvent))
  }

  /** The check at the end of events: the tail rows carry the start flag of
      their event (the column exists by then), and a failing end check sets it. */
  function EndChecks(t: seq<Row>, start: map<nat, bool>, minCookingEvent: real): (c: seq<bool>)
    ensures |c| == |t|
  {
    seq(|t|, k requires 0 <= k < |t| => Regressed(t, k, minCookingEvent) || Flagged(start, t[k]))
  }

  /** Line 136: event number -> final flag. */
  function EndDict(rows: seq<Row>, minCookingEvent: real): map<nat, bool>
  {
    var t := Tails(rows);
    ToDict(t, EndChecks(t, StartDict(rows, minCookingEvent), minCookingEvent))
  }

  /** The final `timestamp_issue == True` of a row. */
  predicate EventFlagged(rows: seq<Row>, minCookingEvent: real, r: Row)
  {
    Flagged(EndDict(rows, minCookingEvent), r)
  }

  /** The check made at the last row of table t numbered k. */
  predicate LastRegressed(t: seq<Row>, minCookingEvent: real, k: nat)
  {
    match LastWithEvent(t, k)
    case Some(j) => Regressed(t, j, minCookingEvent)
    case None => false
  }

  /** The start check of event k, made at the last head row numbered k (the
      only one when event numbers are unique to a group, as `cooking_event`
      makes them). */
  predicate StartRegressed(rows: seq<Row>, minCookingEvent: real, k: nat)
  {
    LastRegressed(Heads(rows), minCookingEvent, k)
  }

  /** The end check of event k, made at the last tail row numbered k. */
  predicate EndRegressed(rows: seq<Row>, minCookingEvent: real, k: nat)
  {
    LastRegressed(Tails(rows), minCookingEvent, k)
  }

  /** Every event number found in table h is also found in table t. */
  ghost predicate EventsCovered(h: seq<Row>, t: seq<Row>)
  {
    forall k: nat :: LastWithEvent(h, k).Some? ==> LastWithEvent(t, k).Some?
  }

  /** The two dictionaries built from a head table h and a tail table t that
      holds all of h's event numbers flag event k exactly when the check at
      its last head or its last tail fails. */
  lemma TwoStageFlag(h: seq<Row>, t: seq<Row>, minCookingEvent: real, r: Row)
    requires EventsCovered(h, t)
    ensures Flagged(ToDict(t, EndChecks(t, ToDict(h, StartChecks(h, minCookingEvent)), minCookingEvent)), r) <==>
      r.event.Some? && (LastRegressed(h, minCookingEvent, r.event.value) ||
                        LastRegressed(t, minCookingEvent, r.event.value))
  {
    if r.event.Some? {
      var k := r.event.value;
      var d1 := ToDict(h, StartChecks(h, minCookingEvent));
      ToDictLookup(h, StartChecks(h, minCookingEvent), k);
      ToDictLookup(t, EndChecks(t, d1, minCookingEvent), k);
    }
  }

  /** The last row at or below j of row i's group, searching downwards. */
  function LastOfGroupFrom(rows: seq<Row>, i: nat, j: nat): (g: nat)
    requires i <= j < |rows|
    requires forall k :: j < k < |rows| ==> !SameGroup(rows[k], rows[i])
    ensures i <= g <= j && SameGroup(rows[g], rows[i])
    ensures forall k :: g < k < |rows| ==> !SameGroup(rows[k], rows[i])
    decreases j
  {
    if SameGroup(rows[j], rows[i]) then j else LastOfGroupFrom(rows, i, j - 1)
  }

  /** Row x of t carries number k, so t has a last row numbered k. */
  lemma NumberFound(t: seq<Row>, x: Row, k: nat)
    requires x in t && x.event == Some(k)
    ensures LastWithEvent(t, k).Some?
  {
    var q :| 0 <= q < |t| && t[q] == x;
  }

  /** Every group with a first row also has a last row. */
  lemma HeadsCoveredByTails(rows: seq<Row>)
    ensures EventsCovered(Heads(rows), Tails(rows))
  {
    var h := Heads(rows);
    var t := Tails(rows);
    forall k: nat | LastWithEvent(h, k).Some?
      ensures LastWithEvent(t, k).Some?
    {
      var x := h[LastWithEvent(h, k).value];
      assert x in h;
      var i :| 0 <= i < |rows| && IsHead(rows, i) && rows[i] == x;
      var g := LastOfGroupFrom(rows, i, |rows| - 1);
      assert IsTail(rows, g);
      NumberFound(t, rows[g], k);
    }
  }

  /** A row's event is flagged exactly when it has a number and either the
      start check or the end check of that event fails. */
  lemma EventFlaggedIff(rows: seq<Row>, minCookingEvent: real, r: Row)
    ensures EventFlagged(rows, minCookingEvent, r) <==>
      r.event.Some? && (StartRegressed(rows, minCookingEvent, r.event.value) ||
                        EndRegressed(rows, minCookingEvent, r.event.value))
  {
    HeadsCoveredByTails(rows);
    TwoStageFlag(Heads(rows), Tails(rows), minCookingEvent, r);
  }

  /** The table `timestamp_issue` is meant to return: every row of a flagged
      event dropped, every other row kept, order unchanged. */
  function TimestampIssue(rows: seq<Row>, minCookingEvent: real): (r: seq<Row>)
    ensures |r| == CountTrue(UnflaggedMask(rows, minCookingEvent)) <= |rows|
    ensures forall x :: x in r <==> x in rows && !EventFlagged(rows, minCookingEvent, x)
  {
    Select(rows, UnflaggedMask(rows, minCookingEvent))
  }

  /** The rows whose event is not flagged. */
  function UnflaggedMask(rows: seq<Row>, minCookingEvent: real): (m: seq<bool>)
    ensures |m| == |rows|
  {
    seq(|rows|, i requires 0 <= i < |rows| => !EventFlagged(rows, minCookingEvent, rows[i]))
  }

  /** Every surviving row appears once, in table order: unflagged row i sits at
      position CountTrue(UnflaggedMask(...)[..i]), and a later unflagged row j
      sits further down. */
  lemma TimestampIssueInOrder(rows: seq<Row>, minCookingEvent: real, i: nat, j: nat)
    requires i <= j < |rows|
    requires !EventFlagged(rows, minCookingEvent, rows[i]) && !EventFlagged(rows, minCookingEvent, rows[j])
    ensures KeptAt(TimestampIssue(rows, minCookingEvent), UnflaggedMask(rows, minCookingEvent), i, rows[i])
    ensures KeptAt(TimestampIssue(rows, minCookingEvent), UnflaggedMask(rows, minCookingEvent), j, rows[j])
    ensures i < j ==> CountTrue(UnflaggedMask(rows, minCookingEvent)[..i]) <
                      CountTrue(UnflaggedMask(rows, minCookingEvent)[..j])
  {
    var m := UnflaggedMask(rows, minCookingEvent);
    SelectPositions(rows, m, i);
    SelectPositions(rows, m, j);
    if i < j {
      SelectInOrder(m, i, j);
    }
  }

  /** Rows without an event number, and all rows of an event whose checks
      pass, survive; no row of a flagged event does. */
  lemma TimestampIssueKeepsUnflagged(rows: seq<Row>, minCookingEvent: real, x: Row)
    requires x in rows
    ensures x in TimestampIssue(rows, minCookingEvent) <==>
      x.event.None? || !(StartRegressed(rows, minCookingEvent, x.event.value) ||
                         EndRegressed(rows, minCookingEvent, x.event.value))
  {
    EventFlaggedIff(rows, minCookingEvent, x);
  }

  /** Line 137 as written: the flagged rows' index labels (timestamps) are
      dropped, which removes every row carrying one of those timestamps. */
  function DropByTimestampLabel(rows: seq<Row>, minCookingEvent: real): (r: seq<Row>)
    ensures forall x :: x in r <==>
              x in rows &&
              forall y :: y in rows && EventFlagged(rows, minCookingEvent, y) ==> y.reading.timestamp != x.reading.timestamp
  {
    var labels := set x | x in rows && EventFlagged(rows, minCookingEvent, x) :: x.reading.timestamp;
    Filter(rows, (x: Row) => x.reading.timestamp !in labels)
  }

  /** The drop as written removes every row the intended filter removes, and
      possibly more: what line 137 keeps is kept by the intended filter. */
  lemma LabelDropWithinIntended(rows: seq<Row>, minCookingEvent: real, x: Row)
    requires x in DropByTimestampLabel(rows, minCookingEvent)
    ensures x in TimestampIssue(rows, minCookingEvent)
  {
    assert x in rows && !EventFlagged(rows, minCookingEvent, x);
  }

  /** A boundary row for the example below: one reading per event. */
  function ExampleRow(meter: int, timestamp: int, energy: real, event: nat): Row
  {
    Row(Reading(meter, timestamp, energy, 0.0, None), 0, timestamp, true, true, Some(event),
        timestamp, timestamp, 0, 0)
  }

  /** Meter 1's second event starts 4 kWh below its first, so it is flagged;
      meter 2's only event, read at the same instant, passes both checks. The
      intended table keeps meter 2's row, dropping by timestamp label loses it. */
  lemma DropByLabelLosesOtherMeter()
    ensures var rows := [ExampleRow(1, 0, 5.0, 1), ExampleRow(1, 10, 1.0, 2), ExampleRow(2, 10, 0.0, 3)];
      && EventFlagged(rows, 0.1, rows[1])
      && !EventFlagged(rows, 0.1, rows[2])
      && rows[2] in TimestampIssue(rows, 0.1)
      && rows[2] !in DropByTimestampLabel(rows, 0.1)
  {
    var rows := [ExampleRow(1, 0, 5.0, 1), ExampleRow(1, 10, 1.0, 2), ExampleRow(2, 10, 0.0, 3)];
    assert IsHead(rows, 0) && IsHead(rows, 1) && IsHead(rows, 2);
    assert IsTail(rows, 0) && IsTail(rows, 1) && IsTail(rows, 2);
    SelectAll(rows, HeadMask(rows));
    SelectAll(rows, TailMask(rows));
    assert LastWithEvent(rows, 2) == Some(1);
    assert LastWithEvent(rows, 3) == Some(2);
    EventFlaggedIff(rows, 0.1, rows[1]);
    EventFlaggedIff(rows, 0.1, rows[2]);
  }
}
