/** Worked examples: concrete tables carried through the model. */
module Scenarios {
  import opened Frame
  import opened Spikes
  import opened LoadOn
  import opened Onset
  import opened FlagCascade
  import opened Events
  import opened Integrity
  import opened Summary
  import opened Driver

  /** One meal on meter 7: readings every five minutes, the energy rising by
      0.2 kWh twice while 2 kW are drawn, then idle. */
  function MealReadings(): seq<Reading>
  {
    [Reading(7, 0, 0.0, 0.0, None), Reading(7, 5, 0.2, 2.0, None),
     Reading(7, 10, 0.4, 2.0, None), Reading(7, 15, 0.4, 0.0, None)]
  }

  /** The meal's readings with their load marks. */
  function MealMarked(): seq<Reading>
  {
    [Reading(7, 0, 0.0, 0.0, None), Reading(7, 5, 0.2, 2.0, Some(0.2)),
     Reading(7, 10, 0.4, 2.0, Some(0.2)), Reading(7, 15, 0.4, 0.0, None)]
  }

  /** The meal's processed table: one event from minute 0 to minute 15. */
  function MealEvents(): seq<Row>
  {
    var m := MealMarked();
    [Row(m[0], 0, 0, true, false, Some(1), 0, 15, 15, 0),
     Row(m[1], 1, 5, false, false, Some(1), 0, 15, 15, 5),
     Row(m[2], 2, 10, false, false, Some(1), 0, 15, 15, 10),
     Row(m[3], 2, 10, false, true, Some(1), 0, 15, 15, 15)]
  }

  /** The meal's aggregates: 0.4 kWh in 15 minutes, 1.6 kW on average. */
  function MealStats(): GroupStats
  {
    GroupStats(Key(7, 1), 0.4, 0.4, 15, 0, 4, Finite(1.6))
  }

  /** No spikes to remove; the two rising readings are marked with their rise. */
  lemma MealCleaned()
    ensures Cleaned(MealReadings()) == MealMarked()
  {
    assert NoSpikes(MealReadings(), MinSizeOfSpikes);
    RepeatAtFixedPoint(MealReadings(), MinSizeOfSpikes, SpikePasses);
  }

  lemma MealLoadOnCount()
    ensures LoadOnCount(MealMarked()) == [0, 1, 2, 2]
  {
    var m := MealMarked();
    assert Marked(m) == [false, true, true, false];
    MealCounts(Marked(m));
  }

  /** Two marked rows in the middle count 0, 1, 2, 2. */
  lemma MealCounts(marks: seq<bool>)
    requires marks == [false, true, true, false]
    ensures RunningCount(marks) == [0, 1, 2, 2]
  {
    RunningCountStep(marks, 0);
    RunningCountStep(marks, 1);
    RunningCountStep(marks, 2);
    RunningCountStep(marks, 3);
  }

  /** Each marked reading opens an onset group; the idle reading stays in the last. */
  lemma MealOnsets()
    ensures TimeLoadOn(MealMarked()) == [0, 5, 10, 10]
  {
    var c := LoadOnCount(MealMarked());
    MealLoadOnCount();
    assert GroupFirst(c, 0) == 0 && GroupFirst(c, 1) == 1 && GroupFirst(c, 2) == 2 && GroupFirst(c, 3) == 2;
  }

  /** The first three rules: only the first reading opens an event (the
      rises come less than 15 minutes apart). */
  lemma MealStartRules()
    ensures OnsetStartMask(MealMarked(), [0, 5, 10, 10], Defaults) == [true, false, false, false]
    ensures QuickRiseMask(MealMarked(), Defaults) == [false, true, true, false]
    ensures PowerAfterQuietMask(MealMarked(), [0, 5, 10, 10], Defaults) == [false, false, false, false]
  {
  }

  /** The end rules: only the last reading closes an event. */
  lemma MealEndRules()
    ensures BeforeStartMask(MealMarked(), [true, false, false, false]) == [false, false, false, true]
    ensures BeforeLongGapMask(MealMarked(), [false, false, false, true], Defaults) == [false, false, false, false]
    ensures EndBeforeShortGapMask(MealMarked(), [false, false, false, true], Defaults) == [false, false, false, false]
  {
  }

  /** The remaining rules change nothing. */
  lemma MealLaterRules()
    ensures DoubleEndMask([false, false, false, true]) == [false, false, false, false]
    ensures StartBeforeLongGapMask(MealMarked(), [true, false, false, false], Defaults) == [false, false, false, false]
    ensures StartAfterPoweredMask(MealMarked(), [true, false, false, false], Defaults) == [false, false, false, false]
    ensures NewMeterMask(MealMarked()) == [true, false, false, false]
  {
  }

  /** Only the first reading starts an event, only the last one ends it. */
  lemma MealFlags(rows: seq<Reading>, tlo: seq<int>)
    requires rows == MealMarked() && tlo == [0, 5, 10, 10]
    ensures Cascade(rows, tlo, Defaults) == Flags([true, false, false, false], [false, false, false, true])
  {
    var p := Defaults;
    MealStartRules();
    MealEndRules();
    MealLaterRules();
    var none := Cleared(4);
    assert none == [false, false, false, false];
    var first := [true, false, false, false];
    var last := [false, false, false, true];
    var start1 := Assign(none, OnsetStartMask(rows, tlo, p), true);
    assert start1 == first;
    var start2 := Assign(start1, QuickRiseMask(rows, p), false);
    assert start2 == first;
    var start3 := Assign(start2, PowerAfterQuietMask(rows, tlo, p), true);
    assert start3 == first;
    var end1 := Assign(none, BeforeStartMask(rows, start3), true);
    assert end1 == last;
    var end2 := Assign(end1, BeforeLongGapMask(rows, end1, p), true);
    assert end2 == last;
    var start4 := Assign(start3, DoubleEndMask(end2), true);
    assert start4 == first;
    var start5 := Assign(start4, StartBeforeLongGapMask(rows, start4, p), false);
    assert start5 == first;
    var end3 := Assign(end2, EndBeforeShortGapMask(rows, end2, p), false);
    assert end3 == last;
    var start6 := Assign(start5, StartAfterPoweredMask(rows, start5, p), false);
    assert start6 == first;
    var start7 := Assign(start6, NewMeterMask(rows), true);
    assert start7 == first;
    var end4 := Assign(end3, NewMeterMask(rows), false);
    assert end4 == last;
  }

  /** The meal is event 1 throughout. */
  lemma MealEventIds()
    ensures EventIds(MealMarked(), Defaults) == [1, 1, 1, 1]
  {
    var m := MealMarked();
    MealOnsets();
    MealFlags(MealMarked(), TimeLoadOn(MealMarked()));
    MealIds(Boundaries(m, Defaults).start);
  }

  /** A single start flag on row 0 numbers all four rows 1. */
  lemma MealIds(start: seq<bool>)
    requires start == [true, false, false, false]
    ensures RunningCount(start) == [1, 1, 1, 1]
  {
    RunningCountStep(start, 0);
    RunningCountStep(start, 1);
    RunningCountStep(start, 2);
    RunningCountStep(start, 3);
  }

  lemma MealEventTable()
    ensures CookingEvent(MealMarked(), Defaults) == MealEvents()
  {
    var m := MealMarked();
    MealOnsets();
    MealFlags(m, TimeLoadOn(m));
    MealLoadOnCount();
    MealEventIds();
    MealRows(m, LoadOnCount(m), TimeLoadOn(m), Boundaries(m, Defaults));
  }

  /** The table for the meal's columns: all four rows share event 1, which runs
      from row 0 to row 3. */
  lemma MealRows(rows: seq<Reading>, counts: seq<nat>, tlo: seq<int>, f: Flags)
    requires rows == MealMarked() && counts == [0, 1, 2, 2] && tlo == [0, 5, 10, 10]
    requires f == Flags([true, false, false, false], [false, false, false, true])
    requires RunningCount(f.start) == [1, 1, 1, 1]
    ensures EventTable(rows, counts, tlo, f, Defaults) == MealEvents()
  {
    var ids := RunningCount(f.start);
    var t := EventTable(rows, counts, tlo, f, Defaults);
    forall i | 0 <= i < 4
      ensures t[i] == MealEvents()[i]
    {
      GroupFirstUnique(ids, i, 0);
      GroupLastUnique(ids, i, 3);
      assert !Lone(ids, i);
    }
  }

  /** A single event has no predecessor to regress against. */
  lemma MealPassesTimestampCheck()
    ensures TimestampIssue(MealEvents(), Defaults.minCookingEvent) == MealEvents()
  {
    MealUnflagged(MealEvents());
  }

  /** The meal's only head is row 0 and its only tail row 3; neither regressed. */
  lemma MealUnflagged(e: seq<Row>)
    requires e == MealEvents()
    ensures TimestampIssue(e, Defaults.minCookingEvent) == e
  {
    MealHeadsAndTails(e);
    forall i | 0 <= i < |e|
      ensures !EventFlagged(e, Defaults.minCookingEvent, e[i])
    {
      EventFlaggedIff(e, Defaults.minCookingEvent, e[i]);
      assert LastWithEvent([e[0]], 1) == Some(0);
      assert LastWithEvent([e[3]], 1) == Some(0);
    }
    SelectAll(e, UnflaggedMask(e, Defaults.minCookingEvent));
  }

  /** Row 0 is the meal's only head, row 3 its only tail. */
  lemma MealHeadsAndTails(e: seq<Row>)
    requires e == MealEvents()
    ensures Heads(e) == [e[0]] && Tails(e) == [e[3]]
  {
    var hm := HeadMask(e);
    assert hm == [true, false, false, false];
    assert SameGroup(e[3], e[0]) && SameGroup(e[3], e[1]) && SameGroup(e[3], e[2]);
    var tm := TailMask(e);
    assert tm == [false, false, false, true];
    assert e[..3][..2][..1] == e[..1] && e[..3][..2] == e[..2] && e[..4][..3] == e[..3] && e[..4] == e;
    assert hm[..3][..2] == hm[..2] && hm[..2][..1] == hm[..1] && hm[..4][..3] == hm[..3];
    assert tm[..3][..2] == tm[..2] && tm[..2][..1] == tm[..1] && tm[..4][..3] == tm[..3];
    assert Select(e[..1], hm[..1]) == [e[0]];
    assert Select(e[..2], hm[..2]) == [e[0]];
    assert Select(e[..3], hm[..3]) == [e[0]];
    assert Select(e[..1], tm[..1]) == [];
    assert Select(e[..2], tm[..2]) == [];
    assert Select(e[..3], tm[..3]) == [];
  }

  lemma MealGroupKeys()
    ensures GroupKeys(MealEvents()) == [Key(7, 1)]
  {
    var e := MealEvents();
    assert e[..4][..3] == e[..3] && e[..3][..2] == e[..2] && e[..2][..1] == e[..1] && e[..1][..0] == [];
    assert AppearanceKeys(e[..1]) == [Key(7, 1)];
    assert AppearanceKeys(e[..2]) == [Key(7, 1)];
    assert AppearanceKeys(e[..3]) == [Key(7, 1)];
    assert e[..4] == e;
  }

  lemma MealSummarised()
    ensures Summarise(Key(7, 1), MealEvents()) == MealStats()
  {
    var e := MealEvents();
    MealExtremes(e);
    MealSpan(e);
    MealPowerMean(0.4, 15);
    SummariseMeal(e);
  }

  /** Any four readings with these aggregates summarise to the meal's statistics. */
  lemma SummariseMeal(e: seq<Row>)
    requires |e| == 4 && MaxEnergy(e) == 0.4 && MinEnergy(e) == 0.0
    requires MaxCookingTime(e) == 15 && MinTimestamp(e) == 0
    requires PowerMean(0.4, 15) == Finite(1.6)
    ensures Summarise(Key(7, 1), e) == MealStats()
  {
  }

  /** 0.4 kWh in a quarter of an hour is 1.6 kW. */
  lemma MealPowerMean(gen: real, ct: int)
    requires gen == 0.4 && ct == 15
    ensures PowerMean(gen, ct) == Finite(1.6)
  {
  }

  /** The meal's energy readings range from 0.0 to 0.4 kWh. */
  lemma MealExtremes(e: seq<Row>)
    requires e == MealEvents()
    ensures MaxEnergy(e) == 0.4 && MinEnergy(e) == 0.0
  {
    assert e[0] in e && e[2] in e;
  }

  /** The meal lasts 15 minutes from minute 0. */
  lemma MealSpan(e: seq<Row>)
    requires e == MealEvents()
    ensures MaxCookingTime(e) == 15 && MinTimestamp(e) == 0
  {
    assert e[0] in e;
  }

  lemma MealAggregates()
    ensures Aggregates(MealEvents()) == [MealStats()]
  {
    var e := MealEvents();
    MealGroupKeys();
    MealSummarised();
    MealAllOneGroup(e);
    MealOneGroup(e);
  }

  /** Every row of the meal is meter 7, event 1. */
  lemma MealAllOneGroup(e: seq<Row>)
    requires e == MealEvents()
    ensures Group(e, Key(7, 1)) == e
  {
    SelectAll(e, GroupMask(e, Key(7, 1)));
  }

  /** A table that is its own only group aggregates to that group's statistics. */
  lemma MealOneGroup(e: seq<Row>)
    requires GroupKeys(e) == [Key(7, 1)] && Group(e, Key(7, 1)) == e
    requires Summarise(Key(7, 1), e) == MealStats()
    ensures Aggregates(e) == [MealStats()]
  {
    assert StatsOf(e, Key(7, 1)) == MealStats();
    assert Aggregates(e)[0] == MealStats();
  }

  lemma MealPriced()
    ensures OnlyEvents(MealEvents(), CookingTimeLimit, PowerMeanMin, TariffPerKWh) ==
            [EventSummary(MealStats(), 40.0, 1)]
  {
    MealAggregates();
    MealStatsPriced(Aggregates(MealEvents()));
  }

  /** The meal's aggregates pass all three filters and cost 0.4 kWh at 100 per kWh. */
  lemma MealStatsPriced(a: seq<GroupStats>)
    requires a == [MealStats()]
    ensures Priced(a, CookingTimeLimit, PowerMeanMin, TariffPerKWh) == [EventSummary(MealStats(), 40.0, 1)]
  {
    assert Keep(MealStats(), CookingTimeLimit, PowerMeanMin);
    FilterAll(a, (s: GroupStats) => Keep(s, CookingTimeLimit, PowerMeanMin));
    EventCountsAllOne(1, 0);
    assert Cost(0.4, TariffPerKWh) == 40.0;
  }

  /** The meal's readings come out of `timestamp_issue` as its processed table. */
  lemma MealChecked()
    ensures TimestampIssue(CookingEvent(Cleaned(MealReadings()), Defaults), Defaults.minCookingEvent) == MealEvents()
  {
    MealCleaned();
    MealEventTable();
    MealPassesTimestampCheck();
  }

  /** The whole chain on the meal, within the first hour: one session of
      meter 7 from minute 0, 0.4 kWh in 15 minutes over 4 readings, 1.6 kW on
      average, costing 40, counted 1. */
  lemma OneMealSession()
    ensures Sessions(MealReadings(), 0, 60) == [EventSummary(MealStats(), 40.0, 1)]
  {
    MealChecked();
    MealPriced();
    MealInFirstHour();
  }

  lemma MealInFirstHour()
    ensures Period([EventSummary(MealStats(), 40.0, 1)], 0, 60) == [EventSummary(MealStats(), 40.0, 1)]
  {
    var s := [EventSummary(MealStats(), 40.0, 1)];
    FilterAll(s, (x: EventSummary) => !(x.stats.timestamp < 0));
    FilterAll(s, (x: EventSummary) => !(x.stats.timestamp >= 60));
  }

  /** Two idle readings of one meter 20 minutes apart form two events: the
      first ends before the long gap, so the second follows an end and starts
      one (lines 67-72). The second is a lone reading with no energy rise and
      loses its number; the first, on row 0, keeps it. */
  lemma TwoDistantReadings()
    ensures var rows := [Reading(7, 0, 1.0, 0.0, None), Reading(7, 20, 1.0, 0.0, None)];
      && EventIds(rows, Defaults) == [1, 2]
      && CookingEvent(rows, Defaults)[0].event == Some(1)
      && CookingEvent(rows, Defaults)[1].event == None
  {
    DistantFlags([Reading(7, 0, 1.0, 0.0, None), Reading(7, 20, 1.0, 0.0, None)]);
  }

  /** Both readings start an event; the second is lone and rose by nothing. */
  lemma DistantFlags(rows: seq<Reading>)
    requires rows == [Reading(7, 0, 1.0, 0.0, None), Reading(7, 20, 1.0, 0.0, None)]
    ensures EventIds(rows, Defaults) == [1, 2]
    ensures CookingEvent(rows, Defaults)[0].event == Some(1)
    ensures CookingEvent(rows, Defaults)[1].event == None
  {
    assert Marked(rows) == [false, false];
    RunningCountStep(Marked(rows), 0);
    RunningCountStep(Marked(rows), 1);
    assert LoadOnCount(rows) == [0, 0];
    assert TimeLoadOn(rows) == [0, 0];
    var f := Boundaries(rows, Defaults);
    assert f.start == [true, true];
    RunningCountStep(f.start, 0);
    RunningCountStep(f.start, 1);
    assert EventIds(rows, Defaults) == [1, 2];
  }
}
