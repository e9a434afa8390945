/** `period` and the script's driver: the whole chain from raw readings to
    the summaries of the cooking events inside a time window, with the
    intended filter in place of the label drop of `timestamp_issue`. */
module Driver {
  import opened Frame
  import opened Spikes
  import opened LoadOn
  import opened Events
  import opened Integrity
  import opened Summary

  /** `period`: drops the summaries indexed before the window's start, then
      those indexed at or after its end. Rows sharing an index label share the
      outcome, so dropping by label is a filter here. */
  function Period(s: seq<EventSummary>, start: int, end: int): (r: seq<EventSummary>)
    ensures forall x :: x in r <==> x in s && start <= x.stats.timestamp < end
  {
    var afterStart := Filter(s, (x: EventSummary) => !(x.stats.timestamp < start));
    Filter(afterStart, (x: EventSummary) => !(x.stats.timestamp >= end))
  }

  /** `period` keeps the order of the rows it keeps. */
  lemma PeriodKeepsOrder(s: seq<EventSummary>, start: int, end: int)
    requires forall i, j :: 0 <= i < j < |s| ==> KeyBefore(s[i].stats.key, s[j].stats.key)
    ensures var r := Period(s, start, end);
      forall i, j :: 0 <= i < j < |r| ==> KeyBefore(r[i].stats.key, r[j].stats.key)
  {
    var lt := (x: EventSummary, y: EventSummary) => KeyBefore(x.stats.key, y.stats.key);
    var p1 := (x: EventSummary) => !(x.stats.timestamp < start);
    var p2 := (x: EventSummary) => !(x.stats.timestamp >= end);
    FilterKeepsOrder(s, p1, lt);
    FilterKeepsOrder(Filter(s, p1), p2, lt);
  }

  /** The defaults of `remove_spikes`, `load_on`, `cooking_event`,
      `timestamp_issue` and `only_events`. */
  const MinSizeOfSpikes: real := 1.0
  const Defaults: EventParams := EventParams(15, 0.15, 1.0, 5, 0.1)
  const CookingTimeLimit: int := 175
  const PowerMeanMin: real := 0.1
  const TariffPerKWh: real := 100.0

  /** The readings after the two steps that rewrite the raw table in place. */
  function Cleaned(raw: seq<Reading>): (r: seq<Reading>)
    ensures |r| == |raw|
  {
    MarkLoad(RemoveSpikes(raw, MinSizeOfSpikes), Defaults.minActiveLoad, Defaults.powerCapacity,
             Defaults.timeResolution)
  }

  /** The sessions of the chain with the intended filter (see
      Integrity.TimestampIssue), for the window [start, end). */
  function Sessions(raw: seq<Reading>, start: int, end: int): seq<EventSummary>
  {
    var checked := TimestampIssue(CookingEvent(Cleaned(raw), Defaults), Defaults.minCookingEvent);
    Period(OnlyEvents(checked, CookingTimeLimit, PowerMeanMin, TariffPerKWh), start, end)
  }

  /** Lines 180-185: spikes are removed and loads marked in the raw table
      itself, then the event tables are derived from it. */
  method Run(a: array<Reading>, start: int, end: int) returns (sessions: seq<EventSummary>)
    modifies a
    ensures a[..] == Cleaned(old(a[..]))
    ensures sessions == Sessions(old(a[..]), start, end)
  {
    RemoveSpikesInPlace(a, MinSizeOfSpikes);
    MarkLoadInPlace(a, Defaults.minActiveLoad, Defaults.powerCapacity, Defaults.timeResolution);
    var checked := TimestampIssue(CookingEvent(a[..], Defaults), Defaults.minCookingEvent);
    sessions := Period(OnlyEvents(checked, CookingTimeLimit, PowerMeanMin, TariffPerKWh), start, end);
  }

  /** What the three filters and the pricing of `only_events` guarantee of a
      summary under the script's constants: it used energy, lasted at most 175
      minutes, did not draw less than 0.1 kW on average, costs 100 per kWh and
      is counted 1. */
  predicate Reportable(e: EventSummary)
  {
    && e.stats.energyGen > 0.0
    && e.stats.cookingTime <= CookingTimeLimit
    && !LessThan(e.stats.powerMean, PowerMeanMin)
    && e.cookingCost == Cost(e.stats.energyGen, TariffPerKWh)
    && e.eventCount == 1
  }

  /** Every session of the chain with the intended filter (see
      Integrity.TimestampIssue) is reportable and lies in the window, and the
      sessions are in ascending (meter, event) order. */
  lemma SessionsSound(raw: seq<Reading>, start: int, end: int)
    ensures var r := Sessions(raw, start, end);
      forall i, j :: 0 <= i < j < |r| ==> KeyBefore(r[i].stats.key, r[j].stats.key)
    ensures forall e :: e in Sessions(raw, start, end) ==> start <= e.stats.timestamp < end && Reportable(e)
  {
    var checked := TimestampIssue(CookingEvent(Cleaned(raw), Defaults), Defaults.minCookingEvent);
    var o := OnlyEvents(checked, CookingTimeLimit, PowerMeanMin, TariffPerKWh);
    OnlyEventsSorted(checked, CookingTimeLimit, PowerMeanMin, TariffPerKWh);
    forall e | e in o
      ensures Reportable(e)
    {
      var j :| 0 <= j < |o| && o[j] == e;
      OnlyEventsSound(checked, CookingTimeLimit, PowerMeanMin, TariffPerKWh, j);
    }
    WindowSound(o, start, end);
  }

  /** `period` keeps a sorted table of reportable summaries sorted and
      reportable, and keeps only rows inside the window. */
  lemma WindowSound(o: seq<EventSummary>, start: int, end: int)
    requires forall i, j :: 0 <= i < j < |o| ==> KeyBefore(o[i].stats.key, o[j].stats.key)
    requires forall e :: e in o ==> Reportable(e)
    ensures var r := Period(o, start, end);
      forall i, j :: 0 <= i < j < |r| ==> KeyBefore(r[i].stats.key, r[j].stats.key)
    ensures forall e :: e in Period(o, start, end) ==> start <= e.stats.timestamp < end && Reportable(e)
  {
    PeriodKeepsOrder(o, start, end);
  }
}
