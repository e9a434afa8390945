/** `only_events`: one summary per (meter, event) group of the checked table,
    with the energy the event used, its duration and mean power, filtered by
    plausibility, then priced and counted. */
module Summary {
  import opened Frame
  import opened Events

  /** A group key of `groupby(['meter_number', 'cooking_event'])`. */
  datatype Key = Key(meter: int, event: nat)

  /** The order `groupby` sorts its keys in: by meter, then by event. */
  predicate KeyBefore(a: Key, b: Key)
  {
    a.meter < b.meter || (a.meter == b.meter && a.event < b.event)
  }

  ghost predicate StrictlySorted(ks: seq<Key>)
  {
    forall i, j :: 0 <= i < j < |ks| ==> KeyBefore(ks[i], ks[j])
  }

  /** Row r belongs to group k; a row without an event number belongs to none. */
  predicate InGroup(r: Row, k: Key)
  {
    r.event == Some(k.event) && r.reading.meter == k.meter
  }

  /** The keys present in the table, each once, in order of first appearance. */
  function AppearanceKeys(rows: seq<Row>): (ks: seq<Key>)
    ensures forall i, j :: 0 <= i < j < |ks| ==> ks[i] != ks[j]
    ensures forall k :: k in ks <==> exists i :: 0 <= i < |rows| && InGroup(rows[i], k)
    decreases |rows|
  {
    if rows == [] then []
    else
      var n := |rows|;
      var init := AppearanceKeys(rows[..n - 1]);
      assert forall i :: 0 <= i < n - 1 ==> rows[..n - 1][i] == rows[i];
      match rows[n - 1].event
      case None => init
      case Some(e) =>
        var k := Key(rows[n - 1].reading.meter, e);
        if k in init then init else init + [k]
  }

  /** Inserts a new key into a strictly sorted sequence of keys. */
  function Insert(k: Key, s: seq<Key>): (r: seq<Key>)
    requires StrictlySorted(s) && k !in s
    ensures StrictlySorted(r)
    ensures forall x :: x in r <==> x == k || x in s
    ensures |r| == |s| + 1
  {
    if s == [] then [k]
    else if KeyBefore(k, s[0]) then [k] + s
    else
      assert StrictlySorted(s[1..]);
      var tail := Insert(k, s[1..]);
      assert forall x :: x in s <==> x == s[0] || x in s[1..];
      assert KeyBefore(s[0], k);
      assert forall x :: x in tail ==> KeyBefore(s[0], x);
      [s[0]] + tail
  }

  /** Sorts distinct keys into `groupby` order. */
  function SortKeys(ks: seq<Key>): (r: seq<Key>)
    requires forall i, j :: 0 <= i < j < |ks| ==> ks[i] != ks[j]
    ensures StrictlySorted(r)
    ensures forall x :: x in r <==> x in ks
    ensures |r| == |ks|
  {
    if ks == [] then []
    else
      var n := |ks|;
      var init := SortKeys(ks[..n - 1]);
      assert forall x :: x in ks <==> x in ks[..n - 1] || x == ks[n - 1];
      Insert(ks[n - 1], init)
  }

  /** The groups of the table in the order of the aggregated table: every key
      of a row with an event number, once, ascending. */
  function GroupKeys(rows: seq<Row>): (ks: seq<Key>)
    ensures StrictlySorted(ks)
    ensures forall k :: k in ks <==> exists i :: 0 <= i < |rows| && InGroup(rows[i], k)
  {
    SortKeys(AppearanceKeys(rows))
  }

  /** The rows of group k, in table order. */
  function Group(rows: seq<Row>, k: Key): (g: seq<Row>)
    ensures |g| == CountTrue(GroupMask(rows, k))
    ensures forall x :: x in g <==> x in rows && InGroup(x, k)
  {
    Select(rows, GroupMask(rows, k))
  }

  /** The rows of group k. */
  function GroupMask(rows: seq<Row>, k: Key): (m: seq<bool>)
    ensures |m| == |rows|
  {
    seq(|rows|, i requires 0 <= i < |rows| => InGroup(rows[i], k))
  }

  /** Every row of group k appears in the group once, in table order. */
  lemma GroupInOrder(rows: seq<Row>, k: Key, i: nat, j: nat)
    requires i <= j < |rows| && InGroup(rows[i], k) && InGroup(rows[j], k)
    ensures KeptAt(Group(rows, k), GroupMask(rows, k), i, rows[i])
    ensures KeptAt(Group(rows, k), GroupMask(rows, k), j, rows[j])
    ensures i < j ==> CountTrue(GroupMask(rows, k)[..i]) < CountTrue(GroupMask(rows, k)[..j])
  {
    SelectPositions(rows, GroupMask(rows, k), i);
    SelectPositions(rows, GroupMask(rows, k), j);
    if i < j {
      SelectInOrder(GroupMask(rows, k), i, j);
    }
  }

  function MaxEnergy(g: seq<Row>): (m: real)
    requires |g| > 0
    ensures forall x :: x in g ==> x.reading.energy <= m
    ensures exists x :: x in g && x.reading.energy == m
  {
    if |g| == 1 then g[0].reading.energy
    else
      var rest := MaxEnergy(g[1..]);
      assert forall x :: x in g <==> x == g[0] || x in g[1..];
      if g[0].reading.energy >= rest then g[0].reading.energy else rest
  }

  function MinEnergy(g: seq<Row>): (m: real)
    requires |g| > 0
    ensures forall x :: x in g ==> m <= x.reading.energy
    ensures exists x :: x in g && x.reading.energy == m
  {
    if |g| == 1 then g[0].reading.energy
    else
      var rest := MinEnergy(g[1..]);
      assert forall x :: x in g <==> x == g[0] || x in g[1..];
      if g[0].reading.energy <= rest then g[0].reading.energy else rest
  }

  function MaxCookingTime(g: seq<Row>): (m: int)
    requires |g| > 0
    ensures forall x :: x in g ==> x.cookingTime <= m
    ensures exists x :: x in g && x.cookingTime == m
  {
    if |g| == 1 then g[0].cookingTime
    else
      var rest := MaxCookingTime(g[1..]);
      assert forall x :: x in g <==> x == g[0] || x in g[1..];
      if g[0].cookingTime >= rest then g[0].cookingTime else rest
  }

  function MinTimestamp(g: seq<Row>): (m: int)
    requires |g| > 0
    ensures forall x :: x in g ==> m <= x.reading.timestamp
    ensures exists x :: x in g && x.reading.timestamp == m
  {
    if |g| == 1 then g[0].reading.timestamp
    else
      var rest := MinTimestamp(g[1..]);
      assert forall x :: x in g <==> x == g[0] || x in g[1..];
      if g[0].reading.timestamp <= rest then g[0].reading.timestamp else rest
  }

  /** A floating-point quotient: finite, an infinity, or not a number. */
  datatype Quotient = Finite(value: real) | PosInf | NegInf | NaN

  /** Floating-point division, where a zero divisor gives an infinity of the
      dividend's sign, or not-a-number for 0 / 0. */
  function Divide(num: real, den: real): (q: Quotient)
    ensures q.Finite? <==> den != 0.0
    ensures q.Finite? ==> q.value * den == num
    ensures q == NaN <==> den == 0.0 && num == 0.0
    ensures q == PosInf <==> den == 0.0 && num > 0.0
  {
    if den != 0.0 then Finite(num / den)
    else if num > 0.0 then PosInf
    else if num < 0.0 then NegInf
    else NaN
  }

  /** `q < x` in floating point: false for not-a-number. */
  predicate LessThan(q: Quotient, x: real)
  {
    match q
    case Finite(v) => v < x
    case PosInf => false
    case NegInf => true
    case NaN => false
  }

  /** A row of the aggregated table (steps (a) to (c) of `only_events`). */
  datatype GroupStats = GroupStats(key: Key, energy: real, energyGen: real, cookingTime: int,
                                   timestamp: int, noRecordings: nat, powerMean: Quotient)

  /** The aggregates of one non-empty group: its highest and lowest energy
      reading, their difference, the longest cooking time, the earliest
      timestamp, the number of readings, and the energy per hour of cooking. */
  function Summarise(k: Key, g: seq<Row>): (s: GroupStats)
    requires |g| > 0
    ensures s.key == k && s.noRecordings == |g|
    ensures s.energyGen >= 0.0
    ensures forall x :: x in g ==> x.reading.energy <= s.energy && s.energy - s.energyGen <= x.reading.energy
    ensures exists x :: x in g && x.reading.energy == s.energy
    ensures exists x :: x in g && x.reading.energy == s.energy - s.energyGen
    ensures forall x :: x in g ==> x.cookingTime <= s.cookingTime && s.timestamp <= x.reading.timestamp
    ensures exists x :: x in g && x.cookingTime == s.cookingTime
    ensures exists x :: x in g && x.reading.timestamp == s.timestamp
    ensures s.powerMean == PowerMean(s.energyGen, s.cookingTime)
  {
    var top := MaxEnergy(g);
    var gen := top - MinEnergy(g);
    var ct := MaxCookingTime(g);
    GroupStats(k, top, gen, ct, MinTimestamp(g), |g|, PowerMean(gen, ct))
  }

  /** Step (c): energy divided by the cooking time in hours. */
  function PowerMean(energyGen: real, cookingTime: int): Quotient
  {
    Divide(energyGen, cookingTime as real / 60.0)
  }

  /** The mean power times the minutes of cooking is sixty times the energy;
      a zero-minute event with energy has infinite mean power and one without
      energy has none. */
  lemma PowerMeanSpec(energyGen: real, cookingTime: int)
    ensures cookingTime != 0 ==>
              && PowerMean(energyGen, cookingTime).Finite?
              && PowerMean(energyGen, cookingTime).value * (cookingTime as real) == 60.0 * energyGen
    ensures cookingTime == 0 && energyGen > 0.0 ==> PowerMean(energyGen, cookingTime) == PosInf
    ensures cookingTime == 0 && energyGen == 0.0 ==> PowerMean(energyGen, cookingTime) == NaN
  {
    if cookingTime != 0 {
      var q := PowerMean(energyGen, cookingTime);
      assert q.value * (cookingTime as real / 60.0) == energyGen;
    }
  }

  lemma GroupNonEmpty(rows: seq<Row>, k: Key)
    requires k in GroupKeys(rows)
    ensures |Group(rows, k)| > 0
  {
    var i :| 0 <= i < |rows| && InGroup(rows[i], k);
    assert rows[i] in Group(rows, k);
  }

  /** The aggregated row of group k. */
  function StatsOf(rows: seq<Row>, k: Key): (s: GroupStats)
    requires k in GroupKeys(rows)
    ensures s.key == k
  {
    GroupNonEmpty(rows, k);
    Summarise(k, Group(rows, k))
  }

  /** The aggregated table, one row per group in key order. */
  function Aggregates(rows: seq<Row>): (a: seq<GroupStats>)
    ensures |a| == |GroupKeys(rows)|
    ensures forall q :: 0 <= q < |a| ==> a[q].energyGen >= 0.0
  {
    var ks := GroupKeys(rows);
    seq(|ks|, j requires 0 <= j < |ks| => StatsOf(rows, ks[j]))
  }

  /** Step (d): an event survives unless its mean power is below the minimum,
      it lasted longer than the maximum, or it used no energy. */
  predicate Keep(s: GroupStats, maxCookingTime: int, powerMeanMin: real)
  {
    !(LessThan(s.powerMean, powerMeanMin) || s.cookingTime > maxCookingTime) && s.energyGen != 0.0
  }

  /** A row of the table `only_events` returns. */
  datatype EventSummary = EventSummary(stats: GroupStats, cookingCost: real, eventCount: nat)

  /** Lines 166-168: `event_count` starts at 0, is raised by one where it
      differs from the previous row's (only on the first row, whose previous
      value is missing), and is then summed cumulatively. */
  function EventCounts(n: nat): (c: seq<nat>)
    ensures |c| == n
  {
    RunningCount(seq(n, i requires 0 <= i < n => i == 0))
  }

  /** `event_count` is 1 on every row. */
  lemma {:induction false} EventCountsAllOne(n: nat, i: nat)
    requires i < n
    ensures EventCounts(n)[i] == 1
  {
    var flags := seq(n, i requires 0 <= i < n => i == 0);
    RunningCountStep(flags, 0);
    RunningCountFlat(flags, 0, i);
  }

  /** Step (e): the cost of an event's energy at a tariff per kWh. */
  function Cost(energyGen: real, tariff: real): real
  {
    energyGen * tariff
  }

  /** Steps (d) and (e) on an aggregated table: the filters, then the cost
      and the event count on the surviving rows. */
  function Priced(a: seq<GroupStats>, maxCookingTime: int, powerMeanMin: real, tariff: real): (r: seq<EventSummary>)
  {
    var kept := Filter(a, (s: GroupStats) => Keep(s, maxCookingTime, powerMeanMin));
    var counts := EventCounts(|kept|);
    seq(|kept|, j requires 0 <= j < |kept| => EventSummary(kept[j], Cost(kept[j].energyGen, tariff), counts[j]))
  }

  /** The table `only_events` returns. */
  function OnlyEvents(rows: seq<Row>, maxCookingTime: int, powerMeanMin: real, tariff: real): (r: seq<EventSummary>)
  {
    Priced(Aggregates(rows), maxCookingTime, powerMeanMin, tariff)
  }

  /** Every row of a priced table passed the three filters (its mean power is
      not below the minimum, it lasted at most the maximum, it used energy),
      comes from the aggregated table, costs its energy at the tariff, and has
      count 1. */
  lemma PricedSound(a: seq<GroupStats>, maxCookingTime: int, powerMeanMin: real, tariff: real, j: nat)
    requires j < |Priced(a, maxCookingTime, powerMeanMin, tariff)|
    ensures var e := Priced(a, maxCookingTime, powerMeanMin, tariff)[j];
      && e.stats in a
      && !LessThan(e.stats.powerMean, powerMeanMin)
      && e.stats.cookingTime <= maxCookingTime
      && e.stats.energyGen != 0.0
      && e.cookingCost == Cost(e.stats.energyGen, tariff)
      && e.eventCount == 1
  {
    var kept := Filter(a, (s: GroupStats) => Keep(s, maxCookingTime, powerMeanMin));
    assert kept[j] in kept;
    EventCountsAllOne(|kept|, j);
  }

  /** When no aggregated row has negative energy, every priced row used some. */
  lemma PricedUsesEnergy(a: seq<GroupStats>, maxCookingTime: int, powerMeanMin: real, tariff: real, j: nat)
    requires forall q :: 0 <= q < |a| ==> a[q].energyGen >= 0.0
    requires j < |Priced(a, maxCookingTime, powerMeanMin, tariff)|
    ensures Priced(a, maxCookingTime, powerMeanMin, tariff)[j].stats.energyGen > 0.0
  {
    PricedSound(a, maxCookingTime, powerMeanMin, tariff, j);
  }

  /** A row of the aggregated table reaches the priced table exactly when it
      passes the filters. */
  lemma PricedComplete(a: seq<GroupStats>, maxCookingTime: int, powerMeanMin: real, tariff: real, s: GroupStats)
    requires s in a
    ensures (exists j :: 0 <= j < |Priced(a, maxCookingTime, powerMeanMin, tariff)| &&
                         Priced(a, maxCookingTime, powerMeanMin, tariff)[j].stats == s) <==>
            Keep(s, maxCookingTime, powerMeanMin)
  {
    var kept := Filter(a, (s: GroupStats) => Keep(s, maxCookingTime, powerMeanMin));
    var r := Priced(a, maxCookingTime, powerMeanMin, tariff);
    if Keep(s, maxCookingTime, powerMeanMin) {
      assert s in kept;
      var j :| 0 <= j < |kept| && kept[j] == s;
      assert r[j].stats == s;
    } else {
      forall j | 0 <= j < |r|
        ensures r[j].stats != s
      {
        assert kept[j] in kept;
      }
    }
  }

  /** The priced table keeps the order of the aggregated table. */
  lemma PricedKeepsOrder(a: seq<GroupStats>, maxCookingTime: int, powerMeanMin: real, tariff: real)
    requires forall i, j :: 0 <= i < j < |a| ==> KeyBefore(a[i].key, a[j].key)
    ensures var r := Priced(a, maxCookingTime, powerMeanMin, tariff);
      forall i, j :: 0 <= i < j < |r| ==> KeyBefore(r[i].stats.key, r[j].stats.key)
  {
    var p := (s: GroupStats) => Keep(s, maxCookingTime, powerMeanMin);
    var lt := (x: GroupStats, y: GroupStats) => KeyBefore(x.key, y.key);
    FilterKeepsOrder(a, p, lt);
  }

  /** Every event `only_events` reports used a positive amount of energy,
      passed the power and duration filters, is priced at the tariff and
      counted 1. */
  lemma OnlyEventsSound(rows: seq<Row>, maxCookingTime: int, powerMeanMin: real, tariff: real, j: nat)
    requires j < |OnlyEvents(rows, maxCookingTime, powerMeanMin, tariff)|
    ensures var e := OnlyEvents(rows, maxCookingTime, powerMeanMin, tariff)[j];
      && e.stats.energyGen > 0.0
      && e.stats.cookingTime <= maxCookingTime
      && !LessThan(e.stats.powerMean, powerMeanMin)
      && e.cookingCost == Cost(e.stats.energyGen, tariff)
      && e.eventCount == 1
  {
    var a := Aggregates(rows);
    PricedSound(a, maxCookingTime, powerMeanMin, tariff, j);
    PricedUsesEnergy(a, maxCookingTime, powerMeanMin, tariff, j);
  }

  /** The rows of `only_events` are in ascending key order, each key once. */
  lemma OnlyEventsSorted(rows: seq<Row>, maxCookingTime: int, powerMeanMin: real, tariff: real)
    ensures var r := OnlyEvents(rows, maxCookingTime, powerMeanMin, tariff);
      forall i, j :: 0 <= i < j < |r| ==> KeyBefore(r[i].stats.key, r[j].stats.key)
  {
    PricedKeepsOrder(Aggregates(rows), maxCookingTime, powerMeanMin, tariff);
  }

  /** `only_events` holds exactly the groups of the table whose aggregates
      pass the filters, ascending by key, each with its group's aggregates,
      priced, and counted 1. */
  lemma OnlyEventsSpec(rows: seq<Row>, maxCookingTime: int, powerMeanMin: real, tariff: real, k: Key)
    ensures var r := OnlyEvents(rows, maxCookingTime, powerMeanMin, tariff);
      (exists j :: 0 <= j < |r| && r[j].stats.key == k) <==>
        k in GroupKeys(rows) && Keep(StatsOf(rows, k), maxCookingTime, powerMeanMin)
    ensures var r := OnlyEvents(rows, maxCookingTime, powerMeanMin, tariff);
      forall j :: 0 <= j < |r| && r[j].stats.key == k ==> k in GroupKeys(rows) && r[j].stats == StatsOf(rows, k)
  {
    var r := OnlyEvents(rows, maxCookingTime, powerMeanMin, tariff);
    forall j | 0 <= j < |r| && r[j].stats.key == k
      ensures k in GroupKeys(rows) && r[j].stats == StatsOf(rows, k)
    {
      OnlyEventsFromGroup(rows, maxCookingTime, powerMeanMin, tariff, j);
    }
    if k in GroupKeys(rows) {
      OnlyEventsReachesGroup(rows, maxCookingTime, powerMeanMin, tariff, k);
    }
  }

  /** Row j of `only_events` is the aggregated row of a group of the table. */
  lemma OnlyEventsFromGroup(rows: seq<Row>, maxCookingTime: int, powerMeanMin: real, tariff: real, j: nat)
    requires j < |OnlyEvents(rows, maxCookingTime, powerMeanMin, tariff)|
    ensures var e := OnlyEvents(rows, maxCookingTime, powerMeanMin, tariff)[j];
      e.stats.key in GroupKeys(rows) && e.stats == StatsOf(rows, e.stats.key)
  {
    var a := Aggregates(rows);
    assert OnlyEvents(rows, maxCookingTime, powerMeanMin, tariff) == Priced(a, maxCookingTime, powerMeanMin, tariff);
    PricedSound(a, maxCookingTime, powerMeanMin, tariff, j);
    AggregatesFromGroups(rows, Priced(a, maxCookingTime, powerMeanMin, tariff)[j].stats);
  }

  /** Every row of the aggregated table is the aggregate of a group of the table. */
  lemma AggregatesFromGroups(rows: seq<Row>, s: GroupStats)
    requires s in Aggregates(rows)
    ensures s.key in GroupKeys(rows) && s == StatsOf(rows, s.key)
  {
    var ks := GroupKeys(rows);
    var a := Aggregates(rows);
    var q :| 0 <= q < |a| && a[q] == s;
    assert ks[q] in ks;
  }

  /** A group of the table reaches `only_events` exactly when its aggregated
      row passes the filters. */
  lemma OnlyEventsReachesGroup(rows: seq<Row>, maxCookingTime: int, powerMeanMin: real, tariff: real, k: Key)
    requires k in GroupKeys(rows)
    ensures var r := OnlyEvents(rows, maxCookingTime, powerMeanMin, tariff);
      (exists j :: 0 <= j < |r| && r[j].stats == StatsOf(rows, k)) <==> Keep(StatsOf(rows, k), maxCookingTime, powerMeanMin)
  {
    var a := Aggregates(rows);
    assert OnlyEvents(rows, maxCookingTime, powerMeanMin, tariff) == Priced(a, maxCookingTime, powerMeanMin, tariff);
    AggregatesCoverGroups(rows, k);
    PricedComplete(a, maxCookingTime, powerMeanMin, tariff, StatsOf(rows, k));
  }

  /** Every group of the table has its aggregate in the aggregated table. */
  lemma AggregatesCoverGroups(rows: seq<Row>, k: Key)
    requires k in GroupKeys(rows)
    ensures StatsOf(rows, k) in Aggregates(rows)
  {
    var ks := GroupKeys(rows);
    var a := Aggregates(rows);
    var q :| 0 <= q < |ks| && ks[q] == k;
    assert a[q] in a;
  }

}
