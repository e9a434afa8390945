/** `remove_spikes`: a reading whose energy exceeds its same-meter successor's
    by more than the spike margin takes the successor's energy. The source
    repeats this vectorised pass a fixed number of times, in place, and never
    deletes a row. */
module Spikes {
  import opened Frame

  /** The number of passes the source runs. */
  const SpikePasses: nat := 100

  /** Row i qualifies in a pass over s: it has a successor of the same meter
      and its energy is above the successor's by more than the margin. */
  predicate IsSpike(s: seq<Reading>, i: nat, minSize: real)
    requires i < |s|
  {
    i + 1 < |s| && s[i].meter == s[i + 1].meter && s[i].energy > s[i + 1].energy + minSize
  }

  predicate NoSpikes(s: seq<Reading>, minSize: real)
  {
    forall i :: 0 <= i < |s| ==> !IsSpike(s, i, minSize)
  }

  /** One vectorised pass: the mask and the new values both read the energy
      column as it stood before the pass. */
  function SpikePass(s: seq<Reading>, minSize: real): (r: seq<Reading>)
    ensures |r| == |s|
  {
    seq(|s|, i requires 0 <= i < |s| => PassRow(s, minSize, i))
  }

  /** Row i after one pass. */
  function PassRow(s: seq<Reading>, minSize: real, i: nat): Reading
    requires i < |s|
  {
    if IsSpike(s, i, minSize) then s[i].(energy := s[i + 1].energy) else s[i]
  }

  /** k passes in a row. */
  function Repeat(s: seq<Reading>, minSize: real, k: nat): (r: seq<Reading>)
    ensures |r| == |s|
  {
    if k == 0 then s else SpikePass(Repeat(s, minSize, k - 1), minSize)
  }

  /** What `remove_spikes` leaves in the table. */
  function RemoveSpikes(s: seq<Reading>, minSize: real): (r: seq<Reading>)
    ensures |r| == |s|
  {
    Repeat(s, minSize, SpikePasses)
  }

  /** Index of the last reading of the meter run that contains row i. */
  function RunEnd(s: seq<Reading>, i: nat): (j: nat)
    requires i < |s|
    ensures i <= j < |s| && MeterChangesAtNext(s, j)
    ensures forall k :: i <= k <= j ==> s[k].meter == s[i].meter
    decreases |s| - i
  {
    if MeterChangesAtNext(s, i) then i else RunEnd(s, i + 1)
  }

  /** The filter changes energy only: no row is deleted or reordered, and the
      meter, the timestamp, the power and the load column of every row stay. */
  lemma {:induction false} RepeatChangesOnlyEnergy(s: seq<Reading>, minSize: real, k: nat, i: nat)
    requires i < |s|
    ensures |Repeat(s, minSize, k)| == |s|
    ensures Repeat(s, minSize, k)[i] == s[i].(energy := Repeat(s, minSize, k)[i].energy)
  {
    if k > 0 {
      RepeatChangesOnlyEnergy(s, minSize, k - 1, i);
    }
  }

  /** With a non-negative margin no energy value is ever raised. */
  lemma {:induction false} RepeatNeverRaises(s: seq<Reading>, minSize: real, k: nat)
    requires minSize >= 0.0
    ensures forall i :: 0 <= i < |s| ==> Repeat(s, minSize, k)[i].energy <= s[i].energy
  {
    if k > 0 {
      RepeatNeverRaises(s, minSize, k - 1);
    }
  }

  /** The last reading of each meter (and of the table) is never changed. */
  lemma {:induction false} RepeatKeepsLastOfMeter(s: seq<Reading>, minSize: real, k: nat, i: nat)
    requires i < |s| && MeterChangesAtNext(s, i)
    ensures Repeat(s, minSize, k)[i] == s[i]
  {
    if k > 0 {
      RepeatKeepsLastOfMeter(s, minSize, k - 1, i);
      if i + 1 < |s| {
        RepeatChangesOnlyEnergy(s, minSize, k - 1, i + 1);
      }
    }
  }

  /** Rows i..j all belong to row i's meter. */
  ghost predicate SameMeterRun(s: seq<Reading>, i: nat, j: nat)
    requires i <= j < |s|
  {
    forall q :: i <= q <= j ==> s[q].meter == s[i].meter
  }

  /** A reading that qualifies after some passes shares its original meter with its successor. */
  lemma SpikeStaysInMeter(s: seq<Reading>, minSize: real, k: nat, i: nat)
    requires i < |s| && IsSpike(Repeat(s, minSize, k), i, minSize)
    ensures s[i + 1].meter == s[i].meter
  {
    RepeatChangesOnlyEnergy(s, minSize, k, i);
    RepeatChangesOnlyEnergy(s, minSize, k, i + 1);
  }

  /** Every energy the filter leaves is the original energy of the same
      reading or of a later reading in the same meter run. */
  lemma {:induction false} RepeatTakesLaterEnergy(s: seq<Reading>, minSize: real, k: nat, i: nat)
    requires i < |s|
    ensures exists j :: i <= j < |s| && SameMeterRun(s, i, j) && Repeat(s, minSize, k)[i].energy == s[j].energy
  {
    if k == 0 {
      assert SameMeterRun(s, i, i);
    } else {
      var prev := Repeat(s, minSize, k - 1);
      var cur := Repeat(s, minSize, k);
      assert cur == SpikePass(prev, minSize);
      if IsSpike(prev, i, minSize) {
        assert cur[i].energy == prev[i + 1].energy;
        RepeatTakesLaterEnergy(s, minSize, k - 1, i + 1);
        var j :| i + 1 <= j < |s| && SameMeterRun(s, i + 1, j) && prev[i + 1].energy == s[j].energy;
        SpikeStaysInMeter(s, minSize, k - 1, i);
        assert SameMeterRun(s, i, j);
      } else {
        assert cur[i].energy == prev[i].energy;
        RepeatTakesLaterEnergy(s, minSize, k - 1, i);
      }
    }
  }

  /** A pass leaves the table as it is exactly when no reading qualifies
      (for a non-negative margin; a qualifying reading is then strictly lowered). */
  lemma PassIdentityIffNoSpikes(s: seq<Reading>, minSize: real)
    requires minSize >= 0.0
    ensures SpikePass(s, minSize) == s <==> NoSpikes(s, minSize)
  {
    if NoSpikes(s, minSize) {
      assert forall i :: 0 <= i < |s| ==> SpikePass(s, minSize)[i] == s[i];
    } else {
      var i :| 0 <= i < |s| && IsSpike(s, i, minSize);
      assert SpikePass(s, minSize)[i].energy < s[i].energy;
    }
  }

  /** At a fixed point every number of passes changes nothing. */
  lemma {:induction false} RepeatAtFixedPoint(s: seq<Reading>, minSize: real, k: nat)
    requires NoSpikes(s, minSize)
    ensures Repeat(s, minSize, k) == s
  {
    if k > 0 {
      RepeatAtFixedPoint(s, minSize, k - 1);
      assert forall i :: 0 <= i < |s| ==> SpikePass(s, minSize)[i] == s[i];
    }
  }

  /** a passes followed by b passes are a + b passes. */
  lemma {:induction false} RepeatAdd(s: seq<Reading>, minSize: real, a: nat, b: nat)
    ensures Repeat(Repeat(s, minSize, a), minSize, b) == Repeat(s, minSize, a + b)
  {
    if b > 0 {
      RepeatAdd(s, minSize, a, b - 1);
    }
  }

  /** Row i is stable from pass RunEnd(s, i) - i on: each pass settles one
      more reading, walking back from the end of the meter run. */
  lemma {:induction false} RepeatSettles(s: seq<Reading>, minSize: real, i: nat, k: nat)
    requires minSize >= 0.0
    requires i < |s| && k >= RunEnd(s, i) - i
    ensures Repeat(s, minSize, k + 1)[i] == Repeat(s, minSize, k)[i]
    ensures !IsSpike(Repeat(s, minSize, k), i, minSize)
    decreases RunEnd(s, i) - i
  {
    var cur := Repeat(s, minSize, k);
    RepeatChangesOnlyEnergy(s, minSize, k, i);
    if i + 1 < |s| {
      RepeatChangesOnlyEnergy(s, minSize, k, i + 1);
    }
    if MeterChangesAtNext(s, i) {
      assert !IsSpike(cur, i, minSize);
    } else {
      assert RunEnd(s, i) == RunEnd(s, i + 1);
      var prev := Repeat(s, minSize, k - 1);
      RepeatChangesOnlyEnergy(s, minSize, k - 1, i);
      RepeatChangesOnlyEnergy(s, minSize, k - 1, i + 1);
      RepeatSettles(s, minSize, i + 1, k - 1);
      assert prev[i + 1] == cur[i + 1];
      if IsSpike(prev, i, minSize) {
        assert cur[i].energy == cur[i + 1].energy;
      } else {
        assert cur[i].energy == prev[i].energy;
      }
      assert !IsSpike(cur, i, minSize);
    }
  }

  /** When no run of consecutive readings of one meter has more than
      SpikePasses + 1 readings, the bounded
      repetition reaches a fixed point: no reading qualifies any more, and
      running the filter again changes nothing. */
  lemma RemoveSpikesConverges(s: seq<Reading>, minSize: real)
    requires minSize >= 0.0
    requires forall i :: 0 <= i < |s| ==> RunEnd(s, i) - i <= SpikePasses
    ensures NoSpikes(RemoveSpikes(s, minSize), minSize)
    ensures RemoveSpikes(RemoveSpikes(s, minSize), minSize) == RemoveSpikes(s, minSize)
  {
    forall i | 0 <= i < |s|
      ensures !IsSpike(RemoveSpikes(s, minSize), i, minSize)
    {
      RepeatSettles(s, minSize, i, SpikePasses);
    }
    RepeatAtFixedPoint(RemoveSpikes(s, minSize), minSize, SpikePasses);
  }

  /** The downward spike [10, 10, 3, 10.5, 11] with margin 1: both 10s are
      pulled down to 3 (the successor's value), and nothing is raised. */
  lemma RemoveSpikesExample()
    ensures var s := [Reading(7, 0, 10.0, 0.0, None), Reading(7, 5, 10.0, 0.0, None),
                      Reading(7, 10, 3.0, 0.0, None), Reading(7, 15, 10.5, 0.0, None),
                      Reading(7, 20, 11.0, 0.0, None)];
            var r := RemoveSpikes(s, 1.0);
            r[0].energy == 3.0 && r[1].energy == 3.0 && r[2].energy == 3.0 &&
            r[3].energy == 10.5 && r[4].energy == 11.0
  {
    var s := [Reading(7, 0, 10.0, 0.0, None), Reading(7, 5, 10.0, 0.0, None),
              Reading(7, 10, 3.0, 0.0, None), Reading(7, 15, 10.5, 0.0, None),
              Reading(7, 20, 11.0, 0.0, None)];
    var once := [s[0], s[1].(energy := 3.0), s[2], s[3], s[4]];
    var twice := [s[0].(energy := 3.0), s[1].(energy := 3.0), s[2], s[3], s[4]];
    assert Repeat(s, 1.0, 1) == SpikePass(s, 1.0);
    assert SpikePass(s, 1.0) == once;
    assert SpikePass(once, 1.0) == twice;
    assert Repeat(s, 1.0, 2) == twice;
    assert NoSpikes(twice, 1.0);
    RepeatAtFixedPoint(twice, 1.0, SpikePasses - 2);
    RepeatAdd(s, 1.0, 2, SpikePasses - 2);
  }

  /** One pass in place: a left-to-right sweep implements the vectorised
      pass, because row i + 1 is still unchanged when row i reads it. */
  method SpikePassInPlace(a: array<Reading>, minSize: real)
    modifies a
    ensures a[..] == SpikePass(old(a[..]), minSize)
  {
    ghost var target := SpikePass(a[..], minSize);
    for i := 0 to a.Length
      invariant forall k :: 0 <= k < i ==> a[k] == target[k]
      invariant forall k :: i <= k < a.Length ==> a[k] == old(a[k])
    {
      if i + 1 < a.Length && a[i].meter == a[i + 1].meter && a[i].energy > a[i + 1].energy + minSize {
        a[i] := a[i].(energy := a[i + 1].energy);
      }
    }
    assert a[..] == target;
  }

  /** The filter as the source runs it: a fixed number of passes over the
      table, overwriting the energy column in place. */
  method RemoveSpikesInPlace(a: array<Reading>, minSize: real)
    modifies a
    ensures a[..] == RemoveSpikes(old(a[..]), minSize)
  {
    for pass := 0 to SpikePasses
      invariant a[..] == Repeat(old(a[..]), minSize, pass)
    {
      SpikePassInPlace(a, minSize);
    }
  }
}
