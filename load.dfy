/** `load_on`: marks each reading that draws a load with the energy it took
    since the previous reading of the same meter. */
module LoadOn {
  import opened Frame

  /** The mask of the source: same meter as the previous row, and either the
      energy delta or the instantaneous power strictly above its threshold.
      Row 0 has no previous row, so the meter comparison is false there. */
  predicate LoadActive(s: seq<Reading>, i: nat, minActiveLoad: real, powerCapacity: real, timeResolution: int)
    requires i < |s|
  {
    i > 0 && s[i].meter == s[i - 1].meter &&
    (s[i].energy - s[i - 1].energy > EnergyThreshold(minActiveLoad, powerCapacity, timeResolution) ||
     s[i].power > PowerThreshold(minActiveLoad, powerCapacity))
  }

  /** Row i once the new `load_on` column is written: the energy delta under
      the mask, missing elsewhere. */
  function MarkRow(s: seq<Reading>, i: nat, minActiveLoad: real, powerCapacity: real, timeResolution: int): Reading
    requires i < |s|
  {
    s[i].(loadOn := if LoadActive(s, i, minActiveLoad, powerCapacity, timeResolution)
                    then Some(s[i].energy - s[i - 1].energy) else None)
  }

  /** The table `load_on` returns. */
  function MarkLoad(s: seq<Reading>, minActiveLoad: real, powerCapacity: real, timeResolution: int): (r: seq<Reading>)
    ensures |r| == |s|
  {
    seq(|s|, i requires 0 <= i < |s| => MarkRow(s, i, minActiveLoad, powerCapacity, timeResolution))
  }

  /** A reading is marked exactly when it has a predecessor of the same meter
      and the delta or the power strictly exceeds its threshold; the mark is
      the energy delta; nothing but the load column changes. */
  lemma MarkLoadSpec(s: seq<Reading>, minActiveLoad: real, powerCapacity: real, timeResolution: int, i: nat)
    requires i < |s|
    ensures var r := MarkLoad(s, minActiveLoad, powerCapacity, timeResolution);
      && (r[i].loadOn.Some? <==>
            i > 0 && s[i].meter == s[i - 1].meter &&
            (s[i].energy - s[i - 1].energy > minActiveLoad * powerCapacity * (timeResolution as real) / 60.0 ||
             s[i].power > minActiveLoad * powerCapacity))
      && (r[i].loadOn.Some? ==> r[i].loadOn.value == s[i].energy - s[i - 1].energy)
      && r[i].meter == s[i].meter && r[i].timestamp == s[i].timestamp
      && r[i].energy == s[i].energy && r[i].power == s[i].power
  {
  }

  /** The first reading of every meter (row 0 included) is never marked. */
  lemma FirstOfMeterUnmarked(s: seq<Reading>, minActiveLoad: real, powerCapacity: real, timeResolution: int, i: nat)
    requires i < |s| && MeterChangedFromPrev(s, i)
    ensures MarkLoad(s, minActiveLoad, powerCapacity, timeResolution)[i].loadOn == None
  {
  }

  /** The source writes the new column into the table it is given. The sweep
      may read row i - 1 after rewriting it, because only its load column changed. */
  method MarkLoadInPlace(a: array<Reading>, minActiveLoad: real, powerCapacity: real, timeResolution: int)
    modifies a
    ensures a[..] == MarkLoad(old(a[..]), minActiveLoad, powerCapacity, timeResolution)
  {
    ghost var target := MarkLoad(a[..], minActiveLoad, powerCapacity, timeResolution);
    for i := 0 to a.Length
      invariant forall k :: 0 <= k < i ==> a[k] == target[k]
      invariant forall k :: i <= k < a.Length ==> a[k] == old(a[k])
    {
      var active := i > 0 && a[i].meter == a[i - 1].meter &&
        (a[i].energy - a[i - 1].energy > EnergyThreshold(minActiveLoad, powerCapacity, timeResolution) ||
         a[i].power > PowerThreshold(minActiveLoad, powerCapacity));
      a[i] := a[i].(loadOn := if active then Some(a[i].energy - a[i - 1].energy) else None);
    }
    assert a[..] == target;
  }
}
