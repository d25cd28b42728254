/** The counter rule of the per-folder renaming loops of the older plugins: a file whose name contains
    "barcode" is named with counter 0 and does not advance the counter; every other file takes the
    next value, starting from the configured start value in each folder. */
module BarcodeCounter {
  import opened Text

  const BarcodeMarker: string := "barcode"

  /** `name.contains("barcode")`. */
  predicate IsBarcodeImage(name: string)
  {
    Contains(name, BarcodeMarker)
  }

  /** How many names of a listing are not barcode images: how far those names advance the counter. */
  function RegularCount(names: seq<string>): (r: nat)
    ensures r <= |names|
  {
    if names == [] then 0
    else RegularCount(names[..|names| - 1]) + (if IsBarcodeImage(names[|names| - 1]) then 0 else 1)
  }

  /** The counter the loop holds when it reaches the file at index i. */
  function CounterBefore(names: seq<string>, startValue: int, i: nat): (r: int)
    requires i <= |names|
  {
    startValue + RegularCount(names[..i])
  }

  /** The counter the file at index i is named with. */
  function CounterOf(names: seq<string>, startValue: int, i: nat): (r: int)
    requires i < |names|
  {
    if IsBarcodeImage(names[i]) then 0 else CounterBefore(names, startValue, i)
  }

  /** One more file advances the counter by one unless it is a barcode image. */
  lemma CounterStep(names: seq<string>, startValue: int, i: nat)
    requires i < |names|
    ensures CounterBefore(names, startValue, i + 1)
         == CounterBefore(names, startValue, i) + (if IsBarcodeImage(names[i]) then 0 else 1)
  {
    assert names[..i + 1][..i] == names[..i];
  }

  /** The counter never goes back. */
  lemma {:induction false} CounterMonotone(names: seq<string>, startValue: int, i: nat, j: nat)
    requires i <= j <= |names|
    ensures CounterBefore(names, startValue, i) <= CounterBefore(names, startValue, j)
    decreases j - i
  {
    if i < j {
      CounterMonotone(names, startValue, i, j - 1);
      CounterStep(names, startValue, j - 1);
    }
  }

  /** Files that are not barcode images get strictly increasing counters in listing order, so no two
      of them share a counter. */
  lemma RegularCountersIncrease(names: seq<string>, startValue: int, i: nat, j: nat)
    requires i < j < |names|
    requires !IsBarcodeImage(names[i]) && !IsBarcodeImage(names[j])
    ensures CounterOf(names, startValue, i) < CounterOf(names, startValue, j)
  {
    CounterStep(names, startValue, i);
    CounterMonotone(names, startValue, i + 1, j);
  }

  /** The counters of the files that are not barcode images lie in startValue .. startValue + n - 1,
      n being how many such files there are. */
  lemma RegularCounterInRange(names: seq<string>, startValue: int, i: nat)
    requires i < |names| && !IsBarcodeImage(names[i])
    ensures startValue <= CounterOf(names, startValue, i) < startValue + RegularCount(names)
  {
    CounterStep(names, startValue, i);
    CounterMonotone(names, startValue, i + 1, |names|);
    assert names[..|names|] == names;
  }

  /** Every value of startValue .. startValue + n - 1 is the counter of some file that is not a
      barcode image: the counters are consecutive, with no value skipped. */
  lemma {:induction false} RegularCountersConsecutive(names: seq<string>, startValue: int, v: int)
    requires startValue <= v < startValue + RegularCount(names)
    ensures exists i :: 0 <= i < |names| && !IsBarcodeImage(names[i]) && CounterOf(names, startValue, i) == v
    decreases |names|
  {
    var init := names[..|names| - 1];
    var last := |names| - 1;
    if v < startValue + RegularCount(init) {
      RegularCountersConsecutive(init, startValue, v);
      var i :| 0 <= i < |init| && !IsBarcodeImage(init[i]) && CounterOf(init, startValue, i) == v;
      assert init[..i] == names[..i];
      assert CounterOf(names, startValue, i) == v;
    } else {
      assert names[..last] == init;
      assert !IsBarcodeImage(names[last]) && CounterOf(names, startValue, last) == v;
    }
  }
}
