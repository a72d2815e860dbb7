/**
  The frame-rate history: a fixed ring of 512 samples with a write pivot
  and a sample count that saturates at the ring's size, plus the maximum
  and the average over the recorded slots. In the source these are file
  statics; here they are the fields of one `FpsCounter` object.
 */
module Fps {
  import opened Common

  /** Number of slots in the ring. */
  const Size: nat := 512

  /** The ring's state as a value: the slots, the next slot to write, and how many slots hold samples. */
  datatype Ring = Ring(slots: seq<real>, pivot: nat, samples: nat)

  /** The state before any sample: every slot 0, pivot and count 0. */
  function Empty(): (r: Ring)
    ensures |r.slots| == Size
  {
    Ring(seq(Size, _ => 0.0), 0, 0)
  }

  /** A ring of the right size with its pivot and count in range. */
  predicate WellFormed(r: Ring)
  {
    |r.slots| == Size && r.pivot < Size && r.samples <= Size
  }

  /** Record one sample: write it at the pivot, advance the pivot modulo the size, count up to the size. */
  function Push(r: Ring, fps: real): (r': Ring)
    requires WellFormed(r)
    ensures WellFormed(r')
    ensures r'.pivot == (r.pivot + 1) % Size
    ensures r'.slots[r.pivot] == fps
    ensures forall j :: 0 <= j < Size && j != r.pivot ==> r'.slots[j] == r.slots[j]
    ensures r'.samples == if r.samples < Size then r.samples + 1 else Size
  {
    Ring(r.slots[r.pivot := fps], (r.pivot + 1) % Size, if r.samples < Size then r.samples + 1 else Size)
  }

  /** The ring after recording `xs`, oldest first, from the empty ring. */
  function Pushed(xs: seq<real>): (r: Ring)
    ensures WellFormed(r)
  {
    if |xs| == 0 then Empty() else Push(Pushed(xs[..|xs| - 1]), xs[|xs| - 1])
  }

  /** Advancing a position modulo the size commutes with reducing it. */
  lemma ModNext(k: nat)
    ensures (k % Size + 1) % Size == (k + 1) % Size
  {
  }

  /** Positions less than a lap apart fall in different slots. */
  lemma ModDistinct(t: nat, u: nat)
    requires t < u < t + Size
    ensures t % Size != u % Size
  {
  }

  /** After recording `xs` from the empty ring, the count is |xs| capped at 512 and the pivot is |xs| mod 512. */
  lemma {:induction false} PushedCounters(xs: seq<real>)
    ensures Pushed(xs).samples == if |xs| < Size then |xs| else Size
    ensures Pushed(xs).pivot == |xs| % Size
  {
    if |xs| > 0 {
      PushedCounters(xs[..|xs| - 1]);
      ModNext(|xs| - 1);
    }
  }

  /** After recording `xs` from the empty ring, slots never written still hold 0. */
  lemma {:induction false} PushedUnwritten(xs: seq<real>)
    ensures forall j :: |xs| <= j < Size ==> Pushed(xs).slots[j] == 0.0
  {
    if |xs| > 0 {
      PushedUnwritten(xs[..|xs| - 1]);
      PushedCounters(xs[..|xs| - 1]);
    }
  }

  /**
    After recording `xs` from the empty ring, each of the last (at most)
    512 samples sits in slot t mod 512.
   */
  lemma {:induction false} PushedHoldsLatest(xs: seq<real>)
    ensures forall t :: 0 <= t < |xs| && |xs| - Size <= t ==> Pushed(xs).slots[t % Size] == xs[t]
  {
    if |xs| > 0 {
      var init := xs[..|xs| - 1];
      PushedHoldsLatest(init);
      PushedCounters(init);
      forall t | 0 <= t < |xs| - 1 && |xs| - Size <= t
        ensures Pushed(xs).slots[t % Size] == xs[t]
      {
        ModDistinct(t, |xs| - 1);
        assert init[t] == xs[t];
      }
    }
  }

  /**
    Until the ring wraps, the slots the queries scan, the first `samples`,
    are exactly the samples recorded, in order.
   */
  lemma RecordedPrefix(xs: seq<real>)
    requires |xs| <= Size
    ensures Pushed(xs).samples == |xs|
    ensures forall t :: 0 <= t < |xs| ==> Pushed(xs).slots[t] == xs[t]
  {
    PushedCounters(xs);
    forall t | 0 <= t < |xs| ensures Pushed(xs).slots[t] == xs[t] {
      EarlySlot(xs, t);
    }
  }

  /** Before the ring wraps, sample t is in slot t. */
  lemma EarlySlot(xs: seq<real>, t: nat)
    requires t < |xs| <= Size
    ensures Pushed(xs).slots[t] == xs[t]
  {
    PushedHoldsLatest(xs);
    assert t % Size == t;
  }

  /** The sum of a sequence of samples, accumulated from the front. */
  function Sum(s: seq<real>): real
  {
    if |s| == 0 then 0.0 else Sum(s[..|s| - 1]) + s[|s| - 1]
  }

  /** A sum of n values each in [lo, hi] lies in [n·lo, n·hi]. */
  lemma {:induction false} SumBounds(s: seq<real>, lo: real, hi: real)
    requires forall i :: 0 <= i < |s| ==> lo <= s[i] <= hi
    ensures |s| as real * lo <= Sum(s) <= |s| as real * hi
  {
    if |s| > 0 {
      SumBounds(s[..|s| - 1], lo, hi);
    }
  }

  /**
    The average of a non-empty run of samples lies between their least and
    greatest; of no samples it is NaN (0/0).
   */
  lemma AverageBounds(s: seq<real>, lo: real, hi: real)
    requires forall i :: 0 <= i < |s| ==> lo <= s[i] <= hi
    ensures |s| == 0 ==> Divide(Sum(s), |s| as real) == NaN
    ensures |s| > 0 ==> Divide(Sum(s), |s| as real).Finite? && lo <= Divide(Sum(s), |s| as real).value <= hi
  {
    SumBounds(s, lo, hi);
    if |s| > 0 {
      QuotientBetween(Sum(s), |s| as real, lo, hi);
    }
  }

  /** sum / n lies in [lo, hi] when sum lies in [n·lo, n·hi] and n is positive. */
  lemma QuotientBetween(sum: real, n: real, lo: real, hi: real)
    requires n > 0.0 && n * lo <= sum <= n * hi
    ensures lo <= sum / n <= hi
  {
    var avg := sum / n;
    assert avg * n == sum;
    assert (avg - lo) * n == sum - n * lo;
    assert (hi - avg) * n == n * hi - sum;
  }

  class FpsCounter {
    var buffer: array<real>
    var index: array<real>
    var pivot: nat
    var samples: nat

    ghost predicate Valid()
      reads this
    {
      && buffer.Length == Size && index.Length == Size && buffer != index
      && pivot < Size && samples <= Size
    }

    /** The ring's state as a value. */
    function Model(): Ring
      reads this, buffer
    {
      Ring(buffer[..], pivot, samples)
    }

    /** The statics as the program starts: zero-initialised, like every C static. */
    constructor ()
      ensures Valid() && fresh(buffer) && fresh(index)
      ensures Model() == Empty()
      ensures forall i :: 0 <= i < Size ==> index[i] == 0.0
    {
      buffer := new real[Size](_ => 0.0);
      index := new real[Size](_ => 0.0);
      pivot, samples := 0, 0;
    }

    /**
      Clear every slot and number the x-axis 0 … 511. The pivot and the
      sample count are left as they are.
     */
    method Init()
      requires Valid()
      modifies buffer, index
      ensures Valid()
      ensures forall i :: 0 <= i < Size ==> buffer[i] == 0.0 && index[i] == i as real
      ensures pivot == old(pivot) && samples == old(samples)
    {
      var i := 0;
      while i < Size
        invariant 0 <= i <= Size
        invariant forall j :: 0 <= j < i ==> buffer[j] == 0.0
      {
        buffer[i] := 0.0;
        i := i + 1;
      }
      i := 0;
      while i < Size
        invariant 0 <= i <= Size
        invariant forall j :: 0 <= j < Size ==> buffer[j] == 0.0
        invariant forall j :: 0 <= j < i ==> index[j] == j as real
      {
        index[i] := i as real;
        i := i + 1;
      }
    }

    /** Record one frame rate. */
    method AddSample(fps: real)
      requires Valid()
      modifies this, buffer
      ensures Valid() && buffer == old(buffer) && index == old(index)
      ensures Model() == Push(old(Model()), fps)
    {
      buffer[pivot] := fps;
      pivot := (pivot + 1) % Size;
      samples := if samples < Size then samples + 1 else Size;
    }

    /** The largest of the first `samples` slots, and 0 when none is positive. */
    method MaxFps() returns (max: real)
      requires Valid()
      ensures max >= 0.0
      ensures forall i :: 0 <= i < samples ==> buffer[i] <= max
      ensures max == 0.0 || exists i :: 0 <= i < samples && buffer[i] == max
    {
      max := 0.0;
      var i := 0;
      while i < samples
        invariant 0 <= i <= samples
        invariant max >= 0.0
        invariant forall j :: 0 <= j < i ==> buffer[j] <= max
        invariant max == 0.0 || exists j :: 0 <= j < i && buffer[j] == max
      {
        if buffer[i] > max {
          max := buffer[i];
        }
        i := i + 1;
      }
    }

    /** The mean of the first `samples` slots: NaN when there are none. */
    method AverageFps() returns (avg: Float)
      requires Valid()
      ensures avg == Divide(Sum(buffer[..samples]), samples as real)
    {
      var sum := 0.0;
      var i := 0;
      while i < samples
        invariant 0 <= i <= samples
        invariant sum == Sum(buffer[..i])
      {
        assert buffer[..i + 1][..i] == buffer[..i];
        sum := sum + buffer[i];
        i := i + 1;
      }
      avg := Divide(sum, samples as real);
    }
  }
}
