/**
 * The running-average filter of the camera server: a fixed-capacity circular
 * buffer of C `int` samples with a write index, a saturating sample count and
 * a running sum. Every call stores one sample and answers the integer mean of
 * the most recent min(calls, capacity) samples.
 */
module RunningAverage {

  const Int32Min: int := -0x8000_0000
  const Int32Max: int := 0x7fff_ffff
  /** `size_t` is 32 bits wide on the target. */
  const SizeTModulus: int := 0x1_0000_0000

  predicate InInt32(x: int) {
    Int32Min <= x <= Int32Max
  }

  function Min(a: int, b: int): int {
    if a <= b then a else b
  }

  /** Every element of s lies in [lo, hi]. */
  predicate AllIn(s: seq<int>, lo: int, hi: int) {
    forall k :: 0 <= k < |s| ==> lo <= s[k] <= hi
  }

  /** The sum of s[lo..hi], added up from the left. */
  function SumRange(s: seq<int>, lo: nat, hi: nat): int
    requires lo <= hi <= |s|
    decreases hi - lo
  {
    if lo == hi then 0 else SumRange(s, lo, hi - 1) + s[hi - 1]
  }

  function Sum(s: seq<int>): int {
    SumRange(s, 0, |s|)
  }

  /** The samples a filter of capacity `n` averages over after seeing `history`: the most recent min(|history|, n). */
  function Window(history: seq<int>, n: nat): (w: seq<int>)
    ensures |w| == Min(|history|, n)
  {
    history[|history| - Min(|history|, n)..]
  }

  /** The sum of Window(history, n), taken in place over `history`. */
  function WindowSum(history: seq<int>, n: nat): int {
    SumRange(history, |history| - Min(|history|, n), |history|)
  }

  /** The slot sample number j is written to: j steps around a ring of `n` slots. */
  function Ring(j: nat, n: nat): (p: nat)
    requires n > 0
    ensures p < n
  {
    if j == 0 then 0
    else if Ring(j - 1, n) + 1 == n then 0
    else Ring(j - 1, n) + 1
  }

  /**
   * The array contents after feeding `history` into a zeroed buffer of `n`
   * slots: sample number j lands in slot Ring(j, n).
   */
  function Slots(history: seq<int>, n: nat): (s: seq<int>)
    requires n > 0
    ensures |s| == n
  {
    if history == [] then seq(n, _ => 0)
    else Slots(history[..|history| - 1], n)[Ring(|history| - 1, n) := history[|history| - 1]]
  }

  /** Signed division truncating toward zero, as C's `/` on `int`. */
  function TruncDiv(a: int, b: int): (q: int)
    requires b > 0
    ensures a >= 0 ==> q * b <= a < q * b + b
    ensures a < 0 ==> q * b - b < a <= q * b
  {
    if a >= 0 then a / b else -((-a) / b)
  }

  /** A value in [0, 2^32) read back as a 32-bit two's-complement `int`. */
  function ToInt32(x: int): (r: int)
    requires 0 <= x < SizeTModulus
    ensures InInt32(r)
    ensures r % SizeTModulus == x % SizeTModulus
  {
    if x <= Int32Max then x else x - SizeTModulus
  }

  /**
   * `sum / count` exactly as written in ra_filter_run: `sum` is an `int`,
   * `count` a `size_t`, so the usual arithmetic conversions turn `sum` into an
   * unsigned 32-bit value before dividing; the quotient goes back to `int`.
   */
  function SizeTMean(sum: int, count: int): (r: int)
    requires InInt32(sum) && 0 < count < SizeTModulus
    ensures InInt32(r)
    ensures sum >= 0 ==> r * count <= sum < r * count + count
  {
    ToInt32((sum % SizeTModulus) / count)
  }

  // ---------------------------------------------------------------------------
  // Arithmetic facts about sums and slot positions

  /** A sum only looks at the elements it ranges over. */
  lemma {:induction false} SumRangeAgree(s: seq<int>, t: seq<int>, lo: nat, hi: nat)
    requires lo <= hi <= |s| && hi <= |t|
    requires forall k :: lo <= k < hi ==> s[k] == t[k]
    ensures SumRange(s, lo, hi) == SumRange(t, lo, hi)
    decreases hi - lo
  {
    if lo < hi {
      SumRangeAgree(s, t, lo, hi - 1);
    }
  }

  /** Summing a slice is summing the same stretch of the whole sequence. */
  lemma {:induction false} SumRangeSlice(s: seq<int>, lo: nat, hi: nat, a: nat, b: nat)
    requires lo <= hi <= |s| && a <= b <= hi - lo
    ensures SumRange(s[lo..hi], a, b) == SumRange(s, lo + a, lo + b)
    decreases b - a
  {
    if a < b {
      SumRangeSlice(s, lo, hi, a, b - 1);
    }
  }

  /** The first element can be split off as well as the last. */
  lemma {:induction false} SumRangeFront(s: seq<int>, lo: nat, hi: nat)
    requires lo < hi <= |s|
    ensures SumRange(s, lo, hi) == s[lo] + SumRange(s, lo + 1, hi)
    decreases hi - lo
  {
    if lo + 1 < hi {
      SumRangeFront(s, lo, hi - 1);
    }
  }

  lemma {:induction false} SumRangeUpdate(s: seq<int>, i: nat, v: int, lo: nat, hi: nat)
    requires i < |s| && lo <= hi <= |s|
    ensures SumRange(s[i := v], lo, hi) == SumRange(s, lo, hi) + (if lo <= i < hi then v - s[i] else 0)
    decreases hi - lo
  {
    if lo < hi {
      SumRangeUpdate(s, i, v, lo, hi - 1);
    }
  }

  lemma SumUpdate(s: seq<int>, i: nat, v: int)
    requires i < |s|
    ensures Sum(s[i := v]) == Sum(s) - s[i] + v
  {
    SumRangeUpdate(s, i, v, 0, |s|);
  }

  lemma {:induction false} SumRangeZeros(n: nat, hi: nat)
    requires hi <= n
    ensures SumRange(seq(n, _ => 0), 0, hi) == 0
  {
    if hi > 0 {
      SumRangeZeros(n, hi - 1);
    }
  }

  lemma SumZeros(n: nat)
    ensures Sum(seq(n, _ => 0)) == 0
  {
    SumRangeZeros(n, n);
  }

  lemma {:induction false} SumRangeBounds(s: seq<int>, lo: nat, hi: nat, a: int, b: int)
    requires lo <= hi <= |s|
    requires forall k :: lo <= k < hi ==> a <= s[k] <= b
    ensures (hi - lo) * a <= SumRange(s, lo, hi) <= (hi - lo) * b
    decreases hi - lo
  {
    if lo < hi {
      SumRangeBounds(s, lo, hi - 1, a, b);
      Distrib(hi - 1 - lo, 0, a);
      Distrib(hi - 1 - lo, 0, b);
    }
  }

  /** Every sum of samples in [lo, hi] lies between |s| * lo and |s| * hi. */
  lemma SumBounds(s: seq<int>, lo: int, hi: int)
    requires forall k :: 0 <= k < |s| ==> lo <= s[k] <= hi
    ensures |s| * lo <= Sum(s) <= |s| * hi
  {
    SumRangeBounds(s, 0, |s|, lo, hi);
  }

  /** WindowSum is the sum of the Window. */
  lemma WindowSumIsSum(history: seq<int>, n: nat)
    ensures WindowSum(history, n) == Sum(Window(history, n))
  {
    var lo := |history| - Min(|history|, n);
    SumRangeSlice(history, lo, |history|, 0, |history| - lo);
    assert history[lo..] == history[lo..|history|];
  }

  lemma DivMod(a: int, n: int)
    requires n > 0
    ensures a == (a / n) * n + a % n && 0 <= a % n < n
  {
  }

  lemma MulAtLeast(x: int, n: int)
    requires x >= 1 && n > 0
    ensures x * n >= n
  {
  }

  lemma Distrib(x: int, y: int, n: int)
    ensures (x - y) * n == x * n - y * n
    ensures (x + 1) * n == x * n + n
  {
  }

  /** The remainder is determined by any decomposition x == q * n + r with 0 <= r < n. */
  lemma ModUnique(x: int, n: int, q: int, r: int)
    requires n > 0 && 0 <= r < n && x == q * n + r
    ensures x % n == r
  {
    var q', r' := x / n, x % n;
    DivMod(x, n);
    Distrib(q, q', n);
    Distrib(q', q, n);
    if q - q' >= 1 {
      MulAtLeast(q - q', n);
    } else if q' - q >= 1 {
      MulAtLeast(q' - q, n);
    }
  }

  /** Two naturals closer than `n` apart fall into different slots. */
  lemma ModDistinct(a: nat, b: nat, n: nat)
    requires n > 0 && a < b < a + n
    ensures a % n != b % n
  {
    var qa, qb := a / n, b / n;
    DivMod(a, n);
    DivMod(b, n);
    Distrib(qb, qa, n);
    Distrib(qa, qb, n);
    if qb - qa >= 1 {
      MulAtLeast(qb - qa, n);
    } else if qa - qb >= 1 {
      MulAtLeast(qa - qb, n);
    }
  }

  lemma ModShift(a: nat, n: nat)
    requires n > 0
    ensures (a + n) % n == a % n
    ensures (a % n + 1) % n == (a + 1) % n
  {
    var q, r := a / n, a % n;
    DivMod(a, n);
    Distrib(q, 0, n);
    ModUnique(a + n, n, q + 1, r);
    if r + 1 < n {
      ModUnique(a + 1, n, q, r + 1);
      ModUnique(r + 1, n, 0, r + 1);
    } else {
      ModUnique(a + 1, n, q + 1, 0);
      ModUnique(r + 1, n, 1, 0);
    }
  }

  /** Going around the ring is taking the remainder. */
  lemma {:induction false} RingIsMod(j: nat, n: nat)
    requires n > 0
    ensures Ring(j, n) == j % n
  {
    if j == 0 {
      ModUnique(0, n, 0, 0);
    } else {
      RingIsMod(j - 1, n);
      ModShift(j - 1, n);
      var p := Ring(j - 1, n);
      if p + 1 == n {
        ModUnique(n, n, 1, 0);
      } else {
        ModUnique(p + 1, n, 0, p + 1);
      }
    }
  }

  /** Slot Ring(j, n) still holds sample j while j is among the last n samples. */
  lemma {:induction false} SlotsHoldRecent(h: seq<int>, n: nat, j: nat)
    requires n > 0 && j < |h| && |h| - n <= j
    ensures Slots(h, n)[Ring(j, n)] == h[j]
  {
    var h' := h[..|h| - 1];
    if j < |h'| {
      RingIsMod(j, n);
      RingIsMod(|h'|, n);
      ModDistinct(j, |h'|, n);
      SlotsHoldRecent(h', n, j);
    }
  }

  /** Slots that no sample has reached yet are still zero. */
  lemma {:induction false} SlotsUnwrittenZero(h: seq<int>, n: nat, i: nat)
    requires |h| <= i < n
    ensures Slots(h, n)[i] == 0
  {
    if h != [] {
      var h' := h[..|h| - 1];
      RingIsMod(|h'|, n);
      ModUnique(|h'|, n, 0, |h'|);
      SlotsUnwrittenZero(h', n, i);
    }
  }

  /** The value the next sample overwrites: the oldest of a full window, else 0. */
  lemma SlotOverwritten(h: seq<int>, n: nat)
    requires n > 0
    ensures Slots(h, n)[Ring(|h|, n)] == if |h| >= n then h[|h| - n] else 0
  {
    RingIsMod(|h|, n);
    if |h| >= n {
      RingIsMod(|h| - n, n);
      ModShift(|h| - n, n);
      SlotsHoldRecent(h, n, |h| - n);
    } else {
      ModUnique(|h|, n, 0, |h|);
      SlotsUnwrittenZero(h, n, |h|);
    }
  }

  /** One more sample: it enters the window and, once the window is full, pushes out the oldest. */
  lemma WindowStep(h: seq<int>, x: int, n: nat)
    requires n > 0
    ensures WindowSum(h + [x], n) == WindowSum(h, n) - (if |h| >= n then h[|h| - n] else 0) + x
  {
    var h', L := h + [x], |h|;
    var lo, lo' := L - Min(L, n), L + 1 - Min(L + 1, n);
    assert WindowSum(h', n) == SumRange(h', lo', L) + x;
    SumRangeAgree(h', h, lo', L);
    if L >= n {
      SumRangeFront(h, lo, L);
    }
  }

  /**
   * The sum over the whole buffer is the sum over the window: slots outside
   * the window are zero and slots inside it hold exactly the window's samples.
   */
  lemma {:induction false} SlotsSumIsWindowSum(h: seq<int>, n: nat)
    requires n > 0
    ensures Sum(Slots(h, n)) == WindowSum(h, n)
  {
    if h == [] {
      SumZeros(n);
    } else {
      var h', x := h[..|h| - 1], h[|h| - 1];
      assert h == h' + [x];
      var s', p := Slots(h', n), Ring(|h'|, n);
      assert Slots(h, n) == s'[p := x];
      SlotsSumIsWindowSum(h', n);
      SlotOverwritten(h', n);
      SumUpdate(s', p, x);
      WindowStep(h', x, n);
    }
  }

  /** The truncated mean of samples in [lo, hi] again lies in [lo, hi]. */
  lemma MeanWithinSamples(w: seq<int>, lo: int, hi: int)
    requires |w| > 0
    requires forall k :: 0 <= k < |w| ==> lo <= w[k] <= hi
    ensures lo <= TruncDiv(Sum(w), |w|) <= hi
  {
    var a, b := Sum(w), |w|;
    var q := TruncDiv(a, b);
    SumBounds(w, lo, hi);
    if q > hi {
      MulAtLeast(q - hi, b);
      Distrib(q, hi, b);
    }
    if q < lo {
      MulAtLeast(lo - q, b);
      Distrib(lo, q, b);
    }
  }

  // ---------------------------------------------------------------------------
  // The as-written division and why it is not a mean

  /** With two samples of -10 the C expression yields 2147483638, not -10. */
  lemma SizeTMeanOfNegativeSum()
    ensures Sum([-10, -10]) == -20
    ensures SizeTMean(-20, 2) == 2147483638
    ensures TruncDiv(-20, 2) == -10
  {
  }

  /** For a non-negative sum the as-written division is the truncated mean. */
  lemma SizeTMeanAgreesOnNonNegative(sum: int, count: int)
    requires InInt32(sum) && 0 < count < SizeTModulus
    ensures sum >= 0 ==> SizeTMean(sum, count) == TruncDiv(sum, count)
  {
    if sum >= 0 {
      assert sum % SizeTModulus == sum;
      assert sum / count <= sum;
    }
  }

  // ---------------------------------------------------------------------------
  // The filter state as values

  /**
   * The invariant of an allocated filter of `size` slots that has seen
   * `history`: `sum` is an `int`, the buffer holds the samples in their
   * ring slots (zeros where none has landed), `index` is the next slot,
   * `count` the window length and `sum` the window's sum.
   */
  ghost predicate Consistent(size: nat, index: nat, count: nat, sum: int, vals: seq<int>, history: seq<int>)
  {
    |vals| == size &&
    InInt32(sum) &&
    (size == 0 ==> index == 0 && count == 0 && sum == 0 && history == []) &&
    (size > 0 ==>
      index == Ring(|history|, size) &&
      count == Min(|history|, size) &&
      vals == Slots(history, size)) &&
    sum == Sum(vals)
  }

  /** The three invariants of ra_filter_t follow from Consistent. */
  lemma ConsistentInvariants(size: nat, index: nat, count: nat, sum: int, vals: seq<int>, history: seq<int>)
    requires Consistent(size, index, count, sum, vals, history)
    ensures size > 0 ==> sum == WindowSum(history, size)
    ensures size > 0 ==> index < size
    ensures count <= size
  {
    if size > 0 {
      SlotsSumIsWindowSum(history, size);
    } else {
      assert vals == [];
    }
  }

  /** One ra_filter_run step keeps the state Consistent. */
  lemma RunPreservesConsistent(size: nat, index: nat, count: nat, sum: int, vals: seq<int>, history: seq<int>, value: int)
    requires Consistent(size, index, count, sum, vals, history) && size > 0
    requires InInt32(value) && InInt32(sum - vals[index]) && InInt32(sum - vals[index] + value)
    ensures Consistent(size, if index + 1 == size then 0 else index + 1, if count < size then count + 1 else size,
                       sum - vals[index] + value, vals[index := value], history + [value])
    ensures (if count < size then count + 1 else size) == Min(|history| + 1, size) > 0
    ensures sum - vals[index] + value == WindowSum(history + [value], size)
  {
    RunStepSlots(history, size, vals, index, value);
    SumUpdate(vals, index, value);
    SlotsSumIsWindowSum(history + [value], size);
    var vals', h' := vals[index := value], history + [value];
    var index', count' := if index + 1 == size then 0 else index + 1, if count < size then count + 1 else size;
    var sum' := sum - vals[index] + value;
    assert InInt32(sum') && |vals'| == size;
    assert index' == Ring(|h'|, size) && count' == Min(|h'|, size);
    assert vals' == Slots(h', size);
    assert sum' == Sum(vals');
  }

  // ---------------------------------------------------------------------------
  // The filter object (ra_filter_t)

  class RaFilter {
    /** Capacity of the ring: how many recent samples the mean covers. */
    var size: nat
    /** The slot the next sample is written to. */
    var index: nat
    /** How many slots hold a sample so far; stops growing at `size`. */
    var count: nat
    var sum: int
    /** the sample buffer; `null` when allocation failed */
    var values: array?<int>
    /** every sample fed since the filter was initialised */
    ghost var history: seq<int>

    /** The capacity is a 32-bit `size_t`, and the fields agree with the samples fed so far. */
    ghost predicate Valid()
      reads this, values
    {
      (values == null ==> size == 0 && index == 0 && count == 0 && sum == 0 && history == []) &&
      (values != null ==> size < SizeTModulus && Consistent(size, index, count, sum, values[..], history))
    }

    /** What ra_filter_run needs to stay clear of `% 0` and signed overflow. */
    ghost predicate CanRun(value: int)
      reads this, values
    {
      values != null ==>
        size > 0 && index < values.Length &&
        InInt32(value) &&
        InInt32(sum - values[index]) &&
        InInt32(sum - values[index] + value)
    }

    /** Every stored sample lies in [0, bound], and `size` such samples fit an `int`. */
    ghost predicate Bounded(bound: nat)
      reads this, values
    {
      values != null ==> size * bound <= Int32Max && AllIn(values[..], 0, bound)
    }

    /** The statically allocated filter before ra_filter_init: all zero, no buffer. */
    constructor ()
      ensures Valid() && values == null
      ensures size == 0 && index == 0 && count == 0 && sum == 0
    {
      size, index, count, sum := 0, 0, 0, 0;
      values := null;
      history := [];
    }

    /**
     * ra_filter_init: zero the struct, then allocate `sampleSize` zeroed
     * slots; `allocOk` is the outcome of the allocation. `sampleSize` is a
     * 32-bit `size_t`.
     */
    method Init(sampleSize: nat, allocOk: bool) returns (ok: bool)
      requires sampleSize < SizeTModulus
      modifies this
      ensures Valid() && ok == allocOk && history == []
      ensures index == 0 && count == 0 && sum == 0
      ensures ok ==> values != null && fresh(values) && size == sampleSize && values.Length == sampleSize
      ensures ok ==> forall i :: 0 <= i < values.Length ==> values[i] == 0
      ensures !ok ==> values == null && size == 0
    {
      size, index, count, sum := 0, 0, 0, 0;
      values := null;
      history := [];
      if !allocOk {
        return false;
      }
      values := new int[sampleSize](_ => 0);
      size := sampleSize;
      ok := true;
      if size > 0 {
        assert values[..] == Slots([], size);
      }
      SumZeros(sampleSize);
      assert values[..] == seq(sampleSize, _ => 0);
    }

    /**
     * ra_filter_run: store `value` in the slot at `index`, keep `sum` equal
     * to the buffer's sum, advance `index` around the ring, saturate `count`
     * at `size`, and answer the mean of the window. Without a buffer the
     * sample is answered unchanged and nothing moves.
     */
    method Run(value: int) returns (r: int)
      requires Valid() && CanRun(value)
      modifies this, values
      ensures Valid() && values == old(values) && size == old(size)
      ensures old(values) == null ==>
        r == value && index == old(index) && count == old(count) && sum == old(sum) &&
        history == old(history)
      ensures old(values) != null ==>
        values[..] == old(values[..])[old(index) := value] &&
        sum == old(sum) - old(values[index]) + value &&
        index == (if old(index) + 1 == size then 0 else old(index) + 1) &&
        count == (if old(count) < size then old(count) + 1 else size) &&
        history == old(history) + [value] &&
        count == Min(|history|, size) > 0 &&
        sum == WindowSum(history, size) &&
        r == TruncDiv(WindowSum(history, size), count)
      ensures old(values) != null && sum >= 0 ==> r == SizeTMean(sum, count)
    {
      if values == null {
        return value;
      }
      ghost var s, i, c, t, h := values[..], index, count, sum, history;
      RunPreservesConsistent(size, i, c, t, s, h, value);
      sum := sum - values[index];
      values[index] := value;
      sum := sum + values[index];
      assert values[..] == s[i := value];
      index := index + 1;
      WrapStep(index, size);
      index := index % size;
      if count < size {
        count := count + 1;
      }
      history := history + [value];
      assert count == (if c < size then c + 1 else size);
      assert sum == t - s[i] + value == WindowSum(history, size);
      r := TruncDiv(sum, count);
      SizeTMeanAgreesOnNonNegative(sum, count);
    }
  }

  /** Advancing an index of a ring of `n` slots by one and taking the remainder. */
  lemma WrapStep(j: nat, n: nat)
    requires 0 < j <= n
    ensures j % n == if j == n then 0 else j
  {
    if j == n {
      ModUnique(j, n, 1, 0);
    } else {
      ModUnique(j, n, 0, j);
    }
  }

  /** One ra_filter_run step on the buffer: the written slot and the advanced index. */
  lemma RunStepSlots(h: seq<int>, n: nat, s: seq<int>, idx: nat, v: int)
    requires n > 0 && s == Slots(h, n) && idx == Ring(|h|, n)
    ensures idx < |s| && s[idx := v] == Slots(h + [v], n)
    ensures (if idx + 1 == n then 0 else idx + 1) == Ring(|h| + 1, n)
  {
    assert (h + [v])[..|h + [v]| - 1] == h;
  }

  /** Replacing one of `n` samples in [0, bound] by another keeps every partial sum an `int`. */
  lemma BoundedStep(s: seq<int>, i: nat, v: int, bound: nat)
    requires i < |s| && |s| * bound <= Int32Max && 0 <= v <= bound
    requires AllIn(s, 0, bound)
    ensures InInt32(Sum(s) - s[i]) && InInt32(Sum(s) - s[i] + v)
    ensures AllIn(s[i := v], 0, bound)
  {
    SumBounds(s, 0, bound);
    SumUpdate(s, i, v);
    var s' := s[i := v];
    assert forall k :: 0 <= k < |s'| ==> 0 <= s'[k] <= bound;
    SumBounds(s', 0, bound);
  }

  /**
   * A filter Bounded by `bound` accepts any sample in [0, bound]: its sum
   * cannot overflow.
   */
  lemma BoundedCanRun(f: RaFilter, bound: nat, value: int)
    requires f.Valid() && f.Bounded(bound) && 0 <= value <= bound
    requires f.values != null ==> f.size > 0
    ensures f.CanRun(value)
  {
    if f.values != null {
      ConsistentInvariants(f.size, f.index, f.count, f.sum, f.values[..], f.history);
      BoundedStep(f.values[..], f.index, value, bound);
    }
  }

  /** The capacity the camera server gives its filter in startCameraServer. */
  const ServerCapacity: nat := 20

  /** A filter of capacity 3 fed 10, 20, 30, 40 answers 10, 15, 20, 30. */
  method CapacityThreeExample() returns (outputs: seq<int>)
    ensures outputs == [10, 15, 20, 30]
  {
    var f := new RaFilter();
    var ok := f.Init(3, true);
    assert f.values[..] == [0, 0, 0];
    var a := f.Run(10);
    assert f.values[..] == [10, 0, 0] && f.sum == 10 && f.index == 1 && f.count == 1;
    var b := f.Run(20);
    assert f.values[..] == [10, 20, 0] && f.sum == 30 && f.index == 2 && f.count == 2;
    var c := f.Run(30);
    assert f.values[..] == [10, 20, 30] && f.sum == 60 && f.index == 0 && f.count == 3;
    var d := f.Run(40);
    assert f.sum == 90 && f.count == 3;
    outputs := [a, b, c, d];
  }
}
