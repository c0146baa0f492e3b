/** The measurement window of an SV stream: a ring buffer of the newest samples of eight
    channels, with a running sum of squares per channel. */
module SampleWindow {
  import opened Wrappers
  import opened Bytes

  const NUM_CHANNELS: nat := 8
  const PERIODS: nat := 32

  /** One sample: its index in the stream and the value of every channel. */
  datatype Entry = Entry(index: nat, values: seq<real>)

  type Sample = v: seq<real> | |v| == NUM_CHANNELS witness seq(NUM_CHANNELS, _ => 0.0)

  /** Thirty-two periods, of eighty samples if their number is not known, or what fits. */
  function WindowSize(smpRate: nat): (size: nat)
    ensures 0 < size <= 8192
    ensures 1 <= smpRate <= 256 ==> size == 32 * smpRate
    ensures 256 <= smpRate ==> size == 8192
    ensures smpRate == 0 ==> size == 2560
  {
    var wanted := if smpRate == 0 then 80 * PERIODS else smpRate * PERIODS;
    if wanted > 8192 then 8192 else wanted
  }

  function Newest(s: seq<Entry>, n: nat): seq<Entry> {
    if |s| <= n then s else s[|s| - n..]
  }

  function Value(e: Entry, ch: nat): real {
    if ch < |e.values| then e.values[ch] else 0.0
  }

  function Square(e: Entry, ch: nat): real { Value(e, ch) * Value(e, ch) }

  function SumSquares(s: seq<Entry>, ch: nat): real {
    if s == [] then 0.0 else Square(s[0], ch) + SumSquares(s[1..], ch)
  }

  /** Mean square of a channel; zero for no samples. */
  function MeanSquare(s: seq<Entry>, ch: nat): real {
    if s == [] then 0.0 else SumSquares(s, ch) / |s| as real
  }

  function Between(s: seq<Entry>, after: real, upTo: real): (r: seq<Entry>)
    ensures |r| <= |s|
  {
    if s == [] then []
    else (if after < s[0].index as real <= upTo then [s[0]] else []) + Between(s[1..], after, upTo)
  }

  lemma {:induction false} SumSnoc(s: seq<Entry>, e: Entry, ch: nat)
    ensures SumSquares(s + [e], ch) == SumSquares(s, ch) + Square(e, ch)
  {
    hide Square;
    if s == [] {
      assert s + [e] == [e];
    } else {
      assert (s + [e])[1..] == s[1..] + [e];
      SumSnoc(s[1..], e, ch);
    }
  }

  lemma {:induction false} SumNonNegative(s: seq<Entry>, ch: nat)
    ensures SumSquares(s, ch) >= 0.0
  {
    if s != [] {
      var v := Value(s[0], ch);
      assert v * v >= 0.0;
      SumNonNegative(s[1..], ch);
    }
  }

  lemma {:induction false} BetweenSnoc(s: seq<Entry>, e: Entry, after: real, upTo: real)
    ensures Between(s + [e], after, upTo)
         == Between(s, after, upTo) + if after < e.index as real <= upTo then [e] else []
  {
    if s == [] {
      assert s + [e] == [e];
    } else {
      assert (s + [e])[1..] == s[1..] + [e];
      BetweenSnoc(s[1..], e, after, upTo);
    }
  }

  /** A range that reaches over the whole window selects all of it. */
  lemma {:induction false} BetweenAll(s: seq<Entry>, after: real, upTo: real)
    requires forall e | e in s :: after < e.index as real <= upTo
    ensures Between(s, after, upTo) == s
  {
    if s != [] {
      assert forall e | e in s[1..] :: e in s;
      assert s[0] in s;
      BetweenAll(s[1..], after, upTo);
    }
  }

  /** Entries less than a buffer length apart lie in different slots. */
  lemma SlotsDistinct(i: nat, j: nat, size: nat)
    requires size > 0 && i < j < i + size
    ensures i % size != j % size
  {
    var d := j / size - i / size;
    assert j - i == d * size + (j % size - i % size);
    MulBound(d, size);
  }

  /** A slot of the two parallel buffers holds an entry. */
  ghost predicate Holds(values: array2<real>, index: array<nat>, slot: nat, e: Entry)
    requires values.Length0 == NUM_CHANNELS && slot < values.Length1 == index.Length
    reads values, index
  {
    && index[slot] == e.index && |e.values| == NUM_CHANNELS
    && forall ch | 0 <= ch < NUM_CHANNELS :: values[ch, slot] == e.values[ch]
  }

  class Window {
    var values: array2<real>      // one row per channel
    var index: array<nat>
    var sumSquares: seq<real>
    var pos: nat
    var count: nat
    var size: nat
    ghost var log: seq<Entry>     // everything added since the last reset or resize

    ghost predicate Shape()
      reads this
    {
      && values.Length0 == NUM_CHANNELS && values.Length1 == size == index.Length
      && |sumSquares| == NUM_CHANNELS
      && count == (if |log| < size then |log| else size)
      && (if size == 0 then pos == 0 && log == [] else pos == |log| % size)
      && forall e | e in log :: |e.values| == NUM_CHANNELS
    }

    /** Slot j % size holds entry j of the log, for the newest `size` entries. */
    ghost predicate Slots()
      requires Shape()
      reads this, values, index
    {
      forall j | |log| - count <= j < |log| :: Holds(values, index, j % size, log[j])
    }

    ghost predicate Sums()
      requires Shape()
      reads this
    {
      forall ch | 0 <= ch < NUM_CHANNELS :: sumSquares[ch] == SumSquares(Newest(log, size), ch)
    }

    ghost predicate Valid()
      reads this, values, index
    {
      Shape() && Slots() && Sums()
    }

    /** The samples in the window, oldest first. */
    ghost function Contents(): seq<Entry>
      requires Valid()
      reads this, values, index
    {
      Newest(log, size)
    }

    constructor ()
      ensures Valid() && Contents() == [] && size == 0
      ensures fresh(values) && fresh(index)
    {
      values := new real[NUM_CHANNELS, 0];
      index := new nat[0];
      sumSquares := seq(NUM_CHANNELS, _ => 0.0);
      pos, count, size, log := 0, 0, 0, [];
    }

    method Reset()
      requires Valid()
      modifies this`pos, this`count, this`sumSquares, this`log
      ensures Valid() && Contents() == [] && size == old(size)
    {
      pos, count := 0, 0;
      sumSquares := seq(NUM_CHANNELS, _ => 0.0);
      log := [];
      ZeroMod(size);
    }

    method Resize(newSize: nat)
      requires newSize > 0
      modifies this
      ensures Valid() && size == newSize && log == [] && fresh(values) && fresh(index)
    {
      size, pos, count := newSize, 0, 0;
      index := new nat[newSize];
      sumSquares := seq(NUM_CHANNELS, _ => 0.0);
      values := new real[NUM_CHANNELS, newSize];
      log := [];
      ZeroMod(newSize);
    }

    /** One channel of a new sample: the value it displaces leaves the sum. */
    method Put(ch: nat, value: real)
      requires ch < values.Length0 && ch < |sumSquares| && pos < values.Length1
      modifies this`sumSquares, values
      ensures sumSquares == old(sumSquares)[ch := old(sumSquares[ch])
                - (if count == size then old(values[ch, pos]) * old(values[ch, pos]) else 0.0)
                + value * value]
      ensures forall c, p | 0 <= c < values.Length0 && 0 <= p < values.Length1 ::
        values[c, p] == if c == ch && p == pos then value else old(values[c, p])
    {
      if count == size {
        var o := values[ch, pos];
        sumSquares := sumSquares[ch := sumSquares[ch] - o * o];
      }
      values[ch, pos] := value;
      sumSquares := sumSquares[ch := sumSquares[ch] + value * value];
    }

    /** All channels of a new sample, at the write position. */
    method PutAll(x: Sample)
      requires Shape() && size > 0
      modifies this`sumSquares, values
      ensures |sumSquares| == NUM_CHANNELS
      ensures forall c | 0 <= c < NUM_CHANNELS ::
        sumSquares[c] == old(sumSquares[c]) - old(Leaving(c)) + x[c] * x[c]
      ensures forall c, p | 0 <= c < NUM_CHANNELS && 0 <= p < size ::
        values[c, p] == if p == pos then x[c] else old(values[c, p])
    {
      for ch := 0 to NUM_CHANNELS
        invariant |sumSquares| == NUM_CHANNELS
        invariant forall c | 0 <= c < ch ::
          sumSquares[c] == old(sumSquares[c]) - old(Leaving(c)) + x[c] * x[c]
        invariant forall c | ch <= c < NUM_CHANNELS :: sumSquares[c] == old(sumSquares[c])
        invariant forall c, p | 0 <= c < NUM_CHANNELS && 0 <= p < size ::
          values[c, p] == if p == pos && c < ch then x[c] else old(values[c, p])
      {
        Put(ch, x[ch]);
      }
    }

    /** The square that the sample to be overwritten contributes. */
    ghost function Leaving(ch: nat): real
      requires Shape() && size > 0 && ch < NUM_CHANNELS
      reads this, values
    {
      if count == size then values[ch, pos] * values[ch, pos] else 0.0
    }

    lemma LeavingIsOldest(ch: nat)
      requires Valid() && size > 0 && ch < NUM_CHANNELS
      ensures Leaving(ch) == if |log| >= size then Square(Newest(log, size)[0], ch) else 0.0
    {
      if |log| >= size {
        Displaced(|log|, size);
        assert Holds(values, index, (|log| - size) % size, log[|log| - size]);
      }
    }

    /** The write position now holds the sample, every other slot what it held. */
    method WriteSlot(x: Sample, sampleIndex: nat)
      requires Shape() && size > 0 && pos < size
      modifies this`sumSquares, values, index
      ensures Shape() && Holds(values, index, pos, Entry(sampleIndex, x))
      ensures forall slot: nat, e | slot < size && slot != pos && old(Holds(values, index, slot, e)) ::
        Holds(values, index, slot, e)
      ensures forall c | 0 <= c < NUM_CHANNELS ::
        sumSquares[c] == old(sumSquares[c]) - old(Leaving(c)) + x[c] * x[c]
    {
      PutAll(x);
      index[pos] := sampleIndex;
    }

    /** The written slot becomes the newest; in a full window the oldest is forgotten. */
    method Advance(ghost e: Entry)
      requires Shape() && size > 0 && |e.values| == NUM_CHANNELS
      requires Holds(values, index, pos, e)
      requires forall j | |log| - count <= j < |log| && j > |log| - size :: Holds(values, index, j % size, log[j])
      requires forall ch | 0 <= ch < NUM_CHANNELS ::
        sumSquares[ch] == SumSquares(Newest(log + [e], size), ch)
      modifies this`pos, this`count, this`log
      ensures Valid() && log == old(log) + [e]
    {
      hide Newest, SumSquares, Holds;
      SlotOf(|log|, 1, size);
      pos := (pos + 1) % size;
      if count < size {
        count := count + 1;
      }
      log := log + [e];
    }

    /** A sample enters a window of the right size. */
    method Append(x: Sample, sampleIndex: nat)
      requires Valid() && size > 0
      modifies this`sumSquares, this`pos, this`count, this`log, values, index
      ensures Valid() && log == old(log) + [Entry(sampleIndex, x)]
    {
      hide Newest, SumSquares, Holds, Leaving;
      ghost var e, n := Entry(sampleIndex, x), |log|;
      forall ch | 0 <= ch < NUM_CHANNELS
        ensures sumSquares[ch] - Leaving(ch) + x[ch] * x[ch] == SumSquares(Newest(log + [e], size), ch)
      {
        LeavingIsOldest(ch);
        SumShift(log, e, size, ch);
      }
      label Before:
      WriteSlot(x, sampleIndex);
      forall j | n - count <= j < n && j > n - size ensures Holds(values, index, j % size, log[j]) {
        SlotsDistinct(j, n, size);
        assert old@Before(Holds(values, index, j % size, log[j]));
      }
      Advance(e);
    }

    method Add(x: Sample, smpRate: nat, sampleIndex: nat)
      requires Valid()
      modifies this, values, index
      ensures Valid() && size == WindowSize(smpRate)
      ensures Contents() == Newest((if size == old(size) then old(Contents()) else [])
                                   + [Entry(sampleIndex, x)], size)
      ensures size == old(size) ==> values == old(values) && index == old(index)
      ensures size != old(size) ==> fresh(values) && fresh(index)
    {
      var newSize := WindowSize(smpRate);
      if size != newSize {
        Resize(newSize);
      }
      ghost var was := log;
      Append(x, sampleIndex);
      NewestTwice(was, Entry(sampleIndex, x), size);
    }

    function OldestPosition(): nat
      reads this
    {
      if count == size then pos else 0
    }

    /** Mean square per channel from the running sums: what rms takes the root of. */
    method Rms() returns (out: seq<real>)
      requires Valid()
      ensures MeanSquares(out, Contents())
    {
      if count == 0 {
        return seq(NUM_CHANNELS, _ => 0.0);
      }
      out := [];
      for ch := 0 to NUM_CHANNELS
        invariant |out| == ch
        invariant forall c | 0 <= c < ch :: out[c] == MeanSquare(Contents(), c)
      {
        SumNonNegative(Contents(), ch);
        var s := if sumSquares[ch] < 0.0 then 0.0 else sumSquares[ch];
        out := out + [s / count as real];
      }
    }

    /** Reading the live slots from the oldest position yields the contents in order. */
    lemma LiveSlot(i: nat)
      requires Valid() && i < count
      ensures (OldestPosition() + i) % size < size
      ensures Holds(values, index, (OldestPosition() + i) % size, Contents()[i])
    {
      var j := |log| - count + i;
      Displaced(|log|, size);
      SlotOf(|log| - count, i, size);
      assert Holds(values, index, j % size, log[j]);
    }

    /** The squares of one slot added to the sums of the channels. */
    method AddSquares(sums: seq<real>, slot: nat, ghost chosen: seq<Entry>, ghost e: Entry)
      returns (out: seq<real>)
      requires Shape() && slot < size && Holds(values, index, slot, e)
      requires |sums| == NUM_CHANNELS
      requires forall c | 0 <= c < NUM_CHANNELS :: sums[c] == SumSquares(chosen, c)
      ensures |out| == NUM_CHANNELS
      ensures forall c | 0 <= c < NUM_CHANNELS :: out[c] == SumSquares(chosen + [e], c)
    {
      out := sums;
      for ch := 0 to NUM_CHANNELS
        invariant |out| == NUM_CHANNELS
        invariant forall c | 0 <= c < ch :: out[c] == SumSquares(chosen + [e], c)
        invariant forall c | ch <= c < NUM_CHANNELS :: out[c] == sums[c]
      {
        var v := values[ch, slot];
        SumSnoc(chosen, e, ch);
        out := out[ch := out[ch] + v * v];
      }
    }

    /** Mean squares over the samples whose index lies in (startSample, endSample]; None when
        there are none or the range is empty. */
    method RmsBetween(startSample: real, endSample: real) returns (r: Option<seq<real>>)
      requires Valid()
      ensures var chosen := Between(Contents(), startSample, endSample);
        if endSample <= startSample || chosen == [] then r == None
        else r.Some? && MeanSquares(r.value, chosen)
    {
      hide Shape, Holds, SumSquares;
      if count == 0 || endSample <= startSample {
        NoContents();
        return None;
      }
      var sums := seq(NUM_CHANNELS, _ => 0.0);
      ghost var chosen: seq<Entry> := [];
      EmptySums();
      var start := OldestPosition();
      var n := 0;
      ContentsLength();
      assert Contents()[..0] == [];
      for i := 0 to count
        invariant chosen == Between(Contents()[..i], startSample, endSample) && n == |chosen|
        invariant |sums| == NUM_CHANNELS
        invariant forall ch | 0 <= ch < NUM_CHANNELS :: sums[ch] == SumSquares(chosen, ch)
      {
        var slot := (start + i) % size;
        LiveSlot(i);
        ghost var e := Contents()[i];
        BetweenSnoc(Contents()[..i], e, startSample, endSample);
        assert Contents()[..i + 1] == Contents()[..i] + [e];
        var p := IndexAt(slot, e);
        if p as real <= startSample || p as real > endSample {
          assert chosen + [] == chosen;
          continue;
        }
        n := n + 1;
        sums := AddSquares(sums, slot, chosen, e);
        chosen := chosen + [e];
      }
      assert Contents()[..count] == Contents();
      if n == 0 {
        return None;
      }
      var out := [];
      for ch := 0 to NUM_CHANNELS
        invariant |out| == ch
        invariant forall c | 0 <= c < ch :: out[c] == MeanSquare(chosen, c)
      {
        out := out + [sums[ch] / n as real];
      }
      return Some(out);
    }

    method IndexAt(slot: nat, ghost e: Entry) returns (p: nat)
      requires Shape() && slot < size && Holds(values, index, slot, e)
      ensures p == e.index
    {
      p := index[slot];
    }

    lemma ContentsLength()
      requires Valid()
      ensures |Contents()| == count && (count > 0 ==> size > 0)
    {
    }

    lemma NoContents()
      requires Valid()
      ensures count == 0 ==> Contents() == []
    {
    }
  }

  predicate MeanSquares(out: seq<real>, s: seq<Entry>) {
    |out| == NUM_CHANNELS && forall ch | 0 <= ch < NUM_CHANNELS :: out[ch] == MeanSquare(s, ch)
  }

  lemma EmptySums()
    ensures forall ch :: SumSquares([], ch) == 0.0
  {
  }

  /** The slot about to be written holds the entry that falls out of a full window. */
  lemma Displaced(n: nat, size: nat)
    ensures size > 0 && n >= size ==> (n - size) % size == n % size
  {
    if size > 0 && n >= size {
      var q, r := n / size, n % size;
      assert n - size == (q - 1) * size + r;
      MulBound(q - 1, size);
      DivModUnique(n - size, size, q - 1, r);
    }
  }

  /** Stepping through the slots from a slot. */
  lemma SlotOf(j: nat, i: nat, size: nat)
    requires size > 0
    ensures (j % size + i) % size == (j + i) % size
  {
    var q := j / size;
    var x := j % size + i;
    assert j + i == q * size + x == (q + x / size) * size + x % size;
    DivModUnique(j + i, size, q + x / size, x % size);
  }

  lemma NewestSnoc(s: seq<Entry>, e: Entry, n: nat)
    requires n > 0
    ensures Newest(s + [e], n)
         == (if |s| >= n then Newest(s, n)[1..] else Newest(s, n)) + [e]
  {
  }

  lemma NewestTwice(s: seq<Entry>, e: Entry, n: nat)
    requires n > 0
    ensures Newest(Newest(s, n) + [e], n) == Newest(s + [e], n)
  {
  }

  lemma SumShift(s: seq<Entry>, e: Entry, n: nat, ch: nat)
    requires n > 0
    ensures SumSquares(Newest(s + [e], n), ch)
         == SumSquares(Newest(s, n), ch)
            - (if |s| >= n then Square(Newest(s, n)[0], ch) else 0.0) + Square(e, ch)
  {
    hide Square;
    NewestSnoc(s, e, n);
    var w := Newest(s, n);
    SumSnoc(if |s| >= n then w[1..] else w, e, ch);
  }

  /** Over a range that covers the whole window the two ways to compute the mean squares,
      running sums and summing anew, agree. */
  lemma CoveringRange(s: seq<Entry>, startSample: real, endSample: real, ch: nat)
    requires forall e | e in s :: startSample < e.index as real <= endSample
    ensures MeanSquare(Between(s, startSample, endSample), ch) == MeanSquare(s, ch)
  {
    BetweenAll(s, startSample, endSample);
  }

  lemma ZeroMod(size: nat)
    ensures size > 0 ==> 0 % size == 0
  {
  }
}
