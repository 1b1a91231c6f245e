/**
 * The two ring buffers of the wake-word engine: `melRing` (192 frames of 32
 * mel bands) and `embRing` (`SEQ_LEN` embeddings of 96 values). Each is a
 * flat float array holding `capacity` frames of `width` values, a write
 * cursor counted in frames and a count of filled frames that saturates at
 * the capacity. `pushMelFrames`/`pushEmbedding` write one frame at the
 * cursor; `lastMelWindow`/`lastEmbWindow` copy out the most recent `n`
 * frames, in one piece or, when they straddle the end of the array, in two.
 */
module FrameRings {

  function Min(a: int, b: int): int { if a <= b then a else b }

  /** The last `n` elements of `s`, oldest first. */
  function LastN<T>(s: seq<T>, n: nat): (r: seq<T>)
    requires n <= |s|
    ensures |r| == n
  {
    s[|s| - n..]
  }

  /**
   * The flat offset of value `b` of frame `s` when frames are `w` values
   * wide, i.e. `s * w + b` (`OffIsProduct`), built up one frame at a time.
   */
  function Off(s: nat, b: int, w: int): int {
    if s == 0 then b else Off(s - 1, b, w) + w
  }

  /**
   * `flat` lays out `frames` one after the other, `width` values each: value
   * `b` of frame `i` sits at `i * width + b`.
   */
  ghost predicate HoldsFrames(flat: seq<real>, frames: seq<seq<real>>, width: nat) {
    && |flat| == |frames| * width
    && (forall i | 0 <= i < |frames| :: |frames[i]| == width)
    && (forall i, b | 0 <= i < |frames| && 0 <= b < width ::
          0 <= Off(i, b, width) < |flat| && flat[Off(i, b, width)] == frames[i][b])
  }

  /** The frames one after the other, oldest first. */
  function Flatten(frames: seq<seq<real>>): seq<real> {
    if frames == [] then [] else Flatten(frames[..|frames| - 1]) + frames[|frames| - 1]
  }

  /** Frames of `width` values each flatten to `|frames| * width` values. */
  lemma {:induction false} FlattenLength(frames: seq<seq<real>>, width: nat)
    requires forall i | 0 <= i < |frames| :: |frames[i]| == width
    ensures |Flatten(frames)| == |frames| * width
  {
    if frames != [] {
      FlattenLength(frames[..|frames| - 1], width);
      ProductSum(|frames| - 1, 1, |frames|, width);
    }
  }

  /** A flat layout of frames is their concatenation. */
  lemma {:induction false} HoldsFramesIsFlatten(flat: seq<real>, frames: seq<seq<real>>, width: nat)
    requires HoldsFrames(flat, frames, width)
    ensures flat == Flatten(frames)
  {
    if frames != [] {
      var n := |frames| - 1;
      var cut := Off(n, 0, width);
      HoldsFramesSplit(flat, frames, width);
      HoldsFramesIsFlatten(flat[..cut], frames[..n], width);
      assert flat == flat[..cut] + flat[cut..];
    }
  }

  /** Without its last frame, a layout is the prefix up to where that frame starts. */
  lemma HoldsFramesSplit(flat: seq<real>, frames: seq<seq<real>>, width: nat)
    requires HoldsFrames(flat, frames, width) && frames != []
    ensures 0 <= Off(|frames| - 1, 0, width) <= |flat|
    ensures HoldsFrames(flat[..Off(|frames| - 1, 0, width)], frames[..|frames| - 1], width)
    ensures flat[Off(|frames| - 1, 0, width)..] == frames[|frames| - 1]
  {
    var n := |frames| - 1;
    var cut := Off(n, 0, width);
    OffIsProduct(n, 0, width);
    ProductSum(n, 1, n + 1, width);
    var front := flat[..cut];
    forall i, b | 0 <= i < n && 0 <= b < width
      ensures 0 <= Off(i, b, width) < |front| && front[Off(i, b, width)] == frames[..n][i][b]
    {
      OffBounds(i, b, width, n);
    }
    forall b | 0 <= b < width
      ensures flat[cut..][b] == frames[n][b]
    {
      OffShift(n, b, width);
    }
  }

  // ---------------------------------------------------------------------
  // Arithmetic on flat frame offsets

  lemma {:induction false} OffIsProduct(s: nat, b: int, w: int)
    ensures Off(s, b, w) == s * w + b
  {
    if s > 0 {
      OffIsProduct(s - 1, b, w);
      assert (s - 1) * w + w == s * w;
    }
  }

  lemma {:induction false} OffAdd(s: nat, i: nat, b: int, w: int)
    ensures Off(s + i, b, w) == Off(s, 0, w) + Off(i, b, w)
  {
    if i == 0 {
      OffShift(s, b, w);
    } else {
      OffAdd(s, i - 1, b, w);
    }
  }

  lemma OffSub(s: nat, i: nat, b: int, w: int)
    requires s <= i
    ensures Off(i, b, w) == Off(s, 0, w) + Off(i - s, b, w)
  {
    OffAdd(s, i - s, b, w);
  }

  lemma {:induction false} OffShift(s: nat, b: int, w: int)
    ensures Off(s, b, w) == Off(s, 0, w) + b
  {
    if s > 0 {
      OffShift(s - 1, b, w);
    }
  }

  /** Frames further along start further along. */
  lemma {:induction false} OffMono(s1: nat, s2: nat, w: int)
    requires s1 <= s2 && 0 <= w
    ensures Off(s1, 0, w) <= Off(s2, 0, w)
    decreases s2
  {
    if s1 < s2 {
      OffMono(s1, s2 - 1, w);
    }
  }

  /** A later frame starts at least one frame width further along. */
  lemma OffGap(s1: nat, s2: nat, w: int)
    requires s1 < s2 && 0 <= w
    ensures Off(s1, 0, w) + w <= Off(s2, 0, w)
  {
    OffMono(s1 + 1, s2, w);
  }

  /** Value `b` of frame `s` lies inside an array of `cap` frames. */
  lemma OffBounds(s: nat, b: int, w: int, cap: nat)
    requires s < cap && 0 <= b < w
    ensures 0 <= Off(s, 0, w) && 0 <= Off(s, b, w) && Off(s, 0, w) + w <= cap * w
    ensures Off(s, b, w) < cap * w
  {
    OffMono(0, s, w);
    OffMono(s + 1, cap, w);
    OffShift(s, b, w);
    OffIsProduct(cap, 0, w);
  }

  /** Distinct (frame, value) pairs have distinct flat offsets. */
  lemma OffInjective(s1: nat, b1: int, s2: nat, b2: int, w: int)
    requires 0 <= b1 < w && 0 <= b2 < w
    requires Off(s1, b1, w) == Off(s2, b2, w)
    ensures s1 == s2 && b1 == b2
  {
    OffShift(s1, b1, w);
    OffShift(s2, b2, w);
    if s1 < s2 {
      OffGap(s1, s2, w);
    } else if s2 < s1 {
      OffGap(s2, s1, w);
    }
  }

  /** The slot `k` frames behind the one before cursor `w` in a ring of `cap` frames. */
  function RingSlot(w: nat, k: nat, cap: nat): (r: nat)
    requires w < cap && k < cap
    ensures r < cap
  {
    var s := w - 1 - k;
    if s < 0 then s + cap else s
  }

  /** Products of frame counts with the width add up as the counts do. */
  lemma ProductSum(a: nat, b: nat, c: nat, w: nat)
    requires a + b == c
    ensures 0 <= a * w && 0 <= b * w && a * w + b * w == c * w
  {
  }

  /** `%` on a value below twice the modulus is at most one subtraction. */
  lemma ModBelowTwice(x: int, c: int)
    requires 0 < c && 0 <= x < 2 * c
    ensures x % c == if x < c then x else x - c
  {
    if x < c {
      assert x == 0 * c + x;
    } else {
      assert x == 1 * c + (x - c);
    }
  }

  /**
   * `System.arraycopy(src, srcPos, dst, dstPos, len)` between two distinct
   * arrays.
   */
  method ArrayCopy(src: array<real>, srcPos: nat, dst: array<real>, dstPos: nat, len: nat)
    requires src != dst
    requires srcPos + len <= src.Length && dstPos + len <= dst.Length
    modifies dst
    ensures forall j | dstPos <= j < dstPos + len :: dst[j] == src[srcPos + (j - dstPos)]
    ensures forall j | 0 <= j < dst.Length && !(dstPos <= j < dstPos + len) :: dst[j] == old(dst[j])
  {
    var i := 0;
    while i < len
      invariant 0 <= i <= len
      invariant forall j | dstPos <= j < dstPos + i :: dst[j] == src[srcPos + (j - dstPos)]
      invariant forall j | 0 <= j < dst.Length && !(dstPos <= j < dstPos + i) :: dst[j] == old(dst[j])
    {
      dst[dstPos + i] := src[srcPos + i];
      i := i + 1;
    }
  }

  class FrameRing {
    /** Number of frames the ring holds (`MEL_RING_CAP_FRAMES`, `SEQ_LEN`). */
    const capacity: nat
    /** Values per frame (`MEL_BANDS`, `EMB_DIM`). */
    const width: nat
    /** The flat buffer (`melRing`, `embRing`). */
    const data: array<real>
    /** Next frame slot to write (`melWriteIdx`, `embWriteIdx`). */
    var writeIdx: nat
    /** Frames actually held (`melCount`, `embCount`). */
    var count: nat
    /** Every frame ever pushed, oldest first. */
    ghost var history: seq<seq<real>>

    /** The slot of the `k`-th most recent frame (0 is the newest), for `k < capacity`. */
    ghost function Slot(k: nat): nat
      reads this
      requires writeIdx < capacity && k < capacity
    {
      RingSlot(writeIdx, k, capacity)
    }

    /** Value `b` of the `k`-th most recent slot. */
    ghost function SlotValue(k: nat, b: nat): real
      reads this, data
      requires writeIdx < capacity && k < capacity && b < width && data.Length == capacity * width
    {
      OffBounds(Slot(k), b, width, capacity);
      data[Off(Slot(k), b, width)]
    }

    ghost predicate Valid()
      reads this, data
    {
      && 1 <= capacity && 1 <= width
      && data.Length == capacity * width
      && writeIdx < capacity
      && count == Min(|history|, capacity)
      && (forall j | 0 <= j < |history| :: |history[j]| == width)
      && (forall k, b | 0 <= k < count && 0 <= b < width ::
            0 <= Off(Slot(k), b, width) < data.Length &&
            data[Off(Slot(k), b, width)] == history[|history| - 1 - k][b])
    }

    /** A zero-filled ring (`FloatArray(capacity * width)`), cursor and count at 0. */
    constructor (capacity: nat, width: nat)
      requires 1 <= capacity && 1 <= width
      ensures Valid() && fresh(data)
      ensures this.capacity == capacity && this.width == width
      ensures writeIdx == 0 && count == 0 && history == []
    {
      this.capacity := capacity;
      this.width := width;
      data := new real[capacity * width](_ => 0.0);
      writeIdx := 0;
      count := 0;
      history := [];
    }

    /**
     * Writes one frame, `src[srcOff..srcOff + width]`, into the slot at the
     * cursor, then advances the cursor modulo the capacity and the count up
     * to the capacity. No other slot changes.
     */
    method Push(src: array<real>, srcOff: nat)
      requires Valid()
      requires src != data && srcOff + width <= src.Length
      modifies this`writeIdx, this`count, this`history, data
      ensures Valid()
      ensures history == old(history) + [src[srcOff..srcOff + width]]
      ensures writeIdx == (old(writeIdx) + 1) % capacity
      ensures count == Min(old(count) + 1, capacity)
      ensures forall j | 0 <= j < data.Length && !(Off(old(writeIdx), 0, width) <= j < Off(old(writeIdx), 0, width) + width) ::
                data[j] == old(data[j])
    {
      ghost var w0, c0, h0, before := writeIdx, count, history, data[..];
      FramesOf(before);
      ModBelowTwice(writeIdx, capacity);
      var dstFrame := writeIdx % capacity;
      OffBounds(dstFrame, 0, width, capacity);
      OffIsProduct(dstFrame, 0, width);
      var dstOff := dstFrame * width;
      ArrayCopy(src, srcOff, data, dstOff, width);
      ModBelowTwice(writeIdx + 1, capacity);
      writeIdx := (writeIdx + 1) % capacity;
      if count < capacity {
        count := count + 1;
      }
      history := history + [src[srcOff..srcOff + width]];
      PushKeepsFrames(w0, c0, h0, before);
    }

    /** The frames a valid ring holds, read from a copy `flat` of its buffer. */
    lemma FramesOf(flat: seq<real>)
      requires Valid() && flat == data[..]
      ensures forall k, b | 0 <= k < count && 0 <= b < width ::
                0 <= Off(RingSlot(writeIdx, k, capacity), b, width) < |flat| &&
                flat[Off(RingSlot(writeIdx, k, capacity), b, width)] == history[|history| - 1 - k][b]
    {
      forall k, b | 0 <= k < count && 0 <= b < width
        ensures 0 <= Off(RingSlot(writeIdx, k, capacity), b, width) < |flat|
        ensures flat[Off(RingSlot(writeIdx, k, capacity), b, width)] == history[|history| - 1 - k][b]
      {
        assert Slot(k) == RingSlot(writeIdx, k, capacity);
      }
    }

    /** The frames of the ring after a push at `w0`: the new one at `w0`, the older ones where they were. */
    lemma PushKeepsFrames(w0: nat, oldCount: nat, oldHistory: seq<seq<real>>, before: seq<real>)
      requires 1 <= capacity && 1 <= width && data.Length == capacity * width && |before| == data.Length
      requires w0 < capacity && writeIdx == (if w0 + 1 < capacity then w0 + 1 else 0)
      requires oldCount == Min(|oldHistory|, capacity)
      requires count == Min(oldCount + 1, capacity)
      requires |history| == |oldHistory| + 1 && history[..|oldHistory|] == oldHistory
      requires forall j | 0 <= j < |history| :: |history[j]| == width
      requires forall j | Off(w0, 0, width) <= j < Off(w0, 0, width) + width ::
                 0 <= j < data.Length && data[j] == history[|history| - 1][j - Off(w0, 0, width)]
      requires forall k, b | 0 <= k < oldCount && 0 <= b < width ::
                 0 <= Off(RingSlot(w0, k, capacity), b, width) < data.Length &&
                 before[Off(RingSlot(w0, k, capacity), b, width)] == oldHistory[|oldHistory| - 1 - k][b]
      requires forall j | 0 <= j < data.Length && !(Off(w0, 0, width) <= j < Off(w0, 0, width) + width) ::
                 data[j] == before[j]
      ensures Valid()
    {
      forall k, b | 0 <= k < count && 0 <= b < width
        ensures 0 <= Off(Slot(k), b, width) < data.Length
        ensures data[Off(Slot(k), b, width)] == history[|history| - 1 - k][b]
      {
        OffBounds(Slot(k), b, width, capacity);
        if k == 0 {
          assert Slot(0) == w0;
          OffShift(w0, b, width);
        } else {
          var slot := RingSlot(w0, k - 1, capacity);
          assert Slot(k) == slot;
          var j := Off(slot, b, width);
          OffShift(w0, j - Off(w0, 0, width), width);
          if Off(w0, 0, width) <= j < Off(w0, 0, width) + width {
            OffInjective(slot, b, w0, j - Off(w0, 0, width), width);
          }
          assert data[j] == before[j];
          assert history[|history| - 1 - k] == oldHistory[|oldHistory| - 1 - (k - 1)];
        }
      }
    }

    /**
     * `lastMelWindow(n)` / `lastEmbWindow(n)`: copies out `n` frames starting
     * at slot `(writeIdx - n) mod capacity`, in one piece or, when the window
     * straddles the end of the buffer, in two. Frame `i` of the result is
     * the `(n - 1 - i)`-th most recent slot, so when at least `n` frames are
     * held the result is the last `n` frames pushed, in push order.
     */
    method LastWindow(n: nat) returns (out: array<real>)
      requires Valid() && n <= capacity
      ensures fresh(out) && out.Length == n * width
      ensures IsWindow(out[..], n)
      ensures n <= count ==> out[..] == Flatten(LastN(history, n))
    {
      ModBelowTwice((writeIdx - n) + capacity, capacity);
      var start := ((writeIdx - n) + capacity) % capacity;
      if start + n <= capacity {
        out := CopyContiguous(n, start);
      } else {
        out := CopyWrapped(n, start);
      }
      if n <= count {
        WindowIsLastN(n, out[..]);
        HoldsFramesIsFlatten(out[..], LastN(history, n), width);
      }
    }

    /** The contiguous branch of `LastWindow`: one `arraycopy` of `n` frames from slot `start`. */
    method CopyContiguous(n: nat, start: nat) returns (out: array<real>)
      requires Valid() && n <= capacity && start + n <= capacity
      requires start == if writeIdx >= n then writeIdx - n else writeIdx - n + capacity
      ensures fresh(out) && out.Length == n * width
      ensures IsWindow(out[..], n)
    {
      out := new real[n * width](_ => 0.0);
      OffIsProduct(start, 0, width);
      ProductSum(start + n, capacity - start - n, capacity, width);
      ProductSum(start, n, start + n, width);
      ArrayCopy(data, start * width, out, 0, n * width);
      ContiguousWindow(n, start, out);
    }

    /**
     * The wrapped branch of `LastWindow`: the `tail` frames from slot `start`
     * to the end of the buffer, then the rest from slot 0.
     */
    method CopyWrapped(n: nat, start: nat) returns (out: array<real>)
      requires Valid() && n <= capacity && start < capacity && start + n > capacity
      requires start == if writeIdx >= n then writeIdx - n else writeIdx - n + capacity
      ensures fresh(out) && out.Length == n * width
      ensures IsWindow(out[..], n)
    {
      out := new real[n * width](_ => 0.0);
      var tail := capacity - start;
      OffIsProduct(start, 0, width);
      OffIsProduct(tail, 0, width);
      ProductSum(start, tail, capacity, width);
      ProductSum(tail, n - tail, n, width);
      ProductSum(n - tail, capacity - n + tail, capacity, width);
      var firstPart := tail * width;
      ArrayCopy(data, start * width, out, 0, firstPart);
      var remain := (n - tail) * width;
      ArrayCopy(data, 0, out, firstPart, remain);
      WrappedWindow(n, start, firstPart, out);
    }

    /**
     * `flat` holds `n` frames, frame `i` being the `(n - 1 - i)`-th most
     * recent slot of the ring.
     */
    ghost predicate IsWindow(flat: seq<real>, n: nat)
      reads this, data
      requires Valid() && n <= capacity
    {
      && |flat| == n * width
      && forall i, b | 0 <= i < n && 0 <= b < width ::
           0 <= Off(i, b, width) < |flat| && flat[Off(i, b, width)] == SlotValue(n - 1 - i, b)
    }

    /** A window copied in one piece from slot `start` on. */
    lemma ContiguousWindow(n: nat, start: nat, out: array<real>)
      requires Valid() && n <= capacity && start + n <= capacity
      requires start == if writeIdx >= n then writeIdx - n else writeIdx - n + capacity
      requires out.Length == n * width
      requires forall j | 0 <= j < out.Length ::
                 0 <= Off(start, 0, width) + j < data.Length && out[j] == data[Off(start, 0, width) + j]
      ensures IsWindow(out[..], n)
    {
      forall i, b | 0 <= i < n && 0 <= b < width
        ensures 0 <= Off(i, b, width) < out.Length && out[Off(i, b, width)] == SlotValue(n - 1 - i, b)
      {
        OffBounds(i, b, width, n);
        OffIsProduct(n, 0, width);
        OffAdd(start, i, b, width);
        assert Slot(n - 1 - i) == start + i;
      }
    }

    /**
     * A window that straddles the end of the buffer: slots `start..capacity`
     * fill the first `firstPart` values, slots from 0 on the rest.
     */
    lemma WrappedWindow(n: nat, start: nat, firstPart: int, out: array<real>)
      requires Valid() && n <= capacity && start < capacity && start + n > capacity
      requires start == if writeIdx >= n then writeIdx - n else writeIdx - n + capacity
      requires firstPart == Off(capacity - start, 0, width)
      requires out.Length == n * width
      requires 0 <= firstPart <= out.Length
      requires forall j | 0 <= j < out.Length ::
                 if j < firstPart then
                   0 <= Off(start, 0, width) + j < data.Length && out[j] == data[Off(start, 0, width) + j]
                 else
                   0 <= j - firstPart < data.Length && out[j] == data[j - firstPart]
      ensures IsWindow(out[..], n)
    {
      var tail := capacity - start;
      forall i, b | 0 <= i < n && 0 <= b < width
        ensures 0 <= Off(i, b, width) < out.Length && out[Off(i, b, width)] == SlotValue(n - 1 - i, b)
      {
        OffBounds(i, b, width, n);
        OffIsProduct(n, 0, width);
        if i < tail {
          OffBounds(i, b, width, tail);
          OffIsProduct(tail, 0, width);
          OffAdd(start, i, b, width);
          OffBounds(start + i, b, width, capacity);
          assert Slot(n - 1 - i) == start + i;
          assert 0 <= Off(i, b, width) < firstPart;
          assert out[Off(i, b, width)] == data[Off(start + i, b, width)];
        } else {
          OffSub(tail, i, b, width);
          OffBounds(i - tail, b, width, capacity);
          OffMono(0, tail, width);
          assert Slot(n - 1 - i) == i - tail;
          assert firstPart <= Off(i, b, width) < out.Length;
          assert out[Off(i, b, width)] == data[Off(i - tail, b, width)];
        }
      }
    }

    /** A window read slot by slot from a ring holding at least `n` frames is the last `n` frames pushed. */
    lemma WindowIsLastN(n: nat, flat: seq<real>)
      requires Valid() && n <= count
      requires IsWindow(flat, n)
      ensures HoldsFrames(flat, LastN(history, n), width)
    {
      forall i, b | 0 <= i < n && 0 <= b < width
        ensures 0 <= Off(i, b, width) < |flat|
        ensures flat[Off(i, b, width)] == LastN(history, n)[i][b]
      {
        assert history[|history| - 1 - (n - 1 - i)] == LastN(history, n)[i];
      }
    }
  }
}
