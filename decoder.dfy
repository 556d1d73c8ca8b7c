/** Decoding one row of a block into a row of pixel accumulators
    (`RecursivePixelReader::read_pixels` for `NoneMore`, for a required
    `SampleReader` and for an `OptionalSampleReader`), and the planar row
    layout it reads, written out as an encoder. */
module PixelDecoder {
  import opened Wrappers
  import opened Samples
  import opened ChannelSelection
  import opened Scaling

  /** One pixel accumulator: one converted value per slot, in selection order. */
  type Pixel = seq<Value>

  lemma {:induction false} SliceOfSlice<T>(s: seq<T>, start: nat, end: nat, offset: nat, length: nat)
    requires start <= end <= |s| && offset + length <= end - start
    ensures start + offset + length <= |s|
    ensures s[start..end][offset .. offset + length] == s[start + offset .. start + offset + length]
  {
    var run := s[start..end];
    var inner := run[offset .. offset + length];
    forall t | 0 <= t < length
      ensures inner[t] == s[start + offset + t]
    {
      assert inner[t] == run[offset + t];
    }
  }

  /** Where a bound slot's run starts in a row of `n` pixels. */
  function RunStart(reader: SampleReader, n: nat): nat {
    Times(n, reader.channelByteOffset)
  }

  /** How many bytes a bound slot's run spans in a row of `n` pixels. */
  function RunLength(reader: SampleReader, n: nat): nat {
    Times(n, reader.SampleSize())
  }

  /** The row is long enough for every bound slot's run: otherwise the slice at
      the start of `read_pixels` panics. */
  predicate RowFits(slots: seq<Slot>, n: nat, rowLength: nat) {
    forall k :: 0 <= k < |slots| && slots[k].Reader().Some? ==>
      RunStart(slots[k].Reader().value, n) + RunLength(slots[k].Reader().value, n) <= rowLength
  }

  /** Slots compiled against a header fit every row of `n * BytesPerPixel` bytes. */
  lemma {:induction false} SlotsFitEveryRow(slots: seq<Slot>, bytesPerPixel: nat, n: nat)
    requires SlotsFit(slots, bytesPerPixel)
    ensures RowFits(slots, n, Times(n, bytesPerPixel))
  {
    forall k | 0 <= k < |slots| && slots[k].Reader().Some?
      ensures RunStart(slots[k].Reader().value, n) + RunLength(slots[k].Reader().value, n) <= Times(n, bytesPerPixel)
    {
      var r := slots[k].Reader().value;
      TimesDistributes(n, r.channelByteOffset, r.SampleSize());
      TimesMonotoneSize(n, r.channelByteOffset + r.SampleSize(), bytesPerPixel);
    }
  }

  /** `own_bytes_reader` as first sliced: the slot's run of the row, or nothing
      for an unbound slot, which never looks at the row. */
  function OwnBytes(slot: Slot, bytes: seq<uint8>, n: nat): (run: seq<uint8>)
    requires slot.Reader().Some? ==> RunStart(slot.Reader().value, n) + RunLength(slot.Reader().value, n) <= |bytes|
    ensures slot.Reader().Some? ==> |run| == Times(n, slot.Reader().value.SampleSize())
    ensures slot.Reader().None? ==> run == []
  {
    match slot.Reader()
    case Some(r) => bytes[RunStart(r, n) .. RunStart(r, n) + RunLength(r, n)]
    case None => []
  }

  /** `own_bytes_reader` after `x` samples of the slot have been read. */
  function Unread(slot: Slot, bytes: seq<uint8>, n: nat, x: nat): (rest: seq<uint8>)
    requires x <= n
    requires slot.Reader().Some? ==> RunStart(slot.Reader().value, n) + RunLength(slot.Reader().value, n) <= |bytes|
  {
    match slot.Reader()
    case Some(r) =>
      TimesMonotone(x, n, r.SampleSize());
      OwnBytes(slot, bytes, n)[Times(x, r.SampleSize())..]
    case None => []
  }

  /** Where a bound slot's sample for pixel `x` starts: `x` samples into its run. */
  function SampleStart(reader: SampleReader, n: nat, x: nat): nat {
    RunStart(reader, n) + Times(x, reader.SampleSize())
  }

  /** The value slot `slot` gives pixel `x`: when bound, the conversion of the
      native sample stored at `[n * offset + x * size, n * offset + (x + 1) * size)`
      of the row; when unbound, its default. */
  function SlotSample(num: Numerics, slot: Slot, bytes: seq<uint8>, n: nat, x: nat): Value
    requires x < n
    requires slot.Reader().Some? ==> RunStart(slot.Reader().value, n) + RunLength(slot.Reader().value, n) <= |bytes|
  {
    match slot.Reader()
    case Some(r) =>
      TimesMonotone(x + 1, n, r.SampleSize());
      Convert(num, slot.target, ReadNative(r.channel.sampleType, bytes[SampleStart(r, n, x) .. SampleStart(r, n, x) + r.SampleSize()]))
    case None => slot.defaultSample
  }

  /** The accumulator of pixel `x` after the row is decoded: slot `k` holds
      slot `k`'s value for that pixel. */
  function DecodePixel(num: Numerics, slots: seq<Slot>, bytes: seq<uint8>, n: nat, x: nat): (p: Pixel)
    requires x < n
    requires RowFits(slots, n, |bytes|)
    ensures |p| == |slots|
  {
    seq(|slots|, k requires 0 <= k < |slots| => SlotSample(num, slots[k], bytes, n, x))
  }

  /** Every slot of a decoded pixel holds a value of the slot's target type:
      a converted sample, or a default typed like the slot. */
  lemma {:induction false} DecodedPixelWellTyped(num: Numerics, slots: seq<Slot>, bytes: seq<uint8>, n: nat, x: nat)
    requires x < n && RowFits(slots, n, |bytes|) && SlotsWellTyped(slots)
    ensures forall k :: 0 <= k < |slots| ==> HasTarget(DecodePixel(num, slots, bytes, n, x)[k], slots[k].target)
  {
    forall k | 0 <= k < |slots|
      ensures HasTarget(DecodePixel(num, slots, bytes, n, x)[k], slots[k].target)
    {
      assert DecodePixel(num, slots, bytes, n, x)[k] == SlotSample(num, slots[k], bytes, n, x);
    }
  }

  /** Sample `x` of a bound slot, read through its own run: `size` bytes,
      `x` samples into the run. */
  lemma {:induction false} SampleWithinOwnRun(slot: Slot, bytes: seq<uint8>, n: nat, x: nat)
    requires x < n && slot.Reader().Some?
    requires RunStart(slot.Reader().value, n) + RunLength(slot.Reader().value, n) <= |bytes|
    ensures Times(x, slot.Reader().value.SampleSize()) + slot.Reader().value.SampleSize() <= |OwnBytes(slot, bytes, n)|
    ensures SampleStart(slot.Reader().value, n, x) + slot.Reader().value.SampleSize() <= |bytes|
    ensures OwnBytes(slot, bytes, n)[Times(x, slot.Reader().value.SampleSize()) .. Times(x, slot.Reader().value.SampleSize()) + slot.Reader().value.SampleSize()]
            == bytes[SampleStart(slot.Reader().value, n, x) .. SampleStart(slot.Reader().value, n, x) + slot.Reader().value.SampleSize()]
  {
    var r := slot.Reader().value;
    TimesMonotone(x + 1, n, r.SampleSize());
    SliceOfSlice(bytes, RunStart(r, n), RunStart(r, n) + RunLength(r, n), Times(x, r.SampleSize()), r.SampleSize());
  }

  /** Decoding never consults bytes outside a slot's own run: two rows that agree
      on the run give the same value, and an unbound slot ignores the row. */
  lemma {:induction false} SlotSampleReadsOnlyItsRun(num: Numerics, slot: Slot, bytes1: seq<uint8>, bytes2: seq<uint8>, n: nat, x: nat)
    requires x < n
    requires slot.Reader().Some? ==> RunStart(slot.Reader().value, n) + RunLength(slot.Reader().value, n) <= |bytes1|
    requires slot.Reader().Some? ==> RunStart(slot.Reader().value, n) + RunLength(slot.Reader().value, n) <= |bytes2|
    requires OwnBytes(slot, bytes1, n) == OwnBytes(slot, bytes2, n)
    ensures SlotSample(num, slot, bytes1, n, x) == SlotSample(num, slot, bytes2, n, x)
  {
    if slot.Reader().Some? {
      SampleWithinOwnRun(slot, bytes1, n, x);
      SampleWithinOwnRun(slot, bytes2, n, x);
    }
  }

  /** Taking one sample off a bound slot's unread run: the sample read is the
      slot's sample for pixel `x`, and what is left is the run after `x + 1` samples. */
  lemma {:induction false} UnreadStep(num: Numerics, slot: Slot, bytes: seq<uint8>, n: nat, x: nat)
    requires x < n && slot.Reader().Some?
    requires RunStart(slot.Reader().value, n) + RunLength(slot.Reader().value, n) <= |bytes|
    ensures slot.Reader().value.SampleSize() <= |Unread(slot, bytes, n, x)|
    ensures Convert(num, slot.target, ReadNative(slot.Reader().value.channel.sampleType,
                                                 Unread(slot, bytes, n, x)[..slot.Reader().value.SampleSize()]))
            == SlotSample(num, slot, bytes, n, x)
    ensures Unread(slot, bytes, n, x)[slot.Reader().value.SampleSize()..] == Unread(slot, bytes, n, x + 1)
  {
    var size := slot.Reader().value.SampleSize();
    TimesMonotone(x + 1, n, size);
    var run := OwnBytes(slot, bytes, n);
    SampleWithinOwnRun(slot, bytes, n, x);
    assert Unread(slot, bytes, n, x)[..size] == run[Times(x, size) .. Times(x, size) + size];
    assert Unread(slot, bytes, n, x)[size..] == run[Times(x + 1, size)..];
  }

  /** Once all `n` pixels are read, nothing of a slot's run is left unread. */
  lemma {:induction false} UnreadAllRead(slot: Slot, bytes: seq<uint8>, n: nat)
    requires slot.Reader().Some? ==> RunStart(slot.Reader().value, n) + RunLength(slot.Reader().value, n) <= |bytes|
    ensures Unread(slot, bytes, n, n) == []
  {
  }

  /** One slot's share of decoding pixel `x`: a bound slot reads the next sample
      off its unread run and converts it; an unbound slot gives its default and
      leaves its (empty) run alone. */
  method DecodeSlot(num: Numerics, slot: Slot, bytes: seq<uint8>, n: nat, x: nat, reader: seq<uint8>)
    returns (readerAfter: seq<uint8>, value: Value)
    requires x < n
    requires slot.Reader().Some? ==> RunStart(slot.Reader().value, n) + RunLength(slot.Reader().value, n) <= |bytes|
    requires reader == Unread(slot, bytes, n, x)
    ensures readerAfter == Unread(slot, bytes, n, x + 1)
    ensures value == SlotSample(num, slot, bytes, n, x)
  {
    match slot.Reader()
    case Some(r) =>
      UnreadStep(num, slot, bytes, n, x);
      var size := r.SampleSize();
      value := Convert(num, slot.target, ReadNative(r.channel.sampleType, reader[..size]));
      readerAfter := reader[size..];
    case None =>
      value := slot.defaultSample;
      readerAfter := reader;
  }

  /** The work the iterator chain does for one pixel: every slot, from the most
      recently selected inwards, sets its own part of the accumulator, a bound
      slot taking the next sample off its own run. Whatever the accumulator held
      before, it leaves decoded, and each bound run has advanced by one sample. */
  method DecodeNextPixel(num: Numerics, slots: seq<Slot>, bytes: seq<uint8>, n: nat, x: nat,
                         readers: seq<seq<uint8>>, pixel: Pixel)
    returns (readersAfter: seq<seq<uint8>>, decoded: Pixel)
    requires x < n && RowFits(slots, n, |bytes|)
    requires |readers| == |slots| && |pixel| == |slots|
    requires forall k :: 0 <= k < |slots| ==> readers[k] == Unread(slots[k], bytes, n, x)
    ensures |readersAfter| == |slots|
    ensures forall k :: 0 <= k < |slots| ==> readersAfter[k] == Unread(slots[k], bytes, n, x + 1)
    ensures decoded == DecodePixel(num, slots, bytes, n, x)
  {
    readersAfter, decoded := readers, pixel;
    var k := |slots|;
    while k > 0
      invariant 0 <= k <= |slots|
      invariant |readersAfter| == |slots| && |decoded| == |slots|
      invariant forall i :: 0 <= i < k ==> readersAfter[i] == Unread(slots[i], bytes, n, x)
      invariant forall i :: k <= i < |slots| ==> readersAfter[i] == Unread(slots[i], bytes, n, x + 1)
      invariant forall i :: k <= i < |slots| ==> decoded[i] == SlotSample(num, slots[i], bytes, n, x)
    {
      k := k - 1;
      var reader, value := DecodeSlot(num, slots[k], bytes, n, x, readersAfter[k]);
      readersAfter := readersAfter[k := reader];
      decoded := decoded[k := value];
    }
  }

  /** `read_pixels` as the lazy iterator chain runs it: the innermost reader
      (`NoneMore`) drives the iteration pixel by pixel, and each slot's reader
      keeps its own cursor into its run. Every accumulator ends up decoded, and
      every run is used up exactly. */
  method ReadPixels(num: Numerics, slots: seq<Slot>, bytes: seq<uint8>, pixels: array<Pixel>)
    requires RowFits(slots, pixels.Length, |bytes|)
    requires forall x :: 0 <= x < pixels.Length ==> |pixels[x]| == |slots|
    modifies pixels
    ensures forall x :: 0 <= x < pixels.Length ==> pixels[x] == DecodePixel(num, slots, bytes, pixels.Length, x)
  {
    var n := pixels.Length;
    var readers := seq(|slots|, k requires 0 <= k < |slots| => OwnBytes(slots[k], bytes, n));
    assert forall k :: 0 <= k < |slots| ==> readers[k] == Unread(slots[k], bytes, n, 0);
    var x := 0;
    while x < n
      invariant 0 <= x <= n
      invariant |readers| == |slots|
      invariant forall k :: 0 <= k < |slots| ==> readers[k] == Unread(slots[k], bytes, n, x)
      invariant forall j :: 0 <= j < x ==> pixels[j] == DecodePixel(num, slots, bytes, pixels.Length, j)
      invariant forall j :: x <= j < n ==> |pixels[j]| == |slots|
    {
      readers, pixels[x] := DecodeNextPixel(num, slots, bytes, n, x, readers, pixels[x]);
      x := x + 1;
    }
    // each own_bytes_reader is used up (the debug assertion after each slot)
    forall k | 0 <= k < |slots|
      ensures readers[k] == []
    {
      UnreadAllRead(slots[k], bytes, n);
    }
  }
}
