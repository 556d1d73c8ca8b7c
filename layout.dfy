/** The planar row layout, written as an encoder: a row holds, in header
    order, one run per channel, and a run holds that channel's samples in
    column order. Decoding an encoded row gives every selected channel's
    samples back, converted, in selection order. */
module PlanarLayout {
  import opened Wrappers
  import opened Samples
  import opened ChannelSelection
  import opened PixelDecoder
  import opened Scaling

  /** One channel's run: its samples in column order. */
  function EncodeRun(samples: seq<NativeSample>): seq<uint8> {
    if |samples| == 0 then []
    else EncodeRun(samples[..|samples| - 1]) + EncodeNative(samples[|samples| - 1])
  }

  /** One row: every channel's run, in header order. */
  function EncodeRow(columns: seq<seq<NativeSample>>): seq<uint8> {
    if |columns| == 0 then []
    else EncodeRow(columns[..|columns| - 1]) + EncodeRun(columns[|columns| - 1])
  }

  /** `columns` holds `n` samples of the stored type of each header channel. */
  predicate ColumnsMatch(channels: ChannelList, columns: seq<seq<NativeSample>>, n: nat) {
    && |columns| == |channels|
    && forall i :: 0 <= i < |channels| ==>
         |columns[i]| == n && forall x :: 0 <= x < n ==> columns[i][x].Type() == channels[i].sampleType
  }


  /** `part` sits in `whole` starting at index `start`. */
  predicate StoredAt(whole: seq<uint8>, start: nat, part: seq<uint8>) {
    start + |part| <= |whole| && whole[start .. start + |part|] == part
  }

  lemma {:induction false} SliceOfConcatLeft<T>(a: seq<T>, b: seq<T>, i: nat, j: nat)
    requires i <= j <= |a|
    ensures (a + b)[i..j] == a[i..j]
  {
    assert forall t :: 0 <= t < j - i ==> (a + b)[i..j][t] == a[i + t];
  }

  /** When `whole` begins with `front + back`, `back` sits right after `front`. */
  lemma {:induction false} StoredAfterPrefix(whole: seq<uint8>, front: seq<uint8>, back: seq<uint8>)
    requires |front| + |back| <= |whole| && whole[..|front| + |back|] == front + back
    ensures StoredAt(whole, |front|, back)
  {
    forall t | 0 <= t < |back|
      ensures whole[|front| .. |front| + |back|][t] == back[t]
    {
      assert whole[|front| .. |front| + |back|][t] == whole[..|front| + |back|][|front| + t];
    }
  }

  /** A part of a part sits in the whole at the sum of the two offsets. */
  lemma {:induction false} StoredWithinStored(whole: seq<uint8>, start: nat, run: seq<uint8>, offset: nat, piece: seq<uint8>)
    requires StoredAt(whole, start, run) && StoredAt(run, offset, piece)
    ensures StoredAt(whole, start + offset, piece)
  {
    forall t | 0 <= t < |piece|
      ensures whole[start + offset .. start + offset + |piece|][t] == piece[t]
    {
      assert run[offset .. offset + |piece|][t] == run[offset + t];
      assert whole[start .. start + |run|][offset + t] == whole[start + offset + t];
    }
  }


  /** A run of samples of one type has `size` bytes per sample. */
  lemma {:induction false} EncodeRunLength(samples: seq<NativeSample>, t: SampleType)
    requires forall y :: 0 <= y < |samples| ==> samples[y].Type() == t
    ensures |EncodeRun(samples)| == Times(|samples|, BytesPerSample(t))
    decreases |samples|
  {
    if |samples| > 0 {
      EncodeRunLength(samples[..|samples| - 1], t);
    }
  }

  /** The encodings of the first `j` samples start the run. */
  lemma {:induction false} EncodeRunPrefix(samples: seq<NativeSample>, j: nat)
    requires j <= |samples|
    ensures |EncodeRun(samples[..j])| <= |EncodeRun(samples)|
    ensures EncodeRun(samples)[..|EncodeRun(samples[..j])|] == EncodeRun(samples[..j])
    decreases |samples|
  {
    var m := |samples|;
    if j == m {
      assert samples[..j] == samples;
    } else {
      var front := samples[..m - 1];
      EncodeRunPrefix(front, j);
      assert front[..j] == samples[..j];
      SliceOfConcatLeft(EncodeRun(front), EncodeNative(samples[m - 1]), 0, |EncodeRun(samples[..j])|);
    }
  }

  /** Sample `x` of a run of one type occupies bytes `[x * size, (x + 1) * size)`. */
  lemma {:induction false} EncodeRunLayout(samples: seq<NativeSample>, t: SampleType, x: nat)
    requires forall y :: 0 <= y < |samples| ==> samples[y].Type() == t
    requires x < |samples|
    ensures StoredAt(EncodeRun(samples), Times(x, BytesPerSample(t)), EncodeNative(samples[x]))
  {
    var before := EncodeRun(samples[..x]);
    var sample := EncodeNative(samples[x]);
    EncodeRunPrefix(samples, x + 1);
    assert samples[..x + 1][..x] == samples[..x];
    assert EncodeRun(samples[..x + 1]) == before + sample;
    StoredAfterPrefix(EncodeRun(samples), before, sample);
    EncodeRunLength(samples[..x], t);
    assert |samples[..x]| == x;
  }

  lemma {:induction false} ColumnsMatchPrefix(channels: ChannelList, columns: seq<seq<NativeSample>>, n: nat)
    requires ColumnsMatch(channels, columns, n) && |channels| > 0
    ensures ColumnsMatch(channels[..|channels| - 1], columns[..|channels| - 1], n)
    ensures EncodeRow(columns) == EncodeRow(columns[..|channels| - 1]) + EncodeRun(columns[|channels| - 1])
    ensures |EncodeRun(columns[|channels| - 1])| == Times(n, BytesPerSample(channels[|channels| - 1].sampleType))
  {
    EncodeRunLength(columns[|channels| - 1], channels[|channels| - 1].sampleType);
  }

  /** An encoded row of `n` pixels has `n * BytesPerPixel` bytes. */
  lemma {:induction false} EncodeRowLength(channels: ChannelList, columns: seq<seq<NativeSample>>, n: nat)
    requires ColumnsMatch(channels, columns, n)
    ensures |EncodeRow(columns)| == Times(n, BytesPerPixel(channels))
    decreases |channels|
  {
    var m := |channels|;
    if m > 0 {
      var prefix := channels[..m - 1];
      ColumnsMatchPrefix(channels, columns, n);
      EncodeRowLength(prefix, columns[..m - 1], n);
      assert BytesPerPixel(channels) == SumOfSampleSizes(prefix) + BytesPerSample(channels[m - 1].sampleType);
      TimesDistributes(n, SumOfSampleSizes(prefix), BytesPerSample(channels[m - 1].sampleType));
    } else {
      TimesEmpty(n);
    }
  }

  /** The runs of the first `j` channels start the row. */
  lemma {:induction false} EncodeRowPrefix(columns: seq<seq<NativeSample>>, j: nat)
    requires j <= |columns|
    ensures |EncodeRow(columns[..j])| <= |EncodeRow(columns)|
    ensures EncodeRow(columns)[..|EncodeRow(columns[..j])|] == EncodeRow(columns[..j])
    decreases |columns|
  {
    var m := |columns|;
    if j == m {
      assert columns[..j] == columns;
    } else {
      var front := columns[..m - 1];
      EncodeRowPrefix(front, j);
      assert front[..j] == columns[..j];
      SliceOfConcatLeft(EncodeRow(front), EncodeRun(columns[m - 1]), 0, |EncodeRow(columns[..j])|);
    }
  }

  /** Channel `i`'s run sits at byte `n * offset` of an encoded row, where
      `offset` is the channel's header-order byte offset within one pixel. */
  lemma {:induction false} EncodeRowLayout(channels: ChannelList, columns: seq<seq<NativeSample>>, n: nat, i: nat)
    requires ColumnsMatch(channels, columns, n)
    requires i < |channels|
    ensures StoredAt(EncodeRow(columns), Times(n, ByteOffset(channels, i)), EncodeRun(columns[i]))
  {
    var before := EncodeRow(columns[..i]);
    var run := EncodeRun(columns[i]);
    EncodeRowPrefix(columns, i + 1);
    assert columns[..i + 1][..i] == columns[..i];
    assert EncodeRow(columns[..i + 1]) == before + run;
    StoredAfterPrefix(EncodeRow(columns), before, run);
    assert ColumnsMatch(channels[..i], columns[..i], n);
    EncodeRowLength(channels[..i], columns[..i], n);
  }

  /** Sample `x` of channel `i` is stored at byte `n * offset + x * size` of an
      encoded row. */
  lemma {:induction false} SampleWithinRow(channels: ChannelList, columns: seq<seq<NativeSample>>, n: nat, x: nat, i: nat)
    requires ColumnsMatch(channels, columns, n)
    requires x < n && i < |channels|
    ensures StoredAt(EncodeRow(columns), Times(n, ByteOffset(channels, i)) + Times(x, BytesPerSample(channels[i].sampleType)),
                     EncodeNative(columns[i][x]))
  {
    assert |columns[i]| == n;
    EncodeRunLayout(columns[i], channels[i].sampleType, x);
    EncodeRowLayout(channels, columns, n, i);
    StoredWithinStored(EncodeRow(columns), Times(n, ByteOffset(channels, i)), EncodeRun(columns[i]),
                       Times(x, BytesPerSample(channels[i].sampleType)), EncodeNative(columns[i][x]));
  }

  /** A bound slot whose sample `x` position holds the encoding of `sample`
      decodes `sample`, converted. */
  lemma {:induction false} SlotReadsStoredSample(num: Numerics, slot: Slot, bytes: seq<uint8>, n: nat, x: nat, sample: NativeSample)
    requires x < n && slot.Reader().Some?
    requires RunStart(slot.Reader().value, n) + RunLength(slot.Reader().value, n) <= |bytes|
    requires sample.Type() == slot.Reader().value.channel.sampleType
    requires StoredAt(bytes, SampleStart(slot.Reader().value, n, x), EncodeNative(sample))
    ensures SlotSample(num, slot, bytes, n, x) == Convert(num, slot.target, sample)
  {
    ReadEncodeRoundTrip(sample);
  }

  /** A slot bound to header channel `i` gives pixel `x` of an encoded row the
      `x`-th sample of that channel's column, converted. */
  lemma {:induction false} BoundSlotDecodesColumn(num: Numerics, slot: Slot, channels: ChannelList,
                               columns: seq<seq<NativeSample>>, n: nat, x: nat, i: nat)
    requires ColumnsMatch(channels, columns, n)
    requires x < n && i < |channels|
    requires slot.Reader() == Some(SampleReader(ByteOffset(channels, i), channels[i]))
    ensures RunStart(slot.Reader().value, n) + RunLength(slot.Reader().value, n) <= |EncodeRow(columns)|
    ensures SlotSample(num, slot, EncodeRow(columns), n, x) == Convert(num, slot.target, columns[i][x])
  {
    EncodeRowLayout(channels, columns, n, i);
    EncodeRunLength(columns[i], channels[i].sampleType);
    assert |columns[i]| == n;
    SampleWithinRow(channels, columns, n, x, i);
    SlotReadsStoredSample(num, slot, EncodeRow(columns), n, x, columns[i][x]);
  }

  /** Decoding a row in the planar layout gives, in slot `k` of pixel `x`, the
      `x`-th sample of the first header channel named by request `k`, converted
      to the request's target; a request whose channel the header lacks is
      optional and gets its default. Selection order, not header order,
      decides the slot. */
  lemma {:induction false} DecodeEncodedRow(num: Numerics, selection: seq<Request>, channels: ChannelList,
                         columns: seq<seq<NativeSample>>, n: nat, x: nat, k: nat)
    requires Compile(selection, channels).Ok?
    requires ColumnsMatch(channels, columns, n)
    requires x < n && k < |selection|
    ensures RowFits(Compile(selection, channels).value, n, |EncodeRow(columns)|)
    ensures forall i: nat :: IsFirstMatch(channels, selection[k].name, i) ==>
              DecodePixel(num, Compile(selection, channels).value, EncodeRow(columns), n, x)[k]
              == Convert(num, selection[k].target, columns[i][x])
    ensures !HasChannel(channels, selection[k].name) ==>
              && selection[k].Optional?
              && DecodePixel(num, Compile(selection, channels).value, EncodeRow(columns), n, x)[k]
                 == selection[k].defaultSample
  {
    var slots := Compile(selection, channels).value;
    var row := EncodeRow(columns);
    CompiledSlotsFit(selection, channels);
    EncodeRowLength(channels, columns, n);
    SlotsFitEveryRow(slots, BytesPerPixel(channels), n);
    assert Resolve(selection[k], channels) == Ok(slots[k]);
    assert DecodePixel(num, slots, row, n, x)[k] == SlotSample(num, slots[k], row, n, x);
    forall i: nat | IsFirstMatch(channels, selection[k].name, i)
      ensures SlotSample(num, slots[k], row, n, x) == Convert(num, selection[k].target, columns[i][x])
    {
      BoundSlotDecodesColumn(num, slots[k], channels, columns, n, x, i);
    }
  }

  /** A two-channel header read with its channels requested in reverse,
      both as `Sample`: every pixel lists the second header channel first. */
  lemma {:induction false} SelectionOrderDecidesSlots(num: Numerics, channels: ChannelList, selection: seq<Request>,
                                                     columns: seq<seq<NativeSample>>, n: nat, x: nat)
    requires |channels| == 2 && channels[0].name != channels[1].name
    requires selection == [Required(channels[1].name, AnySample), Required(channels[0].name, AnySample)]
    requires ColumnsMatch(channels, columns, n) && x < n
    ensures Compile(selection, channels).Ok?
    ensures RowFits(Compile(selection, channels).value, n, |EncodeRow(columns)|)
    ensures DecodePixel(num, Compile(selection, channels).value, EncodeRow(columns), n, x)
            == [Tagged(columns[1][x]), Tagged(columns[0][x])]
  {
    assert IsFirstMatch(channels, selection[0].name, 1);
    assert IsFirstMatch(channels, selection[1].name, 0);
    CompileSucceedsIff(selection, channels);
    DecodeEncodedRow(num, selection, channels, columns, n, x, 0);
    DecodeEncodedRow(num, selection, channels, columns, n, x, 1);
    assert Convert(num, selection[0].target, columns[1][x]) == Tagged(columns[1][x]);
    assert Convert(num, selection[1].target, columns[0][x]) == Tagged(columns[0][x]);
    assert |DecodePixel(num, Compile(selection, channels).value, EncodeRow(columns), n, x)| == 2;
  }
}
