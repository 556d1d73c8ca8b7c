/** The channel selection chain (`ReadRequiredChannel`, `ReadOptionalChannel`,
    `NoneMore`), its compilation against a header's channel list into a chain
    of sample readers (`create_recursive_reader`), and the channel
    descriptions of a compiled chain (`get_descriptions`). */
module ChannelSelection {
  import opened Wrappers
  import opened Samples

  /** A channel of the layer header: its name and stored sample type. */
  datatype ChannelDescription = ChannelDescription(name: string, sampleType: SampleType)

  /** The header's channel list, in header (file) order. */
  type ChannelList = seq<ChannelDescription>

  datatype Error = MissingChannel(name: string) | DeepDataUnsupported

  /** Bytes per pixel of the channels in `channels`: the sum of their sample sizes. */
  function SumOfSampleSizes(channels: ChannelList): nat {
    if |channels| == 0 then 0
    else SumOfSampleSizes(channels[..|channels| - 1]) + BytesPerSample(channels[|channels| - 1].sampleType)
  }

  /** `ChannelList::bytes_per_pixel`: every channel of the header counts. */
  function BytesPerPixel(channels: ChannelList): nat {
    SumOfSampleSizes(channels)
  }

  /** The per-pixel byte offset of channel `i`: the sizes of the channels before it,
      in header order. Multiplied by a row's width it locates the channel's run. */
  function ByteOffset(channels: ChannelList, i: nat): nat
    requires i <= |channels|
  {
    SumOfSampleSizes(channels[..i])
  }

  /** A channel's run lies inside the pixel: offset plus own size never exceeds
      the bytes per pixel. */
  lemma {:induction false} ChannelWithinPixel(channels: ChannelList, i: nat)
    requires i < |channels|
    ensures ByteOffset(channels, i) + BytesPerSample(channels[i].sampleType) <= BytesPerPixel(channels)
  {
    var n := |channels|;
    if i == n - 1 {
      assert channels[..i + 1] == channels;
    } else {
      assert channels[..n][..n - 1] == channels[..n - 1];
      ChannelWithinPixel(channels[..n - 1], i);
      assert channels[..n - 1][..i] == channels[..i];
      assert channels[..n] == channels;
    }
  }

  /** `ChannelList::channels_with_byte_offset`: every channel paired with its byte offset. */
  function ChannelsWithByteOffset(channels: ChannelList): (entries: seq<(nat, ChannelDescription)>)
    ensures |entries| == |channels|
    ensures forall i :: 0 <= i < |channels| ==> entries[i] == (ByteOffset(channels, i), channels[i])
  {
    seq(|channels|, i requires 0 <= i < |channels| => (ByteOffset(channels, i), channels[i]))
  }

  predicate HasChannel(channels: ChannelList, name: string) {
    exists i :: 0 <= i < |channels| && channels[i].name == name
  }

  /** Channel `i` is the first one of the list called `name`. */
  predicate IsFirstMatch(channels: ChannelList, name: string, i: nat) {
    && i < |channels|
    && channels[i].name == name
    && forall j :: 0 <= j < i ==> channels[j].name != name
  }

  /** `.find(|(_, channel)| channel.name == name)` over the entries: the first
      entry whose channel carries the name, or nothing when no channel does. */
  function FindByName(entries: seq<(nat, ChannelDescription)>, name: string): (r: Option<(nat, ChannelDescription)>)
    ensures r.None? <==> forall i :: 0 <= i < |entries| ==> entries[i].1.name != name
    ensures r.Some? ==> exists i :: 0 <= i < |entries| && entries[i] == r.value && entries[i].1.name == name
                                      && forall j :: 0 <= j < i ==> entries[j].1.name != name
  {
    if |entries| == 0 then None
    else if entries[0].1.name == name then Some(entries[0])
    else
      var r := FindByName(entries[1..], name);
      assert forall i :: 1 <= i < |entries| ==> entries[i] == entries[1..][i - 1];
      r
  }

  /** The lookup both compile steps perform binds to the first channel with the
      name and that channel's header-order offset; it fails only when no channel
      has the name. */
  lemma {:induction false} LookupIsFirstMatch(channels: ChannelList, name: string)
    ensures FindByName(ChannelsWithByteOffset(channels), name).None? <==> !HasChannel(channels, name)
    ensures forall i: nat :: IsFirstMatch(channels, name, i) ==>
              FindByName(ChannelsWithByteOffset(channels), name) == Some((ByteOffset(channels, i), channels[i]))
  {
    var entries := ChannelsWithByteOffset(channels);
    var r := FindByName(entries, name);
    forall i: nat | IsFirstMatch(channels, name, i)
      ensures r == Some((ByteOffset(channels, i), channels[i]))
    {
      var k :| 0 <= k < |entries| && entries[k] == r.value && entries[k].1.name == name
               && forall j :: 0 <= j < k ==> entries[j].1.name != name;
      assert entries[k] == (ByteOffset(channels, k), channels[k]);
      assert entries[i].1 == channels[i];
    }
  }

  /** One request of the selection chain, in the order the caller made them:
      `required(name)` or `optional(name, default)`, each with its target type. */
  datatype Request =
    | Required(name: string, target: TargetType)
    | Optional(name: string, target: TargetType, defaultSample: Value)

  /** Every optional request's default has the request's target type: in the
      source `optional<Sample>(name, default_sample: Sample)` types it so. */
  predicate WellTyped(selection: seq<Request>) {
    forall k :: 0 <= k < |selection| && selection[k].Optional? ==>
      HasTarget(selection[k].defaultSample, selection[k].target)
  }

  /** The empty selection, `ReadZeroChannels`. */
  function NoChannels(): (selection: seq<Request>)
    ensures |selection| == 0
    ensures WellTyped(selection)
  {
    []
  }

  /** `required`: a new chain that wraps the previous one; output order is call order. */
  function AddRequired(previous: seq<Request>, name: string, target: TargetType): (selection: seq<Request>)
    ensures |selection| == |previous| + 1 && selection[..|previous|] == previous
    ensures selection[|previous|] == Required(name, target)
    ensures WellTyped(selection) <==> WellTyped(previous)
  {
    previous + [Required(name, target)]
  }

  /** `optional`: a new chain that wraps the previous one; output order is call order. */
  function AddOptional(previous: seq<Request>, name: string, target: TargetType, default: Value): (selection: seq<Request>)
    requires HasTarget(default, target)
    ensures |selection| == |previous| + 1 && selection[..|previous|] == previous
    ensures selection[|previous|] == Optional(name, target, default)
    ensures WellTyped(selection) <==> WellTyped(previous)
  {
    previous + [Optional(name, target, default)]
  }

  /** A request that makes compilation fail: required, and no header channel has its name. */
  predicate Missing(request: Request, channels: ChannelList) {
    request.Required? && !HasChannel(channels, request.name)
  }

  /** `SampleReader`: the bound channel and its per-pixel byte offset. */
  datatype SampleReader = SampleReader(channelByteOffset: nat, channel: ChannelDescription) {
    function SampleSize(): nat {
      BytesPerSample(channel.sampleType)
    }
  }

  /** One compiled slot: a required slot is always bound; an optional slot is
      bound when the header has the channel and otherwise keeps only its default. */
  datatype Slot =
    | RequiredSlot(target: TargetType, reader: SampleReader)
    | OptionalSlot(target: TargetType, optionalReader: Option<SampleReader>, defaultSample: Value)
  {
    function Reader(): Option<SampleReader> {
      match this
      case RequiredSlot(_, r) => Some(r)
      case OptionalSlot(_, r, _) => r
    }
  }

  /** The reader a name binds to, given the lookup's result. */
  function ReaderOf(found: Option<(nat, ChannelDescription)>): Option<SampleReader> {
    match found
    case None => None
    case Some((offset, channel)) => Some(SampleReader(offset, channel))
  }

  /** Compilation of the most recent request once the previous ones are compiled:
      look its name up in the header, fail for a missing required channel,
      leave a missing optional channel unbound. */
  function Resolve(request: Request, channels: ChannelList): (r: Result<Slot, Error>)
    ensures r.Err? <==> Missing(request, channels)
    ensures r.Err? ==> r.error == MissingChannel(request.name)
    ensures r.Ok? ==> r.value.target == request.target && (r.value.RequiredSlot? <==> request.Required?)
    ensures r.Ok? && request.Optional? ==> r.value.defaultSample == request.defaultSample
    ensures r.Ok? ==> (r.value.Reader().None? <==> !HasChannel(channels, request.name))
    ensures r.Ok? ==> forall i: nat :: IsFirstMatch(channels, request.name, i) ==>
                        r.value.Reader() == Some(SampleReader(ByteOffset(channels, i), channels[i]))
  {
    LookupIsFirstMatch(channels, request.name);
    var found := FindByName(ChannelsWithByteOffset(channels), request.name);
    match request
    case Required(name, target) =>
      if found.None? then Err(MissingChannel(name))
      else Ok(RequiredSlot(target, ReaderOf(found).value))
    case Optional(name, target, default) =>
      Ok(OptionalSlot(target, ReaderOf(found), default))
  }

  /** `create_recursive_reader`: the previous requests are compiled first, then
      the most recent one is resolved. A successful compilation has one slot per
      request, in request order, each the resolution of its own request. */
  function Compile(selection: seq<Request>, channels: ChannelList): (r: Result<seq<Slot>, Error>)
    ensures r.Ok? ==> |r.value| == |selection|
    ensures r.Ok? ==> forall k :: 0 <= k < |selection| ==> Resolve(selection[k], channels) == Ok(r.value[k])
    decreases |selection|
  {
    if |selection| == 0 then Ok([])
    else
      var n := |selection|;
      var previous :- Compile(selection[..n - 1], channels);
      assert forall k :: 0 <= k < n - 1 ==> selection[..n - 1][k] == selection[k];
      var slot :- Resolve(selection[n - 1], channels);
      var slots := previous + [slot];
      assert forall k :: 0 <= k < n - 1 ==> slots[k] == previous[k];
      Ok(slots)
  }

  /** Compilation succeeds exactly when every required request names a channel
      of the header; optional requests never make it fail. */
  lemma {:induction false} CompileSucceedsIff(selection: seq<Request>, channels: ChannelList)
    ensures Compile(selection, channels).Ok? <==> forall k :: 0 <= k < |selection| ==> !Missing(selection[k], channels)
    decreases |selection|
  {
    if |selection| > 0 {
      var n := |selection|;
      var prefix := selection[..n - 1];
      CompileSucceedsIff(prefix, channels);
      assert forall k :: 0 <= k < n - 1 ==> prefix[k] == selection[k];
      assert Compile(selection, channels).Ok?
        <==> Compile(prefix, channels).Ok? && Resolve(selection[n - 1], channels).Ok?;
    }
  }

  /** Every optional slot's default has the slot's target type. */
  predicate SlotsWellTyped(slots: seq<Slot>) {
    forall k :: 0 <= k < |slots| && slots[k].OptionalSlot? ==> HasTarget(slots[k].defaultSample, slots[k].target)
  }

  /** Compilation keeps each request's target and default, so a well-typed
      selection compiles into well-typed slots. */
  lemma {:induction false} CompileKeepsTyping(selection: seq<Request>, channels: ChannelList)
    requires WellTyped(selection) && Compile(selection, channels).Ok?
    ensures SlotsWellTyped(Compile(selection, channels).value)
  {
    var slots := Compile(selection, channels).value;
    forall k | 0 <= k < |slots| && slots[k].OptionalSlot?
      ensures HasTarget(slots[k].defaultSample, slots[k].target)
    {
      assert Resolve(selection[k], channels) == Ok(slots[k]);
    }
  }

  /** A failed compilation names the earliest missing required request: the
      previous requests are compiled before the current name is looked up. */
  lemma {:induction false} CompileFailsAtEarliestMissing(selection: seq<Request>, channels: ChannelList)
    requires Compile(selection, channels).Err?
    ensures exists k :: 0 <= k < |selection| && Missing(selection[k], channels)
                        && Compile(selection, channels).error == MissingChannel(selection[k].name)
                        && forall j :: 0 <= j < k ==> !Missing(selection[j], channels)
    decreases |selection|
  {
    var n := |selection|;
    var prefix := selection[..n - 1];
    assert forall k :: 0 <= k < n - 1 ==> prefix[k] == selection[k];
    if Compile(prefix, channels).Err? {
      CompileFailsAtEarliestMissing(prefix, channels);
      var k :| 0 <= k < n - 1 && Missing(prefix[k], channels)
               && Compile(prefix, channels).error == MissingChannel(prefix[k].name)
               && forall j :: 0 <= j < k ==> !Missing(prefix[j], channels);
      assert Missing(selection[k], channels);
    } else {
      CompileSucceedsIff(prefix, channels);
      assert Missing(selection[n - 1], channels);
    }
  }

  /** Every bound slot of a compiled selection reads inside the pixel, so the
      row slice `[width * offset, width * (offset + size))` never runs past a row
      of `width * BytesPerPixel` bytes. */
  predicate SlotsFit(slots: seq<Slot>, bytesPerPixel: nat) {
    forall k :: 0 <= k < |slots| && slots[k].Reader().Some? ==>
      slots[k].Reader().value.channelByteOffset + slots[k].Reader().value.SampleSize() <= bytesPerPixel
  }

  lemma {:induction false} CompiledSlotsFit(selection: seq<Request>, channels: ChannelList)
    requires Compile(selection, channels).Ok?
    ensures SlotsFit(Compile(selection, channels).value, BytesPerPixel(channels))
  {
    var slots := Compile(selection, channels).value;
    forall k | 0 <= k < |slots| && slots[k].Reader().Some?
      ensures slots[k].Reader().value.channelByteOffset + slots[k].Reader().value.SampleSize() <= BytesPerPixel(channels)
    {
      var name := selection[k].name;
      assert Resolve(selection[k], channels) == Ok(slots[k]);
      var i :| 0 <= i < |channels| && channels[i].name == name;
      var first := FirstIndex(channels, name, i);
      ChannelWithinPixel(channels, first);
    }
  }

  /** Some index is the first match whenever a channel has the name. */
  lemma {:induction false} FirstIndexExists(channels: ChannelList, name: string, i: nat)
    requires i < |channels| && channels[i].name == name
    ensures exists f :: IsFirstMatch(channels, name, f)
  {
    if !IsFirstMatch(channels, name, i) {
      var j :| 0 <= j < i && channels[j].name == name;
      FirstIndexExists(channels, name, j);
    }
  }

  function FirstIndex(channels: ChannelList, name: string, i: nat): (f: nat)
    requires i < |channels| && channels[i].name == name
    ensures IsFirstMatch(channels, name, f)
  {
    FirstIndexExists(channels, name, i);
    var f :| IsFirstMatch(channels, name, f);
    f
  }

  /** What `get_descriptions` yields for one slot: the bound channel of a
      required slot, and the channel or nothing for an optional slot. */
  datatype Description = RequiredChannel(channel: ChannelDescription) | OptionalChannel(maybeChannel: Option<ChannelDescription>)

  function Describe(slot: Slot): Description {
    match slot
    case RequiredSlot(_, reader) => RequiredChannel(reader.channel)
    case OptionalSlot(_, reader, _) =>
      OptionalChannel(if reader.Some? then Some(reader.value.channel) else None)
  }

  /** `get_descriptions`, built like the chain: the previous slots' descriptions,
      then the most recent slot's. One description per slot, in slot order. */
  function Descriptions(slots: seq<Slot>): (d: seq<Description>)
    ensures |d| == |slots|
    ensures forall k :: 0 <= k < |slots| ==> d[k] == Describe(slots[k])
    decreases |slots|
  {
    if |slots| == 0 then []
    else
      var n := |slots|;
      assert forall k :: 0 <= k < n - 1 ==> slots[..n - 1][k] == slots[k];
      Descriptions(slots[..n - 1]) + [Describe(slots[n - 1])]
  }

  /** The descriptions of a compiled selection follow the selection: a required
      request yields the first header channel with its name; an optional one
      yields that channel, or nothing when the header lacks it. */
  lemma {:induction false} DescriptionsFollowSelection(selection: seq<Request>, channels: ChannelList, k: nat, i: nat)
    requires Compile(selection, channels).Ok?
    requires k < |selection|
    ensures |Descriptions(Compile(selection, channels).value)| == |selection|
    ensures IsFirstMatch(channels, selection[k].name, i) ==>
              Descriptions(Compile(selection, channels).value)[k]
              == (if selection[k].Required? then RequiredChannel(channels[i]) else OptionalChannel(Some(channels[i])))
    ensures !HasChannel(channels, selection[k].name) ==>
              selection[k].Optional? && Descriptions(Compile(selection, channels).value)[k] == OptionalChannel(None)
  {
    var slots := Compile(selection, channels).value;
    assert Resolve(selection[k], channels) == Ok(slots[k]);
  }
}
