/** The block driver: a `SpecificChannelsReader` made from a header and a
    channel selection, fed uncompressed blocks row by row, and turned into the
    image's channels at the end. The caller's `create_pixels` and `set_pixel`
    callbacks are modelled by a storage that records what it was created with
    and every `set_pixel` call, in order. */
module BlockReader {
  import opened Wrappers
  import opened Samples
  import opened ChannelSelection
  import opened PixelDecoder
  import opened Scaling

  datatype Vec2 = Vec2(x: nat, y: nat)

  function Add(a: Vec2, b: Vec2): Vec2 {
    Vec2(a.x + b.x, a.y + b.y)
  }

  /** The parts of a layer header the driver consults. */
  datatype Header = Header(channels: ChannelList, deep: bool, layerSize: Vec2)

  /** Where a tile sits: its index in the grid and its resolution level. */
  datatype TileCoordinates = TileCoordinates(tileIndex: Vec2, levelIndex: Vec2)

  /** An uncompressed block: its layer, its pixel position and size within the
      layer, and its bytes. */
  datatype BlockIndex = BlockIndex(layer: nat, pixelPosition: Vec2, pixelSize: Vec2)
  datatype UncompressedBlock = UncompressedBlock(index: BlockIndex, data: seq<uint8>)

  /** `filter_block`: only the full-resolution level is read (level index (0, 0));
      the layer index plays no part. */
  function FilterBlock(layer: nat, tile: TileCoordinates): (accepted: bool)
    ensures accepted <==> tile.levelIndex.x == 0 && tile.levelIndex.y == 0
  {
    tile.levelIndex == Vec2(0, 0)
  }

  /** One `set_pixel` call: absolute position and decoded pixel. */
  datatype Write = Write(position: Vec2, pixel: Pixel)

  /** The caller's pixel storage: the size and channel descriptions
      `create_pixels` was given, and the `set_pixel` calls made on it since. */
  datatype Storage = Storage(size: Vec2, descriptions: seq<Description>, writes: seq<Write>)

  /** What `into_channels` hands back: the descriptions and the storage. */
  datatype SpecificChannels = SpecificChannels(channels: seq<Description>, storage: Storage)

  /** `chunks_exact(chunk)`: consecutive rows of exactly `chunk` bytes; a
      shorter remainder is dropped. */
  function Rows(data: seq<uint8>, chunk: nat): seq<seq<uint8>>
    requires chunk > 0
    decreases |data|
  {
    if |data| < chunk then [] else [data[..chunk]] + Rows(data[chunk..], chunk)
  }

  /** There are as many rows as whole chunks fit in the data: fewer than
      `chunk` bytes are left over. */
  lemma {:induction false} RowCount(data: seq<uint8>, chunk: nat)
    requires chunk > 0
    ensures Times(|Rows(data, chunk)|, chunk) <= |data| < Times(|Rows(data, chunk)|, chunk) + chunk
    decreases |data|
  {
    if |data| >= chunk {
      RowCount(data[chunk..], chunk);
      TimesShift(|Rows(data[chunk..], chunk)|, chunk);
    }
  }

  /** Row `y` is the `y`-th chunk of the data. */
  lemma {:induction false} RowAt(data: seq<uint8>, chunk: nat, y: nat)
    requires chunk > 0 && y < |Rows(data, chunk)|
    ensures Times(y, chunk) + chunk <= |data|
    ensures Rows(data, chunk)[y] == data[Times(y, chunk) .. Times(y, chunk) + chunk]
    decreases y
  {
    if y > 0 {
      var rest := data[chunk..];
      assert Rows(data, chunk)[y] == Rows(rest, chunk)[y - 1];
      RowAt(rest, chunk, y - 1);
      TimesShift(y - 1, chunk);
      assert rest[Times(y - 1, chunk) .. Times(y - 1, chunk) + chunk] == data[Times(y, chunk) .. Times(y, chunk) + chunk];
    }
  }

  lemma {:induction false} TimesShift(count: nat, size: nat)
    ensures Times(count + 1, size) == Times(count, size) + size
  {
  }

  /** A block of exactly `height` rows splits into `height` rows. */
  lemma {:induction false} RowsOfExactBlock(data: seq<uint8>, chunk: nat, height: nat)
    requires chunk > 0 && |data| == Times(height, chunk)
    ensures |Rows(data, chunk)| == height
  {
    RowCount(data, chunk);
    var rows := |Rows(data, chunk)|;
    if rows < height {
      TimesMonotone(rows + 1, height, chunk);
    } else if rows > height {
      TimesMonotone(height + 1, rows, chunk);
    }
  }

  /** The `set_pixel` calls for row `y` of a block at `position`: one per pixel,
      left to right, each at the block position plus `(x, y)`. */
  function RowWrites(num: Numerics, slots: seq<Slot>, line: seq<uint8>, position: Vec2, y: nat, width: nat): (writes: seq<Write>)
    requires RowFits(slots, width, |line|)
    ensures |writes| == width
    ensures forall x :: 0 <= x < width ==>
              writes[x] == Write(Add(position, Vec2(x, y)), DecodePixel(num, slots, line, width, x))
  {
    seq(width, x requires 0 <= x < width => Write(Add(position, Vec2(x, y)), DecodePixel(num, slots, line, width, x)))
  }

  /** Every row is long enough for every bound slot's run. */
  predicate RowsFit(slots: seq<Slot>, rows: seq<seq<uint8>>, width: nat) {
    forall y :: 0 <= y < |rows| ==> RowFits(slots, width, |rows[y]|)
  }

  /** The `set_pixel` calls for the first `count` rows, row after row. */
  function BlockWrites(num: Numerics, slots: seq<Slot>, rows: seq<seq<uint8>>, position: Vec2, width: nat, count: nat): seq<Write>
    requires RowsFit(slots, rows, width) && count <= |rows|
  {
    if count == 0 then []
    else BlockWrites(num, slots, rows, position, width, count - 1) + RowWrites(num, slots, rows[count - 1], position, count - 1, width)
  }

  /** Decoding one more row appends that row's calls to the log. */
  lemma {:induction false} BlockWritesStep(num: Numerics, slots: seq<Slot>, rows: seq<seq<uint8>>, position: Vec2, width: nat,
                                           log: seq<Write>, y: nat)
    requires RowsFit(slots, rows, width) && y < |rows|
    ensures log + BlockWrites(num, slots, rows, position, width, y + 1)
            == log + BlockWrites(num, slots, rows, position, width, y) + RowWrites(num, slots, rows[y], position, y, width)
  {
  }

  /** `set_pixel` is called `width` times per row. */
  lemma {:induction false} BlockWritesCount(num: Numerics, slots: seq<Slot>, rows: seq<seq<uint8>>, position: Vec2, width: nat, count: nat)
    requires RowsFit(slots, rows, width) && count <= |rows|
    ensures |BlockWrites(num, slots, rows, position, width, count)| == Times(count, width)
  {
    if count > 0 {
      BlockWritesCount(num, slots, rows, position, width, count - 1);
    }
  }

  /** The calls come in row-major order: call `y * width + x` stores pixel `x`
      of row `y` at the block position plus `(x, y)`. */
  lemma {:induction false} BlockWriteAt(num: Numerics, slots: seq<Slot>, rows: seq<seq<uint8>>, position: Vec2, width: nat,
                                        count: nat, y: nat, x: nat)
    requires RowsFit(slots, rows, width) && count <= |rows|
    requires y < count && x < width
    ensures Times(y, width) + x < |BlockWrites(num, slots, rows, position, width, count)|
    ensures BlockWrites(num, slots, rows, position, width, count)[Times(y, width) + x]
            == Write(Add(position, Vec2(x, y)), DecodePixel(num, slots, rows[y], width, x))
  {
    BlockWritesCount(num, slots, rows, position, width, count - 1);
    if y < count - 1 {
      BlockWriteAt(num, slots, rows, position, width, count - 1, y, x);
      TimesMonotone(y + 1, count - 1, width);
    }
  }

  /** Every pixel handed to `set_pixel` has one value per slot, each of the
      slot's target type, when the slots are well typed. */
  lemma {:induction false} BlockWritesWellTyped(num: Numerics, slots: seq<Slot>, rows: seq<seq<uint8>>, position: Vec2, width: nat,
                                                count: nat)
    requires RowsFit(slots, rows, width) && count <= |rows| && SlotsWellTyped(slots)
    ensures forall i :: 0 <= i < |BlockWrites(num, slots, rows, position, width, count)| ==>
              |BlockWrites(num, slots, rows, position, width, count)[i].pixel| == |slots|
    ensures forall i, k :: 0 <= i < |BlockWrites(num, slots, rows, position, width, count)| && 0 <= k < |slots| ==>
              HasTarget(BlockWrites(num, slots, rows, position, width, count)[i].pixel[k], slots[k].target)
  {
    if count > 0 {
      BlockWritesWellTyped(num, slots, rows, position, width, count - 1);
      var front := BlockWrites(num, slots, rows, position, width, count - 1);
      var row := RowWrites(num, slots, rows[count - 1], position, count - 1, width);
      var all := BlockWrites(num, slots, rows, position, width, count);
      assert all == front + row;
      forall i | 0 <= i < |all|
        ensures |all[i].pixel| == |slots|
        ensures forall k :: 0 <= k < |slots| ==> HasTarget(all[i].pixel[k], slots[k].target)
      {
        if i < |front| {
          assert all[i] == front[i];
        } else {
          var x := i - |front|;
          assert all[i] == row[x];
          assert RowFits(slots, width, |rows[count - 1]|);
          DecodedPixelWellTyped(num, slots, rows[count - 1], width, x);
        }
      }
    }
  }

  /** The length of one row of a block: `width * BytesPerPixel`. */
  function RowBytes(header: Header, block: UncompressedBlock): nat {
    Times(block.index.pixelSize.x, BytesPerPixel(header.channels))
  }

  /** The rows `read_block` decodes: `chunks_exact(RowBytes)` of the block data. */
  function BlockRows(header: Header, block: UncompressedBlock): seq<seq<uint8>>
    requires RowBytes(header, block) > 0
  {
    Rows(block.data, RowBytes(header, block))
  }

  /** Every row of a block fits slots compiled against the block's header. */
  lemma {:induction false} BlockRowsFit(selection: seq<Request>, header: Header, block: UncompressedBlock)
    requires Compile(selection, header.channels).Ok? && RowBytes(header, block) > 0
    ensures RowsFit(Compile(selection, header.channels).value, BlockRows(header, block), block.index.pixelSize.x)
    ensures forall y :: 0 <= y < |BlockRows(header, block)| ==> |BlockRows(header, block)[y]| == RowBytes(header, block)
  {
    CompiledSlotsFit(selection, header.channels);
    SlotsFitEveryRow(Compile(selection, header.channels).value, BytesPerPixel(header.channels), block.index.pixelSize.x);
    forall y | 0 <= y < |BlockRows(header, block)|
      ensures |BlockRows(header, block)[y]| == RowBytes(header, block)
    {
      RowAt(block.data, RowBytes(header, block), y);
    }
  }

  /** The initial accumulator: every slot holds the zero of its type. */
  function DefaultPixel(slots: seq<Slot>): (p: Pixel)
    ensures |p| == |slots|
    ensures forall k :: 0 <= k < |slots| ==> HasTarget(p[k], slots[k].target)
  {
    seq(|slots|, k requires 0 <= k < |slots| => DefaultValue(slots[k].target))
  }

  /** `SpecificChannelsReader`: the compiled selection and the caller's storage.
      The selection and the header channels it was compiled against are ghost:
      the reader keeps only the compiled slots. */
  class SpecificChannelsReader {
    const num: Numerics
    const pixelReader: seq<Slot>
    ghost const selection: seq<Request>
    ghost const headerChannels: ChannelList
    var pixelStorage: Storage

    ghost predicate Valid()
      reads this
    {
      && Compile(selection, headerChannels) == Ok(pixelReader)
      && pixelStorage.descriptions == Descriptions(pixelReader)
    }

    constructor (num: Numerics, ghost selection: seq<Request>, ghost headerChannels: ChannelList,
                 pixelReader: seq<Slot>, pixelStorage: Storage)
      requires Compile(selection, headerChannels) == Ok(pixelReader)
      requires pixelStorage.descriptions == Descriptions(pixelReader)
      ensures Valid()
      ensures this.num == num && this.selection == selection && this.headerChannels == headerChannels
      ensures this.pixelReader == pixelReader && this.pixelStorage == pixelStorage
    {
      this.num := num;
      this.selection := selection;
      this.headerChannels := headerChannels;
      this.pixelReader := pixelReader;
      this.pixelStorage := pixelStorage;
    }

    /** The `set_pixel` callback: one more call recorded, nothing else changes. */
    method SetPixel(position: Vec2, pixel: Pixel)
      requires Valid()
      modifies this
      ensures Valid()
      ensures pixelStorage == old(pixelStorage).(writes := old(pixelStorage.writes) + [Write(position, pixel)])
    {
      pixelStorage := pixelStorage.(writes := pixelStorage.writes + [Write(position, pixel)]);
    }

    /** The `set_pixel` calls for one decoded row, left to right. */
    method SetRow(line: seq<uint8>, position: Vec2, y: nat, pixels: array<Pixel>)
      requires Valid() && RowFits(pixelReader, pixels.Length, |line|)
      requires forall x :: 0 <= x < pixels.Length ==> pixels[x] == DecodePixel(num, pixelReader, line, pixels.Length, x)
      modifies this
      ensures Valid()
      ensures pixelStorage == old(pixelStorage).(writes := old(pixelStorage.writes)
                + RowWrites(num, pixelReader, line, position, y, pixels.Length))
    {
      var x := 0;
      while x < pixels.Length
        invariant x <= pixels.Length
        invariant Valid()
        invariant pixelStorage == old(pixelStorage).(writes := old(pixelStorage.writes)
                    + RowWrites(num, pixelReader, line, position, y, pixels.Length)[..x])
      {
        SetPixel(Add(position, Vec2(x, y)), pixels[x]);
        assert RowWrites(num, pixelReader, line, position, y, pixels.Length)[..x + 1]
               == RowWrites(num, pixelReader, line, position, y, pixels.Length)[..x]
                  + [RowWrites(num, pixelReader, line, position, y, pixels.Length)[x]];
        x := x + 1;
      }
      assert RowWrites(num, pixelReader, line, position, y, pixels.Length)[..pixels.Length]
             == RowWrites(num, pixelReader, line, position, y, pixels.Length);
    }

    /** One iteration of `read_block`'s row loop: decode the row into the
        accumulators, then hand each pixel to `set_pixel`. */
    method ReadRow(line: seq<uint8>, position: Vec2, y: nat, pixels: array<Pixel>)
      requires Valid() && RowFits(pixelReader, pixels.Length, |line|)
      requires forall x :: 0 <= x < pixels.Length ==> |pixels[x]| == |pixelReader|
      modifies this, pixels
      ensures Valid()
      ensures forall x :: 0 <= x < pixels.Length ==> |pixels[x]| == |pixelReader|
      ensures pixelStorage == old(pixelStorage).(writes := old(pixelStorage.writes)
                + RowWrites(num, pixelReader, line, position, y, pixels.Length))
    {
      ReadPixels(num, pixelReader, line, pixels);
      SetRow(line, position, y, pixels);
    }

    /** `read_block`: the block's bytes are cut into rows of `RowBytes` bytes,
        each row is decoded into the reused accumulators, and every pixel is
        handed to `set_pixel` at its absolute position. The row length must not
        be zero (`chunks_exact` panics on zero). */
    method ReadBlock(header: Header, block: UncompressedBlock)
      requires Valid() && header.channels == headerChannels
      requires RowBytes(header, block) > 0
      modifies this
      ensures Valid()
      ensures RowsFit(pixelReader, BlockRows(header, block), block.index.pixelSize.x)
      ensures pixelStorage == old(pixelStorage).(writes := old(pixelStorage.writes)
                + BlockWrites(num, pixelReader, BlockRows(header, block), block.index.pixelPosition, block.index.pixelSize.x,
                              |BlockRows(header, block)|))
    {
      BlockRowsFit(selection, header, block);
      var empty := DefaultPixel(pixelReader);
      var pixels := new Pixel[block.index.pixelSize.x](_ => empty);
      var lines := BlockRows(header, block);
      for y := 0 to |lines|
        invariant Valid()
        invariant forall x :: 0 <= x < pixels.Length ==> |pixels[x]| == |pixelReader|
        invariant pixelStorage == old(pixelStorage).(writes := old(pixelStorage.writes)
                    + BlockWrites(num, pixelReader, lines, block.index.pixelPosition, block.index.pixelSize.x, y))
      {
        ReadRow(lines[y], block.index.pixelPosition, y, pixels);
        BlockWritesStep(num, pixelReader, lines, block.index.pixelPosition, block.index.pixelSize.x, old(pixelStorage.writes), y);
      }
    }

    /** `into_channels`: the descriptions of the compiled selection, one per
        request in request order, together with the storage. */
    function IntoChannels(): (channels: SpecificChannels)
      reads this
      requires Valid()
      ensures channels.storage == pixelStorage
      ensures |channels.channels| == |selection|
      ensures forall k, i: nat :: 0 <= k < |selection| && IsFirstMatch(headerChannels, selection[k].name, i) ==>
                channels.channels[k] == (if selection[k].Required? then RequiredChannel(headerChannels[i])
                                         else OptionalChannel(Some(headerChannels[i])))
      ensures forall k :: 0 <= k < |selection| && !HasChannel(headerChannels, selection[k].name) ==>
                channels.channels[k] == OptionalChannel(None)
    {
      forall k: nat, i: nat | k < |selection|
        ensures IsFirstMatch(headerChannels, selection[k].name, i) ==>
                Descriptions(pixelReader)[k] == (if selection[k].Required? then RequiredChannel(headerChannels[i])
                                                 else OptionalChannel(Some(headerChannels[i])))
        ensures !HasChannel(headerChannels, selection[k].name) ==> Descriptions(pixelReader)[k] == OptionalChannel(None)
      {
        DescriptionsFollowSelection(selection, headerChannels, k, i);
      }
      SpecificChannels(Descriptions(pixelReader), pixelStorage)
    }
  }

  /** `create_channels_reader`: deep data is refused before anything else; a
      selection that does not compile against the header's channels fails with
      the compile error before any storage is created; otherwise the storage is
      created for the layer size and the compiled selection's descriptions. */
  method CreateChannelsReader(num: Numerics, selection: seq<Request>, header: Header)
    returns (r: Result<SpecificChannelsReader, Error>)
    ensures header.deep ==> r == Err(DeepDataUnsupported)
    ensures !header.deep && Compile(selection, header.channels).Err? ==> r == Err(Compile(selection, header.channels).error)
    ensures !header.deep && Compile(selection, header.channels).Ok? ==>
              && r.Ok? && fresh(r.value) && r.value.Valid()
              && r.value.num == num && r.value.selection == selection && r.value.headerChannels == header.channels
              && r.value.pixelReader == Compile(selection, header.channels).value
              && r.value.pixelStorage == Storage(header.layerSize, Descriptions(r.value.pixelReader), [])
  {
    if header.deep {
      return Err(DeepDataUnsupported);
    }
    var compiled := Compile(selection, header.channels);
    if compiled.Err? {
      return Err(compiled.error);
    }
    var storage := Storage(header.layerSize, Descriptions(compiled.value), []);
    var reader := new SpecificChannelsReader(num, selection, header.channels, compiled.value, storage);
    return Ok(reader);
  }
}
