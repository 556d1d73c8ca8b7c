# Specific-channel reading in exrs, modelled in Dafny

This project models the part of the exrs OpenEXR library that reads a
caller-chosen list of named channels out of uncompressed image blocks
(`src/image/read/specific_channels.rs`), and proves what it promises.

The caller builds a selection chain with `required(name)` and
`optional(name, default)`. Each request names a channel and a target sample
type. The reader then works in three steps:

- **Compile.** The selection is compiled against the layer header's channel
  list. A missing required channel is an error. A missing optional channel is
  left unbound. A found channel is bound to the first header channel with that
  name and to its header-order byte offset within a pixel.
- **Decode.** Every block row is planar: each header channel stores one run of
  `width` samples, in header order. Each bound slot reads sample `x` of its
  own run into accumulator `x` and converts it. Each unbound slot writes its
  default and never reads the row.
- **Drive.** The block driver refuses deep layers and compiles the selection.
  It then creates the caller's storage and accepts only full-resolution
  blocks. It cuts each block into rows of `width * bytes_per_pixel` bytes,
  decodes every row, and hands every pixel to `set_pixel` at the block
  position plus `(x, y)`.

Files (one module each):

- `scaling.dfy` (`Scaling`): `Times`, multiplication written as repeated
  addition. All byte positions use it, and `TimesIsProduct` ties it to `*`.
- `wrappers.dfy` (`Wrappers`): `Option` and `Result`.
- `samples.dfy` (`Samples`):
  - native samples (`f16`/`f32` as bit patterns, `u32`) and their
    little-endian bytes;
  - `f16/f32/u32::read`;
  - the `FromNativeSample` conversions into each target type.
- `selection.dfy` (`ChannelSelection`):
  - the selection chain and the header's channel list;
  - the three `create_recursive_reader` implementations (`Compile`,
    `Resolve`);
  - `get_descriptions` (`Descriptions`).
- `decoder.dfy` (`PixelDecoder`): `read_pixels` as the lazy iterator chain
  actually runs it. `ReadPixels` is an imperative method over an array of
  accumulators, with one byte cursor per slot (`own_bytes_reader`). It is
  proved against the specification function `DecodePixel`.
- `layout.dfy` (`PlanarLayout`): the planar row layout written as an encoder,
  and the main theorem. Decoding an encoded row gives back, in slot `k` of
  pixel `x`, sample `x` of the first header channel named by request `k`,
  converted to the request's target type. An absent optional request gives
  its default instead.
- `block_reader.dfy` (`BlockReader`): `create_channels_reader`,
  `filter_block`, `read_block` and `into_channels`. `SpecificChannelsReader`
  is a class whose storage field `read_block` updates.

Three points where the code's behaviour is easy to misread, and which the
model follows as written:

- **Decoding order.** The comment at line 146 expects a two-step copy in which
  each channel is read across the row with one `sample_type` lookup. But the
  `pixels.map` chains are lazy, and only the `NoneMore` base case (line 230)
  drives them, as the FIXME at line 254 notes. Decoding is therefore pixel by
  pixel, and within a pixel it goes from the most recently selected slot
  inwards. `DecodeNextPixel` and `ReadPixels` model that order, and
  `ReadPixels` proves that every accumulator ends up as if each channel had
  been read on its own.
- **Row count.** Rows are cut with `chunks_exact` (line 142), which drops a
  short remainder. The row count is compared with the block height only by the
  `debug_assert_eq!` at line 143, which release builds skip. `Rows` models
  `chunks_exact`. `RowsOfExactBlock` shows that a block of exactly
  `height * width * bytes_per_pixel` bytes has `height` rows.
- **Compile order.** Each `create_recursive_reader` first compiles the previous
  requests (lines 176 and 196) and only then looks up its own name. Of several
  missing required channels, the earliest-selected one is reported
  (`CompileFailsAtEarliestMissing`).

## Model

| member | source | states |
|---|---|---|
| Samples.BytesPerSample | src/image/read/specific_channels.rs:246 | a sample occupies 2 bytes exactly when it is a half float, and 4 bytes otherwise |
| Samples.ReadNative | src/image/read/specific_channels.rs:256 | reading one sample's bytes gives a sample of the channel's type, and every byte string of the right length is the little-endian encoding of what it reads |
| Samples.ReadEncodeRoundTrip | src/image/read/specific_channels.rs:272-276 | reading back the little-endian bytes of any stored sample gives that sample, bit for bit |
| Samples.FromNative | src/image/read/specific_channels.rs:354-370 | the conversion into a concrete type always yields that type; converting a sample that already has the target type returns it unchanged (`from_f32` for f32, `from_u32` for u32, `from_f16` for f16) |
| Samples.Convert | src/image/read/specific_channels.rs:372-376 | a converted sample always has the slot's target type; the `Sample` target and a same-type target keep the stored sample as it is |
| Samples.DefaultValue | src/image/read/specific_channels.rs:140 | a fresh accumulator slot holds a value of the slot's own target type |
| ChannelSelection.ChannelWithinPixel | src/image/read/specific_channels.rs:245-247 | a channel's offset plus its sample size never exceeds the bytes per pixel of the header |
| ChannelSelection.FindByName | src/image/read/specific_channels.rs:177-178 | the lookup fails exactly when no entry carries the name, and otherwise returns an entry that carries it (`LookupIsFirstMatch` shows it is the first) |
| ChannelSelection.LookupIsFirstMatch | src/image/read/specific_channels.rs:197-198 | the lookup over `channels_with_byte_offset` fails exactly when the header lacks the name, and otherwise yields the first header channel with that name and its header-order offset |
| ChannelSelection.NoChannels | src/image/read/specific_channels.rs:164-167 | the empty selection holds no requests, and is trivially well typed |
| ChannelSelection.AddRequired | src/image/read/specific_channels.rs:31-33 | `required` keeps the previous requests in place and appends the new one last; the chain stays well typed exactly when it was |
| ChannelSelection.AddOptional | src/image/read/specific_channels.rs:35-39 | `optional` takes a default of the request's own target type (`default_sample: Sample`), keeps the previous requests in place and appends the new one, with its default, last; the chain stays well typed exactly when it was |
| ChannelSelection.Resolve | src/image/read/specific_channels.rs:175-205 | a request fails exactly when it is required and its name is missing, with an error naming it; an optional request is unbound exactly when its name is missing; a found name binds to the first header match and its byte offset; target and default are kept |
| ChannelSelection.Compile | src/image/read/specific_channels.rs:190-205 | a successful compilation has one slot per request, in request order, each the resolution of its own request |
| ChannelSelection.CompileSucceedsIff | src/image/read/specific_channels.rs:175-205 | compilation succeeds if and only if every required request names a header channel; optional requests never make it fail |
| ChannelSelection.CompileKeepsTyping | src/image/read/specific_channels.rs:184-186 | a selection whose optional defaults have their requests' target types compiles into slots whose defaults have the slots' target types |
| ChannelSelection.CompileFailsAtEarliestMissing | src/image/read/specific_channels.rs:196-202 | a failed compilation reports the earliest-selected missing required channel, and every request before it is satisfied |
| ChannelSelection.CompiledSlotsFit | src/image/read/specific_channels.rs:245-247 | every bound slot of a compiled selection reads within one pixel's bytes (offset plus size at most the bytes per pixel) |
| ChannelSelection.Descriptions | src/image/read/specific_channels.rs:291-294 | `get_descriptions` yields one description per slot, in slot order: the channel of a required slot, and the channel or nothing for an optional slot |
| ChannelSelection.DescriptionsFollowSelection | src/image/read/specific_channels.rs:239-240 | the descriptions of a compiled selection have the selection's length and order; request `k` yields its first header match (required or optional), or nothing when the header lacks an optional request's name |
| PixelDecoder.SlotsFitEveryRow | src/image/read/specific_channels.rs:245-247 | for compiled slots, the slice `[n * offset, n * offset + n * size)` lies inside a row of `n * bytes_per_pixel` bytes, so it cannot panic |
| PixelDecoder.OwnBytes | src/image/read/specific_channels.rs:301-303 | a bound slot's run is exactly `n * size` bytes long; an unbound slot has no run |
| PixelDecoder.DecodedPixelWellTyped | src/image/read/specific_channels.rs:338-346 | with well-typed slots, every slot of a decoded pixel holds a value of the slot's target type, whether converted from the row or the default |
| PixelDecoder.SampleWithinOwnRun | src/image/read/specific_channels.rs:247-256 | sample `x` of a bound slot's run is the row slice at `n * offset + x * size` |
| PixelDecoder.SlotSampleReadsOnlyItsRun | src/image/read/specific_channels.rs:338-346 | a slot's value never depends on bytes outside its own run; an unbound slot ignores the row entirely |
| PixelDecoder.UnreadStep | src/image/read/specific_channels.rs:255-258 | taking one sample off the cursor after `x` reads gives the slot's sample for pixel `x`, and leaves the run after `x + 1` reads |
| PixelDecoder.UnreadAllRead | src/image/read/specific_channels.rs:282 | after `n` pixels the cursor is empty: the run is used up exactly (the debug assertion) |
| PixelDecoder.DecodeSlot | src/image/read/specific_channels.rs:298-348 | one slot's work on pixel `x`: a bound slot converts the next sample off its cursor and advances it; an unbound slot yields its default and reads nothing |
| PixelDecoder.DecodeNextPixel | src/image/read/specific_channels.rs:255-260 | one pass of the iterator chain over a pixel leaves it fully decoded whatever it held before, and advances every bound cursor by one sample |
| PixelDecoder.ReadPixels | src/image/read/specific_channels.rs:244-283 | `read_pixels`, driven pixel by pixel from the base case: every accumulator `x` ends up holding, in slot `k`, slot `k`'s converted sample `x` (or its default) |
| PlanarLayout.EncodeRunLength | src/image/read/specific_channels.rs:246 | a channel's run in a row of `n` pixels is `n * size` bytes long |
| PlanarLayout.EncodeRowLength | src/image/read/specific_channels.rs:142 | a planar row of `n` pixels is `n * bytes_per_pixel` bytes long |
| PlanarLayout.EncodeRunLayout | src/image/read/specific_channels.rs:255-256 | sample `x` of a run is stored at `x * size` within the run |
| PlanarLayout.EncodeRowLayout | src/image/read/specific_channels.rs:245-247 | channel `i`'s run is stored at `n * offset(i)` of the row, where the offset is a header-order prefix sum |
| PlanarLayout.SampleWithinRow | src/image/read/specific_channels.rs:245-256 | sample `x` of channel `i` is stored at `n * offset(i) + x * size` of the row |
| PlanarLayout.SlotReadsStoredSample | src/image/read/specific_channels.rs:263-266 | a bound slot whose sample-`x` position holds the encoding of a sample of its channel's type decodes that sample, converted |
| PlanarLayout.BoundSlotDecodesColumn | src/image/read/specific_channels.rs:244-283 | a slot bound to header channel `i` fits the row and gives pixel `x` sample `x` of channel `i`, converted |
| PlanarLayout.DecodeEncodedRow | src/image/read/specific_channels.rs:229-348 | in a decoded row, slot `k` of pixel `x` holds sample `x` of the first header channel named by request `k`, converted to its target; a request whose name is missing is optional and holds its default |
| PlanarLayout.SelectionOrderDecidesSlots | src/image/read/specific_channels.rs:195-204 | with two header channels requested in reverse order, every pixel lists the second header channel first: selection order, not header order, decides the slot |
| BlockReader.FilterBlock | src/image/read/specific_channels.rs:137 | a block is accepted exactly when it is at level index (0, 0), whatever its layer index |
| BlockReader.RowCount | src/image/read/specific_channels.rs:142 | `chunks_exact` yields as many rows as whole chunks fit in the data, leaving fewer than one chunk over |
| BlockReader.RowAt | src/image/read/specific_channels.rs:142 | row `y` is the data slice at `y * chunk`, `chunk` bytes long |
| BlockReader.RowsOfExactBlock | src/image/read/specific_channels.rs:142-143 | a block of exactly `height * chunk` bytes splits into `height` rows (the debug assertion holds) |
| BlockReader.BlockRowsFit | src/image/read/specific_channels.rs:142-147 | every row of a block is `width * bytes_per_pixel` bytes long and long enough for every slot compiled against the header |
| BlockReader.BlockWritesCount | src/image/read/specific_channels.rs:145-153 | decoding `count` rows makes exactly `count * width` `set_pixel` calls |
| BlockReader.BlockWriteAt | src/image/read/specific_channels.rs:149-152 | call number `y * width + x` stores pixel `x` of row `y`, decoded, at the block position plus `(x, y)`: row-major order |
| BlockReader.BlockWritesWellTyped | src/image/read/specific_channels.rs:149-152 | with well-typed slots, every pixel handed to `set_pixel` has one value per slot, each of the slot's target type |
| BlockReader.DefaultPixel | src/image/read/specific_channels.rs:140 | the reused accumulators start with one value per slot, each of the slot's target type |
| BlockReader.SpecificChannelsReader.constructor | src/image/read/specific_channels.rs:111-116 | the reader keeps the compiled slots and the storage it is given, and is valid |
| BlockReader.SpecificChannelsReader.SetPixel | src/image/read/specific_channels.rs:150-151 | one `set_pixel` call appends one write to the storage log and changes nothing else |
| BlockReader.SpecificChannelsReader.SetRow | src/image/read/specific_channels.rs:149-152 | the decoded row's pixels are handed to `set_pixel` left to right at the block position plus `(x, y)` |
| BlockReader.SpecificChannelsReader.ReadRow | src/image/read/specific_channels.rs:145-152 | one row iteration decodes the row into the accumulators, then appends that row's `width` writes |
| BlockReader.SpecificChannelsReader.ReadBlock | src/image/read/specific_channels.rs:139-156 | `read_block` appends to the storage exactly the writes of every row of the block, row after row, and keeps the reader valid |
| BlockReader.SpecificChannelsReader.IntoChannels | src/image/read/specific_channels.rs:158-160 | the result carries the storage and one description per request, in request order, each the request's first header match or nothing for an absent optional channel |
| BlockReader.CreateChannelsReader | src/image/read/specific_channels.rs:102-117 | a deep header fails before compilation; a compile error is returned before any storage exists; otherwise a fresh valid reader holds the compiled slots and empty storage created with the layer size and the descriptions |

## Left out

- The non-identity conversions are not computed: `f16::to_f32`, `f16::from_f32`, `as f32` and `as u32` are floating-point numerics. They are parameters (`Samples.Numerics`) over bit patterns.
- The bodies of these helpers are not part of this model, and each stands on a stated assumption:
  - `ChannelList::channels_with_byte_offset` is a prefix sum of the earlier channels' sizes, in header order;
  - `bytes_per_pixel` sums every header channel;
  - `bytes_per_sample` is 2 for f16 and 4 for f32 and u32;
  - `f16/f32/u32::read` read little-endian bit patterns;
  - `TileCoordinates::is_largest_resolution_level` means level index (0, 0).
- The type-level chain (`Recursive`, `NoneMore`, `PhantomData`, `IntoTuple`, `IntoNonRecursive`) is a runtime sequence of requests, slots and values. `into_tuple` is the identity on that sequence.
- `collect_pixels` only packages the selection with the two callbacks, so `CreateChannelsReader` takes the selection directly.
- `create_pixels` and `set_pixel` are opaque user callbacks. The storage records the layer size, the descriptions and every `set_pixel` call, in order.
- Error message texts are not modelled: an `Error::invalid` is `MissingChannel(name)` or `DeepDataUnsupported`.
- `usize` overflow is not modelled. Positions, `width * offset` and `Vec2` addition use unbounded naturals, and multiplication is written as `Scaling.Times`.
- Panics are preconditions, not error results:
  - the row slice at line 247 must fit (`RowFits`);
  - `chunks_exact` needs a non-zero row length (`ReadBlock` requires `RowBytes > 0`).
- The `.expect` calls on the sample reads cannot fail once the run fits, so they are not modelled.
- The outer multi-layer driver, header parsing and block decompression are outside this file.
- There is no concurrency in this file.
