# ImGui-SharedDrawData in Dafny

This project models the core of ImGui-SharedDrawData. That program runs a Dear ImGui application in one process and draws its frames in another. The render process flattens each frame's `ImDrawData` into a byte vector (`GetSharedDrawData`) and sends it over a socket with a 4-byte length prefix (`SendToRender`). The canvas process reads length-prefixed packets into a reused vector (the receive loop of `RenderService`). It then rebuilds the draw data without copying (`RenderSharedDrawData`): each list's vertex, index and command vectors are pointed at slices of the received bytes.

The model has six modules, one file each:

- `Bytes` (bytes.dfy): bytes as a `byte` newtype. It holds the little-endian images of the 32-bit `int` and `uint32_t` values that both ends copy raw, and `Span(count, size)`, the byte length of `count` records of `size` bytes.
- `WireFormat` (wire_format.dfy): the frame layout as pure functions. `EncodeDrawData` is what the encoder writes; the callback scrub is `ScrubRecord` and `ScrubCallbacks`. `DecodeSharedDrawData` is what the decoder slices, as views `(offset, size)` into the input. Lemmas cover the length formula, the cursor invariant, the non-overlap of views, and the round trip.
- `WindowNames` (window_names.dfy): the static `windowNames` table. It holds `"Window" + std::to_string(i)` and how the table grows.
- `SharedDrawData` (shared_draw_data.dfy): the two routines as imperative code, each proved against `WireFormat`.
  - The encoder is class `SharedBuffer`. Its fields are the function-static vector: its bytes, its capacity, and the allocation (`block`) that holds them. It appends with `WriteData`, which reallocates as `std::vector::insert` does when the bytes do not fit. It then nulls each command's `UserCallback` and `UserCallbackData` through a pointer (`Place`: a block and an offset).
  - Two versions of the encoder are proved. `GetSharedDrawDataAsWritten` takes `sharedCmds` before the command insert, as the code does; a null write through it reaches the vector only when that insert did not reallocate. `GetSharedDrawData` takes it after the insert and always yields the wire format. See "## Findings".
  - The decoder is class `RenderContext`. It holds the draw data's header fields, its lists as views, and `windowNames`, and it walks the input with a `readIndex` cursor.
- `Transport` (transport.dfy): the sender (`Sender.SendToRender`) and one pass of the receive loop (`Receiver.ReceivePacket`). The socket is a stream of pending bytes plus a schedule that bounds what each `recv` returns.
- `Pipeline` (pipeline.dfy): one frame end to end. It is encoded, framed, received into a vector with stale contents, and decoded from the whole vector, as the canvas passes `g_sharedDrawData`.

Build-dependent sizes are a `Layout` parameter: `sizeof(ImDrawVert)`, `sizeof(ImDrawIdx)`, `sizeof(ImDrawCmd)`, the offsets of the two callback fields, and the pointer width. The subset type `BuildLayout` holds the layouts a compiler can produce: positive sizes, and two non-overlapping pointer fields inside the command. Float fields (`DisplayPos`, `FramebufferScale`, vertex contents) are opaque bytes.

The C++ decoder does not check bounds. It reads the count from an input that may be shorter than 4 bytes and never compares the cursor with `data.size()`; reading past the end of the input is undefined behaviour. The counts on the wire are C `int`s, so a count can be negative. `Size * sizeof(...)` then converts it to `size_t`, and the product and `readIndex +=` wrap modulo 2^64. While the rewind stays inside the input this is defined: the cursor moves back by |Size| records and slicing goes on over bytes already sliced, with the list keeping its negative `Size`. Further back, `readIndex` wraps to near 2^64, and `data.data() + readIndex` and the next count read are out-of-bounds pointer arithmetic, which is undefined. `DecodeSharedDrawData` returns `Malformed` both where the C++ would read past the end and where it would go on with a negative `Size` and a rewound cursor.

The receive loop ends in two different ways. A length read that returns fewer than 4 bytes, or a length above 1 MiB, leaves the loop with `break`. A failed body read ends the process with `exit(0)`.

The decoder's slicing loop runs over the lists ImGui produced for the placeholder windows (`drawData->CmdLists`), not over the count read from the input. The model therefore takes that number as a parameter, `produced`. The round trip holds whenever `produced` does not exceed the encoded count.

## Model

| member | source | states |
|---|---|---|
| Bytes.ReadI32Le | modules/ImGuiSharedDrawData.h:78 | reinterpreting the four bytes an `int` was copied as gives the `int` back, negative values included |
| Bytes.ReadU32Le | src/canvas.cc:67 | the four bytes of a `uint32_t` read back give the value |
| Bytes.SpanIsProduct | modules/ImGuiSharedDrawData.h:41 | the byte span of `count` records is `count * sizeof(record)` |
| WireFormat.ScrubRecord | modules/ImGuiSharedDrawData.h:61-62 | one command as it goes on the wire has the source command's length; `ScrubbedRecord` states its bytes |
| WireFormat.ScrubCallbacks | modules/ImGuiSharedDrawData.h:59-63 | the command bytes as they go on the wire, each of the `count` commands scrubbed, keep the source's length; `ScrubbedCommand` states each command |
| WireFormat.ScrubbedRecord | modules/ImGuiSharedDrawData.h:59-63 | in a command as sent, UserCallback and UserCallbackData are null pointers and every other byte is the source command's own |
| WireFormat.NullFieldsScrub | modules/ImGuiSharedDrawData.h:61-62 | the two `nullptr` writes into one command produce exactly the scrubbed command |
| WireFormat.ScrubbedCommand | modules/ImGuiSharedDrawData.h:59-63 | command `j` of the sent command bytes is command `j` of the source, scrubbed, for every `j` below the count |
| WireFormat.EncodeVector | modules/ImGuiSharedDrawData.h:39-41 | one ImVector goes out as its 4-byte `Size` followed by its raw bytes: 4 bytes more than the payload |
| WireFormat.EncodeList | modules/ImGuiSharedDrawData.h:36-64 | one list goes out as its vertex, index and scrubbed command vectors, in that order: three 4-byte counts more than its three payloads |
| WireFormat.EncodeLists | modules/ImGuiSharedDrawData.h:34-65 | the lists go out one after another in CmdLists order; the encoding is empty exactly when there are no lists |
| WireFormat.EncodeDrawData | modules/ImGuiSharedDrawData.h:26-65 | the frame goes out as the list count, DisplayPos and FramebufferScale, then the lists; it is never shorter than the 20-byte header |
| WireFormat.EncodeListsLength | modules/ImGuiSharedDrawData.h:34-65 | the lists take, per list, `4 + nv*sizeof(ImDrawVert) + 4 + ni*sizeof(ImDrawIdx) + 4 + nc*sizeof(ImDrawCmd)` bytes |
| WireFormat.EncodeDrawDataLength | modules/ImGuiSharedDrawData.h:26-65 | the whole encoding is the 20-byte header plus the lists' sizes, so it is never empty |
| WireFormat.EncodeListsPrefix | modules/ImGuiSharedDrawData.h:34-65 | lists are appended in CmdLists order: encoding the first `n` lists gives a prefix of the encoding |
| WireFormat.ParseVector | modules/ImGuiSharedDrawData.h:127-130 | reading one vector takes its `Size` at the cursor; when it succeeds the count is the `int` read there, it is not negative, and the cursor moves forward past the 4 count bytes and stays inside the input |
| WireFormat.ParseList | modules/ImGuiSharedDrawData.h:125-144 | reading one list reads the vertex, index and command vectors in turn; when it succeeds the cursor moves forward by at least the three counts and stays inside the input |
| WireFormat.ParseLists | modules/ImGuiSharedDrawData.h:123-145 | reading `n` lists starts after the 20-byte header and reads them one after another; when it succeeds the input holds the header and there is one view per list |
| WireFormat.DecodeSharedDrawData | modules/ImGuiSharedDrawData.h:70-148 | no update exactly for empty input or a count below 1; a sliced result has a positive count, one view per produced list, and DisplayPos and FramebufferScale taken from offsets 4 and 12 |
| WireFormat.TilesExtend | modules/ImGuiSharedDrawData.h:125-144 | reading one more list at the cursor keeps the cursor invariant |
| WireFormat.ParseListsTiles | modules/ImGuiSharedDrawData.h:123-145 | whatever the slicing loop reads satisfies the cursor invariant: views in order, each payload right after the count that announces it, the cursor inside the input |
| WireFormat.DecodeTiles | modules/ImGuiSharedDrawData.h:116-147 | a successful decode tiles the input from the end of the header to the final `readIndex`, which is at most the input length |
| WireFormat.ParseListsStaysNone | modules/ImGuiSharedDrawData.h:123-145 | once a list cannot be read, reading more lists cannot succeed |
| WireFormat.ListViewsOrdered | modules/ImGuiSharedDrawData.h:125-144 | inside one list the vertex, index and command views come in that order and do not overlap |
| WireFormat.ChainedDisjoint | modules/ImGuiSharedDrawData.h:123-145 | everything list `i` points at ends strictly before list `j` starts, for `i < j`: no list views another list's bytes |
| WireFormat.ChainedWithin | modules/ImGuiSharedDrawData.h:123-145 | every view lies between the end of the header and the final cursor |
| WireFormat.ParseEncodedVector | modules/ImGuiSharedDrawData.h:126-130 | an encoded vector is sliced back to its own Size and its own bytes, and the cursor moves past it |
| WireFormat.ParseEncodedList | modules/ImGuiSharedDrawData.h:125-144 | an encoded list is read back as its three vectors, command callbacks null |
| WireFormat.ParseEncodedAll | modules/ImGuiSharedDrawData.h:123-145 | every encoded list after the header is read back in order, each view restoring its source list, and the cursor stops where the encoded lists end |
| WireFormat.ParseEncodedLists | modules/ImGuiSharedDrawData.h:123-145 | after the header, the first `n` encoded lists are read back in order, and the cursor stops where they end |
| WireFormat.DecodeEncoded | modules/ImGuiSharedDrawData.h:117-144 | round trip: decoding an encoded frame, with any stale bytes after it, restores DisplayPos, FramebufferScale and each list's counts and bytes (callbacks null); the cursor ends at the encoded length; a frame without lists is no update |
| WindowNames.DecimalString | modules/ImGuiSharedDrawData.h:101 | `std::to_string` of an index: decimal digits without a leading zero |
| WindowNames.WindowName | modules/ImGuiSharedDrawData.h:101 | the name of window `i` starts with "Window" and is longer than that prefix; `WindowNamesDistinct` states that names of different windows differ |
| WindowNames.GrownNames | modules/ImGuiSharedDrawData.h:97-102 | the table after growing it for `count` lists has max(old size, count) entries |
| WindowNames.DecimalRoundTrip | modules/ImGuiSharedDrawData.h:101 | the decimal digits of `std::to_string(i)` read back give `i` |
| WindowNames.DecimalInjective | modules/ImGuiSharedDrawData.h:101 | different indices have different decimal spellings |
| WindowNames.WindowNamesDistinct | modules/ImGuiSharedDrawData.h:101 | different list indices get different window names |
| WindowNames.GrownNamesSpec | modules/ImGuiSharedDrawData.h:97-102 | the table grows to max(old size, count), keeps its old entries, and new entry `i` is "Window" + i |
| WindowNames.GrownNamesDistinct | modules/ImGuiSharedDrawData.h:97-102 | growth keeps every entry the name of its own index, so all names in the table stay distinct |
| SharedDrawData.GrownCapacity | modules/ImGuiSharedDrawData.h:21 | when an insert does not fit, the new capacity holds the needed size and is larger than the old one |
| SharedDrawData.Insert | modules/ImGuiSharedDrawData.h:21 | `insert` at the end appends the bytes and leaves them within capacity; the vector stays in its block exactly when the bytes fit in the old capacity, and capacity never shrinks |
| SharedDrawData.NullAtWrites | modules/ImGuiSharedDrawData.h:61-62 | the two null writes through a pointer to one command scrub that command when the pointer is in the vector's current block, and leave the vector as it was when it is not |
| SharedDrawData.PartlyNulledScrubs | modules/ImGuiSharedDrawData.h:59-63 | after `i` turns of the null loop through a live pointer, the first `i` commands after it are scrubbed and the bytes before it are untouched; through a stale pointer the vector is unchanged |
| SharedDrawData.PartlyNulledAll | modules/ImGuiSharedDrawData.h:59-63 | after the whole loop, the commands are the scrubbed commands when the pointer is live, and the vector is unchanged when it is stale |
| SharedDrawData.NullThrough | modules/ImGuiSharedDrawData.h:59-63 | the whole null loop through `sharedCmds`: the trailing commands scrubbed when the pointer lies in the vector's current block, nothing changed when it does not; either way the vector keeps its block, capacity and length |
| SharedDrawData.ListAsWritten | modules/ImGuiSharedDrawData.h:36-64 | one list as the code writes it, with `sharedCmds` taken before the command insert: the vector grows by exactly the list's encoded length, keeps its earlier bytes, and holds its bytes within a capacity that never shrinks |
| SharedDrawData.ListsAsWritten | modules/ImGuiSharedDrawData.h:34-65 | the lists as the code writes them, in CmdLists order: the vector grows by exactly the lists' encoded length and keeps its earlier bytes; capacity and block never go back |
| SharedDrawData.FrameAsWritten | modules/ImGuiSharedDrawData.h:14-68 | a whole call as the code writes it, from the vector the previous call left: the result has exactly the length of the wire format, within a capacity that never shrinks |
| SharedDrawData.SharedBuffer.End | modules/ImGuiSharedDrawData.h:57 | `data() + size()`: the next insert puts its bytes at this place, and the place stays in the vector's block exactly when those bytes fit in the capacity |
| SharedDrawData.ListAsWrittenOutcome | modules/ImGuiSharedDrawData.h:36-64 | as written, a list reaches the vector as its encoding, commands scrubbed, when the command insert fits in the capacity; when that insert reallocates, the commands stay as the source holds them, callbacks included |
| SharedDrawData.ListsAsWrittenRoomy | modules/ImGuiSharedDrawData.h:34-65 | as written, lists appended to a vector with room for all of them come out exactly as the wire format, with no reallocation |
| SharedDrawData.FrameAsWrittenRoomy | modules/ImGuiSharedDrawData.h:14-68 | as written, a call whose frame fits in the capacity left by earlier calls produces exactly the wire format in the same block |
| SharedDrawData.FirstFrameKeepsCallback | modules/ImGuiSharedDrawData.h:57-63 | as written, on the first call of an x64 build, a frame with one list of no vertices, no indices and one command whose UserCallback is set goes out with that callback byte still set, where the wire format has zero |
| SharedDrawData.SharedBuffer.WriteData | modules/ImGuiSharedDrawData.h:17-22 | the bytes are appended at the end of the vector, reallocating as `insert` does |
| SharedDrawData.SharedBuffer.WriteNullPointer | modules/ImGuiSharedDrawData.h:61-62 | a pointer-wide run of zeros replaces the field when the pointer is in the vector's current block; otherwise the vector is unchanged |
| SharedDrawData.SharedBuffer.NullCommand | modules/ImGuiSharedDrawData.h:61-62 | the vector becomes `NullAt` of the old one: the command is scrubbed through a live pointer, and nothing changes through a stale one |
| SharedDrawData.SharedBuffer.NullCallbacks | modules/ImGuiSharedDrawData.h:59-63 | after the loop over `sharedCmds`, the vector is `NullThrough` of the old one: through a live pointer the trailing commands are scrubbed and the bytes before them untouched; through a stale one nothing changes |
| SharedDrawData.SharedBuffer.WriteList | modules/ImGuiSharedDrawData.h:36-64 | with `sharedCmds` taken after the command insert, one list appends exactly its encoding, commands scrubbed, whatever reallocation happens |
| SharedDrawData.SharedBuffer.WriteListAsWritten | modules/ImGuiSharedDrawData.h:36-64 | with `sharedCmds` taken before the command insert, as in the code, the vector becomes `ListAsWritten` of the old one |
| SharedDrawData.SharedBuffer.GetSharedDrawData | modules/ImGuiSharedDrawData.h:14-68 | with the corrected pointer, the vector holds exactly the encoding of the current frame, whatever it held before; capacity never shrinks |
| SharedDrawData.SharedBuffer.GetSharedDrawDataAsWritten | modules/ImGuiSharedDrawData.h:14-68 | as written, the vector becomes `FrameAsWritten` of the old one: cleared with its capacity kept, the header appended, then each list as written |
| SharedDrawData.SliceVector | modules/ImGuiSharedDrawData.h:126-130 | reading one Size and slicing its payload succeeds exactly when the wire format accepts the vector, with the same view and cursor |
| SharedDrawData.SliceList | modules/ImGuiSharedDrawData.h:125-144 | one pass of the slicing loop yields the wire format's view of the list at the cursor, or fails exactly when the wire format does |
| SharedDrawData.RenderContext.GrowWindowNames | modules/ImGuiSharedDrawData.h:97-102 | `windowNames` becomes the grown table; the draw data is untouched |
| SharedDrawData.RenderContext.RenderSharedDrawData | modules/ImGuiSharedDrawData.h:70-148 | the result is the wire format's decoding; the header fields and lists change only when the input is sliced, and then take the decoded values; the name table grows once the count is known to be at least 1 |
| Transport.ToInt32 | src/render.cc:49 | the `int` cast of the size is the size itself below 2^31, and never a positive value above it |
| Transport.Sent | src/render.cc:49 | `send` of `len` bytes hands over `len` bytes, none when `len` is not positive |
| Transport.Frame | src/render.cc:44-49 | the bytes SendToRender puts on the wire: none exactly for an empty vector, and never more than the 4-byte length plus the vector |
| Transport.FrameEmpty | src/render.cc:44-45 | nothing is sent exactly when the vector is empty |
| Transport.FrameOfPacket | src/render.cc:47-49 | a non-empty vector below 2 GiB goes out as its 4-byte little-endian length and then all its bytes in order: 4 + size bytes |
| Transport.Sender.Send | src/render.cc:48-49 | `len` bytes of the buffer are appended to the stream, none when `len` is not positive |
| Transport.Sender.SendToRender | src/render.cc:42-50 | the stream grows by exactly the frame of the vector, nothing for an empty vector |
| Transport.Receiver.Recv | src/canvas.cc:84 | a read returns at most what was asked, taking the next bytes of the stream in order |
| Transport.Receiver.ReceivePacket | src/canvas.cc:64-92 | a short length read ends the pass after that one read, buffer unchanged; a length above 1 MiB ends the pass after the 4 length bytes, with no body read and the buffer unchanged; a packet leaves the buffer at max(old length, size), its first `size` bytes the body in arrival order, the rest as before; reads that do not fail always deliver the whole packet |
| Transport.Receiver.ReadBody | src/canvas.cc:80-91 | a completed body read leaves the next `size` stream bytes, in order, at the front of the buffer and the rest of the buffer untouched; reads that do not fail always complete it when the bytes are there |
| Transport.FramingRoundTrip | src/canvas.cc:67-91 | a non-empty vector of at most 1 MiB sent by SendToRender arrives whole at the front of the receive vector, with any longer stale contents behind it |
| Pipeline.ShareFrame | src/canvas.cc:186-188 | a frame that fits in one packet, encoded, sent, received and decoded from the reused vector, comes back with its header fields and each produced list's counts and bytes (callbacks null); a frame without lists changes nothing |

## Left out

- Font atlas transfer: `GetSharedFontData` (called at src/render.cc:118) is not part of this model, and its format is not invented.
- The ImGui `NewFrame`/`Begin`/`End`/`Render` loop (modules/ImGuiSharedDrawData.h:103-114) is foreign code. Its effect is the parameter `produced`, the number of lists in the draw data it renders.
- Clearing the previous lists' `Data` pointers and the `clear()` calls before slicing (modules/ImGuiSharedDrawData.h:86-95, 126, 133, 140) concern ImGui's memory ownership. Views own nothing, so they have no counterpart.
- Float values are not interpreted: DisplayPos, FramebufferScale and vertex fields travel as opaque bytes.
- GLFW, OpenGL and widget code in both `main` functions, and socket setup and teardown, are outside the model. Sockets appear only as the byte stream they carry.
- Threads and the hand-off between them are left out: `g_bufferReadLock`, the mutex and condition variable, the outer `while (g_work)` loop and its wait for render completion (src/canvas.cc:65, 78, 92-99). The model runs one pass of the loop.
- `exit(0)` after a failed body read is the outcome `Disconnected`. A `recv` result of 0 and a negative one are the same case.
- Transport.Sender.Send: assumes `send` hands over every byte it is given. The source ignores partial sends and errors.
- WireFormat.DecodeSharedDrawData: returns `Malformed` where the C++ would read past the end of the input, which is undefined. It also returns `Malformed` where the C++ would go on with a negative `Size` and a rewound cursor, slicing overlapping bytes. That behaviour is defined while the rewind stays inside the input, and it is not modelled; further back the pointer arithmetic is undefined.
- SharedDrawData.RenderContext.RenderSharedDrawData: on malformed input the model leaves the draw data as it was. The C++ has by then overwritten some fields, and either read past the end of the input or gone on with a negative `Size` and a rewound cursor (defined while the rewind stays inside the input; further back the pointer arithmetic is undefined).
- Writes through a stale `sharedCmds` are modelled as not reaching the vector. What they do to the released block is a use after free, which is undefined, and is not modelled.
- `Insert` follows MSVC's growth policy (half as much again, or the needed size when that is more). Other standard libraries grow differently, so on them a different frame is the first to reallocate at the command insert.

## Findings

| source | as written | input that shows it | evidently intended | confidence | as-written member | corrected member |
|---|---|---|---|---|---|---|
| modules/ImGuiSharedDrawData.h:57-58 | `sharedCmds` is taken from `sharedDrawData.data()` before the `insert` that appends the commands. When that insert reallocates, the null writes go to the released block, and the vector keeps the callback pointers | x64 build with MSVC growth, first call (vector without storage): one list with 0 vertices, 0 indices and one 56-byte command whose UserCallback is set. After the counts the vector holds 32 bytes in a 45-byte block; the command insert needs 88 and reallocates, and byte 72 keeps the callback | every command in the vector has null UserCallback and UserCallbackData | high; not executed | SharedDrawData.FirstFrameKeepsCallback | SharedDrawData.SharedBuffer.GetSharedDrawData |
