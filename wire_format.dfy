/**
 * The byte layout of one shared frame (modules/ImGuiSharedDrawData.h):
 * what GetSharedDrawData writes and what RenderSharedDrawData slices, as
 * pure functions, with the lemmas that tie the two together.
 *
 * Wire layout, all counts C `int` little-endian:
 *   CmdListsCount | DisplayPos (8) | FramebufferScale (8) |
 *   per list: VtxBuffer.Size, vertex bytes, IdxBuffer.Size, index bytes,
 *             CmdBuffer.Size, command bytes with both callback fields null
 */
module WireFormat {
  import opened Bytes

  datatype Option<T> = None | Some(value: T)

  /** The two ImVec2 header fields travel as two floats each: 8 opaque bytes. */
  const Vec2Size: nat := 8
  /** CmdListsCount, DisplayPos and FramebufferScale. */
  const HeaderSize: nat := 4 + Vec2Size + Vec2Size

  /**
   * Build-dependent sizes: sizeof(ImDrawVert), sizeof(ImDrawIdx),
   * sizeof(ImDrawCmd), the offsets of ImDrawCmd::UserCallback and
   * ImDrawCmd::UserCallbackData, and the width of a pointer.
   */
  datatype Layout = Layout(
    sizeofVert: nat, sizeofIdx: nat, sizeofCmd: nat,
    callbackOffset: nat, callbackDataOffset: nat, pointerSize: nat)

  predicate ValidLayout(L: Layout) {
    && L.sizeofVert > 0 && L.sizeofIdx > 0 && L.sizeofCmd > 0 && L.pointerSize > 0
    && L.callbackOffset + L.pointerSize <= L.sizeofCmd
    && L.callbackDataOffset + L.pointerSize <= L.sizeofCmd
    && (L.callbackOffset + L.pointerSize <= L.callbackDataOffset
        || L.callbackDataOffset + L.pointerSize <= L.callbackOffset)
  }

  /** The layout of a build: what every part of the codec takes for granted. */
  type BuildLayout = L: Layout | ValidLayout(L) witness Layout(1, 1, 2, 0, 1, 1)

  /**
   * An ImDrawList as far as it travels: its three ImVectors, each a `Size`
   * and the raw bytes its `Data` points at.
   */
  datatype DrawList = DrawList(
    vtxSize: int, vtxData: seq<byte>,
    idxSize: int, idxData: seq<byte>,
    cmdSize: int, cmdData: seq<byte>)

  /** An ImVector's Size is an `int` and its Data holds Size elements (Size * elemSize bytes). */
  predicate VectorValid(size: int, payload: seq<byte>, elemSize: nat) {
    0 <= size < TwoTo31 && |payload| == Span(size, elemSize)
  }

  predicate ListValid(L: BuildLayout, d: DrawList) {
    && VectorValid(d.vtxSize, d.vtxData, L.sizeofVert)
    && VectorValid(d.idxSize, d.idxData, L.sizeofIdx)
    && VectorValid(d.cmdSize, d.cmdData, L.sizeofCmd)
  }

  /**
   * The ImDrawData fields the codec touches. CmdListsCount is |cmdLists|:
   * ImGui keeps the two equal.
   */
  datatype DrawData = DrawData(displayPos: seq<byte>, framebufferScale: seq<byte>, cmdLists: seq<DrawList>)

  predicate DrawDataValid(L: BuildLayout, f: DrawData) {
    && |f.displayPos| == Vec2Size && |f.framebufferScale| == Vec2Size
    && |f.cmdLists| < TwoTo31
    && forall i :: 0 <= i < |f.cmdLists| ==> ListValid(L, f.cmdLists[i])
  }

  // ---------------------------------------------------------------------
  // Callback scrub

  /** Offset `o` of an ImDrawCmd lies inside UserCallback or UserCallbackData. */
  predicate InCallbackField(L: BuildLayout, o: nat) {
    || L.callbackOffset <= o < L.callbackOffset + L.pointerSize
    || L.callbackDataOffset <= o < L.callbackDataOffset + L.pointerSize
  }

  /** One ImDrawCmd as it goes on the wire: both callback pointers null, every other byte kept. */
  function ScrubRecord(L: BuildLayout, rec: seq<byte>): (r: seq<byte>)
    requires |rec| == L.sizeofCmd
    ensures |r| == |rec|
  {
    seq(|rec|, o requires 0 <= o < |rec| => if InCallbackField(L, o) then 0 else rec[o])
  }

  /** The scrubbed command: UserCallback and UserCallbackData null, the rest verbatim. */
  lemma ScrubbedRecord(L: BuildLayout, rec: seq<byte>)
    requires |rec| == L.sizeofCmd
    ensures var r := ScrubRecord(L, rec);
      && r[L.callbackOffset .. L.callbackOffset + L.pointerSize] == Zeros(L.pointerSize)
      && r[L.callbackDataOffset .. L.callbackDataOffset + L.pointerSize] == Zeros(L.pointerSize)
      && forall o :: 0 <= o < |rec| && !InCallbackField(L, o) ==> r[o] == rec[o]
  {
  }

  /** Writing the two null pointers into a command, in either order, is the scrub. */
  lemma NullFieldsScrub(L: BuildLayout, rec: seq<byte>)
    requires |rec| == L.sizeofCmd
    ensures var z := Zeros(L.pointerSize);
      Overwrite(Overwrite(rec, L.callbackOffset, z), L.callbackDataOffset, z) == ScrubRecord(L, rec)
  {
    var p := L.pointerSize;
    var b := L.callbackDataOffset;
    var once := Overwrite(rec, L.callbackOffset, Zeros(p));
    var twice := Overwrite(once, b, Zeros(p));
    forall o | 0 <= o < |rec| ensures twice[o] == ScrubRecord(L, rec)[o] {
      if o < b {
        assert twice[o] == once[o];
      } else if o >= b + p {
        assert twice[o] == once[o];
      }
    }
  }

  /**
   * The command bytes as they go on the wire: `count` commands, each
   * scrubbed; defined from the back, as the encoder's loop proceeds.
   */
  function ScrubCallbacks(L: BuildLayout, cmds: seq<byte>, count: nat): (r: seq<byte>)
    requires |cmds| == Span(count, L.sizeofCmd)
    ensures |r| == |cmds|
  {
    if count == 0 then []
    else
      var k := Span(count - 1, L.sizeofCmd);
      ScrubCallbacks(L, cmds[..k], count - 1) + ScrubRecord(L, cmds[k..])
  }

  /** Command `j` of the scrubbed bytes is command `j` of the source, scrubbed. */
  lemma {:induction false} ScrubbedCommand(L: BuildLayout, cmds: seq<byte>, count: nat, j: nat)
    requires |cmds| == Span(count, L.sizeofCmd) && j < count
    ensures Span(j + 1, L.sizeofCmd) <= |cmds|
    ensures var lo := Span(j, L.sizeofCmd); var hi := Span(j + 1, L.sizeofCmd);
      ScrubCallbacks(L, cmds, count)[lo .. hi] == ScrubRecord(L, cmds[lo .. hi])
  {
    var C := L.sizeofCmd;
    var k := Span(count - 1, C);
    var front := ScrubCallbacks(L, cmds[..k], count - 1);
    var back := ScrubRecord(L, cmds[k..]);
    assert ScrubCallbacks(L, cmds, count) == front + back;
    var lo := Span(j, C);
    var hi := Span(j + 1, C);
    if j < count - 1 {
      ScrubbedCommand(L, cmds[..k], count - 1, j);
      SpanMono(j + 1, count - 1, C);
      SliceOfTake(cmds, k, lo, hi);
      SliceOfFront(front, back, lo, hi);
    } else {
      assert lo == k && hi == |cmds|;
      SplitAppend(front, back);
      assert cmds[lo .. hi] == cmds[k..];
      assert (front + back)[lo .. hi] == (front + back)[k..];
    }
  }

  // ---------------------------------------------------------------------
  // Encoding (GetSharedDrawData)

  /** One ImVector on the wire: its Size, then its raw bytes. */
  function EncodeVector(size: int, payload: seq<byte>): (r: seq<byte>)
    requires -TwoTo31 <= size < TwoTo31
    ensures |r| == 4 + |payload|
  {
    I32Le(size) + payload
  }

  /** One ImDrawList on the wire: three Size counts, each followed by its payload. */
  function EncodeList(L: BuildLayout, d: DrawList): (r: seq<byte>)
    requires ListValid(L, d)
    ensures |r| == 12 + |d.vtxData| + |d.idxData| + |d.cmdData|
  {
    EncodeVector(d.vtxSize, d.vtxData)
    + EncodeVector(d.idxSize, d.idxData)
    + EncodeVector(d.cmdSize, ScrubCallbacks(L, d.cmdData, d.cmdSize))
  }

  predicate ListsValid(L: BuildLayout, ls: seq<DrawList>) {
    forall i :: 0 <= i < |ls| ==> ListValid(L, ls[i])
  }

  /** The lists in CmdLists order; defined from the back, as the encoder appends. */
  function EncodeLists(L: BuildLayout, ls: seq<DrawList>): (r: seq<byte>)
    requires ListsValid(L, ls)
    ensures r == [] <==> ls == []
  {
    if ls == [] then []
    else EncodeLists(L, ls[..|ls| - 1]) + EncodeList(L, ls[|ls| - 1])
  }

  /** The whole buffer GetSharedDrawData returns for the current draw data. */
  function EncodeDrawData(L: BuildLayout, f: DrawData): (r: seq<byte>)
    requires DrawDataValid(L, f)
    ensures |r| >= HeaderSize
  {
    I32Le(|f.cmdLists|) + f.displayPos + f.framebufferScale + EncodeLists(L, f.cmdLists)
  }

  /** Every prefix of valid lists is valid. */
  lemma ListsValidPrefix(L: BuildLayout, ls: seq<DrawList>, n: nat)
    requires ListsValid(L, ls) && n <= |ls|
    ensures ListsValid(L, ls[..n])
  {
  }

  /** Encoding one more list of a prefix appends that list's encoding. */
  lemma EncodeListsSnoc(L: BuildLayout, ls: seq<DrawList>, i: nat)
    requires ListsValid(L, ls) && i < |ls|
    ensures EncodeLists(L, ls[..i + 1]) == EncodeLists(L, ls[..i]) + EncodeList(L, ls[i])
  {
    TakeOfTake(ls, i + 1, i);
  }

  /** Bytes one list occupies, from its element counts alone. */
  function ListWireSize(L: BuildLayout, d: DrawList): int
    requires ListValid(L, d)
  {
    4 + d.vtxSize * L.sizeofVert + 4 + d.idxSize * L.sizeofIdx + 4 + d.cmdSize * L.sizeofCmd
  }

  function ListsWireSize(L: BuildLayout, ls: seq<DrawList>): int
    requires ListsValid(L, ls)
  {
    if ls == [] then 0 else ListsWireSize(L, ls[..|ls| - 1]) + ListWireSize(L, ls[|ls| - 1])
  }

  /**
   * The length formula: a 20-byte header plus, per list,
   * 4 + nv*|Vert| + 4 + ni*|Idx| + 4 + nc*|Cmd|; never empty.
   */
  lemma {:induction false} EncodeListsLength(L: BuildLayout, ls: seq<DrawList>)
    requires ListsValid(L, ls)
    ensures |EncodeLists(L, ls)| == ListsWireSize(L, ls)
  {
    if ls != [] {
      EncodeListsLength(L, ls[..|ls| - 1]);
      var d := ls[|ls| - 1];
      SpanIsProduct(d.vtxSize, L.sizeofVert);
      SpanIsProduct(d.idxSize, L.sizeofIdx);
      SpanIsProduct(d.cmdSize, L.sizeofCmd);
    }
  }

  lemma EncodeDrawDataLength(L: BuildLayout, f: DrawData)
    requires DrawDataValid(L, f)
    ensures |EncodeDrawData(L, f)| == HeaderSize + ListsWireSize(L, f.cmdLists)
    ensures |EncodeDrawData(L, f)| >= HeaderSize
  {
    EncodeListsLength(L, f.cmdLists);
  }

  /** Encoding a prefix of the lists gives a prefix of the encoding. */
  lemma {:induction false} EncodeListsPrefix(L: BuildLayout, ls: seq<DrawList>, n: nat)
    requires ListsValid(L, ls) && n <= |ls|
    ensures EncodeLists(L, ls[..n]) <= EncodeLists(L, ls)
  {
    if n < |ls| {
      EncodeListsPrefix(L, ls[..|ls| - 1], n);
      assert ls[..|ls| - 1][..n] == ls[..n];
    } else {
      assert ls[..n] == ls;
    }
  }

  // ---------------------------------------------------------------------
  // Decoding (RenderSharedDrawData)

  /**
   * A zero-copy ImVector: `size` elements starting at byte `offset` of the
   * received buffer (the C++ sets Data to point there).
   */
  datatype View = View(offset: nat, size: nat)

  datatype ListView = ListView(vtx: View, idx: View, cmd: View)

  /** What a call of RenderSharedDrawData amounts to. */
  datatype DecodeResult =
    | NoUpdate    // empty input or CmdListsCount < 1: current draw data returned as is
    | Malformed   // the input ends before a field the layout calls for, or a count is negative
    | Sliced(displayPos: seq<byte>, framebufferScale: seq<byte>, cmdLists: seq<ListView>, end: nat)

  function ViewEnd(v: View, elemSize: nat): (e: nat)
    ensures e >= v.offset
  {
    v.offset + Span(v.size, elemSize)
  }

  /** Reads one Size at `pos` and slices the payload after it. */
  function ParseVector(data: seq<byte>, pos: nat, elemSize: nat): (r: Option<(View, nat)>)
    ensures r.Some? ==> pos + 4 <= r.value.1 <= |data| && r.value.0.size == ReadI32(data, pos) >= 0
  {
    if pos + 4 > |data| then None
    else
      var n := ReadI32(data, pos);
      if n < 0 || pos + 4 + Span(n, elemSize) > |data| then None
      else Some((View(pos + 4, n), pos + 4 + Span(n, elemSize)))
  }

  /** Reads one vector per element size, each at the cursor the previous one left. */
  function ParseVectors(data: seq<byte>, pos: nat, sizes: seq<nat>): (r: Option<(seq<View>, nat)>)
    ensures r.Some? ==> |r.value.0| == |sizes| && pos + 4 * |sizes| <= r.value.1
    ensures r.Some? && sizes != [] ==> r.value.1 <= |data|
    decreases |sizes|
  {
    if sizes == [] then Some(([], pos))
    else
      match ParseVector(data, pos, sizes[0])
      case None => None
      case Some((v, next)) =>
        match ParseVectors(data, next, sizes[1..])
        case None => None
        case Some((ws, end)) => Some(([v] + ws, end))
  }

  /** One list: its vertex, index and command vectors, in that order. */
  function ParseList(L: BuildLayout, data: seq<byte>, pos: nat): (r: Option<(ListView, nat)>)
    ensures r.Some? ==> pos + 12 <= r.value.1 <= |data|
  {
    match ParseVectors(data, pos, [L.sizeofVert, L.sizeofIdx, L.sizeofCmd])
    case None => None
    case Some((ws, end)) => Some((ListView(ws[0], ws[1], ws[2]), end))
  }

  /** ParseList as the three reads it makes, each stopping the list when it fails. */
  lemma ParseListUnfold(L: BuildLayout, data: seq<byte>, pos: nat)
    ensures ParseList(L, data, pos) ==
      match ParseVector(data, pos, L.sizeofVert)
      case None => None
      case Some((vtx, p1)) =>
        match ParseVector(data, p1, L.sizeofIdx)
        case None => None
        case Some((idx, p2)) =>
          match ParseVector(data, p2, L.sizeofCmd)
          case None => None
          case Some((cmd, p3)) => Some((ListView(vtx, idx, cmd), p3))
  {
    var sizes := [L.sizeofVert, L.sizeofIdx, L.sizeofCmd];
    assert sizes[1..] == [L.sizeofIdx, L.sizeofCmd];
    assert sizes[1..][1..] == [L.sizeofCmd];
    match ParseVector(data, pos, L.sizeofVert)
    case None =>
    case Some((vtx, p1)) =>
      match ParseVector(data, p1, L.sizeofIdx)
      case None =>
        assert ParseVectors(data, p1, sizes[1..]) == None;
      case Some((idx, p2)) =>
        match ParseVector(data, p2, L.sizeofCmd)
        case None =>
          assert ParseVectors(data, p2, sizes[1..][1..]) == None;
          assert ParseVectors(data, p1, sizes[1..]) == None;
        case Some((cmd, p3)) =>
          assert ParseVectors(data, p3, sizes[1..][1..][1..]) == Some(([], p3));
          assert [cmd] + [] == [cmd];
          assert ParseVectors(data, p2, sizes[1..][1..]) == Some(([cmd], p3));
          assert [idx] + [cmd] == [idx, cmd];
          assert ParseVectors(data, p1, sizes[1..]) == Some(([idx, cmd], p3));
          assert [vtx] + [idx, cmd] == [vtx, idx, cmd];
          assert ParseVectors(data, pos, sizes) == Some(([vtx, idx, cmd], p3));
  }

  /**
   * The cursor invariant, on offsets alone: the views of `vs`, taken in
   * order, tile the bytes from `start` to `end`, each payload right after
   * the 4-byte count that announces it.
   */
  predicate Chained(L: BuildLayout, vs: seq<ListView>, start: nat, end: nat) {
    && (vs == [] ==> start == end)
    && (vs != [] ==>
          && vs[0].vtx.offset == start + 4
          && ViewEnd(vs[|vs| - 1].cmd, L.sizeofCmd) == end)
    && (forall i :: 1 <= i < |vs| ==> vs[i].vtx.offset == ViewEnd(vs[i - 1].cmd, L.sizeofCmd) + 4)
    && (forall i :: 0 <= i < |vs| ==> InnerChained(L, vs[i]))
  }

  /** Within one list: indices right after the vertices, commands right after the indices. */
  predicate InnerChained(L: BuildLayout, v: ListView) {
    && v.idx.offset == ViewEnd(v.vtx, L.sizeofVert) + 4
    && v.cmd.offset == ViewEnd(v.idx, L.sizeofIdx) + 4
  }

  /** Each view's Size is the count stored in the four bytes before it. */
  predicate CountsPrecede(data: seq<byte>, v: ListView) {
    && 4 <= v.vtx.offset <= |data| && ReadI32(data, v.vtx.offset - 4) == v.vtx.size
    && 4 <= v.idx.offset <= |data| && ReadI32(data, v.idx.offset - 4) == v.idx.size
    && 4 <= v.cmd.offset <= |data| && ReadI32(data, v.cmd.offset - 4) == v.cmd.size
  }

  /** The zero-copy cursor invariant against the received bytes. */
  predicate Tiles(L: BuildLayout, data: seq<byte>, vs: seq<ListView>, start: nat, end: nat) {
    && Chained(L, vs, start, end)
    && end <= |data|
    && forall i :: 0 <= i < |vs| ==> CountsPrecede(data, vs[i])
  }

  /** A list read at `pos` starts right after its first count, is chained inside and ends at the new cursor. */
  lemma ParsedListShape(L: BuildLayout, data: seq<byte>, pos: nat, v: ListView, end: nat)
    requires ParseList(L, data, pos) == Some((v, end))
    ensures v.vtx.offset == pos + 4 && InnerChained(L, v) && CountsPrecede(data, v)
    ensures ViewEnd(v.cmd, L.sizeofCmd) == end <= |data|
  {
    ParseListUnfold(L, data, pos);
  }

  /** One more list whose counts start at the cursor keeps the chain. */
  lemma ChainedExtend(L: BuildLayout, vs: seq<ListView>, v: ListView, start: nat, mid: nat, end: nat)
    requires Chained(L, vs, start, mid)
    requires v.vtx.offset == mid + 4 && InnerChained(L, v) && ViewEnd(v.cmd, L.sizeofCmd) == end
    ensures Chained(L, vs + [v], start, end)
  {
    var ws := vs + [v];
    forall i | 1 <= i < |ws|
      ensures ws[i].vtx.offset == ViewEnd(ws[i - 1].cmd, L.sizeofCmd) + 4
    {
      if i < |vs| {
        assert ws[i] == vs[i] && ws[i - 1] == vs[i - 1];
      } else {
        assert ws[i - 1] == vs[|vs| - 1];
      }
    }
    forall i | 0 <= i < |ws| ensures InnerChained(L, ws[i]) {
      if i < |vs| {
        assert ws[i] == vs[i];
      }
    }
  }

  /** One more list read at the cursor keeps the tiling. */
  lemma TilesExtend(L: BuildLayout, data: seq<byte>, vs: seq<ListView>, v: ListView, start: nat, mid: nat, end: nat)
    requires Tiles(L, data, vs, start, mid)
    requires ParseList(L, data, mid) == Some((v, end))
    ensures Tiles(L, data, vs + [v], start, end)
  {
    var ws := vs + [v];
    ParsedListShape(L, data, mid, v, end);
    ChainedExtend(L, vs, v, start, mid, end);
    forall i | 0 <= i < |ws| ensures CountsPrecede(data, ws[i]) {
      if i < |vs| {
        assert ws[i] == vs[i];
      }
    }
  }

  /** The first `n` lists, read in order from the end of the header. */
  function ParseLists(L: BuildLayout, data: seq<byte>, n: nat): (r: Option<(seq<ListView>, nat)>)
    ensures r.Some? ==> |data| >= HeaderSize && |r.value.0| == n
  {
    if n == 0 then (if |data| < HeaderSize then None else Some(([], HeaderSize)))
    else
      var before := ParseLists(L, data, n - 1);
      if before.None? then None
      else
        var last := ParseList(L, data, before.value.1);
        if last.None? then None
        else Some((before.value.0 + [last.value.0], last.value.1))
  }

  lemma ParseListsStep(L: BuildLayout, data: seq<byte>, n: nat, vs: seq<ListView>, pos: nat, v: ListView, next: nat)
    requires n >= 1
    requires ParseLists(L, data, n - 1) == Some((vs, pos))
    requires ParseList(L, data, pos) == Some((v, next))
    ensures ParseLists(L, data, n) == Some((vs + [v], next))
  {
  }

  /** Whatever ParseLists returns satisfies the cursor invariant. */
  lemma {:induction false} ParseListsTiles(L: BuildLayout, data: seq<byte>, n: nat)
    requires ParseLists(L, data, n).Some?
    ensures Tiles(L, data, ParseLists(L, data, n).value.0, HeaderSize, ParseLists(L, data, n).value.1)
  {
    if n > 0 {
      ParseListsTiles(L, data, n - 1);
      var (vs, pos) := ParseLists(L, data, n - 1).value;
      var (v, next) := ParseList(L, data, pos).value;
      ParseListsStep(L, data, n, vs, pos, v, next);
      TilesExtend(L, data, vs, v, HeaderSize, pos, next);
    }
  }

  /**
   * The whole of RenderSharedDrawData, with the bounds checks the C++ leaves
   * out. `produced` is CmdListsCount of the draw data ImGui renders for the
   * placeholder windows: the slicing loop runs over those lists, not over
   * the count read from the input.
   */
  function DecodeSharedDrawData(L: BuildLayout, data: seq<byte>, produced: nat): (r: DecodeResult)
    ensures r.NoUpdate? <==> |data| == 0 || (|data| >= 4 && ReadI32(data, 0) < 1)
    ensures r.Sliced? ==>
      && |data| >= HeaderSize && ReadI32(data, 0) >= 1
      && |r.cmdLists| == produced
      && r.displayPos == data[4..12] && r.framebufferScale == data[12..20]
  {
    if |data| == 0 then NoUpdate
    else if |data| < 4 then Malformed
    else
      var count := ReadI32(data, 0);
      if count < 1 then NoUpdate
      else
        match ParseLists(L, data, produced)
        case None => Malformed
        case Some((vs, end)) => Sliced(data[4..12], data[12..20], vs, end)
  }

  /** A failed read stays failed however many more lists are asked for. */
  lemma {:induction false} ParseListsStaysNone(L: BuildLayout, data: seq<byte>, m: nat, n: nat)
    requires m <= n && ParseLists(L, data, m).None?
    ensures ParseLists(L, data, n).None?
  {
    if m < n {
      ParseListsStaysNone(L, data, m, n - 1);
    }
  }

  /**
   * A successful decode tiles the input: the views follow the header in
   * order, each right after its count, and the cursor ends inside the input.
   */
  lemma DecodeTiles(L: BuildLayout, data: seq<byte>, produced: nat)
    requires DecodeSharedDrawData(L, data, produced).Sliced?
    ensures var r := DecodeSharedDrawData(L, data, produced);
      Tiles(L, data, r.cmdLists, HeaderSize, r.end)
  {
    ParseListsTiles(L, data, produced);
  }

  // ---------------------------------------------------------------------
  // Zero-copy views: ordering and round trip

  /** The slice a view points at. */
  function Slice(data: seq<byte>, v: View, elemSize: nat): seq<byte>
    requires ViewEnd(v, elemSize) <= |data|
  {
    data[v.offset .. ViewEnd(v, elemSize)]
  }

  /** Inside one list, the three views come in order and do not overlap. */
  lemma ListViewsOrdered(L: BuildLayout, v: ListView)
    requires InnerChained(L, v)
    ensures v.vtx.offset <= ViewEnd(v.vtx, L.sizeofVert) < v.idx.offset
    ensures v.idx.offset <= ViewEnd(v.idx, L.sizeofIdx) < v.cmd.offset
    ensures v.cmd.offset <= ViewEnd(v.cmd, L.sizeofCmd)
  {
  }

  /**
   * Views of different lists never overlap: everything list `i` points at
   * ends strictly before list `j` starts, for `i < j`.
   */
  lemma {:induction false} ChainedDisjoint(L: BuildLayout, vs: seq<ListView>, start: nat, end: nat, i: nat, j: nat)
    requires Chained(L, vs, start, end)
    requires i < j < |vs|
    ensures ViewEnd(vs[i].cmd, L.sizeofCmd) < vs[j].vtx.offset
  {
    if j > i + 1 {
      ChainedDisjoint(L, vs, start, end, i, j - 1);
      assert InnerChained(L, vs[j - 1]);
      ListViewsOrdered(L, vs[j - 1]);
    }
  }

  /** Every view lies between the start and the end of the tiling. */
  lemma {:induction false} ChainedWithin(L: BuildLayout, vs: seq<ListView>, start: nat, end: nat, j: nat)
    requires Chained(L, vs, start, end)
    requires j < |vs|
    ensures start < vs[j].vtx.offset
    ensures ViewEnd(vs[j].cmd, L.sizeofCmd) <= end
  {
    if j > 0 {
      ChainedDisjoint(L, vs, start, end, 0, j);
      assert InnerChained(L, vs[0]);
      ListViewsOrdered(L, vs[0]);
    }
    if j + 1 < |vs| {
      ChainedDisjoint(L, vs, start, end, j, |vs| - 1);
      assert InnerChained(L, vs[|vs| - 1]);
      ListViewsOrdered(L, vs[|vs| - 1]);
    }
  }

  /** The view points at `size` elements whose bytes are `payload`. */
  predicate VectorRestored(data: seq<byte>, v: View, elemSize: nat, size: int, payload: seq<byte>) {
    v.size == size && ViewEnd(v, elemSize) <= |data| && Slice(data, v, elemSize) == payload
  }

  /** The view `v` gives back list `d`: same counts, same bytes, callbacks null. */
  predicate ListRestored(L: BuildLayout, data: seq<byte>, v: ListView, d: DrawList)
    requires ListValid(L, d)
  {
    && VectorRestored(data, v.vtx, L.sizeofVert, d.vtxSize, d.vtxData)
    && VectorRestored(data, v.idx, L.sizeofIdx, d.idxSize, d.idxData)
    && VectorRestored(data, v.cmd, L.sizeofCmd, d.cmdSize, ScrubCallbacks(L, d.cmdData, d.cmdSize))
  }

  /** An encoded ImVector found at `pos` is sliced back to its own payload. */
  lemma ParseEncodedVector(data: seq<byte>, pos: nat, size: int, payload: seq<byte>, elemSize: nat)
    requires VectorValid(size, payload, elemSize)
    requires pos + 4 + |payload| <= |data|
    requires data[pos .. pos + 4 + |payload|] == EncodeVector(size, payload)
    ensures ParseVector(data, pos, elemSize) == Some((View(pos + 4, size), pos + 4 + |payload|))
    ensures VectorRestored(data, View(pos + 4, size), elemSize, size, payload)
  {
    SliceOfConcat(data, pos, I32Le(size), payload);
    ReadI32Le(data, pos, size);
  }

  /** ParseList from its three vector reads. */
  lemma ParseListOf(L: BuildLayout, data: seq<byte>, pos: nat, v: ListView, p1: nat, p2: nat, p3: nat)
    requires ParseVector(data, pos, L.sizeofVert) == Some((v.vtx, p1))
    requires ParseVector(data, p1, L.sizeofIdx) == Some((v.idx, p2))
    requires ParseVector(data, p2, L.sizeofCmd) == Some((v.cmd, p3))
    ensures ParseList(L, data, pos) == Some((v, p3))
  {
    ParseListUnfold(L, data, pos);
  }

  /** Three encoded ImVectors in a row at `pos` are read back as one list's views. */
  lemma ParseEncodedVectors(L: BuildLayout, data: seq<byte>, pos: nat,
                            n1: int, x1: seq<byte>, n2: int, x2: seq<byte>, n3: int, x3: seq<byte>)
    returns (v: ListView)
    requires VectorValid(n1, x1, L.sizeofVert) && VectorValid(n2, x2, L.sizeofIdx) && VectorValid(n3, x3, L.sizeofCmd)
    requires pos + 12 + |x1| + |x2| + |x3| <= |data|
    requires data[pos .. pos + 12 + |x1| + |x2| + |x3|] == EncodeVector(n1, x1) + EncodeVector(n2, x2) + EncodeVector(n3, x3)
    ensures ParseList(L, data, pos) == Some((v, pos + 12 + |x1| + |x2| + |x3|))
    ensures VectorRestored(data, v.vtx, L.sizeofVert, n1, x1)
    ensures VectorRestored(data, v.idx, L.sizeofIdx, n2, x2)
    ensures VectorRestored(data, v.cmd, L.sizeofCmd, n3, x3)
  {
    var a, b, c := EncodeVector(n1, x1), EncodeVector(n2, x2), EncodeVector(n3, x3);
    var p1, p2 := pos + |a|, pos + |a| + |b|;
    AppendAssoc(a, b, c);
    SliceOfConcat(data, pos, a, b + c);
    SliceOfConcat(data, p1, b, c);
    ParseEncodedVector(data, pos, n1, x1, L.sizeofVert);
    ParseEncodedVector(data, p1, n2, x2, L.sizeofIdx);
    ParseEncodedVector(data, p2, n3, x3, L.sizeofCmd);
    v := ListView(View(pos + 4, n1), View(p1 + 4, n2), View(p2 + 4, n3));
    ParseListOf(L, data, pos, v, p1, p2, p2 + |c|);
  }

  /** An encoded list found at `pos` is read back as its three vectors, callbacks null. */
  lemma ParseEncodedList(L: BuildLayout, data: seq<byte>, pos: nat, d: DrawList) returns (v: ListView, next: nat)
    requires ListValid(L, d)
    requires pos + |EncodeList(L, d)| <= |data|
    requires data[pos .. pos + |EncodeList(L, d)|] == EncodeList(L, d)
    ensures next == pos + |EncodeList(L, d)|
    ensures ParseList(L, data, pos) == Some((v, next))
    ensures ListRestored(L, data, v, d)
  {
    next := pos + |EncodeList(L, d)|;
    var scrubbed := ScrubCallbacks(L, d.cmdData, d.cmdSize);
    v := ParseEncodedVectors(L, data, pos, d.vtxSize, d.vtxData, d.idxSize, d.idxData, d.cmdSize, scrubbed);
  }

  /** After the header, every encoded list is read back in order, and the cursor stops where they end. */
  lemma {:induction false} ParseEncodedAll(L: BuildLayout, data: seq<byte>, ls: seq<DrawList>)
    returns (vs: seq<ListView>, pos: nat)
    requires ListsValid(L, ls)
    requires HeaderSize + |EncodeLists(L, ls)| <= |data|
    requires data[HeaderSize .. HeaderSize + |EncodeLists(L, ls)|] == EncodeLists(L, ls)
    ensures ParseLists(L, data, |ls|) == Some((vs, pos))
    ensures pos == HeaderSize + |EncodeLists(L, ls)|
    ensures forall i {:trigger ListRestored(L, data, vs[i], ls[i])} :: 0 <= i < |ls| ==> ListRestored(L, data, vs[i], ls[i])
  {
    if ls == [] {
      vs, pos := [], HeaderSize;
    } else {
      var init := EncodedInit(L, data, ls);
      var vs', pos' := ParseEncodedAll(L, data, init);
      vs, pos := ParseEncodedLast(L, data, ls, init, vs', pos');
    }
  }

  /** The lists but the last are encoded first, so they too lie right after the header. */
  lemma EncodedInit(L: BuildLayout, data: seq<byte>, ls: seq<DrawList>) returns (init: seq<DrawList>)
    requires ListsValid(L, ls) && ls != []
    requires HeaderSize + |EncodeLists(L, ls)| <= |data|
    requires data[HeaderSize .. HeaderSize + |EncodeLists(L, ls)|] == EncodeLists(L, ls)
    ensures init == ls[..|ls| - 1] && ListsValid(L, init)
    ensures HeaderSize + |EncodeLists(L, init)| <= |data|
    ensures data[HeaderSize .. HeaderSize + |EncodeLists(L, init)|] == EncodeLists(L, init)
  {
    init := ls[..|ls| - 1];
    SliceOfConcat(data, HeaderSize, EncodeLists(L, init), EncodeList(L, ls[|ls| - 1]));
  }

  /** The induction step of ParseEncodedAll: the last list is read back where the others end. */
  lemma ParseEncodedLast(L: BuildLayout, data: seq<byte>, ls: seq<DrawList>, init: seq<DrawList>,
                         vs': seq<ListView>, pos': nat)
    returns (vs: seq<ListView>, pos: nat)
    requires ListsValid(L, ls) && ls != [] && init == ls[..|ls| - 1]
    requires HeaderSize + |EncodeLists(L, ls)| <= |data|
    requires data[HeaderSize .. HeaderSize + |EncodeLists(L, ls)|] == EncodeLists(L, ls)
    requires ParseLists(L, data, |init|) == Some((vs', pos'))
    requires pos' == HeaderSize + |EncodeLists(L, init)|
    requires forall i {:trigger ListRestored(L, data, vs'[i], init[i])} :: 0 <= i < |init| ==> ListRestored(L, data, vs'[i], init[i])
    ensures ParseLists(L, data, |ls|) == Some((vs, pos))
    ensures pos == HeaderSize + |EncodeLists(L, ls)|
    ensures forall i {:trigger ListRestored(L, data, vs[i], ls[i])} :: 0 <= i < |ls| ==> ListRestored(L, data, vs[i], ls[i])
  {
    var last := EncodedLast(L, data, ls, pos');
    var v, next := ParseEncodedList(L, data, pos', last);
    ParseListsStep(L, data, |ls|, vs', pos', v, next);
    vs, pos := vs' + [v], next;
    RestoredSnoc(L, data, ls, init, vs', v);
  }

  /** The last list lies where the others end. */
  lemma EncodedLast(L: BuildLayout, data: seq<byte>, ls: seq<DrawList>, pos': nat) returns (last: DrawList)
    requires ListsValid(L, ls) && ls != []
    requires HeaderSize + |EncodeLists(L, ls)| <= |data|
    requires data[HeaderSize .. HeaderSize + |EncodeLists(L, ls)|] == EncodeLists(L, ls)
    requires pos' == HeaderSize + |EncodeLists(L, ls[..|ls| - 1])|
    ensures last == ls[|ls| - 1] && ListValid(L, last)
    ensures pos' + |EncodeList(L, last)| == HeaderSize + |EncodeLists(L, ls)|
    ensures data[pos' .. pos' + |EncodeList(L, last)|] == EncodeList(L, last)
  {
    last := ls[|ls| - 1];
    SliceOfConcat(data, HeaderSize, EncodeLists(L, ls[..|ls| - 1]), EncodeList(L, last));
  }

  /** Restored lists stay restored when one more restored list is appended. */
  lemma RestoredSnoc(L: BuildLayout, data: seq<byte>, ls: seq<DrawList>, init: seq<DrawList>, vs': seq<ListView>, v: ListView)
    requires ListsValid(L, ls) && |vs'| + 1 == |ls| && init == ls[..|vs'|]
    requires forall i {:trigger ListRestored(L, data, vs'[i], init[i])} :: 0 <= i < |vs'| ==> ListRestored(L, data, vs'[i], init[i])
    requires ListRestored(L, data, v, ls[|vs'|])
    ensures forall i :: 0 <= i < |ls| ==> ListRestored(L, data, (vs' + [v])[i], ls[i])
  {
    forall i | 0 <= i < |ls| ensures ListRestored(L, data, (vs' + [v])[i], ls[i]) {
      if i < |vs'| {
        assert (vs' + [v])[i] == vs'[i] && init[i] == ls[i];
      }
    }
  }

  /** After the header, the first `n` encoded lists are read back in order. */
  lemma ParseEncodedLists(L: BuildLayout, data: seq<byte>, ls: seq<DrawList>, n: nat)
    returns (vs: seq<ListView>, pos: nat)
    requires ListsValid(L, ls) && n <= |ls|
    requires HeaderSize + |EncodeLists(L, ls)| <= |data|
    requires data[HeaderSize .. HeaderSize + |EncodeLists(L, ls)|] == EncodeLists(L, ls)
    ensures ParseLists(L, data, n) == Some((vs, pos))
    ensures pos == HeaderSize + |EncodeLists(L, ls[..n])|
    ensures forall i {:trigger ListRestored(L, data, vs[i], ls[i])} :: 0 <= i < n ==> ListRestored(L, data, vs[i], ls[i])
  {
    var front := EncodedFront(L, data, ls, n);
    vs, pos := ParseEncodedAll(L, data, front);
    forall i | 0 <= i < n ensures ListRestored(L, data, vs[i], ls[i]) {
      assert front[i] == ls[i];
    }
  }

  /** The first `n` lists are encoded first, so they lie right after the header. */
  lemma EncodedFront(L: BuildLayout, data: seq<byte>, ls: seq<DrawList>, n: nat) returns (front: seq<DrawList>)
    requires ListsValid(L, ls) && n <= |ls|
    requires HeaderSize + |EncodeLists(L, ls)| <= |data|
    requires data[HeaderSize .. HeaderSize + |EncodeLists(L, ls)|] == EncodeLists(L, ls)
    ensures front == ls[..n]
    ensures ListsValid(L, front)
    ensures HeaderSize + |EncodeLists(L, front)| <= |data|
    ensures data[HeaderSize .. HeaderSize + |EncodeLists(L, front)|] == EncodeLists(L, front)
  {
    front := ls[..n];
    ListsValidPrefix(L, ls, n);
    EncodeListsPrefix(L, ls, n);
    SliceOfPrefix(data, HeaderSize, EncodeLists(L, ls), EncodeLists(L, front));
  }

  /**
   * Round trip: decoding an encoded frame, whatever stale bytes follow it,
   * restores DisplayPos, FramebufferScale and, for each of the `produced`
   * destination lists, the counts and bytes of the source list at the same
   * position (command callbacks null); the cursor stops where those lists
   * end, which is the end of the frame when all of them are read. A frame
   * with no lists decodes as no update.
   */
  lemma DecodeEncoded(L: BuildLayout, f: DrawData, rest: seq<byte>, produced: nat)
    requires DrawDataValid(L, f) && produced <= |f.cmdLists|
    ensures var data := EncodeDrawData(L, f) + rest; var r := DecodeSharedDrawData(L, data, produced);
      && (f.cmdLists == [] ==> r.NoUpdate?)
      && (f.cmdLists != [] ==>
            && r.Sliced?
            && r.displayPos == f.displayPos && r.framebufferScale == f.framebufferScale
            && r.end == HeaderSize + |EncodeLists(L, f.cmdLists[..produced])|
            && (produced == |f.cmdLists| ==> r.end == |EncodeDrawData(L, f)|)
            && |r.cmdLists| == produced
            && forall i :: 0 <= i < produced ==> ListRestored(L, data, r.cmdLists[i], f.cmdLists[i]))
  {
    var data := EncodeDrawData(L, f) + rest;
    var ls := f.cmdLists;
    EncodedHeader(L, f, rest);
    if ls != [] {
      var vs, pos := ParseEncodedLists(L, data, ls, produced);
      TakeAll(ls);
    }
  }

  /** The header of an encoded frame reads back as the count and the two vectors; the lists follow it. */
  lemma EncodedHeader(L: BuildLayout, f: DrawData, rest: seq<byte>)
    requires DrawDataValid(L, f)
    ensures var data := EncodeDrawData(L, f) + rest; var lists := EncodeLists(L, f.cmdLists);
      && |data| >= HeaderSize + |lists|
      && ReadI32(data, 0) == |f.cmdLists|
      && data[4..12] == f.displayPos && data[12..20] == f.framebufferScale
      && data[HeaderSize .. HeaderSize + |lists|] == lists
  {
    var data := EncodeDrawData(L, f) + rest;
    var ls := f.cmdLists;
    var header := I32Le(|ls|) + f.displayPos + f.framebufferScale;
    assert data == header + EncodeLists(L, ls) + rest;
    assert data[..4] == I32Le(|ls|);
    ReadI32Le(data, 0, |ls|);
    assert data[4..12] == f.displayPos;
    assert data[12..20] == f.framebufferScale;
    assert data[HeaderSize .. HeaderSize + |EncodeLists(L, ls)|] == EncodeLists(L, ls);
  }
}
