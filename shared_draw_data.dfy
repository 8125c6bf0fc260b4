/**
 * GetSharedDrawData and RenderSharedDrawData (modules/ImGuiSharedDrawData.h)
 * as the step-by-step code they are: the encoder appends to a reusable byte
 * vector and then writes null pointers into it in place; the decoder walks
 * the input with a cursor, slicing each list's three vectors out of it.
 * Each method is proved against the wire format of module WireFormat.
 */
module SharedDrawData {
  import opened Bytes
  import opened WireFormat
  import opened WindowNames

  /** Writing inside the middle part of a sequence leaves the other parts alone. */
  lemma OverwriteInside(pre: seq<byte>, rec: seq<byte>, post: seq<byte>, at: nat, z: seq<byte>)
    requires at + |z| <= |rec|
    ensures Overwrite(pre + rec + post, |pre| + at, z) == pre + Overwrite(rec, at, z) + post
  {
    var s := pre + rec + post;
    var lhs := Overwrite(s, |pre| + at, z);
    var rhs := pre + Overwrite(rec, at, z) + post;
    forall k | 0 <= k < |s| ensures lhs[k] == rhs[k] {
      if k < |pre| + at {
        assert lhs[k] == s[k];
      } else if k >= |pre| + at + |z| {
        assert lhs[k] == s[k];
      }
    }
  }

  /** The two null writes into a command amid other bytes scrub that command and nothing else. */
  lemma NullRecordAmid(L: BuildLayout, pre: seq<byte>, rec: seq<byte>, post: seq<byte>)
    requires |rec| == L.sizeofCmd
    ensures var z := Zeros(L.pointerSize);
      Overwrite(Overwrite(pre + rec + post, |pre| + L.callbackOffset, z), |pre| + L.callbackDataOffset, z)
        == pre + ScrubRecord(L, rec) + post
  {
    var z := Zeros(L.pointerSize);
    OverwriteInside(pre, rec, post, L.callbackOffset, z);
    OverwriteInside(pre, Overwrite(rec, L.callbackOffset, z), post, L.callbackDataOffset, z);
    NullFieldsScrub(L, rec);
  }

  /** The same, for the command at offset `cmd` of a buffer. */
  lemma NullCommandEffect(L: BuildLayout, s: seq<byte>, cmd: nat)
    requires cmd + L.sizeofCmd <= |s|
    ensures var z := Zeros(L.pointerSize);
      Overwrite(Overwrite(s, cmd + L.callbackOffset, z), cmd + L.callbackDataOffset, z)
        == s[..cmd] + ScrubRecord(L, s[cmd .. cmd + L.sizeofCmd]) + s[cmd + L.sizeofCmd..]
  {
    SplitThree(s, cmd, cmd + L.sizeofCmd);
    NullRecordAmid(L, s[..cmd], s[cmd .. cmd + L.sizeofCmd], s[cmd + L.sizeofCmd..]);
  }

  /** The command bytes with the first `i` commands scrubbed and the rest as copied. */
  function PartlyScrubbed(L: BuildLayout, cmds: seq<byte>, i: nat): (r: seq<byte>)
    requires Span(i, L.sizeofCmd) <= |cmds|
    ensures |r| == |cmds|
  {
    var k := Span(i, L.sizeofCmd);
    ScrubCallbacks(L, cmds[..k], i) + cmds[k..]
  }

  /** No command scrubbed is the copy; all of them scrubbed is the wire form. */
  lemma PartlyScrubbedEnds(L: BuildLayout, cmds: seq<byte>, count: nat)
    requires |cmds| == Span(count, L.sizeofCmd)
    ensures PartlyScrubbed(L, cmds, 0) == cmds
    ensures PartlyScrubbed(L, cmds, count) == ScrubCallbacks(L, cmds, count)
  {
    TakeAll(cmds);
    SplitAppend([], cmds);
  }

  /** Scrubbing command `i` in place extends the scrubbed prefix by one command. */
  lemma ScrubOneMore(L: BuildLayout, pre: seq<byte>, cmds: seq<byte>, i: nat, s: seq<byte>, cmd: nat)
    requires Span(i + 1, L.sizeofCmd) <= |cmds|
    requires s == pre + PartlyScrubbed(L, cmds, i) && cmd == |pre| + Span(i, L.sizeofCmd)
    ensures cmd + L.sizeofCmd <= |s|
    ensures s[..cmd] + ScrubRecord(L, s[cmd .. cmd + L.sizeofCmd]) + s[cmd + L.sizeofCmd..]
         == pre + PartlyScrubbed(L, cmds, i + 1)
  {
    var k := Span(i, L.sizeofCmd);
    var k' := Span(i + 1, L.sizeofCmd);
    var front := ScrubCallbacks(L, cmds[..k], i);
    var rec := cmds[k..k'];
    ScrubSnoc(L, cmds, i);
    AppendAssoc(pre, front, cmds[k..]);
    SliceSplit(cmds, k, k', |cmds|);
    AppendAssoc(pre + front, rec, cmds[k'..]);
    SplitThree(s, cmd, cmd + L.sizeofCmd);
    assert s[..cmd] == pre + front && s[cmd .. cmd + L.sizeofCmd] == rec && s[cmd + L.sizeofCmd..] == cmds[k'..] by {
      SplitAppend(pre + front, rec + cmds[k'..]);
      SplitAppend(rec, cmds[k'..]);
      SliceOfDrop(s, cmd, L.sizeofCmd);
    }
    AppendAssoc(pre, front + ScrubRecord(L, rec), cmds[k'..]);
    AppendAssoc(pre, front, ScrubRecord(L, rec));
  }

  /** Scrubbing one more command appends that command, scrubbed. */
  lemma ScrubSnoc(L: BuildLayout, cmds: seq<byte>, i: nat)
    requires Span(i + 1, L.sizeofCmd) <= |cmds|
    ensures var k, k' := Span(i, L.sizeofCmd), Span(i + 1, L.sizeofCmd);
      ScrubCallbacks(L, cmds[..k'], i + 1) == ScrubCallbacks(L, cmds[..k], i) + ScrubRecord(L, cmds[k..k'])
  {
    var k, k' := Span(i, L.sizeofCmd), Span(i + 1, L.sizeofCmd);
    assert cmds[..k'][..k] == cmds[..k];
    assert cmds[..k'][k..] == cmds[k..k'];
  }

  /** A list's encoding appended to `p`, as the six appends that write it. */
  lemma AppendEncodedList(L: BuildLayout, p: seq<byte>, d: DrawList)
    requires ListValid(L, d)
    ensures p + EncodeList(L, d)
      == p + I32Le(d.vtxSize) + d.vtxData + I32Le(d.idxSize) + d.idxData + I32Le(d.cmdSize)
         + ScrubCallbacks(L, d.cmdData, d.cmdSize)
  {
  }

  // ---------------------------------------------------------------------
  // The vector's storage

  /** Byte `offset` of allocation `block`: what a raw pointer into the vector's storage designates. */
  datatype Place = Place(block: nat, offset: nat)

  /**
   * The capacity `insert` allocates when the bytes no longer fit: MSVC's
   * growth policy, half as much again as the old capacity, or just what is
   * needed when that is more.
   */
  function GrownCapacity(capacity: nat, needed: nat): (c: nat)
    ensures c >= needed && c > capacity
    requires needed > capacity
  {
    var geometric := capacity + capacity / 2;
    if geometric < needed then needed else geometric
  }

  /** The vector as the allocator sees it: its bytes, its capacity and the block that holds them. */
  datatype Vector = Vector(bytes: seq<byte>, capacity: nat, block: nat)

  /**
   * `insert(end(), first, last)`: the bytes are appended; when they do not
   * fit, everything moves to a new, larger block and the old one is released.
   */
  function Insert(v: Vector, chunk: seq<byte>): (w: Vector)
    ensures w.bytes == v.bytes + chunk && |w.bytes| <= w.capacity
    ensures w.block == v.block <==> |v.bytes| + |chunk| <= v.capacity
    ensures w.capacity >= v.capacity && w.block >= v.block
  {
    var needed := |v.bytes| + |chunk|;
    if needed <= v.capacity then Vector(v.bytes + chunk, v.capacity, v.block)
    else Vector(v.bytes + chunk, GrownCapacity(v.capacity, needed), v.block + 1)
  }

  /** The five appends before the commands: three counts and the vertex and index bytes. */
  function CountsInserted(v: Vector, d: DrawList): (w: Vector)
    requires -TwoTo31 <= d.vtxSize < TwoTo31 && -TwoTo31 <= d.idxSize < TwoTo31 && -TwoTo31 <= d.cmdSize < TwoTo31
    ensures w.bytes == v.bytes + I32Le(d.vtxSize) + d.vtxData + I32Le(d.idxSize) + d.idxData + I32Le(d.cmdSize)
    ensures w.capacity >= v.capacity && w.block >= v.block && |w.bytes| <= w.capacity
  {
    Insert(Insert(Insert(Insert(Insert(v, I32Le(d.vtxSize)), d.vtxData), I32Le(d.idxSize)), d.idxData), I32Le(d.cmdSize))
  }

  /** All six appends of one list, commands included, before any null write. */
  function ListInserted(v: Vector, d: DrawList): (w: Vector)
    requires -TwoTo31 <= d.vtxSize < TwoTo31 && -TwoTo31 <= d.idxSize < TwoTo31 && -TwoTo31 <= d.cmdSize < TwoTo31
    ensures w.capacity >= v.capacity && w.block >= v.block && |w.bytes| <= w.capacity
  {
    Insert(CountsInserted(v, d), d.cmdData)
  }

  /**
   * The scrub loop's null writes made through `at`: they reach the vector
   * only while `at` lies in the vector's current block. Writes through a
   * pointer into a released block go to memory the vector no longer owns.
   */
  function NullThrough(L: BuildLayout, v: Vector, at: Place, count: nat): (w: Vector)
    requires at.block == v.block ==> at.offset + Span(count, L.sizeofCmd) == |v.bytes|
    ensures w.block == v.block && w.capacity == v.capacity && |w.bytes| == |v.bytes|
  {
    if at.block == v.block then
      Vector(v.bytes[..at.offset] + ScrubCallbacks(L, v.bytes[at.offset..], count), v.capacity, v.block)
    else v
  }

  /** A write of `z` through a pointer to `at`: it reaches the vector only when `at` lies in its current block. */
  function WriteThrough(v: Vector, at: Place, z: seq<byte>): (w: Vector)
    requires at.block == v.block ==> at.offset + |z| <= |v.bytes|
    ensures w.block == v.block && w.capacity == v.capacity && |w.bytes| == |v.bytes|
  {
    if at.block != v.block then v else v.(bytes := Overwrite(v.bytes, at.offset, z))
  }

  /** The two null writes into the command at `at`, as the vector sees them. */
  function NullAt(L: BuildLayout, v: Vector, at: Place): Vector
    requires at.block == v.block ==> at.offset + L.sizeofCmd <= |v.bytes|
  {
    if at.block != v.block then v
    else
      var (o, s) := (at.offset, v.bytes);
      v.(bytes := s[..o] + ScrubRecord(L, s[o .. o + L.sizeofCmd]) + s[o + L.sizeofCmd..])
  }

  /** Through a live pointer, NullAt scrubs the command at `c` and keeps every other byte. */
  lemma NullAtLive(L: BuildLayout, v: Vector, c: nat)
    requires c + L.sizeofCmd <= |v.bytes|
    ensures NullAt(L, v, Place(v.block, c)).bytes
      == v.bytes[..c] + ScrubRecord(L, v.bytes[c .. c + L.sizeofCmd]) + v.bytes[c + L.sizeofCmd..]
  {
  }

  /** Nulling UserCallback and then UserCallbackData through `at` is NullAt. */
  lemma NullAtWrites(L: BuildLayout, v: Vector, at: Place)
    requires at.block == v.block ==> at.offset + L.sizeofCmd <= |v.bytes|
    ensures var z := Zeros(L.pointerSize);
      WriteThrough(WriteThrough(v, Place(at.block, at.offset + L.callbackOffset), z), Place(at.block, at.offset + L.callbackDataOffset), z)
        == NullAt(L, v, at)
  {
    var z := Zeros(L.pointerSize);
    var a, b := Place(at.block, at.offset + L.callbackOffset), Place(at.block, at.offset + L.callbackDataOffset);
    if at.block == v.block {
      assert at == Place(v.block, at.offset);
      NullAtWritesLive(L, v, at.offset);
    } else {
      assert WriteThrough(v, a, z) == v;
    }
  }

  /** NullAtWrites for a pointer into the current block. */
  lemma NullAtWritesLive(L: BuildLayout, v: Vector, c: nat)
    requires c + L.sizeofCmd <= |v.bytes|
    ensures var z := Zeros(L.pointerSize);
      WriteThrough(WriteThrough(v, Place(v.block, c + L.callbackOffset), z), Place(v.block, c + L.callbackDataOffset), z)
        == NullAt(L, v, Place(v.block, c))
  {
    var z := Zeros(L.pointerSize);
    var once := WriteThrough(v, Place(v.block, c + L.callbackOffset), z);
    var twice := WriteThrough(once, Place(v.block, c + L.callbackDataOffset), z);
    assert twice.bytes == Overwrite(Overwrite(v.bytes, c + L.callbackOffset, z), c + L.callbackDataOffset, z);
    NullCommandEffect(L, v.bytes, c);
    NullAtLive(L, v, c);
    assert twice.capacity == v.capacity && twice.block == v.block;
  }

  /** The vector after the scrub loop has run over the first `i` commands from `at`. */
  function PartlyNulled(L: BuildLayout, v: Vector, at: Place, i: nat): (r: Vector)
    requires at.block == v.block ==> at.offset + Span(i, L.sizeofCmd) <= |v.bytes|
    ensures r.block == v.block && r.capacity == v.capacity && |r.bytes| == |v.bytes|
  {
    if i == 0 then v
    else NullAt(L, PartlyNulled(L, v, at, i - 1), Place(at.block, at.offset + Span(i - 1, L.sizeofCmd)))
  }

  /** One more turn of the loop nulls the next command. */
  lemma PartlyNulledNext(L: BuildLayout, v: Vector, at: Place, i: nat)
    requires at.block == v.block ==> at.offset + Span(i + 1, L.sizeofCmd) <= |v.bytes|
    ensures PartlyNulled(L, v, at, i + 1) == NullAt(L, PartlyNulled(L, v, at, i), Place(at.block, at.offset + Span(i, L.sizeofCmd)))
  {
  }

  /** While the pointer is live, the loop has scrubbed exactly the first `i` commands; otherwise nothing changed. */
  lemma {:induction false} PartlyNulledScrubs(L: BuildLayout, v: Vector, at: Place, i: nat)
    requires at.block == v.block ==> at.offset + Span(i, L.sizeofCmd) <= |v.bytes|
    ensures at.block == v.block ==>
      PartlyNulled(L, v, at, i).bytes == v.bytes[..at.offset] + PartlyScrubbed(L, v.bytes[at.offset..], i)
    ensures at.block != v.block ==> PartlyNulled(L, v, at, i) == v
  {
    if i == 0 {
      if at.block == v.block {
        assert v.bytes[at.offset..][..0] == [];
        assert v.bytes == v.bytes[..at.offset] + v.bytes[at.offset..];
      }
    } else {
      PartlyNulledScrubs(L, v, at, i - 1);
      if at.block == v.block {
        var w := PartlyNulled(L, v, at, i - 1);
        var c := at.offset + Span(i - 1, L.sizeofCmd);
        assert PartlyNulled(L, v, at, i) == NullAt(L, w, Place(w.block, c));
        NullAtScrubs(L, w, v.bytes[..at.offset], v.bytes[at.offset..], i, c);
      }
    }
  }

  /** Through a live pointer, the null writes into command `i - 1` extend the scrubbed prefix by that command. */
  lemma NullAtScrubs(L: BuildLayout, w: Vector, pre: seq<byte>, cmds: seq<byte>, i: nat, c: nat)
    requires 0 < i && Span(i, L.sizeofCmd) <= |cmds| && c == |pre| + Span(i - 1, L.sizeofCmd)
    requires w.bytes == pre + PartlyScrubbed(L, cmds, i - 1)
    ensures NullAt(L, w, Place(w.block, c)).bytes == pre + PartlyScrubbed(L, cmds, i)
  {
    ScrubOneMore(L, pre, cmds, i - 1, w.bytes, c);
    NullAtLive(L, w, c);
  }

  /** After the whole loop the vector is what NullThrough says. */
  lemma PartlyNulledAll(L: BuildLayout, v: Vector, at: Place, count: nat)
    requires at.block == v.block ==> at.offset + Span(count, L.sizeofCmd) == |v.bytes|
    ensures PartlyNulled(L, v, at, count) == NullThrough(L, v, at, count)
  {
    PartlyNulledScrubs(L, v, at, count);
    if at.block == v.block {
      PartlyScrubbedEnds(L, v.bytes[at.offset..], count);
    }
  }

  /**
   * One list as the source writes it: `sharedCmds` is the end of the vector
   * taken before the commands are inserted, so it lies in the block that was
   * current then.
   */
  function ListAsWritten(L: BuildLayout, v: Vector, d: DrawList): (w: Vector)
    requires ListValid(L, d)
    ensures |w.bytes| == |v.bytes| + |EncodeList(L, d)| && w.bytes[..|v.bytes|] == v.bytes
    ensures w.capacity >= v.capacity && w.block >= v.block && |w.bytes| <= w.capacity
  {
    var counted := CountsInserted(v, d);
    var sharedCmds := Place(counted.block, |counted.bytes|);
    NullThrough(L, ListInserted(v, d), sharedCmds, d.cmdSize)
  }

  function ListsAsWritten(L: BuildLayout, v: Vector, ls: seq<DrawList>): (w: Vector)
    requires ListsValid(L, ls)
    ensures |w.bytes| == |v.bytes| + |EncodeLists(L, ls)| && w.bytes[..|v.bytes|] == v.bytes
    ensures w.capacity >= v.capacity && w.block >= v.block
    ensures ls != [] ==> |w.bytes| <= w.capacity
  {
    if ls == [] then v
    else ListAsWritten(L, ListsAsWritten(L, v, ls[..|ls| - 1]), ls[|ls| - 1])
  }

  /** Writing one more list of a prefix as the source does. */
  lemma ListsAsWrittenSnoc(L: BuildLayout, v: Vector, ls: seq<DrawList>, i: nat)
    requires ListsValid(L, ls) && i < |ls|
    ensures ListsAsWritten(L, v, ls[..i + 1]) == ListAsWritten(L, ListsAsWritten(L, v, ls[..i]), ls[i])
  {
    TakeOfTake(ls, i + 1, i);
  }

  /** A whole call of GetSharedDrawData as written, from the vector the previous call left. */
  function FrameAsWritten(L: BuildLayout, v: Vector, f: DrawData): (w: Vector)
    requires DrawDataValid(L, f)
    ensures |w.bytes| == |EncodeDrawData(L, f)| && |w.bytes| <= w.capacity
    ensures w.capacity >= v.capacity && w.block >= v.block
  {
    var cleared := Vector([], v.capacity, v.block);
    var header := Insert(Insert(Insert(cleared, I32Le(|f.cmdLists|)), f.displayPos), f.framebufferScale);
    ListsAsWritten(L, header, f.cmdLists)
  }

  /**
   * As written, a list's commands reach the wire scrubbed when their insert
   * fits in the capacity, and with the callback pointers the source holds
   * when the insert has to grow the vector. Either way the storage evolves as
   * the six inserts make it.
   */
  lemma ListAsWrittenOutcome(L: BuildLayout, v: Vector, d: DrawList)
    requires ListValid(L, d)
    ensures var counted := CountsInserted(v, d); var w := ListAsWritten(L, v, d);
      && w.capacity == ListInserted(v, d).capacity && w.block == ListInserted(v, d).block
      && (|counted.bytes| + |d.cmdData| <= counted.capacity ==> w.bytes == v.bytes + EncodeList(L, d))
      && (|counted.bytes| + |d.cmdData| > counted.capacity ==>
            w.bytes == v.bytes + EncodeVector(d.vtxSize, d.vtxData) + EncodeVector(d.idxSize, d.idxData)
                       + EncodeVector(d.cmdSize, d.cmdData))
  {
    var counted := CountsInserted(v, d);
    var head := v.bytes + I32Le(d.vtxSize) + d.vtxData + I32Le(d.idxSize) + d.idxData + I32Le(d.cmdSize);
    assert counted.bytes == head;
    SplitAppend(head, d.cmdData);
    AppendEncodedList(L, v.bytes, d);
  }

  /** A vector with room for the whole list takes it in place, scrubbed, as the wire format says. */
  lemma ListAsWrittenRoomy(L: BuildLayout, v: Vector, d: DrawList)
    requires ListValid(L, d)
    requires |v.bytes| + |EncodeList(L, d)| <= v.capacity
    ensures ListAsWritten(L, v, d) == Vector(v.bytes + EncodeList(L, d), v.capacity, v.block)
  {
    ListAsWrittenOutcome(L, v, d);
  }

  /** Lists written as the source does into a vector with room for them all come out as the wire format. */
  lemma {:induction false} ListsAsWrittenRoomy(L: BuildLayout, v: Vector, ls: seq<DrawList>)
    requires ListsValid(L, ls)
    requires |v.bytes| + |EncodeLists(L, ls)| <= v.capacity
    ensures ListsAsWritten(L, v, ls) == Vector(v.bytes + EncodeLists(L, ls), v.capacity, v.block)
  {
    if ls != [] {
      var init, last := ls[..|ls| - 1], ls[|ls| - 1];
      ListsAsWrittenRoomy(L, v, init);
      ListAsWrittenRoomy(L, ListsAsWritten(L, v, init), last);
      AppendAssoc(v.bytes, EncodeLists(L, init), EncodeList(L, last));
    }
  }

  /**
   * The stale pointer does no harm once the vector has grown large enough:
   * a call whose frame fits in the capacity the previous calls left produces
   * exactly the wire format, without reallocating.
   */
  lemma FrameAsWrittenRoomy(L: BuildLayout, v: Vector, f: DrawData)
    requires DrawDataValid(L, f)
    requires |EncodeDrawData(L, f)| <= v.capacity
    ensures FrameAsWritten(L, v, f) == Vector(EncodeDrawData(L, f), v.capacity, v.block)
  {
    var header := I32Le(|f.cmdLists|) + f.displayPos + f.framebufferScale;
    assert [] + I32Le(|f.cmdLists|) == I32Le(|f.cmdLists|);
    ListsAsWrittenRoomy(L, Vector(header, v.capacity, v.block), f.cmdLists);
  }

  /**
   * The function-local `static std::vector<uint8_t> sharedDrawData` of
   * GetSharedDrawData: its bytes, its capacity, and which allocation holds
   * them (numbered in the order `insert` makes them).
   */
  class SharedBuffer {
    var bytes: seq<byte>
    var capacity: nat
    var block: nat

    function State(): Vector
      reads this
    {
      Vector(bytes, capacity, block)
    }

    /**
     * `data() + size()`: the end of the bytes, in the current block. The
     * next insert puts its bytes there, and the place stays in the vector's
     * block exactly when those bytes fit in the capacity.
     */
    function End(): (p: Place)
      reads this
      ensures p.block == block && p.offset == |bytes|
      ensures forall chunk {:trigger Insert(State(), chunk)} ::
        && Insert(State(), chunk).bytes[p.offset..] == chunk
        && (Insert(State(), chunk).block == p.block <==> |bytes| + |chunk| <= capacity)
    {
      Place(block, |bytes|)
    }

    constructor ()
      ensures State() == Vector([], 0, 0)
    {
      bytes, capacity, block := [], 0, 0;
    }

    /** The WriteData lambda: `insert` of `chunk` at the end of the vector. */
    method WriteData(chunk: seq<byte>)
      modifies this
      ensures State() == Insert(old(State()), chunk)
      ensures bytes == old(bytes) + chunk
    {
      var needed := |bytes| + |chunk|;
      if needed > capacity {
        capacity, block := GrownCapacity(capacity, needed), block + 1;
      }
      bytes := bytes + chunk;
    }

    /**
     * Assigning `nullptr` to a pointer field that starts at `at`: the bytes
     * change only when `at` lies in the vector's current block.
     */
    method WriteNullPointer(at: Place, width: nat)
      requires at.block == block ==> at.offset + width <= |bytes|
      modifies this
      ensures State() == WriteThrough(old(State()), at, Zeros(width))
    {
      if at.block == block {
        bytes := Overwrite(bytes, at.offset, Zeros(width));
      }
    }

    /** `sharedCmds[i].UserCallback = nullptr; sharedCmds[i].UserCallbackData = nullptr;` for the command at `cmd`. */
    method NullCommand(L: BuildLayout, cmd: Place)
      requires cmd.block == block ==> cmd.offset + L.sizeofCmd <= |bytes|
      modifies this
      ensures State() == NullAt(L, old(State()), cmd)
    {
      NullAtWrites(L, State(), cmd);
      WriteNullPointer(Place(cmd.block, cmd.offset + L.callbackOffset), L.pointerSize);
      WriteNullPointer(Place(cmd.block, cmd.offset + L.callbackDataOffset), L.pointerSize);
    }

    /**
     * The loop over `sharedCmds`: for each of the `count` commands from
     * `start`, null its UserCallback and UserCallbackData in place.
     */
    method NullCallbacks(L: BuildLayout, start: Place, count: nat)
      requires start.block == block ==> start.offset + Span(count, L.sizeofCmd) == |bytes|
      modifies this
      ensures State() == NullThrough(L, old(State()), start, count)
    {
      ghost var v := State();
      var i := 0;
      while i < count
        invariant 0 <= i <= count
        invariant start.block == v.block ==> start.offset + Span(i, L.sizeofCmd) <= |v.bytes|
        invariant State() == PartlyNulled(L, v, start, i)
      {
        SpanMono(i + 1, count, L.sizeofCmd);
        PartlyNulledNext(L, v, start, i);
        NullCommand(L, Place(start.block, start.offset + Span(i, L.sizeofCmd)));
        i := i + 1;
      }
      PartlyNulledAll(L, v, start, count);
    }

    /**
     * One ImDrawList: three counts, each followed by its vector's bytes;
     * commands scrubbed. The commands are found by their offset, which
     * survives the reallocation their insert may cause.
     */
    method WriteList(L: BuildLayout, d: DrawList)
      requires ListValid(L, d)
      modifies this
      ensures bytes == old(bytes) + EncodeList(L, d)
      ensures capacity == ListInserted(old(State()), d).capacity && block == ListInserted(old(State()), d).block
    {
      WriteData(I32Le(d.vtxSize));
      WriteData(d.vtxData);
      WriteData(I32Le(d.idxSize));
      WriteData(d.idxData);
      WriteData(I32Le(d.cmdSize));
      var offset := |bytes|;
      ghost var before := bytes;
      WriteData(d.cmdData);
      SplitAppend(before, d.cmdData);
      NullCallbacks(L, Place(block, offset), d.cmdSize);
      AppendEncodedList(L, old(bytes), d);
    }

    /**
     * One ImDrawList as the source writes it: `sharedCmds` is the end of
     * the vector taken before the commands are inserted.
     */
    method WriteListAsWritten(L: BuildLayout, d: DrawList)
      requires ListValid(L, d)
      modifies this
      ensures State() == ListAsWritten(L, old(State()), d)
    {
      WriteData(I32Le(d.vtxSize));
      WriteData(d.vtxData);
      WriteData(I32Le(d.idxSize));
      WriteData(d.idxData);
      WriteData(I32Le(d.cmdSize));
      var sharedCmds := End();
      ghost var before := bytes;
      WriteData(d.cmdData);
      SplitAppend(before, d.cmdData);
      NullCallbacks(L, sharedCmds, d.cmdSize);
    }

    /**
     * GetSharedDrawData, with the command pointer taken after the insert:
     * the vector is cleared, then holds exactly the encoding of the current
     * frame, whatever it held before; it never gives storage back.
     */
    method GetSharedDrawData(L: BuildLayout, f: DrawData)
      requires DrawDataValid(L, f)
      modifies this
      ensures bytes == EncodeDrawData(L, f)
      ensures capacity >= old(capacity) && block >= old(block) && |bytes| <= capacity
    {
      bytes := [];
      WriteData(I32Le(|f.cmdLists|));
      WriteData(f.displayPos);
      WriteData(f.framebufferScale);
      ghost var header := bytes;
      assert header == I32Le(|f.cmdLists|) + f.displayPos + f.framebufferScale;
      var i := 0;
      while i < |f.cmdLists|
        invariant 0 <= i <= |f.cmdLists|
        invariant ListsValid(L, f.cmdLists[..i])
        invariant bytes == header + EncodeLists(L, f.cmdLists[..i])
        invariant capacity >= old(capacity) && block >= old(block) && |bytes| <= capacity
      {
        WriteList(L, f.cmdLists[i]);
        ListsValidPrefix(L, f.cmdLists, i + 1);
        EncodeListsSnoc(L, f.cmdLists, i);
        AppendAssoc(header, EncodeLists(L, f.cmdLists[..i]), EncodeList(L, f.cmdLists[i]));
        i := i + 1;
      }
      TakeAll(f.cmdLists);
    }

    /** GetSharedDrawData as the source writes it: `clear`, the header, then each list as written. */
    method GetSharedDrawDataAsWritten(L: BuildLayout, f: DrawData)
      requires DrawDataValid(L, f)
      modifies this
      ensures State() == FrameAsWritten(L, old(State()), f)
    {
      bytes := [];
      WriteData(I32Le(|f.cmdLists|));
      WriteData(f.displayPos);
      WriteData(f.framebufferScale);
      ghost var header := State();
      var i := 0;
      while i < |f.cmdLists|
        invariant 0 <= i <= |f.cmdLists|
        invariant ListsValid(L, f.cmdLists[..i])
        invariant State() == ListsAsWritten(L, header, f.cmdLists[..i])
      {
        WriteListAsWritten(L, f.cmdLists[i]);
        ListsValidPrefix(L, f.cmdLists, i + 1);
        ListsAsWrittenSnoc(L, header, f.cmdLists, i);
        i := i + 1;
      }
      TakeAll(f.cmdLists);
    }
  }

  /**
   * One `Size` read at the cursor and the payload sliced after it, with the
   * bounds checks the C++ omits: `ok` is false exactly when the wire format
   * rejects the vector.
   */
  method SliceVector(data: seq<byte>, readIndex: nat, elemSize: nat) returns (ok: bool, v: View, next: nat)
    ensures ok <==> ParseVector(data, readIndex, elemSize).Some?
    ensures ok ==> ParseVector(data, readIndex, elemSize) == Some((v, next))
  {
    if readIndex + 4 > |data| {
      return false, View(0, 0), readIndex;
    }
    var size := ReadI32(data, readIndex);
    var cursor := readIndex + 4;
    if size < 0 {
      return false, View(0, 0), readIndex;
    }
    SpanIsProduct(size, elemSize);
    if cursor + size * elemSize > |data| {
      return false, View(0, 0), readIndex;
    }
    v := View(cursor, size);
    next := cursor + size * elemSize;
    ok := true;
  }

  /** One pass of the slicing loop: the vertex, index and command vectors of one list. */
  method SliceList(L: BuildLayout, data: seq<byte>, readIndex: nat) returns (ok: bool, v: ListView, next: nat)
    ensures ok <==> ParseList(L, data, readIndex).Some?
    ensures ok ==> ParseList(L, data, readIndex) == Some((v, next))
  {
    ParseListUnfold(L, data, readIndex);
    v, next := ListView(View(0, 0), View(0, 0), View(0, 0)), readIndex;
    var ok1, vtx, p1 := SliceVector(data, readIndex, L.sizeofVert);
    if !ok1 {
      return false, v, next;
    }
    var ok2, idx, p2 := SliceVector(data, p1, L.sizeofIdx);
    if !ok2 {
      return false, v, next;
    }
    var ok3, cmd, p3 := SliceVector(data, p2, L.sizeofCmd);
    if !ok3 {
      return false, v, next;
    }
    return true, ListView(vtx, idx, cmd), p3;
  }

  /**
   * The receiving side's ImGui state that RenderSharedDrawData reads and
   * writes: the draw data's header fields and lists (as views into the
   * input) and the static `windowNames` table.
   */
  class RenderContext {
    var displayPos: seq<byte>
    var framebufferScale: seq<byte>
    var cmdLists: seq<ListView>
    var windowNames: seq<string>

    constructor ()
      ensures displayPos == Zeros(Vec2Size) && framebufferScale == Zeros(Vec2Size)
      ensures cmdLists == [] && windowNames == []
    {
      displayPos := Zeros(Vec2Size);
      framebufferScale := Zeros(Vec2Size);
      cmdLists := [];
      windowNames := [];
    }

    /** Appends "Window" + i for every missing index below `count`; never removes one. */
    method GrowWindowNames(count: int)
      modifies this
      ensures windowNames == GrownNames(old(windowNames), count)
      ensures displayPos == old(displayPos) && framebufferScale == old(framebufferScale)
      ensures cmdLists == old(cmdLists)
    {
      if count > |windowNames| {
        var i := |windowNames|;
        ghost var names := windowNames;
        while i < count
          invariant |names| <= i <= count
          invariant windowNames == GrownNames(names, i)
          invariant displayPos == old(displayPos) && framebufferScale == old(framebufferScale)
          invariant cmdLists == old(cmdLists)
        {
          windowNames := windowNames + [WindowName(i)];
          i := i + 1;
        }
      }
    }

    /**
     * RenderSharedDrawData. `produced` is the number of lists in the draw
     * data ImGui renders for the placeholder windows (at least one, which
     * the do-while loop waits for). The result is the wire format's
     * decoding; the draw data changes only when the input is sliced, and
     * the name table grows once the count is known to be positive.
     */
    method RenderSharedDrawData(L: BuildLayout, data: seq<byte>, produced: nat) returns (r: DecodeResult)
      modifies this
      ensures r == DecodeSharedDrawData(L, data, produced)
      ensures r.Sliced? ==>
        && displayPos == r.displayPos && framebufferScale == r.framebufferScale
        && cmdLists == r.cmdLists
      ensures !r.Sliced? ==>
        && displayPos == old(displayPos) && framebufferScale == old(framebufferScale)
        && cmdLists == old(cmdLists)
      ensures windowNames ==
        if |data| >= 4 && ReadI32(data, 0) >= 1 then GrownNames(old(windowNames), ReadI32(data, 0))
        else old(windowNames)
    {
      if |data| == 0 {
        return NoUpdate;
      }
      if |data| < 4 {
        return Malformed;
      }
      var readIndex := 0;
      var cmdListsCount := ReadI32(data, readIndex);
      readIndex := readIndex + 4;
      if 1 > cmdListsCount {
        return NoUpdate;
      }
      GrowWindowNames(cmdListsCount);
      if |data| < HeaderSize {
        ParseListsStaysNone(L, data, 0, produced);
        return Malformed;
      }
      var pos := data[readIndex .. readIndex + Vec2Size];
      readIndex := readIndex + Vec2Size;
      var scale := data[readIndex .. readIndex + Vec2Size];
      readIndex := readIndex + Vec2Size;
      var views: seq<ListView> := [];
      var i := 0;
      while i < produced
        invariant 0 <= i <= produced
        invariant ParseLists(L, data, i) == Some((views, readIndex))
        invariant displayPos == old(displayPos) && framebufferScale == old(framebufferScale)
        invariant cmdLists == old(cmdLists)
        invariant windowNames == GrownNames(old(windowNames), cmdListsCount)
      {
        var ok, v, next := SliceList(L, data, readIndex);
        if !ok {
          ParseListsStaysNone(L, data, i + 1, produced);
          return Malformed;
        }
        ParseListsStep(L, data, i + 1, views, readIndex, v, next);
        views := views + [v];
        readIndex := next;
        i := i + 1;
      }
      displayPos, framebufferScale, cmdLists := pos, scale, views;
      r := Sliced(pos, scale, views, readIndex);
    }
  }

  // ---------------------------------------------------------------------
  // The stale command pointer on a first frame

  /** An x64 build: 20-byte vertices, 16-bit indices, 56-byte commands with UserCallback at 40 and UserCallbackData at 48. */
  const X64: BuildLayout := Layout(20, 2, 56, 40, 48, 8)

  /** One command whose UserCallback is set (its low byte is 1) and every other byte zero. */
  const CallbackCommand: seq<byte> := seq(56, k => if k == 40 then 1 else 0)

  /** A list with no vertices, no indices and that one command. */
  const CallbackList: DrawList := DrawList(0, [], 0, [], 1, CallbackCommand)

  /** A first frame: that list alone, DisplayPos and FramebufferScale zero. */
  const CallbackFrame: DrawData := DrawData(Zeros(8), Zeros(8), [CallbackList])

  /**
   * On the first call the vector has no storage. With MSVC's growth the
   * command count leaves it holding 32 bytes in a 45-byte block; the
   * 56-byte command insert moves everything to an 88-byte block, so the
   * null writes through `sharedCmds` miss the vector and the frame goes out
   * with UserCallback still set at byte 72, where the wire format has zero.
   */
  lemma FirstFrameKeepsCallback()
    ensures DrawDataValid(X64, CallbackFrame)
    ensures var w := FrameAsWritten(X64, Vector([], 0, 0), CallbackFrame);
      && |w.bytes| == |EncodeDrawData(X64, CallbackFrame)| == 88
      && w.bytes[72] == 1 && EncodeDrawData(X64, CallbackFrame)[72] == 0
  {
    var L, f, d := X64, CallbackFrame, CallbackList;
    assert ListValid(L, d) && f.cmdLists == [d];
    var header := FirstFrameHeader();
    FirstFrameCounts(header);
    ListAsWrittenOutcome(L, header, d);
    var w := FrameAsWritten(L, Vector([], 0, 0), f);
    assert f.cmdLists[..0] == [];
    assert ListsAsWritten(L, header, f.cmdLists[..0]) == header;
    assert w == ListAsWritten(L, header, d);
    assert w.bytes == header.bytes + EncodeVector(0, []) + EncodeVector(0, []) + EncodeVector(1, CallbackCommand);
    assert w.bytes[72] == CallbackCommand[40];
    FirstFrameWire();
  }

  /** The first call's header: 20 bytes in a 20-byte block, after growing to 4, 12 and 20. */
  lemma FirstFrameHeader() returns (header: Vector)
    ensures header == Insert(Insert(Insert(Vector([], 0, 0), I32Le(1)), Zeros(8)), Zeros(8))
    ensures header.capacity == 20 && |header.bytes| == 20
  {
    var h1 := Insert(Vector([], 0, 0), I32Le(1));
    assert h1.capacity == 4;
    var h2 := Insert(h1, Zeros(8));
    assert h2.capacity == 12;
    header := Insert(h2, Zeros(8));
  }

  /** The list's three counts grow the block to 30 and then to 45, which holds 32 bytes. */
  lemma FirstFrameCounts(header: Vector)
    requires header.capacity == 20 && |header.bytes| == 20
    ensures CountsInserted(header, CallbackList).capacity == 45
    ensures |CountsInserted(header, CallbackList).bytes| == 32
  {
    var c1 := Insert(header, I32Le(0));
    assert c1.capacity == 30 && |c1.bytes| == 24;
  }

  /** The wire format has the command's UserCallback null: its byte 40 lands at 72 as zero. */
  lemma FirstFrameWire()
    ensures |EncodeDrawData(X64, CallbackFrame)| == 88
    ensures EncodeDrawData(X64, CallbackFrame)[72] == 0
  {
    var L, f, d := X64, CallbackFrame, CallbackList;
    assert ListValid(L, d) && f.cmdLists == [d];
    var scrubbed := ScrubCallbacks(L, CallbackCommand, 1);
    assert CallbackCommand[..0] == [] && CallbackCommand[0..] == CallbackCommand;
    assert scrubbed == ScrubRecord(L, CallbackCommand);
    assert EncodeLists(L, f.cmdLists) == EncodeList(L, d);
    assert EncodeDrawData(L, f)[72] == scrubbed[40];
  }
}
