/**
 * The length-prefixed framing between the two processes: SendToRender
 * (src/render.cc) writes a `uint32_t` byte count and then the bytes; the
 * receive loop of RenderService (src/canvas.cc) reads the count, rejects
 * packets above g_maxPacketSize and accumulates partial reads into the
 * reusable vector g_sharedDrawData.
 *
 * The socket is a stream of bytes: `pending` holds what the peer has sent
 * and not yet been read; `schedule` bounds what each successive `recv` call
 * returns (0: the call fails or the peer has closed), and once it is used up
 * every call returns as much as is asked and pending.
 */
module Transport {
  import opened Bytes

  /** g_maxPacketSize: 1 MiB. */
  const MaxPacketSize: nat := 1024 * 1024

  /** `static_cast<int>` of a `size_t`: the low 32 bits, as two's complement. */
  function ToInt32(n: nat): (x: int)
    ensures -TwoTo31 <= x < TwoTo31
    ensures n < TwoTo31 ==> x == n
    ensures x > 0 ==> x <= n
  {
    var u := n % TwoTo32;
    if u < TwoTo31 then u else u - TwoTo32
  }

  /** What `send(fd, buf, len, 0)` hands to the socket: `len` bytes, none when `len` is not positive. */
  function Sent(buf: seq<byte>, len: int): (r: seq<byte>)
    requires len <= |buf|
    ensures |r| == (if len > 0 then len else 0)
  {
    if len > 0 then buf[..len] else []
  }

  /**
   * The bytes SendToRender puts on the wire: nothing for an empty vector,
   * otherwise the size as a `uint32_t` (truncated) and then as many bytes as
   * the `int`-cast size asks for.
   */
  function Frame(data: seq<byte>): (r: seq<byte>)
    ensures r == [] <==> |data| == 0
    ensures |r| <= 4 + |data|
  {
    if |data| == 0 then []
    else U32Le(|data| % TwoTo32) + Sent(data, ToInt32(|data|))
  }

  /** A non-empty vector's frame: the truncated size, then the body `send` hands over. */
  lemma FrameParts(data: seq<byte>)
    requires data != []
    ensures Frame(data) == U32Le(|data| % TwoTo32) + Sent(data, ToInt32(|data|))
  {
  }

  /** Nothing is sent exactly for an empty vector. */
  lemma FrameEmpty(data: seq<byte>)
    ensures Frame(data) == [] <==> data == []
  {
    if data != [] {
      assert |Frame(data)| >= 4;
    }
  }

  /** Any vector below 2 GiB travels whole: its 4-byte length, then every byte in order. */
  lemma FrameOfPacket(data: seq<byte>)
    requires 0 < |data| < TwoTo31
    ensures Frame(data) == U32Le(|data|) + data
    ensures |Frame(data)| == 4 + |data|
  {
    assert data[..|data|] == data;
  }

  /** The sending socket, as the sequence of bytes handed to it so far. */
  class Sender {
    var sent: seq<byte>

    constructor ()
      ensures sent == []
    {
      sent := [];
    }

    /** `send(g_dataFd, buf, len, 0)`, taken as sending everything it is given. */
    method Send(buf: seq<byte>, len: int)
      requires len <= |buf|
      modifies this
      ensures sent == old(sent) + Sent(buf, len)
    {
      if len > 0 {
        sent := sent + buf[..len];
      }
    }

    /** SendToRender: one frame appended to the stream, nothing for an empty vector. */
    method SendToRender(sharedData: seq<byte>)
      modifies this
      ensures sent == old(sent) + Frame(sharedData)
    {
      if |sharedData| == 0 {
        return;
      }
      var packetSize := |sharedData| % TwoTo32;
      var prefix := U32Le(packetSize);
      Send(prefix, |prefix|);
      TakeAll(prefix);
      Send(sharedData, ToInt32(|sharedData|));
      FrameParts(sharedData);
    }
  }

  /** How many bytes the next `recv` asking for `want` returns. */
  function Delivered(pending: seq<byte>, schedule: seq<nat>, want: nat): (n: nat)
    ensures n <= want && n <= |pending|
  {
    var limit := if schedule == [] then want else schedule[0];
    if want <= limit && want <= |pending| then want
    else if limit <= |pending| then limit
    else |pending|
  }

  /** The schedule after one `recv` call. */
  function NextSchedule(schedule: seq<nat>): seq<nat> {
    if schedule == [] then [] else schedule[1..]
  }

  /** No `recv` call fails while bytes are pending. */
  predicate Reliable(schedule: seq<nat>) {
    forall k :: 0 <= k < |schedule| ==> schedule[k] > 0
  }

  /** One pass of the RenderService loop ends in one of these. */
  datatype Outcome =
    | ShortLength         // the length read returned fewer than 4 bytes: the loop breaks
    | TooLarge(size: nat) // the declared length exceeds g_maxPacketSize: the loop breaks
    | Disconnected        // a body read returned 0 or less: the process exits
    | Packet(size: nat)   // `size` body bytes now lead g_sharedDrawData

  function Max(a: nat, b: nat): nat {
    if a < b then b else a
  }

  /** The receiving end of the connection and the receive vector g_sharedDrawData. */
  class Receiver {
    var pending: seq<byte>
    var schedule: seq<nat>
    var buffer: seq<byte>

    constructor (stream: seq<byte>, segments: seq<nat>, stale: seq<byte>)
      ensures pending == stream && schedule == segments && buffer == stale
    {
      pending := stream;
      schedule := segments;
      buffer := stale;
    }

    /** `recv(dataFd, dst, want, 0)`: returns the bytes copied to `dst`; none stands for a result of 0 or less. */
    method Recv(want: nat) returns (chunk: seq<byte>)
      modifies this
      ensures |chunk| == Delivered(old(pending), old(schedule), want)
      ensures chunk == old(pending)[..|chunk|] && pending == old(pending)[|chunk|..]
      ensures schedule == NextSchedule(old(schedule)) && buffer == old(buffer)
    {
      var n := Delivered(pending, schedule, want);
      chunk := pending[..n];
      pending := pending[n..];
      schedule := NextSchedule(schedule);
    }

    /**
     * One pass of the RenderService loop: read the length, check it against
     * the limit, grow the vector if it is too small, then read until the
     * whole body is in `buffer[0..size)`.
     */
    method ReceivePacket() returns (outcome: Outcome)
      modifies this
      ensures outcome.ShortLength? <==> Delivered(old(pending), old(schedule), 4) < 4
      ensures outcome.ShortLength? ==>
        && buffer == old(buffer) && schedule == NextSchedule(old(schedule))
        && pending == old(pending)[Delivered(old(pending), old(schedule), 4)..]
      ensures !outcome.ShortLength? ==> |old(pending)| >= 4
      ensures !outcome.ShortLength? ==>
        var size := ReadU32(old(pending), 0);
        && (outcome.TooLarge? <==> size > MaxPacketSize)
        && (outcome.TooLarge? ==>
              && outcome.size == size && buffer == old(buffer)
              && pending == old(pending)[4..] && schedule == NextSchedule(old(schedule)))
        && (outcome.Packet? ==>
              && outcome.size == size
              && 4 + size <= |old(pending)|
              && |buffer| == Max(|old(buffer)|, size)
              && buffer[..size] == old(pending)[4 .. 4 + size]
              && buffer[size..] == (if size <= |old(buffer)| then old(buffer)[size..] else [])
              && pending == old(pending)[4 + size..])
        && (size <= MaxPacketSize && 4 + size <= |old(pending)| && Reliable(old(schedule)) ==> outcome.Packet?)
    {
      var header := Recv(4);
      if |header| < 4 {
        return ShortLength;
      }
      var packetSize := ReadU32(header, 0);
      assert header[0..4] == old(pending)[0..4];
      if packetSize > MaxPacketSize {
        return TooLarge(packetSize);
      }
      if |buffer| < packetSize {
        buffer := buffer + Zeros(packetSize - |buffer|);
      }
      var complete := ReadBody(packetSize);
      if !complete {
        return Disconnected;
      }
      SliceOfDrop(old(pending), 4, packetSize);
      return Packet(packetSize);
    }

    /**
     * The inner loop of RenderService: `recv` into `buffer[readed..size)`
     * until `size` bytes are in. False when a read returns nothing, where
     * the source exits.
     */
    method ReadBody(size: nat) returns (complete: bool)
      requires size <= |buffer|
      modifies this
      ensures |buffer| == |old(buffer)| && buffer[size..] == old(buffer)[size..]
      ensures complete ==>
        && size <= |old(pending)|
        && buffer[..size] == old(pending)[..size]
        && pending == old(pending)[size..]
      ensures Reliable(old(schedule)) && size <= |old(pending)| ==> complete
    {
      var readed := 0;
      while readed < size
        invariant readed <= size && readed <= |old(pending)|
        invariant |buffer| == |old(buffer)| && buffer[size..] == old(buffer)[size..]
        invariant buffer[..readed] == old(pending)[..readed]
        invariant pending == old(pending)[readed..]
        invariant Reliable(old(schedule)) ==> Reliable(schedule)
        decreases size - readed
      {
        ghost var before := buffer;
        var chunk := Recv(size - readed);
        if |chunk| == 0 {
          return false;
        }
        buffer := Overwrite(buffer, readed, chunk);
        OverwriteSplit(before, readed, chunk, size);
        SliceOfDrop(old(pending), readed, |chunk|);
        SliceSplit(old(pending), 0, readed, readed + |chunk|);
        readed := readed + |chunk|;
      }
      return true;
    }
  }

  /**
   * Framing round trip: a non-empty vector within the limit, sent by
   * SendToRender and read by one pass of the receive loop over a connection
   * whose reads do not fail and whose first read takes the whole length,
   * arrives whole at the front of the receive vector; any longer stale
   * contents stay behind it.
   */
  method FramingRoundTrip(data: seq<byte>, segments: seq<nat>, stale: seq<byte>)
    returns (outcome: Outcome, received: seq<byte>)
    requires 0 < |data| <= MaxPacketSize
    requires Reliable(segments) && (segments == [] || segments[0] >= 4)
    ensures outcome == Packet(|data|)
    ensures |received| == Max(|stale|, |data|)
    ensures received[..|data|] == data
    ensures received[|data|..] == (if |data| <= |stale| then stale[|data|..] else [])
  {
    var stream := SendPacket(data);
    var receiver := new Receiver(stream, segments, stale);
    ReadU32Le(stream, 0, |data|);
    outcome := receiver.ReceivePacket();
    received := receiver.buffer;
  }

  /** What a fresh connection carries after SendToRender of a packet below 2 GiB. */
  method SendPacket(data: seq<byte>) returns (stream: seq<byte>)
    requires 0 < |data| < TwoTo31
    ensures stream == U32Le(|data|) + data
  {
    var sender := new Sender();
    sender.SendToRender(data);
    FrameOfPacket(data);
    stream := sender.sent;
  }
}
