/**
 * The whole path of one frame: GetSharedDrawData in the render process,
 * SendToRender, one pass of RenderService's receive loop into the reused
 * g_sharedDrawData, and RenderSharedDrawData over that whole vector, stale
 * tail included, as the canvas's main loop passes it (src/canvas.cc).
 */
module Pipeline {
  import opened Bytes
  import opened WireFormat
  import opened SharedDrawData
  import opened Transport

  /**
   * A frame that fits in one packet, carried over a connection whose reads
   * do not fail and whose first read takes the whole length, reaches the
   * canvas intact: its header fields are restored and each list ImGui
   * produced on the canvas side views the bytes of the source list at the
   * same position, callbacks null. A frame without lists changes nothing.
   */
  method ShareFrame(L: BuildLayout, f: DrawData, segments: seq<nat>, stale: seq<byte>, produced: nat)
    returns (received: seq<byte>, r: DecodeResult)
    requires DrawDataValid(L, f)
    requires |EncodeDrawData(L, f)| <= MaxPacketSize
    requires Reliable(segments) && (segments == [] || segments[0] >= 4)
    requires produced <= |f.cmdLists|
    ensures f.cmdLists == [] ==> r.NoUpdate?
    ensures f.cmdLists != [] ==>
      && r.Sliced?
      && r.displayPos == f.displayPos && r.framebufferScale == f.framebufferScale
      && |r.cmdLists| == produced
      && forall i :: 0 <= i < produced ==> ListRestored(L, received, r.cmdLists[i], f.cmdLists[i])
  {
    var encoder := new SharedBuffer();
    encoder.GetSharedDrawData(L, f);
    var packet := encoder.bytes;
    EncodeDrawDataLength(L, f);
    var outcome;
    outcome, received := FramingRoundTrip(packet, segments, stale);
    ghost var rest := received[|packet|..];
    assert received == packet + rest;
    DecodeEncoded(L, f, rest, produced);
    var canvas := new RenderContext();
    r := canvas.RenderSharedDrawData(L, received, produced);
  }
}
