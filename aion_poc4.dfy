/**
 * `examples/aion_poc4.rs`: a peer that uses its own copy of the `p2p` frame
 * types, serialised with bincode, answers every request with `respond`, and
 * (as initiator) first sends a handshake frame. Bincode's `serialize` and
 * `deserialize` are library code whose wire layout is not part of this
 * model: they are parameters, and no round trip is claimed for them.
 */
module AionPoc4 {
  import opened Base
  import P2pAion
  import AionPoc2

  type Head = P2pAion.Head
  type ChannelBuffer = P2pAion.ChannelBuffer

  /** `p2p::Head::new` of this file: every field zero. */
  function NewHead(): (h: Head)
    ensures h.ver == 0 && h.ctrl == 0 && h.action == 0 && h.len == 0
  {
    P2pAion.Head(0, 0, 0, 0)
  }

  /** `p2p::ChannelBuffer::new` of this file: the zero header and an empty body. */
  function NewChannelBuffer(): (b: ChannelBuffer)
    ensures b.head == NewHead() && b.body == []
    ensures P2pAion.LenMatchesBody(b)
  {
    P2pAion.ChannelBuffer(NewHead(), [])
  }

  /** `respond` of this file, built on this file's all-zero defaults. It
      overwrites every header field, so it gives exactly the answer of the
      copy in `aion_poc2.rs`, whose defaults differ. */
  function Respond(req: ChannelBuffer): (r: IoResult<ChannelBuffer>)
    ensures r.Ok?
    ensures r.value.head.ver == req.head.ver
    ensures r.value.head.ctrl == req.head.ctrl
    ensures r.value.head.action == req.head.action
    ensures r.value.body == AionPoc2.ResponseBody() && r.value.head.len == 7
    ensures r == AionPoc2.Respond(req)
  {
    var res := NewChannelBuffer();
    var res := res.(head := res.head.(ver := req.head.ver));
    var res := res.(head := res.head.(ctrl := req.head.ctrl));
    var res := res.(head := res.head.(action := req.head.action));
    var res := res.(body := AionPoc2.ResponseBody());
    var res := res.(head := res.head.(len := |res.body| as u32));
    Ok(res)
  }

  /** The initiator's handshake frame built in `process`: version 0, control 0,
      action 1, length 4, and the body "aion" pushed byte by byte, so the
      header's length is the body's. */
  method HandshakeFrame() returns (req: ChannelBuffer)
    ensures req.head == P2pAion.Head(0, 0, 1, 4)
    ensures req.body == [0x61, 0x69, 0x6f, 0x6e]
    ensures P2pAion.LenMatchesBody(req)
  {
    req := NewChannelBuffer();
    req := req.(head := req.head.(ver := 0x0000));
    req := req.(head := req.head.(ctrl := 0x00));
    req := req.(head := req.head.(action := 0x01));
    req := req.(head := req.head.(len := 4));
    req := req.(body := req.body + ['a' as int as u8]);
    req := req.(body := req.body + ['i' as int as u8]);
    req := req.(body := req.body + ['o' as int as u8]);
    req := req.(body := req.body + ['n' as int as u8]);
  }

  /** What `process` sends before any answer: the handshake frame when the
      session is the initiator (`is_sponsor`), nothing otherwise. */
  method OpeningFrames(isSponsor: bool) returns (sent: seq<ChannelBuffer>)
    ensures isSponsor ==> |sent| == 1
    ensures isSponsor ==> sent[0].head == P2pAion.Head(0, 0, 1, 4) && sent[0].body == [0x61, 0x69, 0x6f, 0x6e]
    ensures !isSponsor ==> sent == []
  {
    sent := [];
    if isSponsor {
      var req := HandshakeFrame();
      sent := sent + [req];
    }
  }

  /** `Encoder::encode` of this file: appends bincode's serialisation of `item`
      to `dst`. The `unwrap` on `serialize` panics if it fails; then nothing is
      appended. */
  method Encode(item: ChannelBuffer, dst: BytesMut, serialize: ChannelBuffer -> Option<seq<u8>>)
    returns (r: Unwind<IoResult<()>>)
    modifies dst
    ensures serialize(item).Some? ==> r == Returns(Ok(())) && dst.data == old(dst.data) + serialize(item).value
    ensures serialize(item).None? ==> r == Panics && dst.data == old(dst.data)
  {
    var encoded := serialize(item);
    if encoded.None? {
      return Panics;
    }
    dst.PutSlice(encoded.value);
    r := Returns(Ok(()));
  }

  /** `Decoder::decode` of this file: None on an empty buffer; otherwise the
      deserialisation of a copy of all of `src` (its `unwrap` panics when that
      fails). It never takes bytes out of `src`. */
  method Decode(src: BytesMut, deserialize: seq<u8> -> Option<ChannelBuffer>)
    returns (r: Unwind<IoResult<Option<ChannelBuffer>>>)
    ensures src.data == [] ==> r == Returns(Ok(None))
    ensures src.data != [] && deserialize(src.data).Some? ==> r == Returns(Ok(Some(deserialize(src.data).value)))
    ensures src.data != [] && deserialize(src.data).None? ==> r == Panics
  {
    if |src.data| > 0 {
      var encoded := src.data;
      var decoded := deserialize(encoded);
      if decoded.None? {
        return Panics;
      }
      r := Returns(Ok(Some(decoded.value)));
    } else {
      r := Returns(Ok(None));
    }
  }

  /** Encoding into an empty buffer and decoding it again: whenever bincode's
      `deserialize` reads back what its `serialize` wrote for `item` (a
      property of the library, taken here as a precondition, not proved),
      `decode` yields `item`, and the buffer still holds the encoding. */
  method EncodeThenDecode(item: ChannelBuffer, serialize: ChannelBuffer -> Option<seq<u8>>,
                          deserialize: seq<u8> -> Option<ChannelBuffer>)
    returns (r: Unwind<IoResult<Option<ChannelBuffer>>>, left: seq<u8>)
    requires serialize(item).Some? && serialize(item).value != []
    requires deserialize(serialize(item).value) == Some(item)
    ensures r == Returns(Ok(Some(item)))
    ensures left == serialize(item).value
  {
    var buf := new BytesMut([]);
    var written := Encode(item, buf, serialize);
    assert buf.data == [] + serialize(item).value == serialize(item).value;
    r := Decode(buf, deserialize);
    left := buf.data;
  }
}
