/**
 * The binary frame codec of `src/p2p_aion/p2p_aion.rs`: a `ChannelBuffer` is
 * an 8-byte header (`ver` u16, `ctrl` u8, `action` u8, `len` u32, multi-byte
 * fields big-endian) followed by the raw body bytes.
 */
module P2pAion {
  import opened Base

  datatype Head = Head(ver: u16, ctrl: u8, action: u8, len: u32)

  datatype ChannelBuffer = ChannelBuffer(head: Head, body: seq<u8>)

  /** A buffer whose header `len` agrees with the length of its body. */
  predicate LenMatchesBody(b: ChannelBuffer)
  {
    b.head.len as int == |b.body|
  }

  /** `Head::new`: version, control and action 1, length 0. */
  function NewHead(): (h: Head)
    ensures h.ver == 1 && h.ctrl == 1 && h.action == 1 && h.len == 0
  {
    Head(0x01, 0x0001, 0x0001, 0)
  }

  /** `ChannelBuffer::new`: the default header and an empty body, so the
      default value is consistent. */
  function NewChannelBuffer(): (b: ChannelBuffer)
    ensures b.head == NewHead() && b.body == []
    ensures LenMatchesBody(b)
  {
    ChannelBuffer(NewHead(), [])
  }

  /** The bytes `encode` appends for `item`: the header fields in order, then
      the body. */
  function Wire(item: ChannelBuffer): seq<u8>
  {
    BeU16(item.head.ver) + [item.head.ctrl, item.head.action] + BeU32(item.head.len) + item.body
  }

  /** Layout of the encoding: 8 + |body| bytes; bytes 0..2 are `ver` big-endian,
      byte 2 is `ctrl`, byte 3 is `action`, bytes 4..8 are the header's `len`
      big-endian (as given, whatever the body's length), and the body follows
      unmodified. */
  lemma WireLayout(item: ChannelBuffer)
    ensures |Wire(item)| == 8 + |item.body|
    ensures FromBe16(Wire(item)[0], Wire(item)[1]) == item.head.ver
    ensures Wire(item)[2] == item.head.ctrl && Wire(item)[3] == item.head.action
    ensures FromBe32(Wire(item)[4], Wire(item)[5], Wire(item)[6], Wire(item)[7]) == item.head.len
    ensures Wire(item)[8..] == item.body
  {
    var w := Wire(item);
    var v, l := BeU16(item.head.ver), BeU32(item.head.len);
    BeU16Decodes(item.head.ver);
    BeU32Decodes(item.head.len);
    assert w[0] == v[0] && w[1] == v[1];
    assert w[4] == l[0] && w[5] == l[1] && w[6] == l[2] && w[7] == l[3];
  }

  /** `Encoder::encode`: appends the header field by field, then the body, to
      `dst`; the bytes already in `dst` stay as they were, and it never fails. */
  method Encode(item: ChannelBuffer, dst: BytesMut) returns (r: IoResult<()>)
    modifies dst
    ensures dst.data == old(dst.data) + Wire(item)
    ensures r == Ok(())
  {
    ghost var before := dst.data;
    dst.PutU16Be(item.head.ver);
    dst.PutU8(item.head.ctrl);
    dst.PutU8(item.head.action);
    assert dst.data == before + (BeU16(item.head.ver) + [item.head.ctrl, item.head.action]);
    dst.PutU32Be(item.head.len);
    dst.PutSlice(item.body);
    assert dst.data == before + (BeU16(item.head.ver) + [item.head.ctrl, item.head.action] + BeU32(item.head.len) + item.body);
    r := Ok(());
  }

  /** `Decoder::decode` as written: a stub that ignores `src`, consumes none of
      it, and always yields a fresh default buffer. */
  method Decode(src: BytesMut) returns (r: IoResult<Option<ChannelBuffer>>)
    ensures r.Ok? && r.value.Some?
    ensures r.value.value.head == NewHead() && r.value.value.body == []
  {
    var req := NewChannelBuffer();
    r := Ok(Some(req));
  }

  /** RECONSTRUCTION, not the code's current behaviour: the field-by-field
      parse that `decode` leaves commented out. Each `split_to` takes the next
      bytes off the front of `src`; where one would run past the end (a panic
      in that code) the result is None. On success it gives the buffer and the
      bytes left in `src`. */
  function ParseFrame(src: seq<u8>): (r: Option<(ChannelBuffer, seq<u8>)>)
    ensures r.Some? <==> |src| >= 8 && |src| - 8 >= FromBe32(src[4], src[5], src[6], src[7]) as int
    ensures r.Some? ==> LenMatchesBody(r.value.0)
    ensures r.Some? ==> Wire(r.value.0) + r.value.1 == src
  {
    if |src| < 8 then None
    else
      var ver := FromBe16(src[0], src[1]);
      var ctrl := src[2];
      var action := src[3];
      var len := FromBe32(src[4], src[5], src[6], src[7]);
      if |src| - 8 < len as int then None
      else
        var item := ChannelBuffer(Head(ver, ctrl, action, len), src[8..8 + len as int]);
        ParsedWire(src, item);
        Some((item, src[8 + len as int..]))
  }

  /** The header fields read from the first 8 bytes of `src`, with the `len`
      bytes after them as body, re-encode to exactly those bytes. */
  lemma ParsedWire(src: seq<u8>, item: ChannelBuffer)
    requires |src| >= 8
    requires item.head == Head(FromBe16(src[0], src[1]), src[2], src[3], FromBe32(src[4], src[5], src[6], src[7]))
    requires |src| - 8 >= item.head.len as int && item.body == src[8..8 + item.head.len as int]
    ensures Wire(item) + src[8 + item.head.len as int..] == src
  {
    var n := 8 + item.head.len as int;
    BeU16Inverse(src[0], src[1]);
    BeU32Inverse(src[4], src[5], src[6], src[7]);
    var header := BeU16(item.head.ver) + [item.head.ctrl, item.head.action] + BeU32(item.head.len);
    assert header == [src[0], src[1]] + [src[2], src[3]] + [src[4], src[5], src[6], src[7]];
    assert header == src[..8];
    assert Wire(item) == header + src[8..n];
    assert src[..8] + src[8..n] + src[n..] == src;
  }

  /** Round trip through the reconstructed parser: a buffer whose `len` agrees
      with its body comes back unchanged, and exactly its 8 + |body| bytes are
      consumed, whatever follows them. */
  lemma ParseWire(item: ChannelBuffer, rest: seq<u8>)
    requires LenMatchesBody(item)
    ensures ParseFrame(Wire(item) + rest) == Some((item, rest))
  {
    var src := Wire(item) + rest;
    assert src[..8] == Wire(item)[..8];
    var r := ParseFrame(src);
    assert r.Some?;
    var (item', rest') := r.value;
    assert Wire(item') + rest' == Wire(item) + rest;
    assert |item'.body| == item'.head.len as int == item.head.len as int == |item.body|;
    WireInjective(item', item, rest', rest);
  }

  /** Two encodings followed by tails are equal only when the buffers (of equal
      body length) and the tails are equal: the wire format loses nothing. */
  lemma WireInjective(a: ChannelBuffer, b: ChannelBuffer, ra: seq<u8>, rb: seq<u8>)
    requires |a.body| == |b.body|
    requires Wire(a) + ra == Wire(b) + rb
    ensures a == b && ra == rb
  {
    var wa, wb := Wire(a), Wire(b);
    WireLayout(a);
    WireLayout(b);
    assert wa == (wa + ra)[..|wa|] == (wb + rb)[..|wb|] == wb;
    assert ra == (wa + ra)[|wa|..] == (wb + rb)[|wb|..] == rb;
    assert a.head.ver == FromBe16(wa[0], wa[1]) == b.head.ver;
    assert a.head.len == FromBe32(wa[4], wa[5], wa[6], wa[7]) == b.head.len;
    assert a.body == wa[8..] == b.body;
  }

  /** The header's `len` is authoritative for the reconstructed parser: a
      buffer encoded with a `len` that disagrees with its body does not come
      back as itself. */
  lemma ParseTrustsHeaderLen(item: ChannelBuffer, rest: seq<u8>)
    requires !LenMatchesBody(item)
    ensures ParseFrame(Wire(item) + rest) != Some((item, rest))
  {
  }

  /** The frame ver=1, ctrl=0, action=1, len=4, body "aion". */
  function AionFrame(): ChannelBuffer
  {
    ChannelBuffer(Head(1, 0, 1, 4), Ascii("aion"))
  }

  /** Its encoding is `00 01 00 01 00 00 00 04 61 69 6f 6e`. */
  lemma AionFrameWire()
    ensures Wire(AionFrame()) == [0x00, 0x01, 0x00, 0x01, 0x00, 0x00, 0x00, 0x04, 0x61, 0x69, 0x6f, 0x6e]
  {
    AionBytes();
    assert BeU16(1) == [0x00, 0x01] && BeU32(4) == [0x00, 0x00, 0x00, 0x04];
  }

  lemma AionBytes()
    ensures Ascii("aion") == [0x61, 0x69, 0x6f, 0x6e]
  {
    var s := Ascii("aion");
    assert s[0] == 0x61 && s[1] == 0x69 && s[2] == 0x6f && s[3] == 0x6e;
  }

  /** The stub decoder loses frames: on the 12 bytes of the example frame it
      yields the default buffer, whereas the reconstructed parser recovers the
      frame and consumes all 12 bytes. */
  lemma StubDecodeLosesFrame()
    ensures NewChannelBuffer() != AionFrame()
    ensures ParseFrame(Wire(AionFrame())) == Some((AionFrame(), []))
  {
    assert NewChannelBuffer().head.ctrl != AionFrame().head.ctrl;
    assert LenMatchesBody(AionFrame());
    ParseWire(AionFrame(), []);
    assert Wire(AionFrame()) + [] == Wire(AionFrame());
  }
}
