/**
 * `respond` of `examples/aion_poc2.rs`: the server's answer to every decoded
 * request of the binary codec.
 */
module AionPoc2 {
  import opened Base
  import opened P2pAion

  /** The fixed answer body, the bytes of "sdfasdf". */
  function ResponseBody(): (b: seq<u8>)
    ensures b == [0x73, 0x64, 0x66, 0x61, 0x73, 0x64, 0x66]
  {
    var b := Ascii("sdfasdf");
    assert b[0] == 0x73 && b[1] == 0x64 && b[2] == 0x66 && b[3] == 0x61;
    assert b[4] == 0x73 && b[5] == 0x64 && b[6] == 0x66;
    b
  }

  /** `respond`: starts from `ChannelBuffer::new()`, copies the request's
      version, control and action, sets the body to "sdfasdf" and `len` to the
      body's length. The match on the version only chooses a log line. The
      returned future always resolves to `Ok`. */
  function Respond(req: ChannelBuffer): (r: IoResult<ChannelBuffer>)
    ensures r.Ok?
    ensures r.value.head.ver == req.head.ver
    ensures r.value.head.ctrl == req.head.ctrl
    ensures r.value.head.action == req.head.action
    ensures r.value.body == ResponseBody() && r.value.head.len == 7
    ensures LenMatchesBody(r.value)
  {
    var res := NewChannelBuffer();
    var res := res.(head := res.head.(ver := req.head.ver));
    var res := res.(head := res.head.(ctrl := req.head.ctrl));
    var res := res.(head := res.head.(action := req.head.action));
    var res := res.(body := ResponseBody());
    var res := res.(head := res.head.(len := |res.body| as u32));
    Ok(res)
  }

  /** The answer depends only on the request's version, control and action:
      requests that differ in `len` or body get the same answer. */
  lemma RespondIgnoresLenAndBody(a: ChannelBuffer, b: ChannelBuffer)
    requires a.head.ver == b.head.ver && a.head.ctrl == b.head.ctrl && a.head.action == b.head.action
    ensures Respond(a) == Respond(b)
  {
  }
}
