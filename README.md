# Aion peer-to-peer message layer, modelled in Dafny

This project models the message layer of the Aion proof-of-concept peers built on tokio. It has four parts:

- **Binary frame codec** (`src/p2p_aion/p2p_aion.rs`, module `P2pAion` in `p2p_aion.dfy`). A `ChannelBuffer` is a `Head` (`ver: u16`, `ctrl: u8`, `action: u8`, `len: u32`) and a body.
  - `encode` appends the header to a `BytesMut`, with `ver` and `len` big-endian. The raw body follows.
  - `decode` is a stub: it always yields a default buffer and consumes nothing.
  - `ParseFrame` rebuilds the field-by-field parse that is commented out in `decode`. It is a reconstruction, not the code's behaviour, and it is what the round-trip lemmas are about. Where the input is shorter than 8 + `len` bytes, the commented-out `split_to` calls would panic; `ParseFrame` gives `None` there instead.
- **`respond`** (`examples/aion_poc2.rs`, module `AionPoc2`). The server's answer to every request copies `ver`, `ctrl` and `action` and carries the 7-byte body "sdfasdf".
- **Bincode peer** (`examples/aion_poc4.rs`, module `AionPoc4`). This file has its own all-zero defaults, its own copy of `respond`, and the initiator's handshake frame. Its codec appends bincode's serialisation and decodes a copy of the whole buffer. Bincode's `serialize` and `deserialize` are function parameters.
- **Chat hub** (`examples/aion-poc.rs`, module `AionChat`). The class `Hub` holds the registry, a map from socket address to the sender of that connection's unbounded channel, and the messages still queued on each channel.
  - Accept inserts an entry, replacing any old one. Teardown removes the entry by address.
  - A UTF-8 line is broadcast; any other line gets a complaint. A zero-length read ends the reader.
  - The writer sends each message prefixed with "[Aion] ".

Shared pieces live in `base.dfy` (module `Base`): the `u8`/`u16`/`u32` newtypes, `IoResult`, `Unwind` (a call either returns or panics in an `unwrap`), ASCII literals, the big-endian helpers and a `BytesMut` class.

Where the code does less than one might expect, the model follows the code:
- `decode` parses nothing: the field-by-field parse at src/p2p_aion/p2p_aion.rs:69-73 is commented out. Nothing limits the frame size, and nothing reassembles partial reads.
- `HashMap::insert` (examples/aion-poc.rs:57) replaces an existing entry for the same address.
- The file's own doc comment (examples/aion-poc.rs:3-4 and 17-20) says the server broadcasts each line to all other connected clients. The filter `k.eq(&addr)` at examples/aion-poc.rs:98 contradicts this: it keeps only the origin's own entry, so a valid line goes back to its sender and to nobody else.

## Model

| member | source | states |
|---|---|---|
| `P2pAion.NewHead` | src/p2p_aion/p2p_aion.rs:17-26 | the default header has version, control and action 1 and length 0 |
| `P2pAion.NewChannelBuffer` | src/p2p_aion/p2p_aion.rs:33-40 | the default buffer has the default header and an empty body, so its `len` equals its body length |
| `P2pAion.Encode` | src/p2p_aion/p2p_aion.rs:46-60 | `dst` afterwards is its old bytes, unchanged, followed by exactly the encoding of the item; the result is always `Ok` |
| `P2pAion.WireLayout` | src/p2p_aion/p2p_aion.rs:47-52 | the encoding has 8 + \|body\| bytes: bytes 0..2 are `ver` big-endian, byte 2 `ctrl`, byte 3 `action`, bytes 4..8 the header's `len` big-endian (whatever the body length), then the body unmodified |
| `P2pAion.WireInjective` | src/p2p_aion/p2p_aion.rs:47-52 | two buffers with bodies of equal length that encode (with any trailing bytes) to the same bytes are equal, and so are the trailing bytes |
| `P2pAion.AionFrameWire` | src/p2p_aion/p2p_aion.rs:47-52 | ver=1, ctrl=0, action=1, len=4, body "aion" encodes to `00 01 00 01 00 00 00 04 61 69 6f 6e` |
| `P2pAion.Decode` | src/p2p_aion/p2p_aion.rs:67-75 | whatever `src` holds, the result is `Ok(Some(...))` of the default header and an empty body; `src` is not modified |
| `P2pAion.ParseFrame` | src/p2p_aion/p2p_aion.rs:69-73 | reconstruction: a buffer is parsed exactly when at least 8 + `len` bytes are present, and shorter input gives `None` where the commented-out `split_to` would panic; the parsed body has `len` bytes; the parsed buffer's encoding followed by the remaining bytes is the input |
| `P2pAion.ParsedWire` | src/p2p_aion/p2p_aion.rs:69-73 | reconstruction: the header read from the first 8 bytes, with the `len` bytes after them as body, encodes back to exactly those bytes, leaving the rest of the input |
| `P2pAion.ParseWire` | src/p2p_aion/p2p_aion.rs:69-73 | reconstruction round trip: a buffer whose `len` matches its body parses back to itself from its encoding followed by any bytes, consuming exactly 8 + \|body\| bytes |
| `P2pAion.ParseTrustsHeaderLen` | src/p2p_aion/p2p_aion.rs:72-73 | a buffer encoded with a `len` that differs from its body length never parses back to itself: the header's `len` decides how many body bytes are taken |
| `P2pAion.StubDecodeLosesFrame` | src/p2p_aion/p2p_aion.rs:67-75 | on the 12 bytes of the example frame, the stub's default buffer differs from the frame, which the reconstructed parse recovers with nothing left over |
| `AionPoc2.ResponseBody` | examples/aion_poc2.rs:86 | the answer body is the bytes `73 64 66 61 73 64 66` of "sdfasdf" |
| `AionPoc2.Respond` | examples/aion_poc2.rs:66-92 | always `Ok`; the answer keeps the request's `ver`, `ctrl` and `action`, carries "sdfasdf", and its `len` is 7, its body length |
| `AionPoc2.RespondIgnoresLenAndBody` | examples/aion_poc2.rs:81-87 | requests that agree on `ver`, `ctrl` and `action` get the same answer, whatever their `len` and body |
| `AionPoc4.NewHead` | examples/aion_poc4.rs:147-156 | this file's default header is all zeros |
| `AionPoc4.NewChannelBuffer` | examples/aion_poc4.rs:164-171 | this file's default buffer has the zero header and an empty body, so its `len` equals its body length |
| `AionPoc4.Respond` | examples/aion_poc4.rs:103-129 | always `Ok`, with `ver`, `ctrl` and `action` copied, body "sdfasdf" and `len` 7; the answer is the same as that of the `aion_poc2.rs` copy, even though the two start from different defaults |
| `AionPoc4.HandshakeFrame` | examples/aion_poc4.rs:77-88 | the initiator's frame has ver=0, ctrl=0, action=1, len=4 and body "aion", so its `len` equals its body length |
| `AionPoc4.OpeningFrames` | examples/aion_poc4.rs:77-89 | an initiator sends exactly that handshake frame before any answer; any other session sends nothing |
| `AionPoc4.Encode` | examples/aion_poc4.rs:177-182 | appends bincode's serialisation of the item after the bytes already in `dst`; when serialisation fails, the `unwrap` panics and `dst` is unchanged |
| `AionPoc4.Decode` | examples/aion_poc4.rs:189-198 | an empty buffer gives `Ok(None)`; otherwise the result is the deserialisation of the whole buffer, or a panic when that fails; `src` is never modified |
| `AionPoc4.EncodeThenDecode` | examples/aion_poc4.rs:177-198 | if bincode reads back what it wrote, decoding a buffer that holds one encoded item yields that item and leaves the buffer as it was |
| `AionChat.TagBytes` | examples/aion-poc.rs:115 | the prefix "[Aion] " is the bytes `5b 41 69 6f 6e 5d 20` |
| `AionChat.ReadUntilNewline` | examples/aion-poc.rs:67 | the line and the remainder together are the input; the line contains no newline except as its last byte; when anything remains, the line ends with a newline; the line is empty only for empty input |
| `AionChat.ReadLine` | examples/aion-poc.rs:67-74 | a zero-length read (no bytes left) is exactly the case that gives the BrokenPipe error; otherwise the line is non-empty and the line plus the remainder is the input |
| `AionChat.LinesCoverInput` | examples/aion-poc.rs:63-74 | the lines the reader handles are non-empty, have no newline before their last byte, and together are exactly the bytes that arrived |
| `AionChat.TargetsAreOrigin` | examples/aion-poc.rs:97-99 | the broadcast filter as written selects the origin's own sender when it is registered, and no sender at all otherwise |
| `AionChat.WireOfAppend` | examples/aion-poc.rs:114-119 | writing two queues one after the other sends the bytes of the first, then the bytes of the second |
| `AionChat.WireOfLength` | examples/aion-poc.rs:114-116 | the writer sends 7 prefix bytes plus the message's own bytes for every queued message |
| `AionChat.WriteAll` | examples/aion-poc.rs:114-119 | the writer's output is "[Aion] " followed by each message, in queue order |
| `AionChat.Hub.constructor` | examples/aion-poc.rs:45 | the registry starts empty, with no channel |
| `AionChat.Hub.Accept` | examples/aion-poc.rs:51-57 | a new channel with an empty queue is created; the address maps to its sender, replacing any earlier entry; every other entry and queue stays |
| `AionChat.Hub.Teardown` | examples/aion-poc.rs:124-133 | the entry for the session's address is removed, whichever channel it holds; removing an absent address changes nothing; other entries stay; the session's channel is dropped with its queue |
| `AionChat.Hub.Broadcast` | examples/aion-poc.rs:97-103 | every sender the filter selects gets the message appended to its queue; every other queue is unchanged; no entry is added or removed |
| `AionChat.Hub.OnLine` | examples/aion-poc.rs:83-109 | the origin's own sender, and only it, gets the line (UTF-8) or the complaint (not UTF-8); the lookup panics exactly for a non-UTF-8 line from an unregistered origin |
| `AionChat.Hub.ReadLoop` | examples/aion-poc.rs:63-110 | while the origin is registered, its sender gets the reply to every line, in order, and the loop ends with BrokenPipe; without an entry, nothing is queued, and the loop panics exactly when some line is not UTF-8 |
| `AionChat.Hub.Flush` | examples/aion-poc.rs:114-119 | the writer sends every message queued on its channel, in order, each with its prefix, and leaves the queue empty |
| `AionChat.EchoToOriginOnly` | examples/aion-poc.rs:97-103 | with peers a and b connected, a UTF-8 line from a is queued for a alone, and b receives nothing |
| `AionChat.TeardownRemovesSuccessor` | examples/aion-poc.rs:124-133 | when a second connection from the same address has replaced the first, the first one's teardown unregisters the address; a non-UTF-8 line then read for that address panics |

## Left out

- Concurrency is not modelled: the `select` race between the reader and writer halves, the `Arc<Mutex<..>>` locking, `tokio::spawn` and the futures combinators. The hub is one sequential object whose operations run one at a time.
- The `main` functions are not modelled: argument parsing, `TcpListener::bind`, `TcpStream::connect`, `tokio::run`, `framed().split()` and `send_all`. `examples/p2p-connect.rs` is not part of this model.
- All `println!` logging is left out. This includes the `match` on the version in `respond`, which only chooses a log line, and the listing of nodes at examples/aion-poc.rs:87-95.
- The internals of bincode's `serialize` and `deserialize` are library code whose byte layout is not visible. They are parameters, and no round trip is proved for them.
- The internals of `String::from_utf8` are left out. UTF-8 validity is a parameter `isUtf8`.
- tokio's `FramedRead` is left out: how it buffers socket reads and how often it calls `decode`.
- AionChat.Hub.ReadLoop: socket read errors other than the end of input are not modelled, because the bytes the peer sends are a parameter.
- AionChat.Hub.Flush: a failing `write_all` is not modelled. The connection it would end is covered by `Teardown`.
- AionChat.Hub.Broadcast: the `unbounded_send(..).unwrap()` at examples/aion-poc.rs:102 is modelled as never failing, because the hub invariant keeps every registered sender's receiver alive.
- AionChat.Hub.OnLine: the `unbounded_send(..).unwrap()` at examples/aion-poc.rs:106 is modelled as never failing, for the same reason.
- P2pAion.Encode: the capacity of `dst` is not modelled. In bytes 0.4, `put_u8`, `put_u16_be`, `put_u32_be` and `put_slice` panic when `dst` has less spare capacity than they write, and `encode` never calls `reserve`. So `encode` panics when `dst` has fewer than 8 + |body| spare bytes; the model always appends.
- AionPoc4.Encode: the capacity of `dst` is not modelled. `put_slice` at examples/aion_poc4.rs:179 panics in the same way when `dst` has less spare capacity than the serialised bytes need; the model always appends.
- AionChat.Hub.Accept: the `peer_addr().unwrap()` at examples/aion-poc.rs:51 is modelled as never failing; a failure there would panic the accepting task.
- AionChat.Hub.Accept: when `insert` at examples/aion-poc.rs:57 replaces an entry, the displaced sender is dropped, which closes the old connection's channel. Its writer then ends once its queue drains, and its teardown at line 130 removes the new connection's entry. The model keeps the old channel open and leaves that teardown to the caller, so it shows this outcome (`AionChat.TeardownRemovesSuccessor`) as possible but not as certain.
- AionChat.Hub.OnLine: the panic at examples/aion-poc.rs:105 happens while the lock taken at line 84 is held, which poisons the mutex. From then on every `lock().unwrap()` panics: at accept (line 57), in every reader (line 84) and at teardown (line 130). The model's hub carries on normally after a `Panics` result.
- AionPoc4.OpeningFrames: a failing `start_send(req).unwrap()` (a socket I/O error) is not modelled.

## Findings

| source | as written | input that shows it | evidently intended | confidence | as-written member | corrected member |
|---|---|---|---|---|---|---|
| src/p2p_aion/p2p_aion.rs:67-75 | `decode` ignores its input and returns a default `ChannelBuffer` without consuming any bytes | the 12 bytes `00 01 00 01 00 00 00 04 61 69 6f 6e` decode to ver=1, ctrl=1, action=1, len=0, empty body, not to the frame they encode | the field-by-field parse commented out at lines 69-73, which takes 8 + `len` bytes and returns the encoded frame | medium (not executed) | `P2pAion.Decode`, `P2pAion.StubDecodeLosesFrame` | `P2pAion.ParseFrame`, `P2pAion.ParseWire` |
