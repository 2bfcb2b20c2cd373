/**
 * The line-based hub of `examples/aion-poc.rs`. A shared map from each peer's
 * socket address to the sending half of that connection's unbounded channel
 * is filled on accept and emptied on teardown. Every line a peer sends is
 * queued to the senders the broadcast filter selects, and each connection's
 * writer sends its queued messages prefixed with "[Aion] ".
 *
 * As written, the filter keeps the entries whose key EQUALS the origin's
 * address, so a valid line goes back to its sender only; the model keeps that.
 * Reading and writing are separate operations of one sequential object; the
 * runtime's concurrency, locking and sockets are not modelled.
 */
module AionChat {
  import opened Base

  /** A peer's socket address: the registry key. */
  datatype SocketAddr = SocketAddr(ip: seq<u8>, port: u16)

  /** The identity of one unbounded channel, created when a connection is
      accepted. */
  type Chan = nat

  /** One connection's task: the address it was accepted from and its channel. */
  datatype Session = Session(addr: SocketAddr, chan: Chan)

  const Newline: u8 := 0x0a

  /** The bytes of "[Aion] ". */
  function TagBytes(): (t: seq<u8>)
    ensures t == [0x5b, 0x41, 0x69, 0x6f, 0x6e, 0x5d, 0x20]
  {
    var t := Ascii("[Aion] ");
    assert t[0] == 0x5b && t[1] == 0x41 && t[2] == 0x69 && t[3] == 0x6f;
    assert t[4] == 0x6e && t[5] == 0x5d && t[6] == 0x20;
    t
  }

  /** The bytes of "You didn't send valid UTF-8.", the answer to a line that
      is not UTF-8. */
  function NotUtf8Reply(): seq<u8>
  {
    Ascii("You didn't send valid UTF-8.")
  }

  /** `read_until(reader, b'\n', ..)` on the bytes still to arrive: everything
      up to and including the first newline (or all of it when there is none),
      and what is left. */
  function ReadUntilNewline(input: seq<u8>): (r: (seq<u8>, seq<u8>))
    ensures r.0 + r.1 == input
    ensures input != [] ==> r.0 != []
    ensures forall i :: 0 <= i < |r.0| - 1 ==> r.0[i] != Newline
    ensures r.1 != [] ==> r.0[|r.0| - 1] == Newline
  {
    if input == [] then ([], [])
    else if input[0] == Newline then ([input[0]], input[1..])
    else
      var (line, rest) := ReadUntilNewline(input[1..]);
      ([input[0]] + line, rest)
  }

  /** One read of the reader loop: a zero-length read is turned into a
      BrokenPipe error (which ends the loop); otherwise the line and the rest. */
  function ReadLine(input: seq<u8>): (r: IoResult<(seq<u8>, seq<u8>)>)
    ensures r.Err? <==> input == []
    ensures r.Err? ==> r.kind == BrokenPipe
    ensures r.Ok? ==> r.value.0 != [] && r.value.0 + r.value.1 == input
  {
    var (line, rest) := ReadUntilNewline(input);
    if |line| == 0 then Err(BrokenPipe) else Ok((line, rest))
  }

  function Concat(ls: seq<seq<u8>>): seq<u8>
  {
    if ls == [] then [] else ls[0] + Concat(ls[1..])
  }

  /** The lines the reader loop handles before its zero-length read. */
  function Lines(input: seq<u8>): seq<seq<u8>>
    decreases |input|
  {
    match ReadLine(input)
    case Err(_) => []
    case Ok((line, rest)) => [line] + Lines(rest)
  }

  /** The lines the reader loop handles are never empty, each ends at its first
      newline, and together they are exactly the bytes that arrived. */
  lemma {:induction false} LinesCoverInput(input: seq<u8>)
    ensures Concat(Lines(input)) == input
    ensures forall i :: 0 <= i < |Lines(input)| ==> Lines(input)[i] != []
    ensures forall i, j :: 0 <= i < |Lines(input)| && 0 <= j < |Lines(input)[i]| - 1 ==> Lines(input)[i][j] != Newline
    decreases |input|
  {
    match ReadLine(input)
    case Err(_) =>
    case Ok((line, rest)) =>
      LinesCoverInput(rest);
      var ls := Lines(input);
      assert ls == [line] + Lines(rest);
      assert ls[1..] == Lines(rest);
      assert forall i :: 1 <= i < |ls| ==> ls[i] == Lines(rest)[i - 1];
  }

  /** What one line makes the hub send: the line itself when it is UTF-8 (the
      bytes of `String::from_utf8`'s result are the line's), the complaint
      otherwise. UTF-8 validity is a parameter of the model. */
  function Reply(line: seq<u8>, isUtf8: seq<u8> -> bool): seq<u8>
  {
    if isUtf8(line) then line else NotUtf8Reply()
  }

  /** The replies to a sequence of lines, in order. */
  function Replies(lines: seq<seq<u8>>, isUtf8: seq<u8> -> bool): (rs: seq<seq<u8>>)
  {
    if lines == [] then [] else Replies(lines[..|lines| - 1], isUtf8) + [Reply(lines[|lines| - 1], isUtf8)]
  }

  /** One more line read: it joins those already handled. */
  lemma LinesStep(done: seq<seq<u8>>, rest: seq<u8>)
    requires ReadLine(rest).Ok?
    ensures done + Lines(rest) == (done + [ReadLine(rest).value.0]) + Lines(ReadLine(rest).value.1)
  {
    var (line, more) := ReadLine(rest).value;
    assert Lines(rest) == [line] + Lines(more);
    assert done + ([line] + Lines(more)) == (done + [line]) + Lines(more);
  }

  lemma RepliesSnoc(lines: seq<seq<u8>>, line: seq<u8>, isUtf8: seq<u8> -> bool)
    ensures Replies(lines + [line], isUtf8) == Replies(lines, isUtf8) + [Reply(line, isUtf8)]
  {
    assert (lines + [line])[..|lines|] == lines;
  }

  /** The senders the broadcast filter selects for a line from `origin`: those
      whose key equals `origin`. */
  function Targets(conns: map<SocketAddr, Chan>, origin: SocketAddr): set<Chan>
  {
    set k | k in conns && k == origin :: conns[k]
  }

  /** The filter as written selects the origin's own sender and nobody else. */
  lemma TargetsAreOrigin(conns: map<SocketAddr, Chan>, origin: SocketAddr)
    ensures Targets(conns, origin) == if origin in conns then {conns[origin]} else {}
  {
    if origin in conns {
      assert conns[origin] in Targets(conns, origin);
    }
  }

  /** The bytes the writer sends for one queued message. */
  function Tagged(msg: seq<u8>): seq<u8>
  {
    TagBytes() + msg
  }

  /** The bytes the writer sends for a queue of messages, in queue order. */
  function WireOf(msgs: seq<seq<u8>>): seq<u8>
  {
    if msgs == [] then [] else Tagged(msgs[0]) + WireOf(msgs[1..])
  }

  /** Writing two queues one after the other sends the bytes of each in turn. */
  lemma {:induction false} WireOfAppend(a: seq<seq<u8>>, b: seq<seq<u8>>)
    ensures WireOf(a + b) == WireOf(a) + WireOf(b)
  {
    if a == [] {
      assert a + b == b;
    } else {
      assert (a + b)[0] == a[0];
      assert (a + b)[1..] == a[1..] + b;
      WireOfAppend(a[1..], b);
    }
  }

  /** Every message costs its own length plus the 7 prefix bytes. */
  lemma {:induction false} WireOfLength(msgs: seq<seq<u8>>)
    ensures |WireOf(msgs)| == 7 * |msgs| + |Concat(msgs)|
  {
    if msgs != [] {
      WireOfLength(msgs[1..]);
    }
  }

  /** The writer half (examples/aion-poc.rs, lines 114-119): writes each queued message as
      "[Aion] " followed by the message, in queue order. */
  method WriteAll(msgs: seq<seq<u8>>) returns (wire: seq<u8>)
    ensures wire == WireOf(msgs)
  {
    wire := [];
    var i := 0;
    while i < |msgs|
      invariant 0 <= i <= |msgs|
      invariant wire == WireOf(msgs[..i])
    {
      var txBuf := Tagged(msgs[i]);
      assert msgs[..i + 1] == msgs[..i] + [msgs[i]];
      WireOfAppend(msgs[..i], [msgs[i]]);
      assert WireOf([msgs[i]]) == txBuf + WireOf([]);
      wire := wire + txBuf;
      i := i + 1;
    }
    assert msgs[..i] == msgs;
  }

  /** Queueing the reply to one more line on `tx`, whose queue already holds
      the replies to `done`, leaves it holding the replies to `done + [line]`. */
  lemma QueueOneMoreReply(q0: map<Chan, seq<seq<u8>>>, q1: map<Chan, seq<seq<u8>>>, q2: map<Chan, seq<seq<u8>>>,
                          tx: Chan, done: seq<seq<u8>>, line: seq<u8>, isUtf8: seq<u8> -> bool)
    requires tx in q0
    requires q1 == q0[tx := q0[tx] + Replies(done, isUtf8)]
    requires q2 == q1[tx := q1[tx] + [Reply(line, isUtf8)]]
    ensures q2 == q0[tx := q0[tx] + Replies(done + [line], isUtf8)]
  {
    RepliesSnoc(done, line, isUtf8);
    assert q0[tx] + Replies(done, isUtf8) + [Reply(line, isUtf8)] == q0[tx] + Replies(done + [line], isUtf8);
  }

  /** The shared registry with, for each channel still open, the messages
      queued on it and not yet written. */
  class Hub {
    var connections: map<SocketAddr, Chan>
    var queues: map<Chan, seq<seq<u8>>>
    var nextChan: Chan
    /** The address each channel's connection was accepted from. */
    ghost var peerOf: map<Chan, SocketAddr>

    ghost predicate Valid()
      reads this
    {
      && (forall a :: a in connections ==> connections[a] in queues && connections[a] in peerOf && peerOf[connections[a]] == a)
      && (forall c :: c in queues ==> c in peerOf)
      && (forall c :: c in peerOf ==> c < nextChan)
    }

    /** `s` is a connection this hub accepted. */
    ghost predicate Owns(s: Session)
      reads this
    {
      s.chan in peerOf && peerOf[s.chan] == s.addr
    }

    constructor ()
      ensures Valid()
      ensures connections == map[] && queues == map[]
    {
      connections := map[];
      queues := map[];
      nextChan := 0;
      peerOf := map[];
    }

    /** Accepting a connection from `addr` (examples/aion-poc.rs, lines 51-57) creates a new channel
        and maps `addr` to its sender, replacing any entry for `addr`; every
        other entry stays. */
    method Accept(addr: SocketAddr) returns (s: Session)
      requires Valid()
      modifies this
      ensures Valid() && Owns(s)
      ensures s.addr == addr && s.chan !in old(queues)
      ensures connections == old(connections)[addr := s.chan]
      ensures queues == old(queues)[s.chan := []]
      ensures forall t :: old(Owns(t)) ==> Owns(t)
    {
      s := Session(addr, nextChan);
      connections := connections[addr := nextChan];
      queues := queues[nextChan := []];
      peerOf := peerOf[nextChan := addr];
      nextChan := nextChan + 1;
    }

    /** Teardown (examples/aion-poc.rs, lines 124-133), run whichever half ends first and whether it
        ended well or not: removes the entry for the session's address (a
        no-op when there is none, and whatever channel the entry holds), leaves
        every other entry, and drops the session's channel with what is still
        queued on it. */
    method Teardown(s: Session)
      requires Valid() && Owns(s)
      modifies this`connections, this`queues
      ensures Valid()
      ensures connections == old(connections) - {s.addr}
      ensures s.addr !in old(connections) ==> connections == old(connections)
      ensures queues == old(queues) - {s.chan}
    {
      connections := connections - {s.addr};
      queues := queues - {s.chan};
    }

    /** The broadcast (examples/aion-poc.rs, lines 97-103): walks every entry and queues `msg` on
        each sender the filter keeps. No entry is added or removed. */
    method Broadcast(origin: SocketAddr, msg: seq<u8>)
      requires Valid()
      modifies this`queues
      ensures Valid()
      ensures queues.Keys == old(queues).Keys
      ensures forall c :: c in queues ==> queues[c] == old(queues)[c] + (if c in Targets(connections, origin) then [msg] else [])
    {
      TargetsAreOrigin(connections, origin);
      var keys := connections.Keys;
      while keys != {}
        invariant keys <= connections.Keys
        invariant Valid()
        invariant queues.Keys == old(queues).Keys
        invariant forall c :: c in queues ==>
          queues[c] == old(queues)[c] + (if c in Targets(connections, origin) && origin !in keys then [msg] else [])
        decreases keys
      {
        var k :| k in keys;
        if k == origin {
          var tx := connections[k];
          queues := queues[tx := queues[tx] + [msg]];
        }
        keys := keys - {k};
      }
    }

    /** Handling one line from `origin` (examples/aion-poc.rs, lines 83-109). A UTF-8 line is
        broadcast. Otherwise the complaint goes to the origin's own sender; the
        `unwrap` on that lookup panics when the origin has no entry. */
    method OnLine(origin: SocketAddr, line: seq<u8>, isUtf8: seq<u8> -> bool) returns (r: Unwind<()>)
      requires Valid()
      modifies this`queues
      ensures Valid()
      ensures r.Panics? <==> !isUtf8(line) && origin !in connections
      ensures origin in connections ==>
        queues == old(queues)[connections[origin] := old(queues)[connections[origin]] + [Reply(line, isUtf8)]]
      ensures origin !in connections ==> queues == old(queues)
    {
      TargetsAreOrigin(connections, origin);
      if isUtf8(line) {
        Broadcast(origin, line);
        if origin in connections {
          var tx := connections[origin];
          assert forall c :: c in queues ==> queues[c] == old(queues)[tx := old(queues)[tx] + [line]][c];
        } else {
          assert forall c :: c in queues ==> queues[c] == old(queues)[c];
        }
        r := Returns(());
      } else if origin in connections {
        var tx := connections[origin];
        queues := queues[tx := queues[tx] + [NotUtf8Reply()]];
        r := Returns(());
      } else {
        r := Panics;
      }
    }

    /** The reader half (examples/aion-poc.rs, lines 63-110): reads line after line from what the
        peer sends and handles each, until the zero-length read at the end of
        the input turns into a BrokenPipe error. While the origin has an entry,
        its sender receives the replies to all lines in order; without one,
        UTF-8 lines are dropped and the first other line panics. */
    method ReadLoop(origin: SocketAddr, input: seq<u8>, isUtf8: seq<u8> -> bool) returns (r: Unwind<IoResult<()>>)
      requires Valid()
      modifies this`queues
      ensures Valid()
      ensures queues.Keys == old(queues).Keys
      ensures origin in connections ==> r == Returns(Err(BrokenPipe))
      ensures origin in connections ==>
        queues == old(queues)[connections[origin] := old(queues)[connections[origin]] + Replies(Lines(input), isUtf8)]
      ensures origin !in connections ==> queues == old(queues)
      ensures origin !in connections ==>
        (r.Panics? <==> exists i :: 0 <= i < |Lines(input)| && !isUtf8(Lines(input)[i]))
      ensures r.Returns? ==> r == Returns(Err(BrokenPipe))
    {
      var rest := input;
      ghost var done: seq<seq<u8>> := [];
      ghost var tx := if origin in connections then connections[origin] else 0;
      assert Replies(done, isUtf8) == [];
      assert origin in connections ==> old(queues)[tx] + Replies(done, isUtf8) == old(queues)[tx];
      while true
        invariant Valid()
        invariant queues.Keys == old(queues).Keys
        invariant Lines(input) == done + Lines(rest)
        invariant origin in connections ==> queues == old(queues)[tx := old(queues)[tx] + Replies(done, isUtf8)]
        invariant origin !in connections ==> queues == old(queues)
        invariant origin !in connections ==> forall i :: 0 <= i < |done| ==> isUtf8(done[i])
        decreases |rest|
      {
        var read := ReadLine(rest);
        if read.Err? {
          assert Lines(rest) == [];
          assert done == Lines(input);
          r := Returns(Err(read.kind));
          return;
        }
        var (line, more) := read.value;
        LinesStep(done, rest);
        ghost var before := queues;
        var handled := OnLine(origin, line, isUtf8);
        if handled.Panics? {
          assert Lines(input)[|done|] == line;
          r := Panics;
          return;
        }
        if origin in connections {
          QueueOneMoreReply(old(queues), before, queues, tx, done, line, isUtf8);
        }
        done := done + [line];
        rest := more;
      }
    }

    /** The writer half draining channel `c`: everything queued is written in
        order, each with the "[Aion] " prefix, and the queue is left empty. A
        dropped channel has nothing to write. */
    method Flush(c: Chan) returns (wire: seq<u8>)
      requires Valid()
      modifies this`queues
      ensures Valid()
      ensures c in old(queues) ==> wire == WireOf(old(queues)[c]) && queues == old(queues)[c := []]
      ensures c !in old(queues) ==> wire == [] && queues == old(queues)
    {
      if c in queues {
        wire := WriteAll(queues[c]);
        queues := queues[c := []];
      } else {
        wire := [];
      }
    }
  }

  /** Peers `a` and `b` are connected and `a` sends a UTF-8 line: the line is
      queued for `a` itself, and `b` receives nothing. */
  method EchoToOriginOnly(a: SocketAddr, b: SocketAddr, line: seq<u8>, isUtf8: seq<u8> -> bool)
    returns (toA: seq<seq<u8>>, toB: seq<seq<u8>>)
    requires a != b && isUtf8(line)
    ensures toA == [line] && toB == []
  {
    var hub := new Hub();
    var sa := hub.Accept(a);
    var sb := hub.Accept(b);
    TargetsAreOrigin(hub.connections, a);
    var handled := hub.OnLine(a, line, isUtf8);
    toA := hub.queues[sa.chan];
    toB := hub.queues[sb.chan];
  }

  /** Teardown removes by address: when a second connection from `a` has
      replaced the first one's entry, the first one's teardown removes the
      second one's entry, and a non-UTF-8 line then read by the second one
      panics at the lookup of its sender. */
  method TeardownRemovesSuccessor(a: SocketAddr, line: seq<u8>, isUtf8: seq<u8> -> bool)
    returns (registered: bool, handled: Unwind<()>)
    requires !isUtf8(line)
    ensures !registered && handled == Panics
  {
    var hub := new Hub();
    var first := hub.Accept(a);
    var second := hub.Accept(a);
    hub.Teardown(first);
    registered := a in hub.connections;
    handled := hub.OnLine(a, line, isUtf8);
  }
}
