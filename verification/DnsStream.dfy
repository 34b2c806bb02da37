/** Incremental deframing of DNS over TCP (`dns_ttl.go`, `ttlStreamConn.Read`), section 4.2.2 of RFC 1035: every
    message is preceded by its length in two bytes, most significant first. */
module DnsStream {
  import opened Wrappers

  type Message = m: Bytes | |m| < 0x1_0000

  function Frame(m: Message): Bytes {
    [|m| / 256, |m| % 256] + m
  }

  /** The stream that carries some messages. */
  function Frames(messages: seq<Message>): Bytes
    decreases |messages|
  {
    if messages == [] then [] else Frames(messages[..|messages| - 1]) + Frame(messages[|messages| - 1])
  }

  function Length(s: Bytes): nat
    requires |s| >= 2
  {
    (s[0] as int) * 256 + s[1] as int
  }

  /** No complete frame starts here. */
  predicate Incomplete(s: Bytes) {
    |s| < 2 || |s| < Length(s) + 2
  }

  /** The complete frames of a stream and its incomplete tail. */
  ghost predicate Deframes(stream: Bytes, messages: seq<Message>, tail: Bytes) {
    stream == Frames(messages) + tail && Incomplete(tail)
  }

  lemma {:induction false} FramesFromFirst(messages: seq<Message>)
    requires messages != []
    ensures Frames(messages) == Frame(messages[0]) + Frames(messages[1..])
    decreases |messages|
  {
    var init, last := messages[..|messages| - 1], messages[|messages| - 1];
    if init == [] {
      assert messages[1..] == [];
    } else {
      FramesFromFirst(init);
      assert init[1..] == messages[1..][..|messages| - 2];
    }
  }

  /** The length stands in two bytes, the most significant one first. */
  lemma LengthIsBigEndian(m: Message)
    ensures var s := Frame(m);
            |s| == |m| + 2 && 0x100 * (s[0] as int) + s[1] as int == |m| && s[2..] == m
  {
  }

  /** The frame at the start of a stream can be read off it. */
  lemma FirstFrame(m: Message, rest: Bytes)
    ensures var s := Frame(m) + rest;
            && |s| >= 2 && Length(s) == |m| && !Incomplete(s)
            && s[2..|m| + 2] == m && s[|m| + 2..] == rest
  {
    var s := Frame(m) + rest;
    assert s[2..|m| + 2] == m;
    assert s[|m| + 2..] == rest;
  }

  /** A stream has complete frames at its start exactly if it deframes to some message. */
  lemma DeframesNothing(stream: Bytes, messages: seq<Message>, tail: Bytes)
    requires Deframes(stream, messages, tail)
    ensures messages == [] <==> Incomplete(stream)
  {
    if messages != [] {
      FramesFromFirst(messages);
      assert stream == Frame(messages[0]) + (Frames(messages[1..]) + tail);
      FirstFrame(messages[0], Frames(messages[1..]) + tail);
    }
  }

  lemma DeframesRest(stream: Bytes, messages: seq<Message>, tail: Bytes)
    requires Deframes(stream, messages, tail) && messages != []
    ensures |stream| >= Length(stream) + 2 >= 2
    ensures stream[2..Length(stream) + 2] == messages[0]
    ensures Deframes(stream[Length(stream) + 2..], messages[1..], tail)
  {
    FramesFromFirst(messages);
    assert stream == Frame(messages[0]) + (Frames(messages[1..]) + tail);
    FirstFrame(messages[0], Frames(messages[1..]) + tail);
  }

  /** There is only one way to deframe a stream. */
  lemma {:induction false} DeframingIsUnique(stream: Bytes, messages1: seq<Message>, tail1: Bytes,
                                             messages2: seq<Message>, tail2: Bytes)
    requires Deframes(stream, messages1, tail1) && Deframes(stream, messages2, tail2)
    ensures messages1 == messages2 && tail1 == tail2
    decreases |messages1|
  {
    DeframesNothing(stream, messages1, tail1);
    DeframesNothing(stream, messages2, tail2);
    if messages1 != [] {
      DeframesRest(stream, messages1, tail1);
      DeframesRest(stream, messages2, tail2);
      DeframingIsUnique(stream[Length(stream) + 2..], messages1[1..], tail1, messages2[1..], tail2);
      assert messages1 == [messages1[0]] + messages1[1..] && messages2 == [messages2[0]] + messages2[1..];
    } else {
      assert Frames([]) + tail1 == tail1 && Frames([]) + tail2 == tail2;
    }
  }

  lemma OneMoreFrame(messages: seq<Message>, m: Message, rest: Bytes)
    ensures Frames(messages + [m]) + rest == Frames(messages) + (Frame(m) + rest)
  {
    assert (messages + [m])[..|messages|] == messages;
  }

  lemma FrameAt(s: Bytes)
    requires !Incomplete(s)
    ensures Length(s) < 0x1_0000 && s == Frame(s[2..Length(s) + 2]) + s[Length(s) + 2..]
  {
    var m := s[2..Length(s) + 2];
    assert Frame(m)[0] == s[0] && Frame(m)[1] == s[1];
  }

  class StreamConn {
    var pending: Bytes
    var observed: seq<Message>
    ghost var received: Bytes

    /** What was observed and what is pending are the frames and the tail of what was received. */
    ghost predicate Valid()
      reads this
    {
      Deframes(received, observed, pending)
    }

    constructor ()
      ensures Valid() && received == [] && observed == []
    {
      pending, observed, received := [], [], [];
    }

    /** One read of any size, also an empty one. */
    method Read(chunk: Bytes)
      requires Valid()
      modifies this
      ensures Valid() && received == old(received) + chunk
      ensures old(observed) <= observed
    {
      received := received + chunk;
      pending := pending + chunk;
      while |pending| >= 2
        invariant received == Frames(observed) + pending && received == old(received) + chunk
        invariant old(observed) <= observed
        decreases |pending|
      {
        hide Frames, Frame;
        var length: nat := Length(pending);
        if |pending| < length + 2 {
          break;
        }
        FrameAt(pending);
        OneMoreFrame(observed, pending[2..length + 2], pending[length + 2..]);
        observed := observed + [pending[2..length + 2]];
        pending := pending[length + 2..];
      }
    }
  }

  function Concat(chunks: seq<Bytes>): Bytes
    decreases |chunks|
  {
    if chunks == [] then [] else Concat(chunks[..|chunks| - 1]) + chunks[|chunks| - 1]
  }

  /** Reads all the chunks on a new connection. */
  method ReadAll(chunks: seq<Bytes>) returns (observed: seq<Message>, pending: Bytes)
    ensures Deframes(Concat(chunks), observed, pending)
  {
    var conn := new StreamConn();
    for i := 0 to |chunks|
      invariant conn.Valid() && conn.received == Concat(chunks[..i]) && fresh(conn)
    {
      assert chunks[..i + 1][..i] == chunks[..i];
      conn.Read(chunks[i]);
    }
    assert chunks[..|chunks|] == chunks;
    observed, pending := conn.observed, conn.pending;
  }

  /** However the same bytes are split into reads, the same messages are observed and the same tail is pending. */
  method ReadBothWays(chunks1: seq<Bytes>, chunks2: seq<Bytes>)
    returns (observed1: seq<Message>, pending1: Bytes, observed2: seq<Message>, pending2: Bytes)
    ensures Deframes(Concat(chunks1), observed1, pending1) && Deframes(Concat(chunks2), observed2, pending2)
    ensures Concat(chunks1) == Concat(chunks2) ==> observed1 == observed2 && pending1 == pending2
  {
    observed1, pending1 := ReadAll(chunks1);
    observed2, pending2 := ReadAll(chunks2);
    if Concat(chunks1) == Concat(chunks2) {
      DeframingIsUnique(Concat(chunks1), observed1, pending1, observed2, pending2);
    }
  }

  /** Messages sent with their lengths, in any chunks, are observed exactly, with nothing pending. */
  method ReceiveAll(messages: seq<Message>, chunks: seq<Bytes>) returns (observed: seq<Message>, pending: Bytes)
    requires Concat(chunks) == Frames(messages)
    ensures observed == messages && pending == []
  {
    observed, pending := ReadAll(chunks);
    assert Frames(messages) + [] == Frames(messages);
    DeframingIsUnique(Frames(messages), observed, pending, messages, []);
  }
}
