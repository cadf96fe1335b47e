/** Chrome's native messaging frames: a 32-bit little-endian length, then that many bytes. */
module Framing {
  import opened Wrappers

  newtype byte = b: int | 0 <= b < 256

  type Bytes = seq<byte>

  const FRAME_LIMIT := 0x1_0000_0000

  /** writeUInt32LE. */
  function Header(n: nat): (h: Bytes)
    requires n < FRAME_LIMIT
    ensures |h| == 4
  {
    [(n % 256) as byte, (n / 256 % 256) as byte, (n / 65536 % 256) as byte, (n / 16777216 % 256) as byte]
  }

  /** readUInt32LE(0). */
  function ReadLength(s: Bytes): nat
    requires |s| >= 4
  {
    s[0] as int + 256 * (s[1] as int) + 65536 * (s[2] as int) + 16777216 * (s[3] as int)
  }

  function Frame(body: Bytes): Bytes
    requires |body| < FRAME_LIMIT
  {
    Header(|body|) + body
  }

  /** A body too long for the header makes writeUInt32LE throw. */
  method WriteFrame(body: Bytes) returns (r: Result<Bytes, string>)
    ensures r.Ok? <==> |body| < FRAME_LIMIT
    ensures r.Ok? ==> r.value == Frame(body)
  {
    if |body| >= FRAME_LIMIT {
      return Err("length out of range");
    }
    var header := new byte[4];
    header[0], header[1] := (|body| % 256) as byte, (|body| / 256 % 256) as byte;
    header[2], header[3] := (|body| / 65536 % 256) as byte, (|body| / 16777216 % 256) as byte;
    assert header[..] == Header(|body|);
    r := Ok(header[..] + body);
  }

  lemma HeaderReadsBack(n: nat)
    requires n < FRAME_LIMIT
    ensures ReadLength(Header(n)) == n
  {
    var a, b, c := n / 256, n / 65536, n / 16777216;
    assert b == a / 256 && c == b / 256;
    assert n == 256 * a + n % 256 && a == 256 * b + a % 256 && b == 256 * c + b % 256;
    assert c < 256;
  }

  /** The least significant byte of a header comes first. */
  lemma HeaderIsLittleEndian(n: nat)
    requires n < FRAME_LIMIT
    ensures var h := Header(n);
      n == h[0] as int + 0x100 * (h[1] as int) + 0x1_0000 * (h[2] as int) + 0x100_0000 * (h[3] as int)
    ensures n < 256 ==> Header(n) == [n as byte, 0, 0, 0]
  {
    HeaderReadsBack(n);
  }

  // ---- Decoding a whole stream ----

  /** The stream starts with a whole frame. */
  predicate HoldsFrame(s: Bytes) {
    |s| >= 4 && |s| >= 4 + ReadLength(s)
  }

  function FirstBody(s: Bytes): Bytes
    requires HoldsFrame(s)
  {
    s[4..4 + ReadLength(s)]
  }

  function AfterFrame(s: Bytes): (r: Bytes)
    requires HoldsFrame(s)
    ensures |r| < |s|
  {
    s[4 + ReadLength(s)..]
  }

  /** The bodies a stream holds. */
  function Bodies(s: Bytes): seq<Bytes>
    decreases |s|
  {
    if HoldsFrame(s) then [FirstBody(s)] + Bodies(AfterFrame(s)) else []
  }

  /** What is left of a stream once its whole frames are taken. */
  function Leftover(s: Bytes): Bytes
    decreases |s|
  {
    if HoldsFrame(s) then Leftover(AfterFrame(s)) else s
  }

  function Encode(bodies: seq<Bytes>): Bytes
    requires forall i :: 0 <= i < |bodies| ==> |bodies[i]| < FRAME_LIMIT
  {
    if bodies == [] then [] else Frame(bodies[0]) + Encode(bodies[1..])
  }

  /** More bytes after a whole frame do not change that frame. */
  lemma FrameStays(s: Bytes, more: Bytes)
    requires HoldsFrame(s)
    ensures HoldsFrame(s + more) && FirstBody(s + more) == FirstBody(s) && AfterFrame(s + more) == AfterFrame(s) + more
  {
    assert ReadLength(s + more) == ReadLength(s);
  }

  /** Decoding does not depend on where the stream is cut. */
  lemma {:induction false} CutsDoNotMatter(s: Bytes, more: Bytes)
    ensures Bodies(s + more) == Bodies(s) + Bodies(Leftover(s) + more)
    ensures Leftover(s + more) == Leftover(Leftover(s) + more)
    decreases |s|
  {
    if HoldsFrame(s) {
      FrameStays(s, more);
      CutsDoNotMatter(AfterFrame(s), more);
    } else {
      assert [] + Bodies(s + more) == Bodies(s + more);
    }
  }

  lemma {:induction false} LeftoverIsShort(s: Bytes)
    ensures !HoldsFrame(Leftover(s))
    ensures |Leftover(s)| < 4 || |Leftover(s)| < 4 + ReadLength(Leftover(s))
    decreases |s|
  {
    if HoldsFrame(s) {
      LeftoverIsShort(AfterFrame(s));
    }
  }

  lemma FrameDecodes(body: Bytes, more: Bytes)
    requires |body| < FRAME_LIMIT
    ensures var s := Frame(body) + more;
      HoldsFrame(s) && FirstBody(s) == body && AfterFrame(s) == more
  {
    HeaderReadsBack(|body|);
    var s := Frame(body) + more;
    assert s[..4] == Header(|body|);
    assert s[0] == s[..4][0] && s[1] == s[..4][1] && s[2] == s[..4][2] && s[3] == s[..4][3];
    assert ReadLength(s) == |body|;
  }

  /** What was encoded is what is decoded, with nothing left over. */
  lemma {:induction false} RoundTrip(bodies: seq<Bytes>)
    requires forall i :: 0 <= i < |bodies| ==> |bodies[i]| < FRAME_LIMIT
    ensures Bodies(Encode(bodies)) == bodies && Leftover(Encode(bodies)) == []
  {
    if bodies != [] {
      RoundTrip(bodies[1..]);
      FrameDecodes(bodies[0], Encode(bodies[1..]));
      assert bodies == [bodies[0]] + bodies[1..];
    }
  }

  // ---- Decoding chunk by chunk ----

  function Concat(chunks: seq<Bytes>): Bytes {
    if chunks == [] then [] else Concat(chunks[..|chunks| - 1]) + chunks[|chunks| - 1]
  }

  /** The host's receive side: `delivered` lists the bodies handed to the message handler so far. */
  class Host {
    var inbox: Bytes
    var inputEnded: bool
    var paused: bool
    var pendingResponses: nat
    var delivered: seq<Bytes>
    ghost var received: Bytes
    ghost var settled: nat

    ghost predicate Valid()
      reads this
    {
      && delivered == Bodies(received)
      && inbox == Leftover(received)
      && pendingResponses + settled == |delivered|
      && (paused ==> inputEnded)
      && (inputEnded && pendingResponses == 0 ==> paused)
    }

    constructor ()
      ensures Valid() && received == [] && settled == 0 && !inputEnded
    {
      inbox, inputEnded, paused, pendingResponses, delivered, received, settled := [], false, false, 0, [], [], 0;
    }

    /** Take every whole frame off the inbox, one at a time. */
    method Drain()
      modifies this
      ensures delivered == old(delivered) + Bodies(old(inbox))
      ensures inbox == Leftover(old(inbox))
      ensures pendingResponses == old(pendingResponses) + |Bodies(old(inbox))|
      ensures unchanged(`inputEnded) && unchanged(`paused) && unchanged(`received) && unchanged(`settled)
    {
      hide ReadLength;
      while |inbox| >= 4
        invariant delivered + Bodies(inbox) == old(delivered) + Bodies(old(inbox))
        invariant Leftover(inbox) == Leftover(old(inbox))
        invariant pendingResponses + |Bodies(inbox)| == old(pendingResponses) + |Bodies(old(inbox))|
        invariant unchanged(`inputEnded) && unchanged(`paused) && unchanged(`received) && unchanged(`settled)
        decreases |inbox|
      {
        var length := ReadLength(inbox);
        if |inbox| < 4 + length {
          return;
        }
        var body := inbox[4..4 + length];
        inbox := inbox[4 + length..];
        pendingResponses := pendingResponses + 1;
        delivered := delivered + [body];
      }
    }

    /** A chunk arrives: whatever the cuts, the bodies delivered so far are those of all bytes so far. */
    method Data(chunk: Bytes)
      requires Valid()
      modifies this
      ensures Valid() && received == old(received) + chunk && settled == old(settled)
      ensures old(delivered) <= delivered && inputEnded == old(inputEnded) && paused == old(paused)
    {
      CutsDoNotMatter(received, chunk);
      inbox := inbox + chunk;
      Drain();
      received := received + chunk;
    }

    /** Let stdin go once it has ended and every response is written. */
    method PauseWhenDrained()
      modifies this`paused
      ensures paused == (old(paused) || (inputEnded && pendingResponses == 0))
    {
      if inputEnded && pendingResponses == 0 {
        paused := true;
      }
    }

    method End()
      requires Valid()
      modifies this`inputEnded, this`paused
      ensures Valid() && inputEnded && paused == (old(paused) || pendingResponses == 0)
    {
      inputEnded := true;
      PauseWhenDrained();
    }

    /** A response is written or fails: only a delivered message can settle, so the count never goes negative. */
    method Settle()
      requires Valid() && settled < |delivered|
      modifies this`pendingResponses, this`settled, this`paused
      ensures Valid() && settled == old(settled) + 1 && pendingResponses == old(pendingResponses) - 1
      ensures paused == (old(paused) || (inputEnded && settled == |delivered|))
    {
      pendingResponses := pendingResponses - 1;
      settled := settled + 1;
      PauseWhenDrained();
    }
  }

  /** Bodies and leftover after feeding the chunks one by one. */
  function Feed(chunks: seq<Bytes>): (seq<Bytes>, Bytes) {
    if chunks == [] then ([], []) else
      var (bodies, inbox) := Feed(chunks[..|chunks| - 1]);
      var grown := inbox + chunks[|chunks| - 1];
      (bodies + Bodies(grown), Leftover(grown))
  }

  lemma {:induction false} FeedIsDecode(chunks: seq<Bytes>)
    ensures Feed(chunks) == (Bodies(Concat(chunks)), Leftover(Concat(chunks)))
  {
    if chunks != [] {
      FeedIsDecode(chunks[..|chunks| - 1]);
      CutsDoNotMatter(Concat(chunks[..|chunks| - 1]), chunks[|chunks| - 1]);
    }
  }

  /** For every list of bodies and every cut of their encoding, exactly those bodies come out, in order. */
  lemma ChunkedRoundTrip(bodies: seq<Bytes>, chunks: seq<Bytes>)
    requires forall i :: 0 <= i < |bodies| ==> |bodies[i]| < FRAME_LIMIT
    requires Concat(chunks) == Encode(bodies)
    ensures Feed(chunks) == (bodies, [])
  {
    FeedIsDecode(chunks);
    RoundTrip(bodies);
  }

  /** Cut short, a stream has delivered a first part of its bodies, and holds a proper part of the next frame. */
  lemma {:induction false} CutShort(bodies: seq<Bytes>, s: Bytes)
    requires forall i :: 0 <= i < |bodies| ==> |bodies[i]| < FRAME_LIMIT
    requires s <= Encode(bodies)
    ensures var n := |Bodies(s)|;
      && n <= |bodies| && Bodies(s) == bodies[..n]
      && (if n < |bodies| then Leftover(s) < Frame(bodies[n]) else Leftover(s) == [])
  {
    if bodies == [] {
      assert s == [];
    } else {
      var first, rest := Frame(bodies[0]), Encode(bodies[1..]);
      if |s| < |first| {
        assert s < first;
        PartOfFrameHoldsNone(bodies[0], s);
      } else {
        var tail := s[|first|..];
        assert s == first + tail && tail <= rest;
        FrameDecodes(bodies[0], tail);
        CutShort(bodies[1..], tail);
        assert bodies == [bodies[0]] + bodies[1..];
      }
    }
  }

  lemma PartOfFrameHoldsNone(body: Bytes, s: Bytes)
    requires |body| < FRAME_LIMIT && s < Frame(body)
    ensures !HoldsFrame(s)
  {
    if |s| >= 4 {
      HeaderReadsBack(|body|);
      var f := Frame(body);
      assert s[0] == f[0] && s[1] == f[1] && s[2] == f[2] && s[3] == f[3];
      assert f[..4] == Header(|body|);
      assert f[0] == f[..4][0] && f[1] == f[..4][1] && f[2] == f[..4][2] && f[3] == f[..4][3];
    }
  }
}
