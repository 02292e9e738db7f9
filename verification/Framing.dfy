/**
 Frames as a four-byte big-endian length and a body: the camera stream
 (camera_bridge.py) and the input request/response (input_bridge.py, InputServer.kt).
 */
module Framing {
  import opened Prelude

  const CAMERA_CAP: nat := 8 * 1024 * 1024
  const INPUT_CAP: nat := 64 * 1024
  const U32: nat := 0x1_0000_0000

  // ----- lengths -----

  function Be32(n: nat): Bytes
    requires n < U32
  {
    [n / 0x100_0000, n / 0x1_0000 % 256, n / 256 % 256, n % 256]
  }

  /** struct.unpack(">I"): unsigned. */
  function Unsigned(h: Bytes): nat
    requires |h| == 4
  {
    var (a: nat, b: nat, c: nat, d: nat) := (h[0], h[1], h[2], h[3]);
    ((a * 256 + b) * 256 + c) * 256 + d
  }

  /** ByteBuffer.getInt: two's complement. */
  function Signed(h: Bytes): int
    requires |h| == 4
  {
    if h[0] >= 128 then Unsigned(h) - U32 else Unsigned(h)
  }

  predicate InputAccepts(length: int) {
    0 < length <= INPUT_CAP
  }

  lemma Be32RoundTrip(n: nat)
    requires n < U32
    ensures Unsigned(Be32(n)) == n
  {
    assert n / 256 == n / 0x1_0000 * 256 + n / 256 % 256;
    assert n / 0x1_0000 == n / 0x100_0000 * 256 + n / 0x1_0000 % 256;
  }

  lemma UnsignedRoundTrip(h: Bytes)
    requires |h| == 4
    ensures Unsigned(h) < U32 && Be32(Unsigned(h)) == h
  {
    var (a: nat, b: nat, c: nat, d: nat) := (h[0], h[1], h[2], h[3]);
    var n := Unsigned(h);
    assert n / 256 == (a * 256 + b) * 256 + c;
    assert n / 0x1_0000 == a * 256 + b;
  }

  /** Both ends of the input socket accept the same headers and read the same length from them. */
  lemma SameLengthsAccepted(h: Bytes)
    requires |h| == 4
    ensures InputAccepts(Unsigned(h)) <==> InputAccepts(Signed(h))
    ensures InputAccepts(Unsigned(h)) ==> Unsigned(h) == Signed(h)
  {
  }

  /** The two readings of a header, digit by digit, most significant first; accepted are lengths from 1 to 65,536. */
  lemma HeadersMean(h: Bytes)
    requires |h| == 4
    ensures Unsigned(h) == 0x100_0000 * (h[0] as int) + 0x1_0000 * (h[1] as int) + 0x100 * (h[2] as int) + (h[3] as int)
    ensures Signed(h) == Unsigned(h) - if h[0] >= 128 then 0x1_0000_0000 else 0
    ensures InputAccepts(Signed(h)) <==> 1 <= 0x100_0000 * (h[0] as int) + 0x1_0000 * (h[1] as int) + 0x100 * (h[2] as int) + (h[3] as int) <= 65_536
  {
  }

  // ----- encoding and decoding -----

  function Frame(body: Bytes): Bytes
    requires |body| < U32
  {
    Be32(|body|) + body
  }

  /** On the wire: four bytes that add up to the length, then the body. */
  lemma FrameMeans(body: Bytes)
    requires |body| < 0x1_0000_0000
    ensures var f := Frame(body);
      && |f| == 4 + |body| && f[4..] == body
      && 0x100_0000 * (f[0] as int) + 0x1_0000 * (f[1] as int) + 0x100 * (f[2] as int) + (f[3] as int) == |body|
  {
    Be32RoundTrip(|body|);
    HeadersMean(Be32(|body|));
    hide Unsigned, Be32;
  }

  predicate Sendable(frames: seq<Bytes>) {
    forall i :: 0 <= i < |frames| ==> |frames[i]| < U32
  }

  predicate InCap(frames: seq<Bytes>, cap: nat) {
    forall i :: 0 <= i < |frames| ==> |frames[i]| <= cap
  }

  function Encode(frames: seq<Bytes>): Bytes
    requires Sendable(frames)
  {
    if frames == [] then [] else Frame(frames[0]) + Encode(frames[1..])
  }

  /** The frames a reader gets out of a byte string: empty ones skipped, ending at an oversized or cut one. */
  function Decoded(s: Bytes, cap: nat): seq<Bytes>
    decreases |s|
  {
    if |s| < 4 then []
    else
      var n := Unsigned(s[..4]);
      if n == 0 then Decoded(s[4..], cap)
      else if n > cap || |s| < 4 + n then []
      else [s[4..4 + n]] + Decoded(s[4 + n..], cap)
  }

  lemma {:induction false} EncodeAppend(a: seq<Bytes>, b: seq<Bytes>)
    requires Sendable(a) && Sendable(b)
    ensures Encode(a + b) == Encode(a) + Encode(b)
  {
    if a == [] {
      assert a + b == b;
    } else {
      assert (a + b)[1..] == a[1..] + b;
      EncodeAppend(a[1..], b);
      assert Frame(a[0]) + (Encode(a[1..]) + Encode(b)) == (Frame(a[0]) + Encode(a[1..])) + Encode(b);
    }
  }

  /** Decoding one frame in front of anything. */
  lemma DecodeFrame(body: Bytes, t: Bytes, cap: nat)
    requires |body| < U32
    ensures Decoded(Frame(body) + t, cap)
         == if |body| > cap then [] else (if body == [] then [] else [body]) + Decoded(t, cap)
  {
    var s := Frame(body) + t;
    Be32RoundTrip(|body|);
    hide Be32, Unsigned;
    assert s[..4] == Be32(|body|);
    assert s[4..] == body + t;
    if 0 < |body| <= cap {
      assert s[4..4 + |body|] == body && s[4 + |body|..] == t;
    }
    if body == [] { assert s[4..] == t; }
  }

  /** Decoding frames in front of anything. */
  lemma {:induction false} DecodeFrames(frames: seq<Bytes>, t: Bytes, cap: nat)
    requires Sendable(frames) && InCap(frames, cap)
    ensures Decoded(Encode(frames) + t, cap) == NonEmpty(frames) + Decoded(t, cap)
  {
    if frames == [] {
      assert Encode(frames) + t == t;
    } else {
      var body, rest := frames[0], frames[1..];
      var kept := if body == [] then [] else [body];
      InCapSplit(frames, cap);
      assert NonEmpty(frames) == kept + NonEmpty(rest) && Encode(frames) == Frame(body) + Encode(rest);
      hide *;
      DecodeFrames(rest, t, cap);
      DecodeFrame(body, Encode(rest) + t, cap);
      Associative(Frame(body), Encode(rest), t);
      Associative(kept, NonEmpty(rest), Decoded(t, cap));
    }
  }

  lemma {:induction false} NonEmptyShorter(frames: seq<Bytes>)
    ensures |NonEmpty(frames)| <= |frames|
  {
    if frames != [] { NonEmptyShorter(frames[1..]); }
  }

  lemma InCapSplit(frames: seq<Bytes>, cap: nat)
    requires frames != []
    ensures InCap(frames, cap) <==> |frames[0]| <= cap && InCap(frames[1..], cap)
    ensures Sendable(frames) ==> Sendable(frames[1..]) && |frames[0]| < U32
  {
    assert forall i :: 0 < i < |frames| ==> frames[i] == frames[1..][i - 1];
  }

  lemma SameTail(head: seq<Bytes>, a: seq<Bytes>, b: seq<Bytes>)
    ensures head + a == head + b <==> a == b
  {
    assert (head + a)[|head|..] == a && (head + b)[|head|..] == b;
  }

  /** The reader gets back exactly the non-empty frames if and only if every frame is within the cap. */
  lemma {:induction false} DecodeInvertsEncode(frames: seq<Bytes>, cap: nat)
    requires Sendable(frames)
    ensures Decoded(Encode(frames), cap) == NonEmpty(frames) <==> InCap(frames, cap)
  {
    if frames != [] {
      var body, rest := frames[0], frames[1..];
      var kept := if body == [] then [] else [body];
      InCapSplit(frames, cap);
      assert Encode(frames) == Frame(body) + Encode(rest) && NonEmpty(frames) == kept + NonEmpty(rest);
      hide *;
      DecodeFrame(body, Encode(rest), cap);
      DecodeInvertsEncode(rest, cap);
      SameTail(kept, Decoded(Encode(rest), cap), NonEmpty(rest));
    }
  }

  /** At the first frame over the cap reading stops, and nothing behind it is read. */
  lemma StopsAtOversized(frames: seq<Bytes>, i: nat, cap: nat)
    requires Sendable(frames) && i < |frames| && |frames[i]| > cap && InCap(frames[..i], cap)
    ensures Decoded(Encode(frames), cap) == NonEmpty(frames[..i])
  {
    var front, big, rest := frames[..i], frames[i], frames[i + 1..];
    assert frames == front + ([big] + rest) && ([big] + rest)[1..] == rest;
    EncodeAppend(front, [big] + rest);
    hide Frame, Decoded, NonEmpty;
    DecodeFrames(front, Encode([big] + rest), cap);
    DecodeFrame(big, Encode(rest), cap);
    assert NonEmpty(front) + [] == NonEmpty(front);
  }

  /** How many frames end within the first k bytes. */
  function CompleteBefore(frames: seq<Bytes>, k: nat): (m: nat)
    ensures m <= |frames|
  {
    if frames == [] || k < 4 + |frames[0]| then 0 else 1 + CompleteBefore(frames[1..], k - 4 - |frames[0]|)
  }

  /** CompleteBefore counts exactly the frames whose last byte is before the cut. */
  lemma {:induction false} CompleteBeforeIsLargest(frames: seq<Bytes>, k: nat, m: nat)
    requires Sendable(frames) && m <= |frames|
    ensures m <= CompleteBefore(frames, k) <==> |Encode(frames[..m])| <= k
  {
    if m > 0 {
      assert frames[..m][0] == frames[0] && frames[..m][1..] == frames[1..][..m - 1];
      if k >= 4 + |frames[0]| {
        CompleteBeforeIsLargest(frames[1..], k - 4 - |frames[0]|, m - 1);
      }
    }
  }

  /** A cut inside a frame yields nothing of it. */
  lemma CutFrame(body: Bytes, k: nat, t: Bytes, cap: nat)
    requires |body| < U32 && k < 4 + |body|
    ensures Decoded((Frame(body) + t)[..k], cap) == []
  {
    var s := (Frame(body) + t)[..k];
    Be32RoundTrip(|body|);
    hide Be32, Unsigned;
    if k >= 4 {
      assert s[..4] == Be32(|body|);
    }
  }

  /** A cut behind the first frame leaves that frame and a cut of the rest. */
  lemma CutBehind(frames: seq<Bytes>, k: nat, m: nat)
    requires frames != [] && Sendable(frames) && 4 + |frames[0]| <= k <= |Encode(frames)| && m < |frames|
    ensures |Encode(frames)| == 4 + |frames[0]| + |Encode(frames[1..])|
    ensures Encode(frames)[..k] == Frame(frames[0]) + Encode(frames[1..])[..k - 4 - |frames[0]|]
    ensures NonEmpty(frames[..m + 1]) == (if frames[0] == [] then [] else [frames[0]]) + NonEmpty(frames[1..][..m])
  {
    assert frames[..m + 1][1..] == frames[1..][..m];
    assert |Frame(frames[0])| == 4 + |frames[0]|;
    hide Frame;
  }

  /** A stream cut at any byte yields exactly the non-empty frames complete before the cut. */
  lemma {:induction false} CutStream(frames: seq<Bytes>, k: nat, cap: nat)
    requires Sendable(frames) && InCap(frames, cap) && k <= |Encode(frames)|
    ensures Decoded(Encode(frames)[..k], cap) == NonEmpty(frames[..CompleteBefore(frames, k)])
  {
    if frames == [] {
      assert CompleteBefore(frames, k) == 0;
    } else if k < 4 + |frames[0]| {
      CutInFirst(frames, k, cap);
    } else {
      var body, rest := frames[0], frames[1..];
      var left := k - 4 - |body|;
      assert CompleteBefore(frames, k) == CompleteBefore(rest, left) + 1;
      InCapSplit(frames, cap);
      CutBehind(frames, k, CompleteBefore(rest, left));
      hide *;
      CutStream(rest, left, cap);
      DecodeFrame(body, Encode(rest)[..left], cap);
    }
  }

  lemma CutInFirst(frames: seq<Bytes>, k: nat, cap: nat)
    requires frames != [] && Sendable(frames) && k < 4 + |frames[0]| && k <= |Encode(frames)|
    ensures Decoded(Encode(frames)[..k], cap) == NonEmpty(frames[..CompleteBefore(frames, k)])
  {
    assert Encode(frames) == Frame(frames[0]) + Encode(frames[1..]);
    assert CompleteBefore(frames, k) == 0 && NonEmpty(frames[..0]) == [];
    hide *;
    CutFrame(frames[0], k, Encode(frames[1..]), cap);
  }

  // ----- sockets -----

  /** One direction of a connection: what will arrive before the peer closes. Reads may come back short or fail. */
  class Pipe {
    var incoming: Bytes
    var failed: bool

    constructor ()
      ensures incoming == [] && !failed
    {
      incoming, failed := [], false;
    }

    method Send(data: Bytes)
      modifies this`incoming
      ensures incoming == old(incoming) + data
    {
      incoming := incoming + data;
    }

    /** Any non-empty part of what is there; nothing at the end, on a timeout or on an error. */
    method Recv(n: nat) returns (chunk: Bytes)
      requires n > 0
      modifies this
      ensures chunk + incoming == old(incoming) && |chunk| <= n
      ensures chunk == [] ==> failed || incoming == []
      ensures failed == old(failed) || chunk == []
      ensures old(failed) ==> failed
    {
      if * {
        failed := true;
        return [];
      }
      if incoming == [] { return []; }
      var k :| 1 <= k <= n && k <= |incoming|;
      chunk, incoming := incoming[..k], incoming[k..];
    }

    /** Java's read(buffer, offset, length): the count, or -1 when nothing comes. */
    method Read(buffer: array<byte>, offset: nat, length: nat) returns (n: int)
      requires length > 0 && offset + length <= buffer.Length
      modifies this, buffer
      ensures n == -1 || 1 <= n <= length
      ensures n == -1 ==> buffer[..] == old(buffer[..]) && incoming == old(incoming) && (failed || incoming == [])
      ensures n > 0 ==> buffer[..offset] == old(buffer[..offset]) && failed == old(failed)
      ensures n > 0 ==> buffer[offset..offset + n] + incoming == old(incoming)
      ensures old(failed) ==> failed
    {
      var chunk := Recv(length);
      if chunk == [] { return -1; }
      forall i | 0 <= i < |chunk| { buffer[offset + i] := chunk[i]; }
      assert buffer[offset..offset + |chunk|] == chunk;
      return |chunk|;
    }
  }

  /** _read_exact: exactly n bytes, or nothing when the stream ends or fails first. */
  method ReadExact(sock: Pipe, n: nat) returns (r: Option<Bytes>)
    modifies sock
    ensures r.Some? ==> |r.value| == n && r.value + sock.incoming == old(sock.incoming) && sock.failed == old(sock.failed)
    ensures r.None? ==> (sock.failed || |old(sock.incoming)| < n)
    ensures r.None? ==> exists part: Bytes :: |part| < n && part + sock.incoming == old(sock.incoming)
    ensures old(sock.failed) ==> sock.failed
  {
    var chunks: seq<Bytes> := [];
    var remaining := n;
    while remaining > 0
      invariant remaining >= 0 && |Concat(chunks)| + remaining == n
      invariant Concat(chunks) + sock.incoming == old(sock.incoming) && sock.failed == old(sock.failed)
    {
      ghost var before := sock.incoming;
      var chunk := sock.Recv(remaining);
      if chunk == [] {
        assert Concat(chunks) + sock.incoming == old(sock.incoming);
        return None;
      }
      ConcatAppend(chunks, [chunk]);
      assert Concat([chunk]) == chunk;
      assert Concat(chunks) + (chunk + sock.incoming) == (Concat(chunks) + chunk) + sock.incoming;
      chunks := chunks + [chunk];
      remaining := remaining - |chunk|;
    }
    return Some(Concat(chunks));
  }

  /** The bytes taken off a socket that held s. */
  function Taken(s: Bytes, left: Bytes): Bytes {
    if |left| <= |s| then s[..|s| - |left|] else s
  }

  /** What has been read so far is whole in-cap frames, and these are the ones handed on. */
  ghost predicate Streamed(s: Bytes, left: Bytes, frames: seq<Bytes>, cap: nat) {
    exists sent: seq<Bytes> :: StreamedBy(s, left, frames, cap, sent)
  }

  ghost predicate StreamedBy(s: Bytes, left: Bytes, frames: seq<Bytes>, cap: nat, sent: seq<Bytes>) {
    Sendable(sent) && InCap(sent, cap) && s == Encode(sent) + left && frames == NonEmpty(sent)
  }

  lemma StreamStarts(s: Bytes, cap: nat)
    ensures Streamed(s, s, [], cap)
  {
    assert StreamedBy(s, s, [], cap, []);
  }

  lemma StreamAdvances(s: Bytes, header: Bytes, body: Bytes, left: Bytes, frames: seq<Bytes>, cap: nat)
    requires Streamed(s, header + (body + left), frames, cap)
    requires |header| == 4 && |body| == Unsigned(header) && |body| <= cap
    ensures Streamed(s, left, if body == [] then frames else frames + [body], cap)
  {
    hide StreamedBy, Unsigned;
    var sent: seq<Bytes> :| StreamedBy(s, header + (body + left), frames, cap, sent);
    AdvanceBy(s, header, body, left, frames, cap, sent);
  }

  lemma AdvanceBy(s: Bytes, header: Bytes, body: Bytes, left: Bytes, frames: seq<Bytes>, cap: nat, sent: seq<Bytes>)
    requires StreamedBy(s, header + (body + left), frames, cap, sent)
    requires |header| == 4 && |body| == Unsigned(header) && |body| <= cap
    ensures StreamedBy(s, left, if body == [] then frames else frames + [body], cap, sent + [body])
  {
    UnsignedRoundTrip(header);
    AppendOne(sent, body);
    assert Frame(body) == header + body;
    assert Sendable(sent + [body]) && InCap(sent + [body], cap);
    hide Unsigned, Be32, Encode, NonEmpty, Frame, Sendable, InCap;
    Associative(header, body, left);
    Associative(Encode(sent), header + body, left);
  }

  lemma AppendOne(sent: seq<Bytes>, body: Bytes)
    requires Sendable(sent) && |body| < U32
    ensures Encode(sent + [body]) == Encode(sent) + Frame(body)
    ensures NonEmpty(sent + [body]) == if body == [] then NonEmpty(sent) else NonEmpty(sent) + [body]
  {
    EncodeAppend(sent, [body]);
    NonEmptyAppend(sent, [body]);
    hide Frame;
    assert Encode([body]) == Frame(body);
    assert NonEmpty([body]) == if body == [] then [] else [body];
  }

  /** Reading stops where nothing more can be decoded: of what was taken, and of what is left too unless a read failed. */
  lemma StreamEnds(s: Bytes, before: Bytes, part: Bytes, left: Bytes, frames: seq<Bytes>, cap: nat)
    requires Streamed(s, before, frames, cap) && before == part + left
    ensures Decoded(part, cap) == [] ==> Decoded(Taken(s, left), cap) == frames
    ensures Decoded(before, cap) == [] ==> Decoded(s, cap) == frames
  {
    hide Encode, Decoded, NonEmpty;
    var sent: seq<Bytes> :| StreamedBy(s, before, frames, cap, sent);
    DecodeFrames(sent, before, cap);
    DecodeFrames(sent, part, cap);
    assert s == (Encode(sent) + part) + left;
    assert Taken(s, left) == Encode(sent) + part;
  }

  /**
   The camera reader, until the stream ends, fails, or announces an oversized frame: it yields
   exactly the frames of the bytes it took, and of the whole stream when no read failed.
   */
  method StreamFromSocket(sock: Pipe) returns (frames: seq<Bytes>)
    modifies sock
    ensures frames == Decoded(Taken(old(sock.incoming), sock.incoming), 8_388_608)
    ensures !sock.failed ==> frames == Decoded(old(sock.incoming), 8_388_608)
  {
    ghost var s := sock.incoming;
    frames := [];
    StreamStarts(s, CAMERA_CAP);
    while true
      invariant Streamed(s, sock.incoming, frames, CAMERA_CAP)
      decreases |sock.incoming|
    {
      hide Streamed, Encode, NonEmpty, Taken, Decoded, Unsigned;
      ghost var before := sock.incoming;
      var header := ReadExact(sock, 4);
      if header.None? {
        ghost var part: Bytes :| |part| < 4 && part + sock.incoming == before;
        NothingDecoded(part, [], CAMERA_CAP);
        NothingDecoded(before, [], CAMERA_CAP);
        StreamEnds(s, before, part, sock.incoming, frames, CAMERA_CAP);
        return;
      }
      var length := Unsigned(header.value);
      if length == 0 {
        assert [] + sock.incoming == sock.incoming;
        StreamAdvances(s, header.value, [], sock.incoming, frames, CAMERA_CAP);
        continue;
      }
      ghost var rest := sock.incoming;
      NothingDecoded(header.value, rest, CAMERA_CAP);
      if length > CAMERA_CAP {
        NothingDecoded(header.value, [], CAMERA_CAP);
        assert header.value + [] == header.value;
        StreamEnds(s, before, header.value, rest, frames, CAMERA_CAP);
        return;
      }
      var body := ReadExact(sock, length);
      if body.None? {
        ghost var part: Bytes :| |part| < length && part + sock.incoming == rest;
        NothingDecoded(header.value, part, CAMERA_CAP);
        Associative(header.value, part, sock.incoming);
        StreamEnds(s, before, header.value + part, sock.incoming, frames, CAMERA_CAP);
        return;
      }
      StreamAdvances(s, header.value, body.value, sock.incoming, frames, CAMERA_CAP);
      frames := frames + [body.value];
    }
  }

  /** A cut header, an oversized length and a cut body yield nothing. */
  lemma NothingDecoded(header: Bytes, body: Bytes, cap: nat)
    ensures |header| < 4 && body == [] ==> Decoded(header, cap) == []
    ensures |header| == 4 && 0 < Unsigned(header) && (Unsigned(header) > cap || |body| < Unsigned(header)) ==>
              Decoded(header + body, cap) == []
  {
    if |header| == 4 { assert (header + body)[..4] == header; }
  }

  // ----- the input socket -----

  /** The first frame of a byte string, when it is complete, non-empty and within the cap. */
  function FirstFrame(s: Bytes): Option<Bytes> {
    if |s| < 4 then None
    else
      var n := Unsigned(s[..4]);
      if !InputAccepts(n) || |s| < 4 + n then None else Some(s[4..4 + n])
  }

  lemma Joined(front: Bytes, more: Bytes, left: Bytes, before: Bytes)
    requires more + left == before
    ensures (front + more) + left == front + before
  {
  }

  /** Reads into an array until n bytes are there. */
  method Fill(ins: Pipe, buffer: array<byte>) returns (full: bool)
    modifies ins, buffer
    ensures full ==> buffer[..] + ins.incoming == old(ins.incoming) && ins.failed == old(ins.failed)
    ensures !full ==> ins.failed || |old(ins.incoming)| < buffer.Length
    ensures old(ins.failed) ==> ins.failed
  {
    var got := 0;
    while got < buffer.Length
      invariant got <= buffer.Length
      invariant buffer[..got] + ins.incoming == old(ins.incoming) && ins.failed == old(ins.failed)
    {
      ghost var front, before := buffer[..got], ins.incoming;
      var n := ins.Read(buffer, got, buffer.Length - got);
      if n < 0 { return false; }
      Joined(front, buffer[got..got + n], ins.incoming, before);
      assert buffer[..got + n] == front + buffer[got..got + n];
      got := got + n;
    }
    assert buffer[..got] == buffer[..];
    return true;
  }

  /** readFrame of the driver: the next frame, or nothing when it is cut, empty or oversized. */
  method ReadFrame(ins: Pipe) returns (r: Option<Bytes>)
    modifies ins
    ensures r.Some? ==> r == FirstFrame(old(ins.incoming)) && ins.failed == old(ins.failed)
    ensures r.Some? ==> Frame(r.value) + ins.incoming == old(ins.incoming)
    ensures r.None? ==> ins.failed || FirstFrame(old(ins.incoming)) == None
    ensures old(ins.failed) ==> ins.failed
  {
    ghost var s := ins.incoming;
    var header := new byte[4](_ => 0);
    var read := Fill(ins, header);
    if !read { return None; }
    ghost var h := header[..];
    assert s[..4] == h;
    var length := SignedOf(header);
    SameLengthsAccepted(h);
    if length <= 0 || length > INPUT_CAP { return None; }
    var body := new byte[length](_ => 0);
    var got := Fill(ins, body);
    hide Unsigned, Signed;
    if !got { return None; }
    UnsignedRoundTrip(h);
    assert s == h + (body[..] + ins.incoming);
    assert s[4..4 + length] == body[..];
    return Some(body[..]);
  }

  function SignedOf(header: array<byte>): int
    requires header.Length == 4
    reads header
  {
    Signed(header[..])
  }

  /** writeFrame: no cap on what is written. */
  method WriteFrame(outs: Pipe, body: Bytes)
    requires |body| < U32
    modifies outs`incoming
    ensures outs.incoming == old(outs.incoming) + Frame(body)
  {
    outs.Send(Be32(|body|));
    outs.Send(body);
    assert old(outs.incoming) + Be32(|body|) + body == old(outs.incoming) + Frame(body);
  }

  /** The requests a driver connection answers: it hangs up at the first frame that is cut, empty or oversized. */
  function Requests(s: Bytes): seq<Bytes>
    decreases |s|
  {
    match FirstFrame(s)
    case None => []
    case Some(body) => [body] + Requests(s[4 + |body|..])
  }

  lemma RequestInFront(body: Bytes, t: Bytes)
    requires |body| < U32
    ensures FirstFrame(Frame(body) + t) == if InputAccepts(|body|) then Some(body) else None
    ensures Requests(Frame(body) + t) == if InputAccepts(|body|) then [body] + Requests(t) else []
  {
    var s := Frame(body) + t;
    Be32RoundTrip(|body|);
    hide Be32, Unsigned;
    assert s[..4] == Be32(|body|) && s[4..] == body + t;
    assert s[4..4 + |body|] == body && s[4 + |body|..] == t;
  }

  predicate Readable(sent: seq<Bytes>) {
    forall i :: 0 <= i < |sent| ==> 1 <= |sent[i]| <= 65_536
  }

  lemma ReadableSplit(sent: seq<Bytes>)
    requires sent != []
    ensures Readable(sent) <==> InputAccepts(|sent[0]|) && Readable(sent[1..])
  {
    assert forall i :: 0 < i < |sent| ==> sent[i] == sent[1..][i - 1];
  }

  /** Every request sent is answered if and only if each is non-empty and within the cap. */
  lemma {:induction false} RequestsInvertEncode(sent: seq<Bytes>)
    requires Sendable(sent)
    ensures Requests(Encode(sent)) == sent <==> forall i :: 0 <= i < |sent| ==> 1 <= |sent[i]| <= 65_536
  {
    if sent != [] {
      var body, rest := sent[0], sent[1..];
      assert Encode(sent) == Frame(body) + Encode(rest) && sent == [body] + rest;
      hide Frame, Encode, Requests, InputAccepts;
      RequestInFront(body, Encode(rest));
      RequestsInvertEncode(rest);
      SameTail([body], Requests(Encode(rest)), rest);
      ReadableSplit(sent);
      assert Readable(rest) <==> Requests(Encode(rest)) == rest;
    }
  }

  /** At the first empty or oversized request the driver hangs up; the ones before it are answered. */
  lemma {:induction false} StopsAtUnreadable(sent: seq<Bytes>, i: nat)
    requires Sendable(sent) && i < |sent| && (|sent[i]| == 0 || |sent[i]| > 65_536)
    requires forall j :: 0 <= j < i ==> 1 <= |sent[j]| <= 65_536
    ensures Requests(Encode(sent)) == sent[..i]
  {
    var body, rest := sent[0], sent[1..];
    assert Encode(sent) == Frame(body) + Encode(rest);
    RequestInFront(body, Encode(rest));
    if i > 0 {
      assert forall j :: 0 <= j < |rest| ==> rest[j] == sent[j + 1];
      StopsAtUnreadable(rest, i - 1);
      hide Frame, Encode, Requests;
      assert sent[..i] == [body] + rest[..i - 1];
    }
  }

  function Answers(handle: Bytes -> Bytes, reqs: seq<Bytes>): Bytes
    requires forall b :: |handle(b)| < U32
  {
    if reqs == [] then [] else Frame(handle(reqs[0])) + Answers(handle, reqs[1..])
  }

  lemma {:induction false} AnswerOneMore(handle: Bytes -> Bytes, done: seq<Bytes>, req: Bytes)
    requires forall b :: |handle(b)| < U32
    ensures Answers(handle, done + [req]) == Answers(handle, done) + Frame(handle(req))
  {
    hide Frame;
    if done == [] {
      assert done + [req] == [req];
      assert Answers(handle, [req]) == Frame(handle(req)) + Answers(handle, []);
    } else {
      assert (done + [req])[1..] == done[1..] + [req];
      AnswerOneMore(handle, done[1..], req);
      Associative(Frame(handle(done[0])), Answers(handle, done[1..]), Frame(handle(req)));
    }
  }

  /** handleClient: answers its requests in order, all of them unless a read fails. */
  method HandleClient(ins: Pipe, outs: Pipe, handle: Bytes -> Bytes) returns (done: seq<Bytes>)
    requires ins != outs && forall b :: |handle(b)| < U32
    modifies ins, outs`incoming
    ensures outs.incoming == old(outs.incoming) + Answers(handle, done)
    ensures done <= Requests(old(ins.incoming))
    ensures !ins.failed ==> done == Requests(old(ins.incoming))
  {
    done := [];
    hide Frame, FirstFrame, Requests;
    while true
      invariant outs.incoming == old(outs.incoming) + Answers(handle, done)
      invariant done + Requests(ins.incoming) == Requests(old(ins.incoming))
      decreases |ins.incoming|
    {
      ghost var s, sent := ins.incoming, outs.incoming;
      var req := ReadFrame(ins);
      NextRequest(s, req, ins.incoming);
      if req.None? { break; }
      WriteFrame(outs, handle(req.value));
      AnswerOneMore(handle, done, req.value);
      Associative(old(outs.incoming), Answers(handle, done), Frame(handle(req.value)));
      Associative(done, [req.value], Requests(ins.incoming));
      done := done + [req.value];
    }
  }

  lemma NextRequest(s: Bytes, req: Option<Bytes>, left: Bytes)
    ensures FirstFrame(s) == None ==> Requests(s) == []
    ensures req.Some? && req == FirstFrame(s) && s == Frame(req.value) + left ==>
              Requests(s) == [req.value] + Requests(left) && |left| < |s|
  {
    if req.Some? && req == FirstFrame(s) && s == Frame(req.value) + left {
      RequestInFront(req.value, left);
    }
  }

  /** The response as the agent reads it. */
  method ReadResponse(sock: Pipe) returns (r: Option<Bytes>)
    modifies sock
    ensures r.Some? ==> r == FirstFrame(old(sock.incoming))
    ensures r.None? ==> sock.failed || FirstFrame(old(sock.incoming)) == None
    ensures old(sock.failed) ==> sock.failed
  {
    ghost var s := sock.incoming;
    var header := ReadExact(sock, 4);
    if header.None? { return None; }
    assert s[..4] == header.value;
    var respLen := Unsigned(header.value);
    if respLen <= 0 || respLen > INPUT_CAP { return None; }
    ghost var rest := sock.incoming;
    hide Unsigned;
    r := ReadExact(sock, respLen);
    assert s[4..] == rest;
    if r.Some? { assert s[4..4 + respLen] == r.value; }
  }

  /**
   send_command against the driver. A result is the driver's answer to this very request; and
   one comes back exactly when request and answer are non-empty and within the cap, unless a read failed.
   */
  method SendCommand(payload: Bytes, handle: Bytes -> Bytes) returns (r: Option<Bytes>, failed: bool)
    requires forall b :: |handle(b)| < U32
    ensures r.Some? ==> 1 <= |payload| <= 65_536 && 1 <= |r.value| <= 65_536 && r.value == handle(payload)
    ensures !failed ==> (r.Some? <==> 1 <= |payload| <= 65_536 && 1 <= |handle(payload)| <= 65_536)
  {
    if |payload| > INPUT_CAP { return None, false; }
    var toDriver := new Pipe();
    var fromDriver := new Pipe();
    RequestInFront(handle(payload), []);
    assert FirstFrame([]) == None;
    toDriver.Send(Be32(|payload|) + payload);
    assert toDriver.incoming == Frame(payload);
    RequestInFront(payload, []);
    assert Frame(payload) + [] == Frame(payload) && Frame(handle(payload)) + [] == Frame(handle(payload)) && Requests([]) == [];
    hide Be32, Frame, FirstFrame, Requests;
    var done := HandleClient(toDriver, fromDriver, handle);
    assert fromDriver.incoming == Answers(handle, done);
    assert done == [] || (done == [payload] && InputAccepts(|payload|));
    assert Answers(handle, [payload]) == Frame(handle(payload)) + Answers(handle, []) == Frame(handle(payload));
    r := ReadResponse(fromDriver);
    return r, toDriver.failed || fromDriver.failed;
  }
}
