/** Length-prefixed TCP framing (lib/chunking.js).  The two directions differ only in the size of the header:
    two length bytes towards the device, and one sync byte more towards the server. */
module Chunking {
  import opened Octets

  const SYNC_BYTE: byte := 0xFF
  const MAX_FRAME := 0xFFFF
  const SERVER_HEADER := 2
  const DEVICE_HEADER := 3

  function Frame(payload: Bytes): Bytes
    requires |payload| <= MAX_FRAME
  {
    PutU16(|payload|) + payload
  }

  function DeviceFrame(payload: Bytes): Bytes
    requires |payload| <= MAX_FRAME
  {
    PutU16(|payload|) + [SYNC_BYTE] + payload
  }

  /** `encodeFrame`: allocates the buffer, writes the length at 0 and copies the payload to 2. */
  method EncodeFrame(payload: Bytes) returns (r: Option<Bytes>)
    ensures r == if |payload| > MAX_FRAME then None else Some(Frame(payload))
  {
    if |payload| > MAX_FRAME {
      return None;
    }
    var out := new byte[SERVER_HEADER + |payload|];
    out[0], out[1] := |payload| / 256, |payload| % 256;
    for i := 0 to |payload|
      invariant out[0] == |payload| / 256 && out[1] == |payload| % 256
      invariant forall j :: 0 <= j < i ==> out[2 + j] == payload[j]
    {
      out[2 + i] := payload[i];
    }
    assert out[..] == PutU16(|payload|) + payload;
    r := Some(out[..]);
  }

  /** `encodeDeviceFrame`: as above with the sync byte at 2. */
  method EncodeDeviceFrame(payload: Bytes) returns (r: Option<Bytes>)
    ensures r == if |payload| > MAX_FRAME then None else Some(DeviceFrame(payload))
  {
    if |payload| > MAX_FRAME {
      return None;
    }
    var out := new byte[DEVICE_HEADER + |payload|];
    out[0], out[1], out[2] := |payload| / 256, |payload| % 256, SYNC_BYTE;
    for i := 0 to |payload|
      invariant out[0] == |payload| / 256 && out[1] == |payload| % 256 && out[2] == SYNC_BYTE
      invariant forall j :: 0 <= j < i ==> out[3 + j] == payload[j]
    {
      out[3 + i] := payload[i];
    }
    assert out[..] == PutU16(|payload|) + [SYNC_BYTE] + payload;
    r := Some(out[..]);
  }

  // ----- One parse of a whole stream -----

  datatype Parse = Parse(frames: seq<Bytes>, rest: Bytes)

  /** Where the first frame of `s` would end. */
  function End(header: nat, s: Bytes): nat
    requires 2 <= header <= |s|
  {
    header + U16(s[0], s[1])
  }

  predicate Complete(header: nat, s: Bytes)
    requires header >= 2
  {
    header <= |s| && End(header, s) <= |s|
  }

  /** All whole frames of a stream whose headers have `header` bytes, and what is left behind them. */
  function Deframe(header: nat, s: Bytes): (p: Parse)
    requires header >= 2
    ensures |p.rest| <= |s|
    decreases |s|
  {
    if !Complete(header, s) then Parse([], s)
    else Cons(s[header..End(header, s)], Deframe(header, s[End(header, s)..]))
  }

  function Cons(frame: Bytes, p: Parse): Parse {
    Parse([frame] + p.frames, p.rest)
  }

  /** The frames of `p`, then those of `q`, and what `q` left over. */
  function Then(p: Parse, q: Parse): Parse {
    Parse(p.frames + q.frames, q.rest)
  }

  /** What is left over never holds a complete frame. */
  lemma {:induction false} RestIsIncomplete(header: nat, s: Bytes)
    requires header >= 2
    ensures !Complete(header, Deframe(header, s).rest)
    decreases |s|
  {
    if Complete(header, s) {
      RestIsIncomplete(header, s[header + U16(s[0], s[1])..]);
    }
  }

  lemma ConsThen(frame: Bytes, p: Parse, q: Parse)
    ensures Then(Cons(frame, p), q) == Cons(frame, Then(p, q))
  {
  }

  lemma FirstFrame(header: nat, a: Bytes, b: Bytes)
    requires header >= 2 && Complete(header, a)
    ensures var end := End(header, a);
            Deframe(header, a + b) == Cons(a[header..end], Deframe(header, a[end..] + b))
  {
    var s, end := a + b, End(header, a);
    assert s[0] == a[0] && s[1] == a[1];
    assert s[header..end] == a[header..end];
    assert s[end..] == a[end..] + b;
  }

  /** Parsing may stop anywhere in a stream and go on from the bytes it had left over. */
  lemma {:induction false} DeframeResumes(header: nat, a: Bytes, b: Bytes)
    requires header >= 2
    ensures Deframe(header, a + b) == Then(Deframe(header, a), Deframe(header, Deframe(header, a).rest + b))
    decreases |a|
  {
    if Complete(header, a) {
      var end := End(header, a);
      var p := Deframe(header, a[end..]);
      FirstFrame(header, a, b);
      DeframeResumes(header, a[end..], b);
      ConsThen(a[header..end], p, Deframe(header, p.rest + b));
    } else {
      assert [] + Deframe(header, a + b).frames == Deframe(header, a + b).frames;
    }
  }

  /** `feed` after `feed`: the frames of each call in order, and the buffer at the end. */
  function FeedAll(buf: Bytes, chunks: seq<Bytes>): Parse
    decreases |chunks|
  {
    if chunks == [] then Parse([], buf)
    else
      var p := Deframe(DEVICE_HEADER, buf + chunks[0]);
      Then(p, FeedAll(p.rest, chunks[1..]))
  }

  /** Chunking invariance: where TCP cuts the stream changes neither the frames nor the leftover. */
  lemma {:induction false} ChunkingInvariance(buf: Bytes, chunks: seq<Bytes>)
    requires !Complete(DEVICE_HEADER, buf)
    ensures FeedAll(buf, chunks) == Deframe(DEVICE_HEADER, buf + Flatten(chunks))
    decreases |chunks|
  {
    if chunks == [] {
      assert buf + Flatten(chunks) == buf;
    } else {
      var p := Deframe(DEVICE_HEADER, buf + chunks[0]);
      RestIsIncomplete(DEVICE_HEADER, buf + chunks[0]);
      ChunkingInvariance(p.rest, chunks[1..]);
      DeframeResumes(DEVICE_HEADER, buf + chunks[0], Flatten(chunks[1..]));
      assert buf + Flatten(chunks) == (buf + chunks[0]) + Flatten(chunks[1..]);
    }
  }

  // ----- Recovery of what was framed -----

  ghost predicate Sendable(payloads: seq<Bytes>) {
    forall p :: p in payloads ==> |p| <= MAX_FRAME
  }

  function FrameWith(header: nat, payload: Bytes): Bytes
    requires header == SERVER_HEADER || header == DEVICE_HEADER
    requires |payload| <= MAX_FRAME
  {
    if header == SERVER_HEADER then Frame(payload) else DeviceFrame(payload)
  }

  function FrameAll(header: nat, payloads: seq<Bytes>): Bytes
    requires header == SERVER_HEADER || header == DEVICE_HEADER
    requires Sendable(payloads)
  {
    if payloads == [] then [] else FrameWith(header, payloads[0]) + FrameAll(header, payloads[1..])
  }

  lemma OneRecovered(header: nat, payload: Bytes, more: Bytes)
    requires header == SERVER_HEADER || header == DEVICE_HEADER
    requires |payload| <= MAX_FRAME
    ensures Deframe(header, FrameWith(header, payload) + more) == Cons(payload, Deframe(header, more))
  {
  }

  /** Any list of encoded frames comes back exactly, whatever bytes follow it. */
  lemma {:induction false} DeframeRecovers(header: nat, payloads: seq<Bytes>, tail: Bytes)
    requires header == SERVER_HEADER || header == DEVICE_HEADER
    requires Sendable(payloads)
    ensures Deframe(header, FrameAll(header, payloads) + tail) == Then(Parse(payloads, []), Deframe(header, tail))
  {
    if payloads == [] {
      assert FrameAll(header, payloads) + tail == tail;
      assert payloads + Deframe(header, tail).frames == Deframe(header, tail).frames;
    } else {
      var p, rest := payloads[0], FrameAll(header, payloads[1..]);
      assert FrameAll(header, payloads) + tail == FrameWith(header, p) + (rest + tail);
      OneRecovered(header, p, rest + tail);
      DeframeRecovers(header, payloads[1..], tail);
      ConsThen(p, Parse(payloads[1..], []), Deframe(header, tail));
      assert payloads == [p] + payloads[1..];
    }
  }

  /** The frames of a stream's beginning are the beginning of its frames. */
  lemma DeframePrefix(header: nat, a: Bytes, b: Bytes)
    requires header >= 2
    ensures Deframe(header, a).frames <= Deframe(header, a + b).frames
  {
    DeframeResumes(header, a, b);
  }

  /** `FrameReader`: the stateful form, which keeps the bytes of an unfinished frame between calls. */
  class FrameReader {
    var buf: Bytes

    constructor ()
      ensures buf == []
    {
      buf := [];
    }

    method Feed(chunk: Bytes) returns (frames: seq<Bytes>)
      modifies this
      ensures Parse(frames, buf) == Deframe(DEVICE_HEADER, old(buf) + chunk)
      ensures !Complete(DEVICE_HEADER, buf)
    {
      hide Deframe;
      assert old(buf) == [] ==> old(buf) + chunk == chunk;
      buf := if |buf| == 0 then chunk else buf + chunk;
      frames := [];
      ghost var whole := buf;
      DeframeStep(DEVICE_HEADER, buf, frames);
      while |buf| >= 3
        invariant Deframe(DEVICE_HEADER, whole) == Then(Parse(frames, []), Deframe(DEVICE_HEADER, buf))
        decreases |buf|
      {
        DeframeStep(DEVICE_HEADER, buf, frames);
        var len := U16(buf[0], buf[1]);
        if |buf| < 3 + len {
          break;
        }
        frames := frames + [buf[3..3 + len]];
        buf := buf[3 + len..];
      }
      DeframeStep(DEVICE_HEADER, buf, frames);
    }
  }

  /** One turn of the loop of `feed`, or its end. */
  lemma DeframeStep(header: nat, buf: Bytes, frames: seq<Bytes>)
    requires header >= 2
    ensures Then(Parse(frames, []), Deframe(header, buf)) ==
            if !Complete(header, buf) then Parse(frames, buf)
            else Then(Parse(frames + [buf[header..End(header, buf)]], []), Deframe(header, buf[End(header, buf)..]))
    ensures frames == [] ==> Then(Parse(frames, []), Deframe(header, buf)) == Deframe(header, buf)
  {
    if Complete(header, buf) {
      var x, p := buf[header..End(header, buf)], Deframe(header, buf[End(header, buf)..]);
      assert Deframe(header, buf) == Cons(x, p);
      assert frames + ([x] + p.frames) == (frames + [x]) + p.frames;
    } else {
      assert Deframe(header, buf) == Parse([], buf) && frames + [] == frames;
    }
    assert [] + Deframe(header, buf).frames == Deframe(header, buf).frames;
  }

  /** The wire shapes, byte by byte: the length with its high byte first, towards the server the sync byte, then
      the payload. */
  lemma FrameLayout(payload: Bytes)
    requires |payload| <= MAX_FRAME
    ensures var f := Frame(payload);
            256 * f[0] as int + f[1] as int == |payload| && f[2..] == payload
    ensures var f := DeviceFrame(payload);
            256 * f[0] as int + f[1] as int == |payload| && f[2] == 0xFF && f[3..] == payload
  {
    assert |payload| == U16(PutU16(|payload|)[0], PutU16(|payload|)[1]);
  }
}
