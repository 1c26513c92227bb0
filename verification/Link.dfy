/** The encrypted channel between server and device (lib/session.js, lib/crypto.js): two directions, each with
    any number of frames in flight.  After each frame a side's initialisation vector becomes the first 16 bytes
    of the ciphertext. */
module Link {
  import opened Octets
  import opened Cipher
  import opened Chunking

  /** The longest plaintext whose ciphertext fits a frame. */
  const MAX_PLAIN := 65519

  function Seal1(c: BlockCipher, key: Block, iv: Block, p: Bytes): (ct: Bytes)
    ensures |ct| == 16 * (|p| / 16 + 1) && |ct| >= 16 && |ct| % 16 == 0
    ensures |ct| <= MAX_FRAME <==> |p| <= MAX_PLAIN
  {
    AesEncrypt(c, key, iv, p).value
  }

  function Roll(ct: Bytes): Block
    requires |ct| >= 16
  {
    ct[..16]
  }

  /** Whole blocks, and at least one. */
  ghost predicate Whole(cts: seq<Bytes>) {
    forall ct :: ct in cts ==> |ct| >= 16 && |ct| % 16 == 0
  }

  /** The ciphertexts of a list of plaintexts, each sent under the vector the one before it left. */
  function Seal(c: BlockCipher, key: Block, iv: Block, ps: seq<Bytes>): (cts: seq<Bytes>)
    ensures |cts| == |ps| && Whole(cts)
    decreases |ps|
  {
    if ps == [] then []
    else
      var ct := Seal1(c, key, iv, ps[0]);
      [ct] + Seal(c, key, Roll(ct), ps[1..])
  }

  /** The vector a side holds after these ciphertexts. */
  function IvAfter(iv: Block, cts: seq<Bytes>): Block
    requires Whole(cts)
  {
    if cts == [] then iv else Roll(cts[|cts| - 1])
  }

  lemma {:induction false} SealAppends(c: BlockCipher, key: Block, iv: Block, ps: seq<Bytes>, p: Bytes)
    ensures var cts := Seal(c, key, iv, ps);
            Seal(c, key, iv, ps + [p]) == cts + [Seal1(c, key, IvAfter(iv, cts), p)]
    decreases |ps|
  {
    hide Seal1, Roll;
    if ps == [] {
      assert [p][1..] == [];
    } else {
      var ct := Seal1(c, key, iv, ps[0]);
      assert (ps + [p])[0] == ps[0] && (ps + [p])[1..] == ps[1..] + [p];
      SealAppends(c, key, Roll(ct), ps[1..], p);
      var rest := Seal(c, key, Roll(ct), ps[1..]);
      assert rest != [] ==> ([ct] + rest)[|rest|] == rest[|rest| - 1];
    }
  }

  /** Frame by frame: the i-th ciphertext is made under the vector that the i before it leave behind. */
  lemma {:induction false} SealAt(c: BlockCipher, key: Block, iv: Block, ps: seq<Bytes>, i: nat)
    requires i < |ps|
    ensures var cts := Seal(c, key, iv, ps);
            cts[..i] == Seal(c, key, iv, ps[..i]) && cts[i] == Seal1(c, key, IvAfter(iv, cts[..i]), ps[i])
    decreases |ps|
  {
    hide Seal1, Roll, Seal, IvAfter;
    var front, last := ps[..|ps| - 1], ps[|ps| - 1];
    assert ps == front + [last];
    SealAppends(c, key, iv, front, last);
    var cts, cts0 := Seal(c, key, iv, ps), Seal(c, key, iv, front);
    if i < |front| {
      SealAt(c, key, iv, front, i);
      assert ps[..i] == front[..i] && cts[..i] == cts0[..i];
    } else {
      assert ps[..i] == front && cts[..i] == cts0;
    }
  }

  /** What a receiver reads from a list of ciphertexts, rolling its vector. */
  function Opened(c: BlockCipher, key: Block, iv: Block, cts: seq<Bytes>): (ps: seq<Bytes>)
    requires Whole(cts)
    ensures |ps| == |cts|
    decreases |cts|
  {
    if cts == [] then []
    else [AesDecrypt(c, key, iv, cts[0]).value] + Opened(c, key, Roll(cts[0]), cts[1..])
  }

  lemma {:induction false} OpenedSnoc(c: BlockCipher, key: Block, iv: Block, cts: seq<Bytes>, ct: Bytes)
    requires Whole(cts + [ct])
    ensures Whole(cts) && |ct| >= 16 && |ct| % 16 == 0
    ensures Opened(c, key, iv, cts + [ct]) ==
            Opened(c, key, iv, cts) + [AesDecrypt(c, key, IvAfter(iv, cts), ct).value]
    decreases |cts|
  {
    hide AesDecrypt, Roll;
    assert ct in cts + [ct];
    assert forall x :: x in cts ==> x in cts + [ct];
    if cts == [] {
      assert [ct][1..] == [];
    } else {
      assert (cts + [ct])[0] == cts[0] && (cts + [ct])[1..] == cts[1..] + [ct];
      OpenedSnoc(c, key, Roll(cts[0]), cts[1..], ct);
      assert IvAfter(Roll(cts[0]), cts[1..]) == IvAfter(iv, cts);
    }
  }

  lemma {:induction false} OpenedPrefix(c: BlockCipher, key: Block, iv: Block, cts: seq<Bytes>, k: nat)
    requires Whole(cts) && k <= |cts|
    ensures Whole(cts[..k]) && Opened(c, key, iv, cts[..k]) == Opened(c, key, iv, cts)[..k]
    decreases |cts|
  {
    hide AesDecrypt, Opened, IvAfter;
    if k == |cts| {
      assert cts[..k] == cts;
    } else {
      var front := cts[..|cts| - 1];
      assert cts == front + [cts[|cts| - 1]];
      OpenedSnoc(c, key, iv, front, cts[|cts| - 1]);
      OpenedPrefix(c, key, iv, front, k);
      assert front[..k] == cts[..k];
    }
  }

  // ----- The protocol -----

  /** One direction: the vectors of sender and receiver, the ciphertexts in flight, and the plaintexts the sender
      tried to send, those of them that were written, and those received so far. */
  datatype Direction = Direction(
    ivS: Block, ivR: Block, wire: seq<Bytes>, tried: seq<Bytes>, sent: seq<Bytes>, got: seq<Bytes>)

  datatype Channel = Channel(up: Direction, down: Direction)

  datatype Step = Send(fromDevice: bool, p: Bytes) | Deliver(toServer: bool)

  /** `_sendPlain`: encrypt and roll, and only then find out whether the frame can be written. */
  function SendOn(c: BlockCipher, key: Block, d: Direction, p: Bytes): Direction {
    var ct := Seal1(c, key, d.ivS, p);
    var d' := d.(ivS := Roll(ct), tried := d.tried + [p]);
    if |ct| > MAX_FRAME then d' else d'.(wire := d.wire + [ct], sent := d.sent + [p])
  }

  /** The receiver decrypts the oldest frame in flight and rolls.  Frames that are not whole blocks, which no
      sender makes, are left where they are. */
  function DeliverOn(c: BlockCipher, key: Block, d: Direction): Direction {
    if d.wire == [] then d
    else
      var ct := d.wire[0];
      var p := AesDecrypt(c, key, d.ivR, ct);
      if |ct| < 16 || p.None? then d
      else d.(ivR := Roll(ct), wire := d.wire[1..], got := d.got + [p.value])
  }

  function NextChannel(c: BlockCipher, key: Block, l: Channel, s: Step): Channel {
    match s
    case Send(true, p) => l.(up := SendOn(c, key, l.up, p))
    case Send(false, p) => l.(down := SendOn(c, key, l.down, p))
    case Deliver(true) => l.(up := DeliverOn(c, key, l.up))
    case Deliver(false) => l.(down := DeliverOn(c, key, l.down))
  }

  function RunChannel(c: BlockCipher, key: Block, l: Channel, steps: seq<Step>): Channel {
    if steps == [] then l else NextChannel(c, key, RunChannel(c, key, l, steps[..|steps| - 1]), steps[|steps| - 1])
  }

  /** Delivered plaintexts are the first of those sent; the frames in flight are the rest, encrypted from the
      receiver's vector on and ending at the sender's. */
  ghost predicate Synced(c: BlockCipher, key: Block, d: Direction) {
    && d.got <= d.sent
    && d.wire == Seal(c, key, d.ivR, d.sent[|d.got|..])
    && d.ivS == IvAfter(d.ivR, d.wire)
  }

  /** A send keeps the two sides in step exactly when the frame is written, or when the vector it leaves happens
      to be the one that was there before. */
  lemma SendKeepsSyncIff(c: BlockCipher, key: Block, d: Direction, p: Bytes)
    requires Synced(c, key, d)
    ensures Synced(c, key, SendOn(c, key, d, p)) <==> |p| <= MAX_PLAIN || Roll(Seal1(c, key, d.ivS, p)) == d.ivS
  {
    hide Seal, Seal1, Roll, IvAfter;
    if |p| <= MAX_PLAIN {
      SealAppends(c, key, d.ivR, d.sent[|d.got|..], p);
      assert (d.sent + [p])[|d.got|..] == d.sent[|d.got|..] + [p];
      IvAfterSnoc(d.ivR, d.wire, Seal1(c, key, d.ivS, p));
    }
  }

  lemma IvAfterSnoc(iv: Block, cts: seq<Bytes>, ct: Bytes)
    requires Whole(cts) && |ct| >= 16 && |ct| % 16 == 0
    ensures Whole(cts + [ct]) && IvAfter(iv, cts + [ct]) == Roll(ct)
  {
  }

  lemma DeliverKeepsSync(c: BlockCipher, key: Block, d: Direction)
    requires Synced(c, key, d)
    ensures var d' := DeliverOn(c, key, d);
            Synced(c, key, d') && |d'.got| == if d.wire == [] then |d.got| else |d.got| + 1
  {
    if d.wire != [] {
      var p := d.sent[|d.got|];
      AesRoundTrip(c, key, d.ivR, p);
      assert d.sent[|d.got|..][1..] == d.sent[|d.got| + 1..];
      assert d.got + [p] == d.sent[..|d.got| + 1];
    }
  }

  ghost predicate AllFit(steps: seq<Step>) {
    forall s :: s in steps && s.Send? ==> |s.p| <= MAX_PLAIN
  }

  /** The rolling-IV invariant: over every interleaving of sends and deliveries in both directions, with any
      number of frames in flight, both directions stay in step. */
  lemma {:induction false} RollingIv(c: BlockCipher, key: Block, l: Channel, steps: seq<Step>)
    requires Synced(c, key, l.up) && Synced(c, key, l.down) && AllFit(steps)
    ensures var l' := RunChannel(c, key, l, steps); Synced(c, key, l'.up) && Synced(c, key, l'.down)
  {
    if steps != [] {
      var before := steps[..|steps| - 1];
      RollingIv(c, key, l, before);
      var l1 := RunChannel(c, key, l, before);
      match steps[|steps| - 1] {
        case Send(true, p) => SendKeepsSyncIff(c, key, l1.up, p);
        case Send(false, p) => SendKeepsSyncIff(c, key, l1.down, p);
        case Deliver(true) => DeliverKeepsSync(c, key, l1.up);
        case Deliver(false) => DeliverKeepsSync(c, key, l1.down);
      }
    }
  }

  /** In step, the receiver's vector is the one its oldest undelivered frame was encrypted under, and each later
      frame was encrypted under the first block of the frame before it. */
  lemma SyncedMeans(c: BlockCipher, key: Block, d: Direction, i: nat)
    requires Synced(c, key, d) && i < |d.wire|
    ensures |d.got| + i < |d.sent|
    ensures |d.wire[i]| >= 16
    ensures d.wire[i] == Seal1(c, key, if i == 0 then d.ivR else Roll(d.wire[i - 1]), d.sent[|d.got| + i])
  {
    SealAt(c, key, d.ivR, d.sent[|d.got|..], i);
  }

  /** An oversized plaintext does put the sides out of step: here under the cipher that changes nothing. */
  lemma OversizedSendDesyncs()
    ensures var c: BlockCipher := BlockFunctions((k, b) => b, (k, b) => b);
            var zero: Block := seq(16, _ => 0);
            var d := Direction(zero, zero, [], [], [], []);
            && Synced(c, zero, d)
            && !Synced(c, zero, SendOn(c, zero, d, seq(65520, _ => 1)))
  {
    var c: BlockCipher := BlockFunctions((k, b) => b, (k, b) => b);
    var zero: Block := seq(16, _ => 0);
    var p: Bytes := seq(65520, _ => 1);
    var d := Direction(zero, zero, [], [], [], []);
    var ct := Seal1(c, zero, zero, p);
    assert ct[0] == XorByte(1, 0) by {
      assert ct[..16] == Xor(Pad(p)[..16], zero);
      assert ct[0] == ct[..16][0];
    }
    XorByteInjective(0, 1, 0);
    XorByteInvolution(1, 0);
    XorByteInvolution(0, 0);
    assert Roll(ct)[0] == ct[0];
    SendKeepsSyncIff(c, zero, d, p);
  }

  // ----- What holds even when plaintexts are too long -----

  /** The sender's vector was rolled by a frame that was never written. */
  predicate Stale(d: Direction) {
    d.tried != [] && |d.tried[|d.tried| - 1]| > MAX_PLAIN
  }

  /** Unless the last send was dropped, the sender's vector is the first block of the youngest frame. */
  ghost predicate Recovers(d: Direction) {
    Whole(d.wire) && (!Stale(d) ==> d.ivS == IvAfter(d.ivR, d.wire))
  }

  lemma SendRecovers(c: BlockCipher, key: Block, d: Direction, p: Bytes)
    requires Recovers(d)
    ensures Recovers(SendOn(c, key, d, p))
  {
  }

  lemma DeliverRecovers(c: BlockCipher, key: Block, d: Direction)
    requires Recovers(d)
    ensures Recovers(DeliverOn(c, key, d))
  {
  }

  /** Self-resynchronisation: whatever was sent, of any length, and however it was delivered, once the frames in
      flight have arrived the receiver's vector is the sender's, unless the last send was dropped. */
  lemma {:induction false} AlwaysRecovers(c: BlockCipher, key: Block, l: Channel, steps: seq<Step>)
    requires Recovers(l.up) && Recovers(l.down)
    ensures var l' := RunChannel(c, key, l, steps);
            && Recovers(l'.up) && Recovers(l'.down)
            && (l'.up.wire == [] && !Stale(l'.up) ==> l'.up.ivR == l'.up.ivS)
            && (l'.down.wire == [] && !Stale(l'.down) ==> l'.down.ivR == l'.down.ivS)
  {
    assert forall d :: Recovers(d) && d.wire == [] && !Stale(d) ==> d.ivR == d.ivS;
    if steps != [] {
      hide SendOn, DeliverOn, Recovers;
      AlwaysRecovers(c, key, l, steps[..|steps| - 1]);
      var l1 := RunChannel(c, key, l, steps[..|steps| - 1]);
      match steps[|steps| - 1] {
        case Send(true, p) => SendRecovers(c, key, l1.up, p);
        case Send(false, p) => SendRecovers(c, key, l1.down, p);
        case Deliver(true) => DeliverRecovers(c, key, l1.up);
        case Deliver(false) => DeliverRecovers(c, key, l1.down);
      }
    }
  }

  // ----- What exactly a dropped send spoils -----

  function NoLonger(max: nat, ss: seq<Bytes>): (r: seq<Bytes>)
    ensures |r| <= |ss| && forall s :: s in r ==> s in ss && |s| <= max
  {
    if ss == [] then [] else (if |ss[0]| <= max then [ss[0]] else []) + NoLonger(max, ss[1..])
  }

  lemma {:induction false} NoLongerSnoc(max: nat, ss: seq<Bytes>, s: Bytes)
    ensures NoLonger(max, ss + [s]) == NoLonger(max, ss) + if |s| <= max then [s] else []
  {
    if ss == [] {
      assert [s][1..] == [];
    } else {
      assert (ss + [s])[0] == ss[0] && (ss + [s])[1..] == ss[1..] + [s];
      NoLongerSnoc(max, ss[1..], s);
      var first, last := if |ss[0]| <= max then [ss[0]] else [], if |s| <= max then [s] else [];
      assert first + (NoLonger(max, ss[1..]) + last) == (first + NoLonger(max, ss[1..])) + last;
    }
  }

  /** The frames a sender writes when it tries to send these plaintexts, of any length. */
  function Written(c: BlockCipher, key: Block, iv: Block, ps: seq<Bytes>): (cts: seq<Bytes>)
    ensures Whole(cts)
  {
    NoLonger(MAX_FRAME, Seal(c, key, iv, ps))
  }

  /** The vectors under which the written ones were sealed. */
  function Under(c: BlockCipher, key: Block, iv: Block, ps: seq<Bytes>): (ivs: seq<Block>)
    ensures |ivs| == |NoLonger(MAX_PLAIN, ps)|
    decreases |ps|
  {
    if ps == [] then []
    else (if |ps[0]| <= MAX_PLAIN then [iv] else []) + Under(c, key, Roll(Seal1(c, key, iv, ps[0])), ps[1..])
  }

  /** The vectors under which a receiver opens these frames. */
  function Held(iv: Block, cts: seq<Bytes>): (ivs: seq<Block>)
    requires Whole(cts)
    ensures |ivs| == |cts|
    decreases |cts|
  {
    if cts == [] then [] else [iv] + Held(Roll(cts[0]), cts[1..])
  }

  /** Which of the written ones come directly behind a dropped send (for the first: whether the two sides may
      have started from different vectors). */
  function Behind(dropped: bool, ps: seq<Bytes>): (flags: seq<bool>)
    ensures |flags| == |NoLonger(MAX_PLAIN, ps)|
    decreases |ps|
  {
    if ps == [] then []
    else if |ps[0]| > MAX_PLAIN then Behind(true, ps[1..])
    else [dropped] + Behind(false, ps[1..])
  }

  /** What becomes of a plaintext that was sealed under `iv` and opened under `held`: of 16 bytes or more, only those
      of the first 16 change in which the vectors differ; a shorter one keeps its length exactly if the vectors
      agree in their last byte, and then the same holds of its bytes. */
  predicate Arrives(p: Bytes, p': Bytes, iv: Block, held: Block) {
    if |p| >= 16 then
      |p'| == |p| && p'[16..] == p[16..] && forall i :: 0 <= i < 16 ==> (p'[i] == p[i] <==> held[i] == iv[i])
    else
      && (|p'| == |p| <==> held[15] == iv[15])
      && (|p'| == |p| ==> forall i :: 0 <= i < |p| ==> (p'[i] == p[i] <==> held[i] == iv[i]))
  }

  lemma OneArrives(c: BlockCipher, key: Block, iv: Block, held: Block, p: Bytes)
    ensures var p' := AesDecrypt(c, key, held, Seal1(c, key, iv, p));
            p'.Some? && Arrives(p, p'.value, iv, held) && (held == iv ==> p'.value == p)
  {
    hide CbcDecrypt, CbcEncrypt;
    var ct := Seal1(c, key, iv, p);
    AesRoundTrip(c, key, iv, p);
    if |p| >= 16 {
      WrongIvKeepsTail(c, key, iv, held, ct);
    } else {
      WrongIv(c, key, iv, held, ct);
      WrongIvOneBlock(c, key, iv, held, ct);
      CbcRoundTrip(c, key, iv, Pad(p));
    }
  }

  /** The j-th frame that is written, and what a receiver that started from `held` reads from it: it loses nothing
      unless it comes directly behind a dropped send. */
  ghost predicate TripGoes(c: BlockCipher, key: Block, iv: Block, held: Block, dropped: bool, ps: seq<Bytes>, j: nat) {
    var sent, cts := NoLonger(MAX_PLAIN, ps), Written(c, key, iv, ps);
    var u, h, got := Under(c, key, iv, ps), Held(held, cts), Opened(c, key, held, cts);
    && j < |sent| == |cts|
    && cts[j] == Seal1(c, key, u[j], sent[j])
    && Arrives(sent[j], got[j], u[j], h[j])
    && (!Behind(dropped, ps)[j] ==> got[j] == sent[j])
  }

  lemma {:induction false} DropSpoilsOne(
      c: BlockCipher, key: Block, iv: Block, held: Block, dropped: bool, ps: seq<Bytes>, j: nat)
    requires !dropped ==> held == iv
    requires j < |NoLonger(MAX_PLAIN, ps)|
    ensures TripGoes(c, key, iv, held, dropped, ps, j)
    decreases |ps|
  {
    hide Seal1, Roll, TripGoes, NoLonger, Written, Under, Behind, Held, Opened;
    HowMany(MAX_PLAIN, ps);
    var ct := Seal1(c, key, iv, ps[0]);
    if |ps[0]| > MAX_PLAIN {
      DropSpoilsOne(c, key, Roll(ct), held, true, ps[1..], j);
      TripBehindDrop(c, key, iv, held, dropped, ps, j);
    } else if j == 0 {
      TripOfFirst(c, key, iv, held, dropped, ps);
    } else {
      DropSpoilsOne(c, key, Roll(ct), Roll(ct), false, ps[1..], j - 1);
      TripBehindFirst(c, key, iv, held, dropped, ps, j - 1);
    }
  }

  lemma TripBehindDrop(c: BlockCipher, key: Block, iv: Block, held: Block, dropped: bool, ps: seq<Bytes>, j: nat)
    requires ps != [] && |ps[0]| > MAX_PLAIN
    requires TripGoes(c, key, Roll(Seal1(c, key, iv, ps[0])), held, true, ps[1..], j)
    ensures TripGoes(c, key, iv, held, dropped, ps, j)
  {
    hide AesDecrypt, Seal1, Roll, Arrives, NoLonger, Written, Under, Behind, Held, Opened;
    FirstIsDropped(c, key, iv, dropped, ps);
  }

  lemma TripOfFirst(c: BlockCipher, key: Block, iv: Block, held: Block, dropped: bool, ps: seq<Bytes>)
    requires ps != [] && |ps[0]| <= MAX_PLAIN && (!dropped ==> held == iv)
    ensures TripGoes(c, key, iv, held, dropped, ps, 0)
  {
    hide AesDecrypt, Seal1, Roll, Arrives, NoLonger, Written, Under, Behind, Held, Opened;
    OneArrives(c, key, iv, held, ps[0]);
    FirstIsWritten(c, key, iv, held, dropped, ps);
    WrittenLength(c, key, iv, ps);
  }

  lemma TripBehindFirst(c: BlockCipher, key: Block, iv: Block, held: Block, dropped: bool, ps: seq<Bytes>, j: nat)
    requires ps != [] && |ps[0]| <= MAX_PLAIN
    requires var iv' := Roll(Seal1(c, key, iv, ps[0])); TripGoes(c, key, iv', iv', false, ps[1..], j)
    ensures TripGoes(c, key, iv, held, dropped, ps, j + 1)
  {
    hide AesDecrypt, Seal1, Roll, Arrives, NoLonger, Written, Under, Behind, Held, Opened;
    FirstIsWritten(c, key, iv, held, dropped, ps);
  }

  lemma HowMany(max: nat, ss: seq<Bytes>)
    ensures |NoLonger(max, ss)| ==
            if ss == [] then 0 else |NoLonger(max, ss[1..])| + if |ss[0]| <= max then 1 else 0
  {
  }

  lemma FirstIsDropped(c: BlockCipher, key: Block, iv: Block, dropped: bool, ps: seq<Bytes>)
    requires ps != [] && |ps[0]| > MAX_PLAIN
    ensures var iv', rest := Roll(Seal1(c, key, iv, ps[0])), ps[1..];
            && NoLonger(MAX_PLAIN, ps) == NoLonger(MAX_PLAIN, rest)
            && Written(c, key, iv, ps) == Written(c, key, iv', rest)
            && Under(c, key, iv, ps) == Under(c, key, iv', rest)
            && Behind(dropped, ps) == Behind(true, rest)
  {
    hide Seal1, Roll;
    assert [] + NoLonger(MAX_PLAIN, ps[1..]) == NoLonger(MAX_PLAIN, ps[1..]);
    var ct := Seal1(c, key, iv, ps[0]);
    assert [] + Written(c, key, Roll(ct), ps[1..]) == Written(c, key, Roll(ct), ps[1..]);
    assert [] + Under(c, key, Roll(ct), ps[1..]) == Under(c, key, Roll(ct), ps[1..]);
    assert Seal(c, key, iv, ps)[1..] == Seal(c, key, Roll(ct), ps[1..]);
  }

  lemma FirstIsWritten(c: BlockCipher, key: Block, iv: Block, held: Block, dropped: bool, ps: seq<Bytes>)
    requires ps != [] && |ps[0]| <= MAX_PLAIN
    ensures var ct, rest := Seal1(c, key, iv, ps[0]), ps[1..];
            var cts, more := Written(c, key, iv, ps), Written(c, key, Roll(ct), rest);
            && NoLonger(MAX_PLAIN, ps) == [ps[0]] + NoLonger(MAX_PLAIN, rest)
            && cts == [ct] + more
            && Under(c, key, iv, ps) == [iv] + Under(c, key, Roll(ct), rest)
            && Behind(dropped, ps) == [dropped] + Behind(false, rest)
            && Held(held, cts) == [held] + Held(Roll(ct), more)
            && Opened(c, key, held, cts) == [AesDecrypt(c, key, held, ct).value] + Opened(c, key, Roll(ct), more)
  {
    hide Seal1, Roll, AesDecrypt;
    var ct := Seal1(c, key, iv, ps[0]);
    assert Seal(c, key, iv, ps)[1..] == Seal(c, key, Roll(ct), ps[1..]);
    var cts, more := Written(c, key, iv, ps), Written(c, key, Roll(ct), ps[1..]);
    assert cts == [ct] + more;
    assert cts[1..] == more;
  }

  lemma {:induction false} WrittenLength(c: BlockCipher, key: Block, iv: Block, ps: seq<Bytes>)
    ensures |Written(c, key, iv, ps)| == |NoLonger(MAX_PLAIN, ps)|
    decreases |ps|
  {
    if ps != [] {
      WrittenLength(c, key, Roll(Seal1(c, key, iv, ps[0])), ps[1..]);
    }
  }

  /** The whole state of a direction that started with these two vectors is determined by what was tried and how
      many frames have been received. */
  ghost predicate Determined(c: BlockCipher, key: Block, ivS: Block, ivR: Block, d: Direction) {
    var cts, k := Written(c, key, ivS, d.tried), |d.got|;
    && d.ivS == IvAfter(ivS, Seal(c, key, ivS, d.tried))
    && d.sent == NoLonger(MAX_PLAIN, d.tried)
    && k <= |cts| && d.wire == cts[k..]
    && Whole(cts[..k]) && d.ivR == IvAfter(ivR, cts[..k]) && d.got == Opened(c, key, ivR, cts[..k])
  }

  lemma WrittenSnoc(c: BlockCipher, key: Block, iv: Block, ps: seq<Bytes>, p: Bytes)
    ensures var v, all := IvAfter(iv, Seal(c, key, iv, ps)), Seal(c, key, iv, ps + [p]);
            var ct := Seal1(c, key, v, p);
            && IvAfter(iv, all) == Roll(ct)
            && Written(c, key, iv, ps + [p]) == Written(c, key, iv, ps) + if |ct| <= MAX_FRAME then [ct] else []
  {
    hide Seal1, Seal, NoLonger, Roll, IvAfter;
    var all := Seal(c, key, iv, ps);
    var ct := Seal1(c, key, IvAfter(iv, all), p);
    SealAppends(c, key, iv, ps, p);
    NoLongerSnoc(MAX_FRAME, all, ct);
    IvAfterSnoc(iv, all, ct);
  }

  lemma SendKeepsDetermined(c: BlockCipher, key: Block, ivS: Block, ivR: Block, d: Direction, p: Bytes)
    requires Determined(c, key, ivS, ivR, d)
    ensures Determined(c, key, ivS, ivR, SendOn(c, key, d, p))
  {
    hide Opened, Seal1, Seal, NoLonger, Written, IvAfter, Roll;
    WrittenSnoc(c, key, ivS, d.tried, p);
    NoLongerSnoc(MAX_PLAIN, d.tried, p);
    var cts, cts', k := Written(c, key, ivS, d.tried), Written(c, key, ivS, d.tried + [p]), |d.got|;
    assert cts'[..k] == cts[..k];
    assert cts'[k..] == cts[k..] + cts'[|cts|..];
  }

  lemma DeliverKeepsDetermined(c: BlockCipher, key: Block, ivS: Block, ivR: Block, d: Direction)
    requires Determined(c, key, ivS, ivR, d)
    ensures Determined(c, key, ivS, ivR, DeliverOn(c, key, d))
  {
    hide Opened, Seal1, Seal, NoLonger, AesDecrypt, Written;
    var cts, k := Written(c, key, ivS, d.tried), |d.got|;
    if d.wire != [] {
      var ct := cts[k];
      assert ct in cts;
      assert cts[..k + 1] == cts[..k] + [ct];
      assert Whole(cts[..k + 1]);
      OpenedSnoc(c, key, ivR, cts[..k], ct);
      assert cts[k..][1..] == cts[k + 1..];
    }
  }

  /** Frames in flight and frames received, one by one. */
  ghost predicate SpoiltOnlyBehindDrops(c: BlockCipher, key: Block, ivS: Block, ivR: Block, d: Direction) {
    var cts, u, behind := Written(c, key, ivS, d.tried), Under(c, key, ivS, d.tried), Behind(ivS != ivR, d.tried);
    && d.sent == NoLonger(MAX_PLAIN, d.tried)
    && |d.got| + |d.wire| == |d.sent| == |cts|
    && (forall i :: 0 <= i < |d.wire| ==> d.wire[i] == Seal1(c, key, u[|d.got| + i], d.sent[|d.got| + i]))
    && (forall i :: 0 <= i < |d.got| ==> Arrives(d.sent[i], d.got[i], u[i], Held(ivR, cts)[i]))
    && (forall i :: 0 <= i < |d.got| && !behind[i] ==> d.got[i] == d.sent[i])
  }

  lemma DeterminedAt(c: BlockCipher, key: Block, ivS: Block, ivR: Block, d: Direction, j: nat)
    requires Determined(c, key, ivS, ivR, d) && j < |d.sent|
    ensures var cts, u := Written(c, key, ivS, d.tried), Under(c, key, ivS, d.tried);
            && |d.got| + |d.wire| == |d.sent| == |cts|
            && if j < |d.got| then
                 && Arrives(d.sent[j], d.got[j], u[j], Held(ivR, cts)[j])
                 && (!Behind(ivS != ivR, d.tried)[j] ==> d.got[j] == d.sent[j])
               else d.wire[j - |d.got|] == Seal1(c, key, u[j], d.sent[j])
  {
    hide AesDecrypt, Seal1, Seal, Roll, Arrives, NoLonger, Written, Under, Behind, Held, Opened, IvAfter;
    DropSpoilsOne(c, key, ivS, ivR, ivS != ivR, d.tried, j);
    OpenedPrefix(c, key, ivR, Written(c, key, ivS, d.tried), |d.got|);
  }

  lemma DeterminedMeans(c: BlockCipher, key: Block, ivS: Block, ivR: Block, d: Direction)
    requires Determined(c, key, ivS, ivR, d)
    ensures SpoiltOnlyBehindDrops(c, key, ivS, ivR, d)
  {
    hide Opened, Seal1, Seal, NoLonger, Written, Arrives, Behind, Under, Held;
    WrittenLength(c, key, ivS, d.tried);
    var cts, u := Written(c, key, ivS, d.tried), Under(c, key, ivS, d.tried);
    forall i | 0 <= i < |d.wire| ensures d.wire[i] == Seal1(c, key, u[|d.got| + i], d.sent[|d.got| + i]) {
      DeterminedAt(c, key, ivS, ivR, d, |d.got| + i);
    }
    forall i | 0 <= i < |d.got|
      ensures Arrives(d.sent[i], d.got[i], u[i], Held(ivR, cts)[i])
      ensures !Behind(ivS != ivR, d.tried)[i] ==> d.got[i] == d.sent[i]
    {
      DeterminedAt(c, key, ivS, ivR, d, i);
    }
  }

  /** A new direction between two sides that hold these vectors. */
  function NewDirection(ivS: Block, ivR: Block): Direction {
    Direction(ivS, ivR, [], [], [], [])
  }

  lemma NewIsDetermined(c: BlockCipher, key: Block, ivS: Block, ivR: Block)
    ensures Determined(c, key, ivS, ivR, NewDirection(ivS, ivR))
  {
  }

  lemma {:induction false} RunKeepsDetermined(c: BlockCipher, key: Block, l: Channel, l0: Channel, steps: seq<Step>)
    requires Determined(c, key, l0.up.ivS, l0.up.ivR, l.up) && Determined(c, key, l0.down.ivS, l0.down.ivR, l.down)
    ensures var l' := RunChannel(c, key, l, steps);
            Determined(c, key, l0.up.ivS, l0.up.ivR, l'.up) && Determined(c, key, l0.down.ivS, l0.down.ivR, l'.down)
  {
    hide Determined, SendOn, DeliverOn;
    if steps != [] {
      var l1 := RunChannel(c, key, l, steps[..|steps| - 1]);
      RunKeepsDetermined(c, key, l, l0, steps[..|steps| - 1]);
      match steps[|steps| - 1] {
        case Send(true, p) => SendKeepsDetermined(c, key, l0.up.ivS, l0.up.ivR, l1.up, p);
        case Send(false, p) => SendKeepsDetermined(c, key, l0.down.ivS, l0.down.ivR, l1.down, p);
        case Deliver(true) => DeliverKeepsDetermined(c, key, l0.up.ivS, l0.up.ivR, l1.up);
        case Deliver(false) => DeliverKeepsDetermined(c, key, l0.down.ivS, l0.down.ivR, l1.down);
      }
    }
  }

  /** A dropped send spoils at most the next frame, and of that only its first 16 bytes.  Over every interleaving of
      sends of any length, dropped ones among them, and of deliveries in both directions, from any four vectors:
      every frame in flight is the seal of its plaintext; every received frame that is not directly behind a dropped
      send is read exactly; and of the others `Arrives` says byte by byte what is read. */
  lemma DroppedSendSpoilsOneBlock(
      c: BlockCipher, key: Block, upS: Block, upR: Block, downS: Block, downR: Block, steps: seq<Step>)
    ensures var l := RunChannel(c, key, Channel(NewDirection(upS, upR), NewDirection(downS, downR)), steps);
            && SpoiltOnlyBehindDrops(c, key, upS, upR, l.up)
            && SpoiltOnlyBehindDrops(c, key, downS, downR, l.down)
  {
    var l0 := Channel(NewDirection(upS, upR), NewDirection(downS, downR));
    var l := RunChannel(c, key, l0, steps);
    NewIsDetermined(c, key, upS, upR);
    NewIsDetermined(c, key, downS, downR);
    RunKeepsDetermined(c, key, l0, l0, steps);
    DeterminedMeans(c, key, upS, upR, l.up);
    DeterminedMeans(c, key, downS, downR, l.down);
  }
}
