/** End to end: what the device says arrives as what the session hears, and what the session says arrives at the
    device, however TCP cuts the bytes and however reading, sending, requests and timers interleave. */
module Stream {
  import opened Octets
  import opened Chunking
  import opened Cipher
  import opened Coap
  import opened CoapLaws
  import opened Messages
  import opened Link
  import opened Spec = SessionSpec
  import SessionLaws

  // ----- Device to server -----

  /** The message can be printed, and sealed it fits a frame. */
  predicate Transmittable(m: Message) {
    Encode(m).Some? && |Encode(m).value| <= MAX_PLAIN
  }

  ghost predicate AllTransmittable(ms: seq<Message>) {
    forall m :: m in ms ==> Transmittable(m)
  }

  function WireForm(m: Message): Bytes
    requires Transmittable(m)
  {
    Encode(m).value
  }

  function Printed(ms: seq<Message>): (ps: seq<Bytes>)
    requires AllTransmittable(ms)
    ensures |ps| == |ms|
    ensures forall i :: 0 <= i < |ms| ==> Transmittable(ms[i]) && ps[i] == WireForm(ms[i])
  {
    if ms == [] then []
    else
      assert ms[0] in ms;
      [WireForm(ms[0])] + Printed(ms[1..])
  }

  function Normals(ms: seq<Message>): (ns: seq<Message>)
    ensures |ns| == |ms| && forall i :: 0 <= i < |ms| ==> ns[i] == Normalise(ms[i])
  {
    if ms == [] then [] else [Normalise(ms[0])] + Normals(ms[1..])
  }

  /** The ciphertexts of a device that prints, pads and encrypts these messages under the rolling vector. */
  function DeviceFrames(c: BlockCipher, key: Block, iv: Block, ms: seq<Message>): (cts: seq<Bytes>)
    requires AllTransmittable(ms)
    ensures |cts| == |ms|
  {
    Seal(c, key, iv, Printed(ms))
  }

  lemma {:induction false} SealFits(c: BlockCipher, key: Block, iv: Block, ps: seq<Bytes>)
    requires forall p :: p in ps ==> |p| <= MAX_PLAIN
    ensures Sendable(Seal(c, key, iv, ps))
    decreases |ps|
  {
    if ps != [] {
      SealFits(c, key, Roll(Seal1(c, key, iv, ps[0])), ps[1..]);
    }
  }

  lemma DeviceFramesFit(c: BlockCipher, key: Block, iv: Block, ms: seq<Message>)
    requires AllTransmittable(ms)
    ensures Sendable(DeviceFrames(c, key, iv, ms))
  {
    hide Encode;
    var ps := Printed(ms);
    forall p | p in ps ensures |p| <= MAX_PLAIN {
      var i :| 0 <= i < |ps| && ps[i] == p;
      assert ms[i] in ms && Transmittable(ms[i]);
    }
    SealFits(c, key, iv, ps);
  }

  /** All bytes the device writes for these messages. */
  function DeviceWire(c: BlockCipher, key: Block, iv: Block, ms: seq<Message>): Bytes
    requires AllTransmittable(ms)
  {
    DeviceFramesFit(c, key, iv, ms);
    FrameAll(DEVICE_HEADER, DeviceFrames(c, key, iv, ms))
  }

  function FramesOf(inputs: seq<Input>): seq<Bytes> {
    if inputs == [] then []
    else
      var i := inputs[|inputs| - 1];
      FramesOf(inputs[..|inputs| - 1]) + if i.FrameArrives? then [i.ct] else []
  }

  predicate NoHandshake(inputs: seq<Input>) {
    forall i :: i in inputs ==> !i.Established?
  }

  /** Inputs other than frames leave the inbound side alone. */
  lemma OthersDoNotHear(c: BlockCipher, s: State, i: Input)
    requires !i.FrameArrives? && !i.Established?
    ensures var s' := Next(c, s, i); s'.key == s.key && s'.ivIn == s.ivIn && s'.heard == s.heard
  {
    hide Spec.Send;
    if i.SendCall? {
      SessionLaws.SendKeeps(c, s, i.name, i.opts);
    } else if i.RequestCall? {
      SessionLaws.SendKeeps(c, s, i.request, RequestOptions(i.payload, i.options, i.token));
    }
  }

  /** A frame sealed under the vector the session holds is heard, normalised, and moves the vector on. */
  lemma FrameIsHeard(c: BlockCipher, key: Block, iv: Block, s: State, m: Message)
    requires Transmittable(m) && s.key == key && s.ivIn == iv
    ensures var ct := Seal1(c, key, iv, WireForm(m));
            var s' := HandleFrame(c, s, ct);
            s'.key == key && s'.ivIn == Roll(ct) && s'.heard == s.heard + [Normalise(m)]
  {
    hide Encode, Decode, Classify, Normalise, HandlePlain;
    var ct := Seal1(c, key, iv, Encode(m).value);
    AesRoundTrip(c, key, iv, Encode(m).value);
    PrintThenParse(m);
    PlainIsHeard(c, s.(ivIn := FirstBlock(ct)), Decode(Encode(m).value));
  }

  lemma PlainIsHeard(c: BlockCipher, s: State, d: Decoded)
    requires d.Decoded?
    ensures var s' := HandlePlain(c, s, d);
            s'.key == s.key && s'.ivIn == s.ivIn && s'.heard == s.heard + [d.msg]
  {
  }

  lemma FrameInput(c: BlockCipher, s: State, i: Input)
    requires i.FrameArrives?
    ensures Next(c, s, i) == HandleFrame(c, s, i.ct)
  {
  }

  /** The messages among these plaintexts, in order. */
  function HeardOf(ps: seq<Bytes>): seq<Message> {
    if ps == [] then []
    else
      var d := Decode(ps[|ps| - 1]);
      HeardOf(ps[..|ps| - 1]) + if d.Decoded? then [d.msg] else []
  }

  lemma HeardOfSnoc(ps: seq<Bytes>, p: Bytes)
    ensures HeardOf(ps + [p]) == HeardOf(ps) + if Decode(p).Decoded? then [Decode(p).msg] else []
  {
    hide Decode;
    assert (ps + [p])[..|ps|] == ps;
  }

  lemma HeardOfOne(p: Bytes)
    ensures HeardOf([p]) == if Decode(p).Decoded? then [Decode(p).msg] else []
  {
    hide Decode;
    HeardOfSnoc([], p);
    assert [] + [p] == [p];
    assert HeardOf([]) == [];
  }

  /** A frame of whole blocks is opened under the vector the session holds, and moves it on; what it says is heard
      if it is a message. */
  lemma FrameIsOpened(c: BlockCipher, s: State, ct: Bytes)
    requires |s.key| == 16 && |s.ivIn| == 16 && |ct| >= 16 && |ct| % 16 == 0
    ensures var s', p := HandleFrame(c, s, ct), AesDecrypt(c, s.key, s.ivIn, ct);
            p.Some? && s'.key == s.key && s'.ivIn == Roll(ct) && s'.heard == s.heard + HeardOf([p.value])
  {
    hide AesDecrypt, Decode, HandlePlain, HeardOf;
    var s1, d := s.(ivIn := FirstBlock(ct)), Decode(AesDecrypt(c, s.key, s.ivIn, ct).value);
    HeardOfOne(AesDecrypt(c, s.key, s.ivIn, ct).value);
    if d.Decoded? {
      PlainIsHeard(c, s1, d);
    } else {
      NoiseIsNotHeard(c, s1);
    }
  }

  lemma NoiseIsNotHeard(c: BlockCipher, s: State)
    ensures var s' := HandlePlain(c, s, Malformed); s'.key == s.key && s'.ivIn == s.ivIn && s'.heard == s.heard
  {
  }

  /** Over any run of inputs, from any vector, whatever the frames say: the session hears the messages among what a
      receiver that rolls its vector reads from them. */
  lemma {:induction false} SessionOpens(c: BlockCipher, key: Block, iv: Block, s: State, inputs: seq<Input>)
    requires s.key == key && s.ivIn == iv && NoHandshake(inputs) && Whole(FramesOf(inputs))
    ensures var s', cts := Run(c, s, inputs), FramesOf(inputs);
            s'.key == key && s'.ivIn == IvAfter(iv, cts) && s'.heard == s.heard + HeardOf(Opened(c, key, iv, cts))
  {
    hide Next, HandleFrame, AesDecrypt, Roll, HeardOf, Opened, IvAfter;
    if inputs == [] {
      NothingOpened(c, key, iv);
      assert s.heard + [] == s.heard;
    } else {
      var before, i := inputs[..|inputs| - 1], inputs[|inputs| - 1];
      var s1, cts := Run(c, s, before), FramesOf(before);
      assert forall ct :: ct in cts ==> ct in FramesOf(inputs);
      SessionOpens(c, key, iv, s, before);
      if i.FrameArrives? {
        assert FramesOf(inputs) == cts + [i.ct];
        OpenedSnoc(c, key, iv, cts, i.ct);
        FrameInput(c, s1, i);
        FrameIsOpened(c, s1, i.ct);
        IvAfterSnoc(iv, cts, i.ct);
        var p := AesDecrypt(c, key, s1.ivIn, i.ct).value;
        HeardAppends(Opened(c, key, iv, cts), [p]);
        assert (s.heard + HeardOf(Opened(c, key, iv, cts))) + HeardOf([p]) ==
               s.heard + (HeardOf(Opened(c, key, iv, cts)) + HeardOf([p]));
      } else {
        OthersDoNotHear(c, s1, i);
        assert FramesOf(inputs) == cts;
      }
    }
  }

  lemma NothingOpened(c: BlockCipher, key: Block, iv: Block)
    ensures HeardOf(Opened(c, key, iv, [])) == [] && IvAfter(iv, []) == iv
  {
  }

  lemma {:induction false} HeardAppends(a: seq<Bytes>, b: seq<Bytes>)
    ensures HeardOf(a + b) == HeardOf(a) + HeardOf(b)
    decreases |b|
  {
    hide Decode, HeardOf;
    if b == [] {
      NothingSaid();
      assert a + b == a;
    } else {
      var front, p := b[..|b| - 1], b[|b| - 1];
      HeardAppends(a, front);
      HeardOfSnoc(a + front, p);
      HeardOfSnoc(front, p);
      assert b == front + [p] && a + b == (a + front) + [p];
    }
  }

  /** What is opened from sealed plaintexts, whatever vector the receiver held: the first depends on that vector, all
      others come out as they went in. */
  lemma {:induction false} OpenedUnderAny(c: BlockCipher, key: Block, iv: Block, held: Block, ps: seq<Bytes>, k: nat)
    requires 0 < k <= |ps|
    ensures Whole(Seal(c, key, iv, ps)[..k])
    ensures var p' := AesDecrypt(c, key, held, Seal1(c, key, iv, ps[0]));
            p'.Some? && Opened(c, key, held, Seal(c, key, iv, ps)[..k]) == [p'.value] + ps[1..k]
  {
    hide AesDecrypt, Seal1, Roll, Seal, Opened;
    OneArrives(c, key, iv, held, ps[0]);
    var ct, rest := Seal1(c, key, iv, ps[0]), ps[1..];
    var more := Seal(c, key, Roll(ct), rest)[..k - 1];
    OpenedIsSaid(c, key, Roll(ct), rest, k - 1);
    FirstIsSealed(c, key, iv, ps, k);
    OpenedCons(c, key, held, ct, more);
    TailThenPrefix(ps, k);
  }

  lemma FirstIsSealed(c: BlockCipher, key: Block, iv: Block, ps: seq<Bytes>, k: nat)
    requires 0 < k <= |ps|
    ensures var ct := Seal1(c, key, iv, ps[0]);
            Seal(c, key, iv, ps)[..k] == [ct] + Seal(c, key, Roll(ct), ps[1..])[..k - 1]
  {
    hide Seal1, Roll;
  }

  lemma OpenedCons(c: BlockCipher, key: Block, iv: Block, ct: Bytes, more: seq<Bytes>)
    requires |ct| >= 16 && |ct| % 16 == 0 && Whole(more)
    ensures Whole([ct] + more)
    ensures Opened(c, key, iv, [ct] + more) == [AesDecrypt(c, key, iv, ct).value] + Opened(c, key, Roll(ct), more)
  {
    hide AesDecrypt, Roll;
    assert ([ct] + more)[1..] == more;
  }

  /** Self-resynchronisation of a session, over any run of inputs and any plaintexts, CoAP or not.  Whatever 16-byte
      vector the session held, after the first frame it holds the sender's and hears every later message; of the
      first, `Arrives` says which bytes it may miss.  A frame that is no CoAP message spoils none that follow. */
  lemma SessionResynchronises(
      c: BlockCipher, key: Block, iv: Block, held: Block, ps: seq<Bytes>, s: State, inputs: seq<Input>)
    requires s.key == key && s.ivIn == held && NoHandshake(inputs)
    requires FramesOf(inputs) <= Seal(c, key, iv, ps) && FramesOf(inputs) != []
    ensures var s', k := Run(c, s, inputs), |FramesOf(inputs)|;
            && s'.ivIn == IvAfter(iv, Seal(c, key, iv, ps[..k]))
            && exists first: Bytes ::
                 && Arrives(ps[0], first, iv, held)
                 && (held == iv ==> first == ps[0])
                 && s'.heard == s.heard + HeardOf([first] + ps[1..k])
  {
    hide Run, AesDecrypt, Seal, Seal1, Opened, HeardOf, Arrives, IvAfter;
    var cts, k := FramesOf(inputs), |FramesOf(inputs)|;
    assert cts == Seal(c, key, iv, ps)[..k];
    OneArrives(c, key, iv, held, ps[0]);
    OpenedUnderAny(c, key, iv, held, ps, k);
    SessionOpens(c, key, held, s, inputs);
    SealPrefix(c, key, iv, ps, k);
    IvAfterLast(iv, held, cts);
  }

  lemma IvAfterLast(iv: Block, held: Block, cts: seq<Bytes>)
    requires Whole(cts) && cts != []
    ensures IvAfter(iv, cts) == IvAfter(held, cts)
  {
  }

  lemma SealPrefix(c: BlockCipher, key: Block, iv: Block, ps: seq<Bytes>, k: nat)
    requires k <= |ps|
    ensures Seal(c, key, iv, ps)[..k] == Seal(c, key, iv, ps[..k])
  {
    hide Seal, Seal1;
    if k < |ps| {
      SealAt(c, key, iv, ps, k);
    } else {
      assert ps[..k] == ps;
    }
  }

  lemma {:induction false} PrintedAreHeard(ms: seq<Message>, k: nat)
    requires AllTransmittable(ms) && k <= |ms|
    ensures HeardOf(Printed(ms)[..k]) == Normals(ms[..k])
    decreases k
  {
    hide Encode, Decode, Normalise, Normals, HeardOf, Printed;
    if k == 0 {
      NothingSaid();
      assert Printed(ms)[..0] == [] && ms[..0] == [];
    } else {
      PrintedAreHeard(ms, k - 1);
      var p := Printed(ms)[k - 1];
      assert Printed(ms)[..k] == Printed(ms)[..k - 1] + [p];
      HeardOfSnoc(Printed(ms)[..k - 1], p);
      assert Transmittable(ms[k - 1]);
      PrintThenParse(ms[k - 1]);
      NormalsSnoc([], ms, k - 1);
      assert [] + Normals(ms[..k]) == Normals(ms[..k]) && [] + Normals(ms[..k - 1]) == Normals(ms[..k - 1]);
    }
  }

  lemma NothingSaid()
    ensures HeardOf([]) == [] && Normals([]) == []
  {
  }

  /** Over any run of inputs whose frames are the first of the device's: those messages have been heard, in order,
      and the session holds the vector for the next. */
  lemma SessionHears(c: BlockCipher, key: Block, iv: Block, ms: seq<Message>, s: State, inputs: seq<Input>)
    requires AllTransmittable(ms) && s.key == key && s.ivIn == iv && NoHandshake(inputs)
    requires FramesOf(inputs) <= DeviceFrames(c, key, iv, ms)
    ensures var s', cts := Run(c, s, inputs), FramesOf(inputs);
            Whole(cts) && s'.key == key && s'.ivIn == IvAfter(iv, cts) && s'.heard == s.heard + Normals(ms[..|cts|])
  {
    hide Run, Seal, Printed, Opened, HeardOf, Normals, IvAfter;
    var cts, k := FramesOf(inputs), |FramesOf(inputs)|;
    assert cts == DeviceFrames(c, key, iv, ms)[..k];
    OpenedIsSaid(c, key, iv, Printed(ms), k);
    SessionOpens(c, key, iv, s, inputs);
    PrintedAreHeard(ms, k);
  }

  /** The same for a session that holds some other vector: at most the device's first message is heard wrongly or
      not at all, and all that follow it are heard as they were sent. */
  lemma SessionHearsAllButFirst(
      c: BlockCipher, key: Block, iv: Block, held: Block, ms: seq<Message>, s: State, inputs: seq<Input>)
    requires AllTransmittable(ms) && s.key == key && s.ivIn == held && NoHandshake(inputs)
    requires FramesOf(inputs) <= DeviceFrames(c, key, iv, ms) && FramesOf(inputs) != []
    ensures var s', k := Run(c, s, inputs), |FramesOf(inputs)|;
            exists first: seq<Message> ::
              && |first| <= 1 && (held == iv ==> first == [Normalise(ms[0])])
              && s'.heard == s.heard + (first + Normals(ms[1..k]))
  {
    hide Run, Seal, HeardOf, Normals, IvAfter, Arrives, Normalise, Decode, Encode, FramesOf;
    var ps, k := Printed(ms), |FramesOf(inputs)|;
    SessionResynchronises(c, key, iv, held, ps, s, inputs);
    var p' :| && Arrives(ps[0], p', iv, held) && (held == iv ==> p' == ps[0])
              && Run(c, s, inputs).heard == s.heard + HeardOf([p'] + ps[1..k]);
    FirstAndRestAreHeard(p', ms, k);
    HeardOfOne(p');
    assert Transmittable(ms[0]);
    PrintThenParse(ms[0]);
  }

  lemma FirstAndRestAreHeard(first: Bytes, ms: seq<Message>, k: nat)
    requires AllTransmittable(ms) && 0 < k <= |ms|
    ensures HeardOf([first] + Printed(ms)[1..k]) == HeardOf([first]) + Normals(ms[1..k])
  {
    hide HeardOf, Normals, Printed;
    var ps := Printed(ms);
    HeardAppends([first], ps[1..k]);
    TailThenPrefix(ms, k);
    TailThenPrefix(ps, k);
    PrintedTail(ms);
    PrintedAreHeard(ms[1..], k - 1);
  }

  lemma TailThenPrefix<T>(s: seq<T>, k: nat)
    requires 0 < k <= |s|
    ensures s[1..][..k - 1] == s[1..k]
  {
  }

  lemma PrintedTail(ms: seq<Message>)
    requires AllTransmittable(ms) && ms != []
    ensures AllTransmittable(ms[1..]) && Printed(ms[1..]) == Printed(ms)[1..]
  {
    hide Transmittable, WireForm;
  }

  lemma NormalsSnoc(heard: seq<Message>, ms: seq<Message>, k: nat)
    requires k < |ms|
    ensures heard + Normals(ms[..k + 1]) == (heard + Normals(ms[..k])) + [Normalise(ms[k])]
  {
    hide Normalise;
    var a, b := Normals(ms[..k + 1]), Normals(ms[..k]);
    assert forall i :: 0 <= i < k ==> a[i] == b[i];
    assert a == b + [Normalise(ms[k])];
  }

  lemma WholeWire(header: nat, cts: seq<Bytes>)
    requires header == SERVER_HEADER || header == DEVICE_HEADER
    requires Sendable(cts)
    ensures Deframe(header, FrameAll(header, cts)) == Parse(cts, [])
  {
    DeframeRecovers(header, cts, []);
    assert FrameAll(header, cts) + [] == FrameAll(header, cts);
    assert cts + [] == cts;
  }

  // ----- Server to device -----

  /** The plaintext an input makes the session send. */
  function Says(c: BlockCipher, s: State, i: Input): Option<Bytes> {
    match i
    case SendCall(Some(n), opts) => Encode(Build(n, opts, ChosenId(s, opts)))
    case RequestCall(Some(n), payload, options, token) =>
      if s.status.Connected? then
        var opts := RequestOptions(payload, options, token);
        Encode(Build(n, opts, ChosenId(s, opts)))
      else None
    case FrameArrives(ct) =>
      var plain := AesDecrypt(c, s.key, s.ivIn, ct);
      if plain.None? then None
      else
        var d := Decode(plain.value);
        if d.Decoded? && Classify(d.msg) == Some(Ping) then Encode(PingAck(d.msg)) else None
    case _ => None
  }

  function Said(c: BlockCipher, s: State, inputs: seq<Input>): seq<Bytes> {
    if inputs == [] then []
    else
      var before := inputs[..|inputs| - 1];
      var p := Says(c, Run(c, s, before), inputs[|inputs| - 1]);
      Said(c, s, before) + if p.None? then [] else [p.value]
  }

  ghost predicate AllShort(ps: seq<Bytes>) {
    forall p :: p in ps ==> |p| <= MAX_PLAIN
  }

  /** A plaintext is sealed and the vector moves on; it is framed and written if it fits. */
  lemma PlainIsSent(c: BlockCipher, key: Block, iv: Block, s: State, p: Bytes)
    requires s.key == key && s.ivOut == iv
    ensures var ct := Seal1(c, key, iv, p);
            SendPlain(c, s, p) ==
            if |ct| <= MAX_FRAME then Returned(s.(ivOut := Roll(ct), written := s.written + [Frame(ct)]), true)
            else Returned(s.(ivOut := Roll(ct)), false)
  {
    hide CbcEncrypt, Pad;
  }

  /** The buffers that are written for a ciphertext. */
  function Buffers(ct: Bytes): seq<Bytes> {
    if |ct| <= MAX_FRAME then [Frame(ct)] else []
  }

  /** One input: nothing is written and the vector stays, or exactly what `Says` says is sealed, and written if it
      fits. */
  lemma StepSpeaks(c: BlockCipher, key: Block, iv: Block, s: State, i: Input)
    requires s.key == key && s.ivOut == iv && !i.Established?
    ensures var p, s' := Says(c, s, i), Next(c, s, i);
            && s'.key == key
            && if p.None? then s'.ivOut == iv && s'.written == s.written
               else
                 var ct := Seal1(c, key, iv, p.value);
                 s'.ivOut == Roll(ct) && s'.written == s.written + Buffers(ct)
  {
    hide Encode, Decode, AesDecrypt, Classify, Build, SendPlain, Seal1, Roll, Frame;
    var p := Says(c, s, i);
    match i {
      case SendCall(name, opts) =>
        if p.Some? {
          PlainIsSent(c, key, iv, Counted(s, opts), p.value);
        }
      case RequestCall(name, payload, options, token) =>
        if p.Some? {
          PlainIsSent(c, key, iv, Counted(s, RequestOptions(payload, options, token)), p.value);
        }
      case FrameArrives(ct) =>
        var plain := AesDecrypt(c, key, s.ivIn, ct);
        if plain.Some? && Decode(plain.value).Decoded? {
          var m := Decode(plain.value).msg;
          SessionLaws.DecodedInRange(plain.value);
          SessionLaws.AckIsShort(m);
          if p.Some? {
            var s0 := s.(ivIn := FirstBlock(ct));
            PlainIsSent(c, key, iv, s0.(recvCounter := m.messageId, heard := s0.heard + [m]), p.value);
          }
        }
      case _ =>
    }
  }

  function Frames(cts: seq<Bytes>): (fs: seq<Bytes>)
    requires Sendable(cts)
    ensures |fs| == |cts|
  {
    if cts == [] then [] else [Frame(cts[0])] + Frames(cts[1..])
  }

  lemma {:induction false} FramesSnoc(cts: seq<Bytes>, ct: Bytes)
    requires Sendable(cts) && |ct| <= MAX_FRAME
    ensures Sendable(cts + [ct]) && Frames(cts + [ct]) == Frames(cts) + [Frame(ct)]
  {
    if cts != [] {
      assert (cts + [ct])[1..] == cts[1..] + [ct];
      FramesSnoc(cts[1..], ct);
    }
  }

  lemma {:induction false} FramesFlatten(cts: seq<Bytes>)
    requires Sendable(cts)
    ensures Flatten(Frames(cts)) == FrameAll(SERVER_HEADER, cts)
  {
    if cts != [] {
      FramesFlatten(cts[1..]);
    }
  }

  /** Over any run of inputs the session writes exactly the frames, of those that fit, of the chain of what it
      says, and holds the vector at the end of the chain. */
  lemma {:induction false} SessionSpeaks(c: BlockCipher, key: Block, iv: Block, s: State, inputs: seq<Input>)
    requires s.key == key && s.ivOut == iv && NoHandshake(inputs)
    ensures var s', said := Run(c, s, inputs), Said(c, s, inputs);
            var cts := Written(c, key, iv, said);
            && s'.key == key && s'.ivOut == IvAfter(iv, Seal(c, key, iv, said))
            && Sendable(cts) && s'.written == s.written + Frames(cts)
  {
    hide Next, Says, Seal1, Seal, Roll, Frame, Written, IvAfter, Frames;
    if inputs == [] {
      NothingWritten(c, key, iv);
      assert s.written + [] == s.written;
    } else {
      var before, i := inputs[..|inputs| - 1], inputs[|inputs| - 1];
      var said := Said(c, s, before);
      SessionSpeaks(c, key, iv, s, before);
      var s1, cts := Run(c, s, before), Written(c, key, iv, said);
      var p := Says(c, s1, i);
      StepSpeaks(c, key, s1.ivOut, s1, i);
      if p.Some? {
        var ct := Seal1(c, key, s1.ivOut, p.value);
        WrittenSnoc(c, key, iv, said, p.value);
        BuffersAppend(cts, ct);
        assert (s.written + Frames(cts)) + Buffers(ct) == s.written + (Frames(cts) + Buffers(ct));
      } else {
        assert Said(c, s, inputs) == said;
      }
    }
  }

  lemma NothingWritten(c: BlockCipher, key: Block, iv: Block)
    ensures Written(c, key, iv, []) == [] && IvAfter(iv, Seal(c, key, iv, [])) == iv && Frames([]) == []
  {
  }

  lemma BuffersAppend(cts: seq<Bytes>, ct: Bytes)
    requires Sendable(cts)
    ensures var cts' := cts + if |ct| <= MAX_FRAME then [ct] else [];
            Sendable(cts') && Frames(cts') == Frames(cts) + Buffers(ct)
  {
    hide Frames, Frame;
    if |ct| <= MAX_FRAME {
      FramesSnoc(cts, ct);
    } else {
      assert cts + [] == cts && Frames(cts) + [] == Frames(cts);
    }
  }

  lemma Seal1Opens(c: BlockCipher, key: Block, iv: Block, p: Bytes)
    ensures var ct := Seal1(c, key, iv, p);
            |ct| >= 16 && |ct| % 16 == 0 && AesDecrypt(c, key, iv, ct) == Some(p)
  {
    AesRoundTrip(c, key, iv, p);
  }

  lemma {:induction false} AllIsOpened(c: BlockCipher, key: Block, iv: Block, ps: seq<Bytes>)
    ensures Opened(c, key, iv, Seal(c, key, iv, ps)) == ps
    decreases |ps|
  {
    hide AesDecrypt, Seal1, Roll;
    if ps != [] {
      var ct := Seal1(c, key, iv, ps[0]);
      Seal1Opens(c, key, iv, ps[0]);
      AllIsOpened(c, key, Roll(ct), ps[1..]);
      assert Seal(c, key, iv, ps)[1..] == Seal(c, key, Roll(ct), ps[1..]);
      assert ps == [ps[0]] + ps[1..];
    }
  }

  lemma OpenedIsSaid(c: BlockCipher, key: Block, iv: Block, ps: seq<Bytes>, k: nat)
    requires k <= |ps|
    ensures Whole(Seal(c, key, iv, ps)[..k])
    ensures Opened(c, key, iv, Seal(c, key, iv, ps)[..k]) == ps[..k]
  {
    hide Seal, Opened;
    SealPrefix(c, key, iv, ps, k);
    AllIsOpened(c, key, iv, ps[..k]);
  }

  /** The other direction end to end, over every run, oversized plaintexts among what is said: from any beginning of
      the bytes the session has written, the device cuts whole frames and reads, in order, the first of the plaintexts
      that fit; exactly, unless one comes directly behind a plaintext that was too long, and then as `Arrives` says;
      all of them if it has all bytes. */
  lemma DeviceHears(c: BlockCipher, key: Block, iv: Block, s: State, inputs: seq<Input>, bytes: Bytes)
    requires s.key == key && s.ivOut == iv && s.written == [] && NoHandshake(inputs)
    ensures var said, cts := Said(c, s, inputs), Deframe(SERVER_HEADER, bytes).frames;
            bytes <= Flatten(Run(c, s, inputs).written) ==>
              && DeviceReads(c, key, iv, said, cts)
              && (bytes == Flatten(Run(c, s, inputs).written) ==> |cts| == |NoLonger(MAX_PLAIN, said)|)
  {
    hide Run, Said, Deframe, DeviceReads, Written, Frames, NoLonger, Flatten, FrameAll, Seal;
    var said, wire := Said(c, s, inputs), Flatten(Run(c, s, inputs).written);
    var all := Written(c, key, iv, said);
    SessionSpeaks(c, key, iv, s, inputs);
    WrittenLength(c, key, iv, said);
    if bytes <= wire {
      FramesFlatten(all);
      assert [] + Frames(all) == Frames(all);
      DeframePrefix(SERVER_HEADER, bytes, wire[|bytes|..]);
      assert bytes + wire[|bytes|..] == wire;
      WholeWire(SERVER_HEADER, all);
      var k := |Deframe(SERVER_HEADER, bytes).frames|;
      assert Deframe(SERVER_HEADER, bytes).frames == all[..k];
      FirstWrittenAreRead(c, key, iv, said, k);
    }
  }

  /** Frame by frame, what a device that started in step reads of what was said. */
  ghost predicate DeviceReads(c: BlockCipher, key: Block, iv: Block, said: seq<Bytes>, cts: seq<Bytes>) {
    var sent, u, behind := NoLonger(MAX_PLAIN, said), Under(c, key, iv, said), Behind(false, said);
    && Whole(cts) && |cts| <= |sent|
    && var read := Opened(c, key, iv, cts);
       && (forall j :: 0 <= j < |cts| ==> Arrives(sent[j], read[j], u[j], Held(iv, cts)[j]))
       && (forall j :: 0 <= j < |cts| && !behind[j] ==> read[j] == sent[j])
       && (AllShort(said) ==> read == said[..|cts|])
  }

  lemma FirstWrittenAreRead(c: BlockCipher, key: Block, iv: Block, said: seq<Bytes>, k: nat)
    requires k <= |Written(c, key, iv, said)|
    ensures DeviceReads(c, key, iv, said, Written(c, key, iv, said)[..k])
  {
    hide Opened, Seal1, Seal, NoLonger, Written, Arrives, Behind, Under, Held;
    var all, u, behind := Written(c, key, iv, said), Under(c, key, iv, said), Behind(false, said);
    var sent, cts := NoLonger(MAX_PLAIN, said), all[..k];
    WrittenLength(c, key, iv, said);
    OpenedPrefix(c, key, iv, all, k);
    HeldPrefix(iv, all, k);
    forall j | 0 <= j < k
      ensures Arrives(sent[j], Opened(c, key, iv, cts)[j], u[j], Held(iv, cts)[j])
      ensures !behind[j] ==> Opened(c, key, iv, cts)[j] == sent[j]
    {
      DropSpoilsOne(c, key, iv, iv, false, said, j);
    }
    if AllShort(said) {
      AllShortIsAll(c, key, iv, said);
      OpenedIsSaid(c, key, iv, said, k);
    }
  }

  lemma {:induction false} AllShortIsAll(c: BlockCipher, key: Block, iv: Block, ps: seq<Bytes>)
    requires AllShort(ps)
    ensures Written(c, key, iv, ps) == Seal(c, key, iv, ps)
    decreases |ps|
  {
    hide Seal1, Roll;
    if ps != [] {
      AllShortIsAll(c, key, Roll(Seal1(c, key, iv, ps[0])), ps[1..]);
      assert ps[0] in ps;
      FirstIsWritten(c, key, iv, iv, false, ps);
    }
  }

  lemma {:induction false} HeldSnoc(iv: Block, cts: seq<Bytes>, ct: Bytes)
    requires Whole(cts + [ct])
    ensures Whole(cts) && Held(iv, cts + [ct]) == Held(iv, cts) + [IvAfter(iv, cts)]
    decreases |cts|
  {
    hide Roll;
    assert forall x :: x in cts ==> x in cts + [ct];
    if cts == [] {
      assert [ct][1..] == [] && [] + [ct] == [ct];
    } else {
      assert (cts + [ct])[0] == cts[0] && (cts + [ct])[1..] == cts[1..] + [ct];
      HeldSnoc(Roll(cts[0]), cts[1..], ct);
      assert IvAfter(Roll(cts[0]), cts[1..]) == IvAfter(iv, cts);
    }
  }

  lemma {:induction false} HeldPrefix(iv: Block, cts: seq<Bytes>, k: nat)
    requires Whole(cts) && k <= |cts|
    ensures Whole(cts[..k]) && Held(iv, cts[..k]) == Held(iv, cts)[..k]
    decreases |cts|
  {
    hide Held, IvAfter;
    if k == |cts| {
      assert cts[..k] == cts;
    } else {
      var front := cts[..|cts| - 1];
      assert cts == front + [cts[|cts| - 1]];
      HeldSnoc(iv, front, cts[|cts| - 1]);
      HeldPrefix(iv, front, k);
      assert front[..k] == cts[..k];
    }
  }
}
