/** What the CoAP codec promises: printing then parsing, parsing then printing, and exactly where the second
    fails. */
module CoapLaws {
  import opened Octets
  import opened Coap

  // ----- The stable sort, characterised without an algorithm -----

  ghost predicate Sorted(s: seq<CoapOption>) {
    forall i, j :: 0 <= i < j < |s| ==> s[i].number <= s[j].number
  }

  /** The options of one number, in order. */
  function Numbered(s: seq<CoapOption>, n: int): seq<CoapOption> {
    if s == [] then [] else (if s[0].number == n then [s[0]] else []) + Numbered(s[1..], n)
  }

  lemma {:induction false} InsertPermutes(o: CoapOption, s: seq<CoapOption>)
    ensures multiset(Insert(o, s)) == multiset(s) + multiset{o}
  {
    if s != [] && o.number > s[0].number {
      InsertPermutes(o, s[1..]);
      assert s == [s[0]] + s[1..];
    }
  }

  lemma {:induction false} InsertSorts(o: CoapOption, s: seq<CoapOption>)
    requires Sorted(s)
    ensures Sorted(Insert(o, s))
  {
    if s != [] && o.number > s[0].number {
      var rest := Insert(o, s[1..]);
      InsertSorts(o, s[1..]);
      InsertPermutes(o, s[1..]);
      forall i | 0 <= i < |rest| ensures s[0].number <= rest[i].number {
        assert rest[i] in multiset(rest);
        assert rest[i] in s[1..] || rest[i] == o;
      }
    }
  }

  lemma {:induction false} InsertKeeps(o: CoapOption, s: seq<CoapOption>, n: int)
    ensures Numbered(Insert(o, s), n) == Numbered([o] + s, n)
  {
    assert ([o] + s)[1..] == s;
    if s != [] && o.number > s[0].number {
      var rest := Insert(o, s[1..]);
      InsertKeeps(o, s[1..], n);
      assert ([s[0]] + rest)[1..] == rest && ([o] + s[1..])[1..] == s[1..];
    }
  }

  lemma {:induction false} SortSorts(s: seq<CoapOption>)
    ensures var r := SortOptions(s); Sorted(r) && multiset(r) == multiset(s)
  {
    if s != [] {
      SortSorts(s[1..]);
      InsertSorts(s[0], SortOptions(s[1..]));
      InsertPermutes(s[0], SortOptions(s[1..]));
      assert s == [s[0]] + s[1..];
    }
  }

  lemma {:induction false} SortKeeps(s: seq<CoapOption>, n: int)
    ensures Numbered(SortOptions(s), n) == Numbered(s, n)
  {
    if s != [] {
      var t := SortOptions(s[1..]);
      SortKeeps(s[1..], n);
      InsertKeeps(s[0], t, n);
      assert ([s[0]] + t)[1..] == t;
    }
  }

  lemma {:induction false} FirstOfNumber(s: seq<CoapOption>, n: int)
    requires Sorted(s) && Numbered(s, n) != []
    ensures s != [] && s[0].number <= n
    ensures s[0].number == n ==> Numbered(s, n)[0] == s[0]
  {
    if s[0].number != n {
      FirstOfNumber(s[1..], n);
    }
  }

  lemma {:induction false} SortedIsDetermined(a: seq<CoapOption>, b: seq<CoapOption>)
    requires Sorted(a) && Sorted(b) && forall n :: Numbered(a, n) == Numbered(b, n)
    ensures a == b
  {
    if a != [] {
      FirstOfNumber(a, a[0].number);
    }
    if b != [] {
      FirstOfNumber(b, b[0].number);
    }
    if a != [] && b != [] {
      FirstOfNumber(a, b[0].number);
      FirstOfNumber(b, a[0].number);
      assert a[0] == b[0];
      forall n ensures Numbered(a[1..], n) == Numbered(b[1..], n) {
        assert Numbered(a, n) == Numbered(b, n);
        var one := if a[0].number == n then [a[0]] else [];
        assert Numbered(a, n)[|one|..] == Numbered(a[1..], n);
        assert Numbered(b, n)[|one|..] == Numbered(b[1..], n);
      }
      SortedIsDetermined(a[1..], b[1..]);
      assert a == [a[0]] + a[1..] && b == [b[0]] + b[1..];
    }
  }

  ghost predicate SameByNumber(a: seq<CoapOption>, b: seq<CoapOption>) {
    forall n :: Numbered(a, n) == Numbered(b, n)
  }

  /** `r` is the sorted list exactly when it ascends and keeps the options of each number in their order. */
  lemma StableSort(s: seq<CoapOption>, r: seq<CoapOption>)
    ensures r == SortOptions(s) <==> Sorted(r) && SameByNumber(r, s)
  {
    SortSorts(s);
    assert SameByNumber(SortOptions(s), s) by {
      forall n ensures Numbered(SortOptions(s), n) == Numbered(s, n) {
        SortKeeps(s, n);
      }
    }
    if Sorted(r) && SameByNumber(r, s) {
      SortedIsDetermined(r, SortOptions(s));
    }
  }

  // ----- Which messages can be printed -----

  predicate InRange(prev: int, o: CoapOption) {
    prev <= o.number <= prev + 65804 && |o.value| <= 65804
  }

  /** The number the i-th option's delta counts from. */
  function Base(prev: int, s: seq<CoapOption>, i: nat): int
    requires i <= |s|
  {
    if i == 0 then prev else s[i - 1].number
  }

  ghost predicate Printable(prev: int, s: seq<CoapOption>) {
    forall i :: 0 <= i < |s| ==> InRange(Base(prev, s, i), s[i])
  }

  lemma {:induction false} PrintsIff(prev: int, s: seq<CoapOption>)
    ensures PrintOptions(prev, s).Some? <==> Printable(prev, s)
    decreases |s|
  {
    if s != [] {
      var t := s[1..];
      PrintsIff(s[0].number, t);
      assert Base(prev, s, 0) == prev;
      assert forall i :: 0 <= i < |t| ==> Base(s[0].number, t, i) == Base(prev, s, i + 1) && t[i] == s[i + 1];
      if Printable(prev, s) {
        assert InRange(prev, s[0]);
        forall i | 0 <= i < |t| ensures InRange(Base(s[0].number, t, i), t[i]) {
          assert InRange(Base(prev, s, i + 1), s[i + 1]);
        }
      }
      if PrintOptions(prev, s).Some? {
        forall i | 0 <= i < |s| ensures InRange(Base(prev, s, i), s[i]) {
          if i > 0 {
            assert InRange(Base(s[0].number, t, i - 1), t[i - 1]);
          }
        }
      }
    }
  }

  /** `encode` accepts exactly the messages with a short token and, once sorted, deltas and lengths in range. */
  lemma EncodeAccepts(m: Message)
    ensures Encode(m).Some? <==> |m.token| <= 8 && Printable(0, SortOptions(m.options))
  {
    PrintsIff(0, SortOptions(m.options));
  }

  // ----- Print, then parse -----

  lemma ReadExtension(v: nat, rest: Bytes)
    requires v <= MAX_EXTENDED
    ensures TakeExtension(Nibble(v), Extension(v) + rest) == Value(v, rest)
  {
    var s := Extension(v) + rest;
    if v < 13 {
      assert s == rest;
    } else if v < 269 {
      assert s[1..] == rest;
    } else {
      assert s[0] == PutU16(v - 269)[0] && s[1] == PutU16(v - 269)[1];
      assert s[2..] == rest;
    }
  }

  lemma HeadByteSplits(delta: nat, len: nat)
    ensures var x := HeadByte(delta, len);
            HighNibble(x) == Nibble(delta) < 15 && LowNibble(x) == Nibble(len) < 15 && x != MARKER
  {
  }

  /** A printed option is read back, in each of the nine combinations of forms, and its first byte is never
      taken for the payload marker. */
  lemma ReadOption(prev: int, o: CoapOption, rest: Bytes)
    requires PrintOption(prev, o).Some?
    ensures NextOption(prev, PrintOption(prev, o).value + rest) == Item(o, rest)
  {
    hide TakeExtension, Nibble, Extension, HighNibble, LowNibble, HeadByte;
    var delta, len := o.number - prev, |o.value|;
    var s2: Bytes := o.value + rest;
    var s1: Bytes := Extension(len) + s2;
    HeadByteSplits(delta, len);
    OptionParts(prev, o, rest);
    ReadExtension(delta, s1);
    ReadExtension(len, s2);
    assert s2[..len] == o.value && s2[len..] == rest;
  }

  lemma OptionParts(prev: int, o: CoapOption, rest: Bytes)
    requires PrintOption(prev, o).Some?
    ensures var delta, len, s := o.number - prev, |o.value|, PrintOption(prev, o).value + rest;
            s[0] == HeadByte(delta, len) && s[1..] == Extension(delta) + (Extension(len) + (o.value + rest))
  {
    hide Extension, HeadByte;
    var delta, len := o.number - prev, |o.value|;
    Rejoin([HeadByte(delta, len)], Extension(delta), Extension(len), o.value, rest,
           Extension(delta) + (Extension(len) + (o.value + rest)), Extension(len) + (o.value + rest));
  }

  lemma ParseOne(prev: int, s: Bytes, o: CoapOption, rest: Bytes)
    requires s != [] && NextOption(prev, s) == Item(o, rest)
    ensures ParseOptions(prev, s) == Prepend(o, ParseOptions(o.number, rest))
  {
  }

  lemma {:induction false} ReadOptions(prev: int, s: seq<CoapOption>, payload: Bytes)
    requires PrintOptions(prev, s).Some?
    ensures ParseOptions(prev, PrintOptions(prev, s).value + PayloadPart(payload)) == Parsed(s, payload, Clean)
    decreases |s|
  {
    hide NextOption, PrintOption, PayloadPart;
    if s == [] {
      ReadPayload(prev, payload);
    } else {
      var one, more := PrintOption(prev, s[0]).value, PrintOptions(s[0].number, s[1..]).value;
      var rest := more + PayloadPart(payload);
      assert (one + more) + PayloadPart(payload) == one + rest;
      ReadOption(prev, s[0], rest);
      ParseOne(prev, one + rest, s[0], rest);
      ReadOptions(s[0].number, s[1..], payload);
      assert s == [s[0]] + s[1..];
    }
  }

  lemma ReadPayload(prev: int, payload: Bytes)
    ensures ParseOptions(prev, [] + PayloadPart(payload)) == Parsed([], payload, Clean)
  {
    assert [] + PayloadPart(payload) == PayloadPart(payload);
    if payload != [] {
      assert PayloadPart(payload)[1..] == payload;
    }
  }

  /** What a message looks like after a trip over the wire: fields masked to their width, options sorted. */
  function Normalise(m: Message): Message {
    m.(typ := m.typ % 4, code := m.code % 256, messageId := m.messageId % 0x1_0000, options := SortOptions(m.options))
  }

  /** Every message that `encode` accepts is decoded to itself, normalised. */
  lemma PrintThenParse(m: Message)
    requires Encode(m).Some?
    ensures Decode(Encode(m).value) == Decoded(Normalise(m), Clean)
  {
    hide Version, TypeField, TokenLength, FirstByte, U16, PutU16, ParseOptions, PrintOptions, SortOptions, PayloadPart;
    var b, h := Encode(m).value, Header(m);
    var printed := PrintOptions(0, SortOptions(m.options)).value + PayloadPart(m.payload);
    Parts(h, m.token, printed);
    U16Reads(m.messageId % 0x1_0000);
    HeaderFields(m.typ % 4, |m.token|);
    ReadOptions(0, SortOptions(m.options), m.payload);
  }

  lemma Parts(h: Bytes, token: Bytes, rest: Bytes)
    requires |h| == 4
    ensures var b := h + (token + rest);
            && b[0] == h[0] && b[1] == h[1] && b[2] == h[2] && b[3] == h[3]
            && b[4..4 + |token|] == token && b[4 + |token|..] == rest
  {
    var b := h + (token + rest);
    assert b[4..] == token + rest;
    assert b[4..4 + |token|] == b[4..][..|token|] && b[4 + |token|..] == b[4..][|token|..];
  }

  lemma HeaderFields(t: nat, k: nat)
    requires t < 4 && k <= 8
    ensures var x := FirstByte(t, k); Version(x) == 1 && TypeField(x) == t && TokenLength(x) == k
  {
  }

  lemma HeaderRebuilds(x: byte)
    requires Version(x) == 1
    ensures FirstByte(TypeField(x), TokenLength(x)) == x
  {
  }

  lemma U16Reads(n: nat)
    requires n < 0x1_0000
    ensures |PutU16(n)| == 2 && U16(PutU16(n)[0], PutU16(n)[1]) == n
  {
  }

  lemma U16Rebuilds(hi: byte, lo: byte)
    ensures PutU16(U16(hi, lo)) == [hi, lo]
  {
  }

  // ----- Parse, then print -----

  lemma RewriteExtension(nibble: byte, s: Bytes)
    requires nibble < 15
    ensures var e := TakeExtension(nibble, s);
            e.Value? ==> e.v <= MAX_EXTENDED && Nibble(e.v) == nibble && Extension(e.v) + e.rest == s
  {
    if nibble == 13 && s != [] {
      assert [s[0]] + s[1..] == s;
    } else if nibble == 14 && |s| >= 2 {
      assert PutU16(U16(s[0], s[1])) == [s[0], s[1]];
      assert [s[0], s[1]] + s[2..] == s;
    }
  }

  lemma HeadByteRebuilds(x: byte, delta: nat, len: nat)
    requires Nibble(delta) == HighNibble(x) && Nibble(len) == LowNibble(x)
    ensures HeadByte(delta, len) == x
  {
  }

  lemma ItemParts(prev: int, s: Bytes)
    requires s != [] && NextOption(prev, s).Item?
    ensures HighNibble(s[0]) < 15 && LowNibble(s[0]) < 15
    ensures var t, d := NextOption(prev, s), TakeExtension(HighNibble(s[0]), s[1..]);
            && d.Value?
            && var l := TakeExtension(LowNibble(s[0]), d.rest);
               && l.Value? && t.o.number == prev + d.v && |t.o.value| == l.v && t.o.value + t.rest == l.rest
  {
  }

  lemma RewriteOption(prev: int, s: Bytes)
    requires s != [] && NextOption(prev, s).Item?
    ensures var t := NextOption(prev, s);
            PrintOption(prev, t.o).Some? && PrintOption(prev, t.o).value + t.rest == s
  {
    hide NextOption, TakeExtension, Nibble, Extension, HeadByte;
    ItemParts(prev, s);
    var t := NextOption(prev, s);
    var d := TakeExtension(HighNibble(s[0]), s[1..]);
    var l := TakeExtension(LowNibble(s[0]), d.rest);
    RewriteExtension(HighNibble(s[0]), s[1..]);
    RewriteExtension(LowNibble(s[0]), d.rest);
    HeadByteRebuilds(s[0], d.v, l.v);
    assert s == [s[0]] + s[1..];
    Rejoin([s[0]], Extension(d.v), Extension(l.v), t.o.value, t.rest, s[1..], d.rest);
  }

  lemma Rejoin(a: Bytes, b: Bytes, c: Bytes, d: Bytes, e: Bytes, s1: Bytes, s2: Bytes)
    requires s1 == b + s2 && s2 == c + (d + e)
    ensures ((a + (b + c)) + d) + e == a + s1
  {
  }

  lemma {:induction false} RewriteOptions(prev: int, s: Bytes)
    ensures var p := ParseOptions(prev, s);
            p.Parsed? && p.tail == Clean ==>
              PrintOptions(prev, p.options).Some? && PrintOptions(prev, p.options).value + PayloadPart(p.payload) == s
    decreases |s|
  {
    hide NextOption, PrintOption, PayloadPart;
    if s == [] {
      NoPayload();
    } else {
      var p, t := ParseOptions(prev, s), NextOption(prev, s);
      if t.Item? {
        RewriteOption(prev, s);
        RewriteOptions(t.o.number, t.rest);
        var q := ParseOptions(t.o.number, t.rest);
        if q.Parsed? && q.tail == Clean {
          assert p.options[0] == t.o && p.options[1..] == q.options;
          var one, rest := PrintOption(prev, t.o).value, PrintOptions(t.o.number, q.options).value;
          assert (one + rest) + PayloadPart(p.payload) == one + (rest + PayloadPart(p.payload));
        }
      } else if p.Parsed? && p.tail == Clean {
        MarkerEndsClean(prev, s);
        assert [] + PayloadPart(p.payload) == s;
      }
    }
  }

  lemma NoPayload()
    ensures PayloadPart([]) == []
  {
  }

  /** Parsing stops cleanly before the end of the bytes only at a marker with a payload behind it. */
  lemma MarkerEndsClean(prev: int, s: Bytes)
    requires s != [] && NextOption(prev, s).End?
    ensures var p := NextOption(prev, s).p;
            p.Parsed? && p.tail == Clean ==> p.options == [] && s == PayloadPart(p.payload)
  {
  }

  lemma {:induction false} PrintedIsSorted(prev: int, s: seq<CoapOption>)
    requires PrintOptions(prev, s).Some?
    ensures Sorted(s) && forall i :: 0 <= i < |s| ==> prev <= s[i].number
    decreases |s|
  {
    if s != [] {
      PrintedIsSorted(s[0].number, s[1..]);
      assert forall i :: 1 <= i < |s| ==> s[i] == s[1..][i - 1];
    }
  }

  lemma HeaderRewrites(b: Bytes, m: Message)
    requires |b| >= 4 && Version(b[0]) == 1 && |m.token| == TokenLength(b[0]) <= 8
    requires m.typ == TypeField(b[0]) && m.code == b[1] && m.messageId == U16(b[2], b[3])
    ensures Header(m) == b[..4]
  {
    hide Version, TypeField, TokenLength, FirstByte, U16, PutU16;
    HeaderRebuilds(b[0]);
    U16Rebuilds(b[2], b[3]);
    assert b[..4] == [b[0], b[1]] + [b[2], b[3]];
  }

  // ----- Well-formed bytes, told apart without parsing -----

  /** How many extension bytes a nibble announces. */
  function ExtensionSize(nibble: byte): nat {
    if nibble == 13 then 1 else if nibble == 14 then 2 else 0
  }

  /** What a nibble and its extension at `s[at..]` stand for (section 3.1 of RFC 7252). */
  function Announced(nibble: byte, s: Bytes, at: nat): nat
    requires at + ExtensionSize(nibble) <= |s|
  {
    if nibble == 13 then s[at] as int + 13
    else if nibble == 14 then 269 + 256 * s[at] as int + s[at + 1] as int
    else nibble
  }

  /** Where the option at the front of these bytes ends, if they hold its extensions and its value. */
  function OptionEnd(s: Bytes): (e: Option<nat>)
    requires s != []
    ensures e.Some? ==> 1 <= e.value <= |s|
  {
    var dN, lN := HighNibble(s[0]), LowNibble(s[0]);
    var at := 1 + ExtensionSize(dN);
    var start := at + ExtensionSize(lN);
    if start > |s| || start + Announced(lN, s, at) > |s| then None else Some(start + Announced(lN, s, at))
  }

  /** Walking from head to head over these bytes, every extension byte and every value is there, and a marker has
      a payload behind it. */
  predicate Intact(s: Bytes)
    decreases |s|
  {
    s == [] ||
    if s[0] == MARKER then |s| > 1
    else OptionEnd(s).Some? && Intact(s[OptionEnd(s).value..])
  }

  predicate WellFormed(b: Bytes) {
    |b| >= 4 && 4 + TokenLength(b[0]) <= |b| && Intact(b[4 + TokenLength(b[0])..])
  }

  lemma TakesWhatIsAnnounced(nibble: byte, s: Bytes, at: nat)
    requires nibble < 15 && at <= |s|
    ensures var e := TakeExtension(nibble, s[at..]);
            && (e.Value? <==> at + ExtensionSize(nibble) <= |s|)
            && (e.Value? ==> e.v == Announced(nibble, s, at) && e.rest == s[at + ExtensionSize(nibble)..])
  {
    if at + ExtensionSize(nibble) <= |s| && nibble >= 13 {
      assert s[at..][0] == s[at];
      TailOfTail(s, at, ExtensionSize(nibble));
    }
  }

  lemma TailOfTail(s: Bytes, i: nat, k: nat)
    requires i + k <= |s|
    ensures s[i..][k..] == s[i + k..]
  {
  }

  /** One turn of the parser against one step of the walk. */
  lemma TurnIsStep(prev: int, s: Bytes)
    requires s != [] && s[0] != MARKER
    ensures var t, e := NextOption(prev, s), OptionEnd(s);
            && (t.Item? ==> e.Some? && t.rest == s[e.value..])
            && (t.End? && t.p.Parsed? ==> e.None? && t.p.tail != Clean)
  {
    hide TakeExtension, Announced, ExtensionSize, HighNibble, LowNibble;
    var dN, lN := HighNibble(s[0]), LowNibble(s[0]);
    if dN < 15 && lN < 15 {
      TakesWhatIsAnnounced(dN, s, 1);
      var at := 1 + ExtensionSize(dN);
      if at <= |s| {
        TakesWhatIsAnnounced(lN, s, at);
        var start := at + ExtensionSize(lN);
        if start <= |s| && start + Announced(lN, s, at) <= |s| {
          TailOfTail(s, start, Announced(lN, s, at));
        }
      }
    }
  }

  lemma MarkerStep(prev: int, s: Bytes)
    requires s != [] && s[0] == MARKER
    ensures var t := NextOption(prev, s); t.End? && t.p.Parsed? && (t.p.tail == Clean <==> |s| > 1)
  {
  }

  lemma {:induction false} CleanIffIntact(prev: int, s: Bytes)
    ensures var p := ParseOptions(prev, s); p.Parsed? ==> (p.tail == Clean <==> Intact(s))
    decreases |s|
  {
    hide NextOption, OptionEnd;
    if s != [] {
      var t := NextOption(prev, s);
      if s[0] == MARKER {
        MarkerStep(prev, s);
      } else {
        TurnIsStep(prev, s);
        if t.Item? {
          CleanIffIntact(t.o.number, t.rest);
        }
      }
    }
  }

  /** The ending that `decode` reports says exactly whether the bytes were well formed. */
  lemma CleanIffWellFormed(b: Bytes)
    requires Decode(b).Decoded?
    ensures Decode(b).tail == Clean <==> WellFormed(b)
  {
    hide ParseOptions, Intact, U16, TypeField, Version;
    CleanIffIntact(0, b[4 + TokenLength(b[0])..]);
  }

  // ----- Which bytes are accepted -----

  /** The two endings in which an extension byte is missing and `decode` does not notice: the bytes end behind a
      head whose low nibble announces a one-byte length extension, either right behind a complete delta, or with the
      delta's own one-byte extension missing as well. */
  predicate CutShort(s: Bytes)
    requires s != []
  {
    var dN := HighNibble(s[0]);
    LowNibble(s[0]) == 13 && (|s| == 1 + ExtensionSize(dN) || (|s| == 1 && dN == 13))
  }

  /** Walking from head to head: no reserved nibble, and every extension byte and every value is there; but the
      bytes may be cut short in the two ways above, and a marker may be the last byte. */
  predicate Tolerable(s: Bytes)
    decreases |s|
  {
    s == [] || s[0] == MARKER ||
    (HighNibble(s[0]) < 15 && LowNibble(s[0]) < 15 &&
     (CutShort(s) || (OptionEnd(s).Some? && Tolerable(s[OptionEnd(s).value..]))))
  }

  /** Version 1, a token of at most eight bytes that is there, and tolerable options behind it. */
  predicate Acceptable(b: Bytes) {
    && |b| >= 4 && b[0] / 64 == 1 && b[0] % 16 <= 8
    && |b| >= 4 + b[0] as int % 16 && Tolerable(b[4 + b[0] as int % 16..])
  }

  /** The delta's extension is not there. */
  lemma NoDelta(prev: int, s: Bytes)
    requires s != [] && s[0] != MARKER && HighNibble(s[0]) < 15 && LowNibble(s[0]) < 15
    requires |s| < 1 + ExtensionSize(HighNibble(s[0]))
    ensures var t := NextOption(prev, s); t.End? && (t.p.Parsed? <==> CutShort(s)) && OptionEnd(s).None?
  {
    hide TakeExtension, Announced, HighNibble, LowNibble, ExtensionSize;
    TakesWhatIsAnnounced(HighNibble(s[0]), s, 1);
    WhyNoValue(HighNibble(s[0]), s, 1);
  }

  /** The delta's is there, and the length's is not. */
  lemma NoLength(prev: int, s: Bytes)
    requires s != [] && s[0] != MARKER && HighNibble(s[0]) < 15 && LowNibble(s[0]) < 15
    requires var at := 1 + ExtensionSize(HighNibble(s[0])); at <= |s| < at + ExtensionSize(LowNibble(s[0]))
    ensures var t := NextOption(prev, s); t.End? && (t.p.Parsed? <==> CutShort(s)) && OptionEnd(s).None?
  {
    hide TakeExtension, Announced, HighNibble, LowNibble, ExtensionSize;
    var at := 1 + ExtensionSize(HighNibble(s[0]));
    TakesWhatIsAnnounced(HighNibble(s[0]), s, 1);
    TakesWhatIsAnnounced(LowNibble(s[0]), s, at);
    WhyNoValue(HighNibble(s[0]), s, 1);
    WhyNoValue(LowNibble(s[0]), s, at);
  }

  /** Both are there. */
  lemma BothExtensions(prev: int, s: Bytes)
    requires s != [] && s[0] != MARKER && HighNibble(s[0]) < 15 && LowNibble(s[0]) < 15
    requires 1 + ExtensionSize(HighNibble(s[0])) + ExtensionSize(LowNibble(s[0])) <= |s|
    ensures var t := NextOption(prev, s);
            !CutShort(s) && if OptionEnd(s).Some? then t.Item? else t.End? && t.p.Bad?
  {
    hide TakeExtension, Announced, HighNibble, LowNibble, ExtensionSize;
    var at := 1 + ExtensionSize(HighNibble(s[0]));
    TakesWhatIsAnnounced(HighNibble(s[0]), s, 1);
    TakesWhatIsAnnounced(LowNibble(s[0]), s, at);
    WhyNoValue(HighNibble(s[0]), s, 1);
    WhyNoValue(LowNibble(s[0]), s, at);
  }

  /** One turn of the parser against one step of that walk. */
  lemma TurnIsTolerated(prev: int, s: Bytes)
    requires s != [] && s[0] != MARKER
    ensures var t, e, reserved := NextOption(prev, s), OptionEnd(s), HighNibble(s[0]) == 15 || LowNibble(s[0]) == 15;
            && (t.Item? <==> !reserved && !CutShort(s) && e.Some?)
            && (t.Item? ==> t.rest == s[e.value..])
            && (t.End? ==> (t.p.Parsed? <==> !reserved && CutShort(s)))
  {
    hide TakeExtension, OptionEnd, HighNibble, LowNibble, ExtensionSize, CutShort;
    var dN, lN := HighNibble(s[0]), LowNibble(s[0]);
    TurnIsStep(prev, s);
    if dN < 15 && lN < 15 {
      if |s| < 1 + ExtensionSize(dN) {
        NoDelta(prev, s);
      } else if |s| < 1 + ExtensionSize(dN) + ExtensionSize(lN) {
        NoLength(prev, s);
      } else {
        BothExtensions(prev, s);
      }
    }
  }

  lemma WhyNoValue(nibble: byte, s: Bytes, at: nat)
    requires nibble < 15 && at <= |s|
    ensures TakeExtension(nibble, s[at..]).Missing? <==> nibble == 13 && |s| == at
    ensures nibble == 13 ==> ExtensionSize(nibble) == 1
  {
  }

  lemma {:induction false} ParsesIffTolerable(prev: int, s: Bytes)
    ensures ParseOptions(prev, s).Parsed? <==> Tolerable(s)
    decreases |s|
  {
    hide NextOption, OptionEnd, CutShort;
    if s != [] {
      var t := NextOption(prev, s);
      if s[0] == MARKER {
        MarkerStep(prev, s);
      } else {
        TurnIsTolerated(prev, s);
        if t.Item? {
          ParsesIffTolerable(t.o.number, t.rest);
        }
      }
    }
  }

  /** `decode` accepts exactly these byte strings, and throws for all others. */
  lemma DecodeAccepts(b: Bytes)
    ensures Decode(b).Decoded? <==> Acceptable(b)
  {
    hide ParseOptions, Tolerable, U16, TypeField;
    if |b| >= 4 && |b| >= 4 + TokenLength(b[0]) {
      ParsesIffTolerable(0, b[4 + TokenLength(b[0])..]);
    }
  }

  // ----- What the tolerated endings decode to -----

  function LastNumber(prev: int, s: seq<CoapOption>): int {
    if s == [] then prev else s[|s| - 1].number
  }

  /** Printed options in front of anything are read back, and parsing goes on with what follows. */
  lemma {:induction false} ReadBehind(prev: int, s: seq<CoapOption>, e: Bytes)
    requires PrintOptions(prev, s).Some?
    ensures ParseOptions(prev, PrintOptions(prev, s).value + e) == AfterOptions(s, ParseOptions(LastNumber(prev, s), e))
    decreases |s|
  {
    hide NextOption, PrintOption;
    if s == [] {
      assert [] + e == e;
      AfterNoOptions(ParseOptions(prev, e));
    } else {
      var one, more := PrintOption(prev, s[0]).value, PrintOptions(s[0].number, s[1..]).value;
      assert (one + more) + e == one + (more + e);
      ReadOption(prev, s[0], more + e);
      ParseOne(prev, one + (more + e), s[0], more + e);
      ReadBehind(s[0].number, s[1..], e);
      assert LastNumber(s[0].number, s[1..]) == LastNumber(prev, s);
      PrependAfter(s[0], s[1..], ParseOptions(LastNumber(prev, s), e));
      assert s == [s[0]] + s[1..];
    }
  }

  lemma PrependAfter(o: CoapOption, s: seq<CoapOption>, p: Parsed)
    ensures Prepend(o, AfterOptions(s, p)) == AfterOptions([o] + s, p)
  {
    if p.Parsed? {
      assert [o] + (s + p.options) == ([o] + s) + p.options;
    }
  }

  lemma LoneHeads(prev: int)
    ensures NextOption(prev, [0x1D]) == End(Parsed([CoapOption(prev + 1, [])], [], CutLength))
    ensures NextOption(prev, [0xDD]) == End(Parsed([], [], CutBoth))
    ensures NextOption(prev, [0xFF]) == End(Parsed([], [], BareMarker))
  {
    assert [0x1D as byte][1..] == [] && [0xDD as byte][1..] == [] && [0xFF as byte][1..] == [];
  }

  /** The head of an option of this delta whose one-byte length extension is missing. */
  function CutHead(delta: nat): Bytes
    requires delta <= MAX_EXTENDED
  {
    [16 * Nibble(delta) + 13] + Extension(delta)
  }

  lemma CutEndsParse(prev: int, delta: nat)
    requires delta <= MAX_EXTENDED
    ensures ParseOptions(prev, CutHead(delta)) == Parsed([CoapOption(prev + delta, [])], [], CutLength)
    ensures ParseOptions(prev, [0xDD]) == Parsed([], [], CutBoth)
    ensures ParseOptions(prev, [0xFF]) == Parsed([], [], BareMarker)
  {
    hide NextOption;
    CutHeadIsRead(prev, delta);
    LoneHeads(prev);
  }

  lemma CutHeadIsRead(prev: int, delta: nat)
    requires delta <= MAX_EXTENDED
    ensures NextOption(prev, CutHead(delta)) == End(Parsed([CoapOption(prev + delta, [])], [], CutLength))
  {
    hide Nibble, Extension;
    var s := CutHead(delta);
    NibbleIsSmall(delta);
    ReadExtension(delta, []);
    assert HighNibble(s[0]) == Nibble(delta) && LowNibble(s[0]) == 13;
    assert s[1..] == Extension(delta) + [];
  }

  lemma NibbleIsSmall(delta: nat)
    ensures Nibble(delta) < 15
  {
  }

  /** Behind any message without payload that `encode` prints, each tolerated ending is accepted, and decodes to
      that message and to nothing more than this: an empty option, numbered by its delta from the one before, if
      only the length extension is missing; and no payload in any case. */
  lemma EndingsDecode(m: Message, delta: nat)
    requires Encode(m).Some? && m.payload == [] && delta <= MAX_EXTENDED
    ensures var b, n := Encode(m).value, Normalise(m);
            && Decode(b + CutHead(delta)) == Decoded(
                 n.(options := n.options + [CoapOption(LastNumber(0, n.options) + delta, [])]), CutLength)
            && Decode(b + [0xDD]) == Decoded(n, CutBoth)
            && Decode(b + [0xFF]) == Decoded(n, BareMarker)
  {
    hide SortOptions, CutHead, ParseOptions;
    EndingDecodes(m, CutHead(delta));
    EndingDecodes(m, [0xDD]);
    EndingDecodes(m, [0xFF]);
    var os := SortOptions(m.options);
    CutEndsParse(LastNumber(0, os), delta);
    assert os + [] == os;
  }

  lemma EndingDecodes(m: Message, e: Bytes)
    requires Encode(m).Some? && m.payload == []
    ensures var os := SortOptions(m.options);
            var p := ParseOptions(LastNumber(0, os), e);
            Decode(Encode(m).value + e) ==
            if p.Bad? then Malformed
            else Decoded(Normalise(m).(options := os + p.options, payload := p.payload), p.tail)
  {
    hide Version, TypeField, TokenLength, FirstByte, U16, PutU16, ParseOptions, PrintOptions, SortOptions;
    var h, os := Header(m), SortOptions(m.options);
    var printed := PrintOptions(0, os).value;
    assert printed + [] == printed;
    assert (h + (m.token + printed)) + e == h + (m.token + (printed + e));
    Parts(h, m.token, printed + e);
    U16Reads(m.messageId % 0x1_0000);
    HeaderFields(m.typ % 4, |m.token|);
    ReadBehind(0, os, e);
  }

  /** The accepted wire form is canonical: printing an accepted message gives back the bytes it was parsed from
      exactly when no extension byte was missing and no marker stood alone at the end. */
  lemma ParseThenPrint(b: Bytes)
    requires Decode(b).Decoded?
    ensures Encode(Decode(b).msg) == Some(b) <==> WellFormed(b)
  {
    hide ParseOptions, PrintOptions, SortOptions, PayloadPart, Header, Sorted, WellFormed;
    CleanIffWellFormed(b);
    var m := Decode(b).msg;
    if Decode(b).tail == Clean {
      HeaderRewrites(b, m);
      var k := 4 + |m.token|;
      RewriteOptions(0, b[k..]);
      PrintedIsSorted(0, m.options);
      StableSort(m.options, m.options);
      assert b == b[..4] + (b[4..k] + b[k..]);
    } else if Encode(m) == Some(b) {
      PrintThenParse(m);
    }
  }

  /** No two well-formed byte strings decode to the same message. */
  lemma DecodeIsInjective(b1: Bytes, b2: Bytes)
    requires WellFormed(b1) && WellFormed(b2)
    requires Decode(b1).Decoded? && Decode(b2).Decoded? && Decode(b1).msg == Decode(b2).msg
    ensures b1 == b2
  {
    ParseThenPrint(b1);
    ParseThenPrint(b2);
  }

  // ----- Bytes on the wire -----

  /** The fixed header, bit by bit (section 3 of RFC 7252): version 1, type and token length share the first byte,
      then the code, then the id with its high byte first. */
  lemma HeaderLayout(m: Message)
    requires |m.token| <= 8
    ensures var h := Header(m);
            && h[0] / 64 == 1 && h[0] / 16 % 4 == m.typ % 4 && h[0] % 16 == |m.token|
            && h[1] == m.code % 256
            && 256 * h[2] as int + h[3] as int == m.messageId % 0x1_0000
  {
    HeaderFields(m.typ % 4, |m.token|);
    U16Reads(m.messageId % 0x1_0000);
  }

  /** An option's head by the rules of section 3.1 of RFC 7252: the high nibble and the first extension announce the
      delta, the low nibble and the second the length, and nothing else is written. */
  lemma OptionLayout(delta: nat, len: nat)
    requires OptionHeader(delta, len).Some?
    ensures var h := OptionHeader(delta, len).value;
            var dN, lN := h[0] / 16, h[0] % 16;
            && dN < 15 && lN < 15 && |h| == 1 + ExtensionSize(dN) + ExtensionSize(lN)
            && Announced(dN, h, 1) == delta && Announced(lN, h, 1 + ExtensionSize(dN)) == len
  {
    HeadByteSplits(delta, len);
    var h := OptionHeader(delta, len).value;
    ExtensionIsAnnounced(delta, [h[0]], Extension(len));
    ExtensionIsAnnounced(len, [h[0]] + Extension(delta), []);
    assert h == [h[0]] + (Extension(delta) + Extension(len));
    assert h == ([h[0]] + Extension(delta)) + (Extension(len) + []);
  }

  lemma ExtensionIsAnnounced(v: nat, before: Bytes, after: Bytes)
    requires v <= MAX_EXTENDED
    ensures |Extension(v)| == ExtensionSize(Nibble(v))
    ensures Announced(Nibble(v), before + (Extension(v) + after), |before|) == v
  {
    var s := before + (Extension(v) + after);
    assert forall i :: 0 <= i < |Extension(v)| ==> s[|before| + i] == Extension(v)[i];
    if v >= 269 {
      U16Reads(v - 269);
    }
  }
}
