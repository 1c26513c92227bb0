/** The CoAP codec of lib/coap.js (sections 3 and 3.1 of RFC 7252).  `Encode` and `Decode` are the codec as
    functions; `EncodeMessage` and `DecodeMessage` are the loops of the source, proved equal to them. */
module Coap {
  import opened Octets

  const CON := 0
  const NON := 1
  const ACK := 2

  const EMPTY := 0x00
  const GET := 0x01
  const POST := 0x02
  const PUT := 0x03
  const CONTENT := 0x45

  const URI_PATH := 11

  const MARKER: byte := 0xFF

  /** The largest delta and the largest length the two-byte extension can carry. */
  const MAX_EXTENDED := 65804

  datatype CoapOption = CoapOption(number: int, value: Bytes)

  datatype Message = Message(
    typ: int, code: int, messageId: int, token: Bytes, options: seq<CoapOption>, payload: Bytes)

  // ----- Printing -----

  /** `sort` by number; JavaScript's sort is stable, so options of equal number keep their order. */
  function SortOptions(s: seq<CoapOption>): seq<CoapOption> {
    if s == [] then [] else Insert(s[0], SortOptions(s[1..]))
  }

  function Insert(o: CoapOption, s: seq<CoapOption>): seq<CoapOption> {
    if s == [] || o.number <= s[0].number then [o] + s else [s[0]] + Insert(o, s[1..])
  }

  function Nibble(v: nat): byte {
    if v < 13 then v else if v < 269 then 13 else 14
  }

  function Extension(v: nat): Bytes
    requires v <= MAX_EXTENDED
  {
    if v < 13 then [] else if v < 269 then [v - 13] else PutU16(v - 269)
  }

  /** `encodeOptionHeader`; `writeUInt16BE` throws on what does not fit 16 bits. */
  function OptionHeader(delta: nat, len: nat): (r: Option<Bytes>)
    ensures r.Some? <==> delta <= 65804 && len <= 65804
  {
    if delta > MAX_EXTENDED || len > MAX_EXTENDED then None
    else Some([HeadByte(delta, len)] + (Extension(delta) + Extension(len)))
  }

  function HeadByte(delta: nat, len: nat): byte {
    16 * Nibble(delta) + Nibble(len)
  }

  /** One option behind an option of number `prev`. */
  function PrintOption(prev: int, o: CoapOption): (r: Option<Bytes>)
    ensures r.Some? <==> prev <= o.number <= prev + MAX_EXTENDED && |o.value| <= MAX_EXTENDED
    ensures r.Some? ==> r.value != []
  {
    if o.number < prev then None
    else
      var head := OptionHeader(o.number - prev, |o.value|);
      if head.None? then None else Some(head.value + o.value)
  }

  function PrintOptions(prev: int, s: seq<CoapOption>): Option<Bytes>
    decreases |s|
  {
    if s == [] then Some([])
    else
      var one, rest := PrintOption(prev, s[0]), PrintOptions(s[0].number, s[1..]);
      if one.None? || rest.None? then None else Some(one.value + rest.value)
  }

  /** Version 1, the type and the token length in one byte, and the three back out of it. */
  function FirstByte(typ: nat, tkl: nat): byte
    requires typ < 4 && tkl < 16
  {
    64 + 16 * typ + tkl
  }

  function Version(x: byte): nat { x / 64 }

  function TypeField(x: byte): (t: nat)
    ensures t < 4
  {
    x / 16 % 4
  }

  function TokenLength(x: byte): (k: nat)
    ensures k < 16
  {
    x % 16
  }

  function Header(m: Message): (h: Bytes)
    requires |m.token| <= 8
    ensures |h| == 4
  {
    [FirstByte(m.typ % 4, |m.token|), m.code % 256] + PutU16(m.messageId % 0x1_0000)
  }

  function HighNibble(x: byte): (n: byte)
    ensures n < 16
  {
    x / 16
  }

  function LowNibble(x: byte): (n: byte)
    ensures n < 16
  {
    x % 16
  }

  function PayloadPart(payload: Bytes): Bytes {
    if payload == [] then [] else [MARKER] + payload
  }

  function Encode(m: Message): Option<Bytes> {
    if |m.token| > 8 then None
    else
      var options := PrintOptions(0, SortOptions(m.options));
      if options.None? then None
      else Some(Header(m) + (m.token + (options.value + PayloadPart(m.payload))))
  }

  // ----- Parsing -----

  /** How the bytes after the token ended.  Only `Clean` is well formed: `decode` also accepts a marker with no
      payload behind it and an option whose one-byte length extension is missing, which JavaScript reads as NaN
      and therefore as an empty value.  In `CutBoth` the delta extension is missing as well; the accepted
      message then has one more option, of number NaN and with an empty value, which `options` leaves out. */
  datatype Tail = Clean | BareMarker | CutLength | CutBoth

  datatype Decoded = Decoded(msg: Message, tail: Tail) | Malformed

  datatype Parsed = Parsed(options: seq<CoapOption>, payload: Bytes, tail: Tail) | Bad

  datatype Extended = Value(v: nat, rest: Bytes) | Missing | OutOfRange

  predicate IsSuffix(a: Bytes, s: Bytes) {
    |a| <= |s| && a == s[|s| - |a|..]
  }

  /** The value of a nibble and the bytes behind its extension. */
  function TakeExtension(nibble: byte, s: Bytes): (e: Extended)
    requires nibble < 15
    ensures e.Value? ==> IsSuffix(e.rest, s)
  {
    if nibble == 13 then (if s == [] then Missing else Value(s[0] as int + 13, s[1..]))
    else if nibble == 14 then (if |s| < 2 then OutOfRange else Value(269 + U16(s[0], s[1]), s[2..]))
    else Value(nibble, s)
  }

  function Prepend(o: CoapOption, p: Parsed): Parsed {
    if p.Bad? then Bad else p.(options := [o] + p.options)
  }

  /** One turn of the parser: the options end here, or an option is read and parsing goes on behind it. */
  datatype Turn = End(p: Parsed) | Item(o: CoapOption, rest: Bytes)

  function NextOption(prev: int, s: Bytes): (t: Turn)
    requires s != []
    ensures t.Item? ==> |t.rest| < |s| && IsSuffix(t.rest, s)
  {
    var dN, lN := HighNibble(s[0]), LowNibble(s[0]);
    if s[0] == MARKER then End(Parsed([], s[1..], if |s| == 1 then BareMarker else Clean))
    else if dN == 15 || lN == 15 then End(Bad)
    else
      match TakeExtension(dN, s[1..])
      case OutOfRange => End(Bad)
      case Missing => End(if lN == 13 then Parsed([], [], CutBoth) else Bad)
      case Value(delta, s1) =>
        match TakeExtension(lN, s1)
        case OutOfRange => End(Bad)
        case Missing => End(Parsed([CoapOption(prev + delta, [])], [], CutLength))
        case Value(len, s2) =>
          if |s2| < len then End(Bad) else Item(CoapOption(prev + delta, s2[..len]), s2[len..])
  }

  function ParseOptions(prev: int, s: Bytes): Parsed
    decreases |s|
  {
    if s == [] then Parsed([], [], Clean)
    else
      match NextOption(prev, s)
      case End(p) => p
      case Item(o, rest) => Prepend(o, ParseOptions(o.number, rest))
  }

  function Decode(b: Bytes): Decoded {
    if |b| < 4 || Version(b[0]) != 1 then Malformed
    else
      var tkl := TokenLength(b[0]);
      if tkl > 8 || |b| < 4 + tkl then Malformed
      else
        match ParseOptions(0, b[4 + tkl..])
        case Bad => Malformed
        case Parsed(options, payload, tail) =>
          Decoded(Message(TypeField(b[0]), b[1], U16(b[2], b[3]), b[4..4 + tkl], options, payload), tail)
  }

  // ----- The loops of the source -----

  /** `encode`. */
  method EncodeMessage(m: Message) returns (r: Option<Bytes>)
    ensures r == Encode(m)
  {
    if |m.token| > 8 {
      return None;
    }
    var options := EncodeOptions(SortOptions(m.options));
    if options.None? {
      return None;
    }
    r := Some(Header(m) + (m.token + (options.value + PayloadPart(m.payload))));
  }

  /** The loop of `encode` over the sorted options. */
  method EncodeOptions(options: seq<CoapOption>) returns (r: Option<Bytes>)
    ensures r == PrintOptions(0, options)
  {
    var parts: Bytes, prev := [], 0;
    AfterNothing(PrintOptions(0, options));
    assert options[0..] == options;
    for i := 0 to |options|
      invariant PrintOptions(0, options) == After(parts, PrintOptions(prev, options[i..]))
    {
      var opt := options[i];
      var delta := opt.number - prev;
      if delta < 0 {
        return None;
      }
      var head := OptionHeader(delta, |opt.value|);
      if head.None? {
        return None;
      }
      PrintOne(parts, prev, options, i);
      parts := parts + (head.value + opt.value);
      prev := opt.number;
    }
    assert parts + [] == parts;
    r := Some(parts);
  }

  /** `b`, then what is still to be printed. */
  ghost function After(b: Bytes, r: Option<Bytes>): Option<Bytes> {
    if r.None? then None else Some(b + r.value)
  }

  lemma AfterNothing(r: Option<Bytes>)
    ensures After([], r) == r
  {
    if r.Some? {
      assert [] + r.value == r.value;
    }
  }

  lemma PrintOne(printed: Bytes, prev: int, s: seq<CoapOption>, i: nat)
    requires i < |s| && PrintOption(prev, s[i]).Some?
    ensures After(printed, PrintOptions(prev, s[i..])) ==
            After(printed + PrintOption(prev, s[i]).value, PrintOptions(s[i].number, s[i + 1..]))
  {
    var one, rest := PrintOption(prev, s[i]).value, PrintOptions(s[i].number, s[i + 1..]);
    assert s[i..][0] == s[i] && s[i..][1..] == s[i + 1..];
    if rest.Some? {
      assert printed + (one + rest.value) == (printed + one) + rest.value;
    }
  }

  ghost function AfterOptions(s: seq<CoapOption>, p: Parsed): Parsed {
    if p.Bad? then Bad else p.(options := s + p.options)
  }

  lemma AfterPrepend(s: seq<CoapOption>, o: CoapOption, p: Parsed)
    ensures AfterOptions(s, Prepend(o, p)) == AfterOptions(s + [o], p)
  {
  }

  /** `decode`. */
  method DecodeMessage(b: Bytes) returns (r: Decoded)
    ensures r == Decode(b)
  {
    hide Version, TypeField, TokenLength, U16, ParseOptions;
    if |b| < 4 || Version(b[0]) != 1 {
      return Malformed;
    }
    var tkl := TokenLength(b[0]);
    if tkl > 8 || |b| < 4 + tkl {
      return Malformed;
    }
    var p := DecodeOptions(b, 4 + tkl);
    if p.Bad? {
      return Malformed;
    }
    var msg := Message(TypeField(b[0]), b[1], U16(b[2], b[3]), b[4..4 + tkl], p.options, p.payload);
    r := Decoded(msg, p.tail);
  }

  /** The loop of `decode`: `pos` walks over the buffer and `prev` adds up the deltas. */
  method DecodeOptions(b: Bytes, start: nat) returns (p: Parsed)
    requires start <= |b|
    ensures p == ParseOptions(0, b[start..])
  {
    hide NextOption;
    var pos, prev := start, 0;
    var options: seq<CoapOption> := [];
    ghost var goal := ParseOptions(0, b[start..]);
    AfterNoOptions(goal);
    while pos < |b|
      invariant start <= pos <= |b|
      invariant goal == AfterOptions(options, ParseOptions(prev, b[pos..]))
      decreases |b| - pos
    {
      var t := NextOption(prev, b[pos..]);
      if t.End? {
        return if t.p.Bad? then Bad else t.p.(options := options + t.p.options);
      }
      assert b[pos..][|b| - pos - |t.rest|..] == b[|b| - |t.rest|..];
      AfterPrepend(options, t.o, ParseOptions(t.o.number, t.rest));
      pos := |b| - |t.rest|;
      options, prev := options + [t.o], t.o.number;
    }
    assert options + [] == options;
    p := Parsed(options, [], Clean);
  }

  lemma AfterNoOptions(p: Parsed)
    ensures AfterOptions([], p) == p
  {
  }
}
