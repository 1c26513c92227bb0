/** The vocabulary of lib/messages.js and the messages that `Session.send` builds from it. */
module Messages {
  import opened Octets
  import opened Coap
  import opened CoapLaws

  datatype Name =
    | Hello | KeyChange | UpdateBegin | Chunk | UpdateDone | FunctionCall | VariableRequest | PrivateEvent
    | PublicEvent | SynergyProtocol | Attribute | Describe | GetTime | RaiseYourHand | Ping | GetTimeReturn

  /** Code, type and the one character of the Uri-Path. */
  datatype Spec = Spec(code: int, typ: int, uri: Option<char>)

  function SpecOf(name: Name): (s: Spec)
    ensures 0 <= s.code < 256 && 0 <= s.typ < 4
    ensures s.uri.Some? ==> s.uri.value < 128 as char
  {
    match name
    case Hello => Spec(POST, NON, Some('h'))
    case KeyChange => Spec(PUT, CON, Some('k'))
    case UpdateBegin => Spec(POST, CON, Some('u'))
    case Chunk => Spec(POST, CON, Some('c'))
    case UpdateDone => Spec(PUT, CON, Some('u'))
    case FunctionCall => Spec(POST, CON, Some('f'))
    case VariableRequest => Spec(GET, CON, Some('v'))
    case PrivateEvent => Spec(POST, NON, Some('E'))
    case PublicEvent => Spec(POST, NON, Some('e'))
    case SynergyProtocol => Spec(POST, NON, Some('m'))
    case Attribute => Spec(POST, NON, Some('a'))
    case Describe => Spec(GET, CON, Some('d'))
    case GetTime => Spec(GET, CON, Some('t'))
    case RaiseYourHand => Spec(PUT, CON, Some('s'))
    case Ping => Spec(EMPTY, CON, None)
    case GetTimeReturn => Spec(CONTENT, ACK, None)
  }

  /** The entries in the order of the table. */
  const TABLE := [
    Hello, KeyChange, UpdateBegin, Chunk, UpdateDone, FunctionCall, VariableRequest, PrivateEvent,
    PublicEvent, SynergyProtocol, Attribute, Describe, GetTime, RaiseYourHand, Ping, GetTimeReturn]

  /** A one-character ASCII string as bytes. */
  function Ascii(c: char): Bytes
    requires c < 128 as char
  {
    [c as int]
  }

  predicate Matches(name: Name, code: int, uri: Bytes) {
    var spec := SpecOf(name);
    spec.uri.Some? && Ascii(spec.uri.value) == uri && spec.code == code
  }

  function FirstUriPath(options: seq<CoapOption>): Option<Bytes> {
    if options == [] then None
    else if options[0].number == URI_PATH then Some(options[0].value)
    else FirstUriPath(options[1..])
  }

  function Search(names: seq<Name>, code: int, uri: Bytes): (r: Option<Name>)
    ensures r.Some? ==> r.value in names && Matches(r.value, code, uri)
    ensures r.None? ==> forall n :: n in names ==> !Matches(n, code, uri)
  {
    if names == [] then None
    else if Matches(names[0], code, uri) then Some(names[0])
    else Search(names[1..], code, uri)
  }

  function Classify(m: Message): Option<Name> {
    if m.code == EMPTY && m.typ == CON then Some(Ping)
    else
      var uri := FirstUriPath(m.options);
      if uri.None? then None else Search(TABLE, m.code, uri.value)
  }

  // ----- What send builds -----

  datatype SendOptions = SendOptions(
    payload: Bytes, options: seq<CoapOption>, messageId: Option<int>, token: Bytes, typ: Option<int>)

  function Build(name: Name, opts: SendOptions, messageId: int): Message {
    var spec := SpecOf(name);
    var path := if spec.uri.Some? then [CoapOption(URI_PATH, Ascii(spec.uri.value))] else [];
    Message(if opts.typ.Some? then opts.typ.value else spec.typ, spec.code, messageId, opts.token,
            path + opts.options, opts.payload)
  }

  lemma EveryNameIsListed(name: Name)
    ensures name in TABLE
  {
  }

  lemma MatchIsUnique(a: Name, b: Name, code: int, uri: Bytes)
    requires Matches(a, code, uri) && Matches(b, code, uri)
    ensures a == b
  {
  }

  lemma {:induction false} FirstIsNumbered(s: seq<CoapOption>)
    ensures FirstUriPath(s) ==
            if Numbered(s, URI_PATH) == [] then None else Some(Numbered(s, URI_PATH)[0].value)
  {
    if s != [] {
      FirstIsNumbered(s[1..]);
    }
  }

  /** The spec's own Uri-Path is in front of any the caller adds, and the stable sort keeps it there. */
  lemma PathSurvivesSort(name: Name, opts: SendOptions, messageId: int)
    requires SpecOf(name).uri.Some?
    ensures FirstUriPath(SortOptions(Build(name, opts, messageId).options)) == Some(Ascii(SpecOf(name).uri.value))
  {
    var s := Build(name, opts, messageId).options;
    SortKeeps(s, URI_PATH);
    FirstIsNumbered(s);
    FirstIsNumbered(SortOptions(s));
  }

  lemma SearchFinds(name: Name)
    requires SpecOf(name).uri.Some?
    ensures Search(TABLE, SpecOf(name).code, Ascii(SpecOf(name).uri.value)) == Some(name)
  {
    var code, uri := SpecOf(name).code, Ascii(SpecOf(name).uri.value);
    EveryNameIsListed(name);
    assert Matches(name, code, uri);
    MatchIsUnique(name, Search(TABLE, code, uri).value, code, uri);
  }

  lemma FoundByPath(m: Message, name: Name)
    requires SpecOf(name).uri.Some? && m.code == SpecOf(name).code
    requires FirstUriPath(m.options) == Some(Ascii(SpecOf(name).uri.value))
    ensures Classify(m) == Some(name)
  {
    hide Search, FirstUriPath;
    SearchFinds(name);
  }

  lemma NotFoundWithoutPath(m: Message, name: Name)
    requires SpecOf(name).uri.None? && m.code == SpecOf(name).code
    ensures Classify(m) == Some(name) <==> name.Ping? && m.typ == CON
  {
    hide Search, FirstUriPath;
  }

  lemma BuiltFields(name: Name, opts: SendOptions, messageId: int)
    ensures var m := Build(name, opts, messageId); m.code == SpecOf(name).code && 0 <= m.code < 256
  {
  }

  /** Name survival.  Whatever options, token, payload, id and type the caller adds, a message that `encode`
      accepts is classified on the other side under the name it was built from, exactly if that name has a
      Uri-Path, or is Ping and still confirmable. */
  lemma NameSurvives(name: Name, opts: SendOptions, messageId: int)
    requires Encode(Build(name, opts, messageId)).Some?
    ensures var m := Build(name, opts, messageId);
            var d := Decode(Encode(m).value);
            && d.Decoded?
            && (Classify(d.msg) == Some(name) <==> SpecOf(name).uri.Some? || (name.Ping? && m.typ % 4 == CON))
  {
    hide Encode, Decode, SortOptions, Classify, FirstUriPath, Build, SpecOf;
    var m := Build(name, opts, messageId);
    PrintThenParse(m);
    BuiltFields(name, opts, messageId);
    if SpecOf(name).uri.Some? {
      PathSurvivesSort(name, opts, messageId);
      FoundByPath(Normalise(m), name);
    } else {
      NotFoundWithoutPath(Normalise(m), name);
    }
  }

  // ----- What a built message carries -----

  /** The message of this name under this id: its code, its type or the caller's, the caller's token and payload, the
      caller's options of each number in their order, and in front of the caller's Uri-Path the one character of the
      name's own. */
  ghost predicate Carries(m: Message, name: Name, opts: SendOptions, id: int) {
    var spec := SpecOf(name);
    && m.code == spec.code
    && m.typ == (match opts.typ case Some(typ) => typ % 4 case None => spec.typ)
    && m.messageId == id && m.token == opts.token && m.payload == opts.payload
    && (forall n :: n != URI_PATH ==> Numbered(m.options, n) == Numbered(opts.options, n))
    && Numbered(m.options, URI_PATH) ==
       (match spec.uri case Some(x) => [CoapOption(URI_PATH, [x as int])] case None => [])
       + Numbered(opts.options, URI_PATH)
  }

  /** These bytes are well formed and say just that. */
  ghost predicate Tells(plain: Bytes, name: Name, opts: SendOptions, id: int) {
    Decode(plain).Decoded? && WellFormed(plain) && Carries(Decode(plain).msg, name, opts, id)
  }

  lemma {:induction false} NumberedAppends(a: seq<CoapOption>, b: seq<CoapOption>, n: int)
    ensures Numbered(a + b, n) == Numbered(a, n) + Numbered(b, n)
  {
    if a == [] {
      assert a + b == b && [] + Numbered(b, n) == Numbered(b, n);
    } else {
      assert (a + b)[0] == a[0] && (a + b)[1..] == a[1..] + b;
      NumberedAppends(a[1..], b, n);
      var one := if a[0].number == n then [a[0]] else [];
      assert one + (Numbered(a[1..], n) + Numbered(b, n)) == (one + Numbered(a[1..], n)) + Numbered(b, n);
    }
  }

  lemma NumberedOne(o: CoapOption, n: int)
    ensures Numbered([o], n) == if o.number == n then [o] else []
  {
    assert [o][1..] == [];
  }

  /** The other side decodes a message that carries what was asked for. */
  lemma BuiltCarries(name: Name, opts: SendOptions, id: int)
    requires 0 <= id < 0x1_0000
    ensures Carries(Normalise(Build(name, opts, id)), name, opts, id)
  {
    hide SortOptions, Numbered;
    var m, spec := Build(name, opts, id), SpecOf(name);
    BuiltFields(name, opts, id);
    forall n ensures Numbered(SortOptions(m.options), n) ==
      (if n == URI_PATH && spec.uri.Some? then [CoapOption(URI_PATH, Ascii(spec.uri.value))] else [])
      + Numbered(opts.options, n)
    {
      SortKeeps(m.options, n);
      if spec.uri.Some? {
        NumberedAppends([CoapOption(URI_PATH, Ascii(spec.uri.value))], opts.options, n);
        NumberedOne(CoapOption(URI_PATH, Ascii(spec.uri.value)), n);
      } else {
        assert m.options == opts.options;
      }
      assert [] + Numbered(opts.options, n) == Numbered(opts.options, n);
    }
  }

  lemma PrintedTells(name: Name, opts: SendOptions, id: int)
    requires 0 <= id < 0x1_0000 && Encode(Build(name, opts, id)).Some?
    ensures Tells(Encode(Build(name, opts, id)).value, name, opts, id)
  {
    hide Encode, Decode, Build, SortOptions, Carries, WellFormed;
    PrintThenParse(Build(name, opts, id));
    CleanIffWellFormed(Encode(Build(name, opts, id)).value);
    BuiltCarries(name, opts, id);
  }

  /** Exactly which messages have which name.  A Ping is empty and confirmable; every other message with a name has it
      from its code and its first Uri-Path, which is the name's character; and without one it has no name. */
  lemma ClassifyIff(m: Message, name: Name)
    ensures var path := Numbered(m.options, URI_PATH);
            var ping := m.code == EMPTY && m.typ == CON;
            && (ping ==> Classify(m) == Some(Ping))
            && (!ping ==>
                  (Classify(m) == Some(name) <==>
                   && path != [] && SpecOf(name).uri.Some? && SpecOf(name).code == m.code
                   && path[0].value == Ascii(SpecOf(name).uri.value)))
            && (!ping && path == [] ==> Classify(m) == None)
  {
    hide Numbered, FirstUriPath, SpecOf;
    FirstIsNumbered(m.options);
    var path := Numbered(m.options, URI_PATH);
    if path != [] && SpecOf(name).uri.Some? && SpecOf(name).code == m.code &&
       path[0].value == Ascii(SpecOf(name).uri.value) {
      SearchFinds(name);
    }
  }

  /** The vocabulary as it is sent: requests are confirmable but for five that are not, the one answer is an
      acknowledgement with content, and only it and Ping have no Uri-Path. */
  lemma WhatIsSent(name: Name, opts: SendOptions, id: int)
    requires opts.typ.None? && opts.options == []
    ensures var m := Build(name, opts, id);
            && m.typ == (if name in {Hello, PrivateEvent, PublicEvent, SynergyProtocol, Attribute} then 1
                         else if name == GetTimeReturn then 2 else 0)
            && m.code == (if name == Ping then 0x00
                          else if name in {VariableRequest, Describe, GetTime} then 0x01
                          else if name in {KeyChange, UpdateDone, RaiseYourHand} then 0x03
                          else if name == GetTimeReturn then 0x45 else 0x02)
            && (m.options == [] <==> name in {Ping, GetTimeReturn})
  {
  }

  /** The vocabulary as it is heard: each code (section 12.1 of RFC 7252) and first Uri-Path with its name, and
      Ping. */
  lemma Vocabulary(m: Message, x: char)
    requires x < 128 as char
    ensures m.code == 0x00 && m.typ == 0 ==> Classify(m) == Some(Ping)
    ensures var path := Numbered(m.options, 11);
            path != [] && path[0].value == [x as int] ==>
              && (m.code == 0x01 ==> Classify(m) == NamedByGet(x))
              && (m.code == 0x02 ==> Classify(m) == NamedByPost(x))
              && (m.code == 0x03 ==> Classify(m) == NamedByPut(x))
              && (!(m.code in {0x01, 0x02, 0x03}) && !(m.code == 0x00 && m.typ == 0) ==> Classify(m) == None)
  {
    hide Numbered, FirstUriPath, Search, Classify;
    var expected := if m.code == 0x01 then NamedByGet(x) else if m.code == 0x02 then NamedByPost(x) else
                    if m.code == 0x03 then NamedByPut(x) else None;
    ClassifyIff(m, if expected.Some? then expected.value else Ping);
    if Classify(m).Some? {
      ClassifyIff(m, Classify(m).value);
    }
  }

  function NamedByGet(x: char): Option<Name> {
    if x == 'v' then Some(VariableRequest)
    else if x == 'd' then Some(Describe)
    else if x == 't' then Some(GetTime)
    else None
  }

  function NamedByPost(x: char): Option<Name> {
    if x == 'h' then Some(Hello)
    else if x == 'u' then Some(UpdateBegin)
    else if x == 'c' then Some(Chunk)
    else if x == 'f' then Some(FunctionCall)
    else if x == 'E' then Some(PrivateEvent)
    else if x == 'e' then Some(PublicEvent)
    else if x == 'm' then Some(SynergyProtocol)
    else if x == 'a' then Some(Attribute)
    else None
  }

  function NamedByPut(x: char): Option<Name> {
    if x == 'k' then Some(KeyChange)
    else if x == 'u' then Some(UpdateDone)
    else if x == 's' then Some(RaiseYourHand)
    else None
  }
}
