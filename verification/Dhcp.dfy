/** DHCP options: tag, length, payload (section 2 of RFC 2132), as this client reads and
    writes them. */
module Dhcp {
  import opened Basics
  import opened Checksums

  datatype MessageType = Discover | Offer | Request | Ack | Invalid

  datatype DhcpOption =
    | SubnetMask(addr: nat)
    | BroadcastIp(addr: nat)
    | RequestedIp(addr: nat)
    | LeaseTime(addr: nat)
    | Message(typ: MessageType)
    | ServerIp(addr: nat)
    | ParameterRequestList(params: seq<Byte>)
    | RenewalTime(addr: nat)
    | Unknown(code: Byte, payload: seq<Byte>)
    | End

  function ToMessageType(b: Byte): MessageType {
    match b
    case 1 => Discover
    case 2 => Offer
    case 3 => Request
    case 5 => Ack
    case _ => Invalid
  }

  function FromMessageType(t: MessageType): Byte {
    match t
    case Discover => 1
    case Offer => 2
    case Request => 3
    case Ack => 5
    case Invalid => 255
  }

  /** The codes that stand for an option with a 32-bit value. */
  predicate Numeric(code: Byte) { code == 1 || code == 28 || code == 50 || code == 51 || code == 54 || code == 58 }

  function NumericOption(code: Byte, x: nat): DhcpOption
    requires Numeric(code)
  {
    match code
    case 1 => SubnetMask(x)
    case 28 => BroadcastIp(x)
    case 50 => RequestedIp(x)
    case 51 => LeaseTime(x)
    case 54 => ServerIp(x)
    case _ => RenewalTime(x)
  }

  /** Where the option after the first starts. */
  function Next(p: seq<Byte>): nat
    requires |p| >= 2
  {
    var len: nat := p[1];
    2 + len
  }

  /** One option read off the front, with what is left to read. */
  function Parse(p: seq<Byte>): Option<(DhcpOption, seq<Byte>)> {
    if |p| < 2 || |p| - 2 < p[1] then None
    else
      var code, payload, rest := p[0], p[2..Next(p)], p[Next(p)..];
      if Numeric(code) then
        if |payload| == 4 then Some((NumericOption(code, Value(payload)), rest)) else None
      else if code == 53 then
        if |payload| == 1 then Some((Message(ToMessageType(payload[0])), rest)) else None
      else if code == 55 then Some((ParameterRequestList(payload), rest))
      else if code == 255 then Some((End, []))
      else Some((Unknown(code, payload), rest))
  }

  /** Every option read uses up at least two bytes. */
  lemma ParseConsumes(p: seq<Byte>)
    requires Parse(p).Some?
    ensures |Parse(p).value.1| + 2 <= |p| && Next(p) <= |p| && (!Parse(p).value.0.End? ==> Parse(p).value.1 == p[Next(p)..])
  {
  }

  /** An option is read exactly when its length fits in the bytes there are, is 4 for an option
      with a 32-bit value, and 1 for a message type. What is read has the code and the payload it
      was sent with, except that a message type with no name is not told apart from others. */
  lemma ParseExact(p: seq<Byte>)
    ensures Parse(p).Some? <==>
              && |p| >= 2 && Next(p) <= |p|
              && (p[0] in {1, 28, 50, 51, 54, 58} ==> p[1] == 4) && (p[0] == 53 ==> p[1] == 1)
    ensures Parse(p).Some? ==>
              var (o, rest) := Parse(p).value;
              && Code(o) == p[0] && rest == (if p[0] == 255 then [] else p[Next(p)..])
              && (p[0] == 53 ==> o == Message(ToMessageType(p[2])))
              && (p[0] != 53 && p[0] != 255 ==> Payload(o) == p[2..Next(p)])
  {
    if |p| >= 2 && Next(p) <= |p| && Next(p) == 6 { DigitsOfValue(p[2..6]); }
    hide Digits, Value;
  }

  /** All options up to the first that cannot be read. */
  function ParseAll(p: seq<Byte>): seq<DhcpOption>
    decreases |p|
  {
    var one := Parse(p);
    if one.None? then [] else
    ParseConsumes(p);
    [one.value.0] + ParseAll(one.value.1)
  }

  /** The option loop of the packet parser. */
  method ParseOptions(message: seq<Byte>) returns (opts: seq<DhcpOption>)
    ensures opts == ParseAll(message)
    ensures 2 * |opts| <= |message|
  {
    var options := message;
    opts := [];
    while |options| > 0
      invariant opts + ParseAll(options) == ParseAll(message)
      invariant 2 * |opts| + |options| <= |message|
      decreases |options|
    {
      hide Parse;
      var option := Parse(options);
      if option.None? { break; }
      ParseConsumes(options);
      opts := opts + [option.value.0];
      options := option.value.1;
    }
    assert ParseAll(options) == [];
  }

  // ----- writing -----

  /** The code, and the payload, an option is written with. */
  function Code(o: DhcpOption): Byte {
    match o
    case SubnetMask(_) => 1
    case BroadcastIp(_) => 28
    case RequestedIp(_) => 50
    case LeaseTime(_) => 51
    case Message(_) => 53
    case ServerIp(_) => 54
    case ParameterRequestList(_) => 55
    case RenewalTime(_) => 58
    case Unknown(code, _) => code
    case End => 255
  }

  function Payload(o: DhcpOption): seq<Byte> {
    match o
    case Message(t) => [FromMessageType(t)]
    case ParameterRequestList(params) => params
    case Unknown(_, payload) => payload
    case End => []
    case _ => Digits(o.addr, 4)
  }

  function Encode(o: DhcpOption): seq<Byte>
    requires |Payload(o)| <= 255
  {
    if o.End? then [255] else [Code(o), |Payload(o)|] + Payload(o)
  }

  /** Pushes a code, the length of a payload, and the payload. */
  method PushOption(buffer: seq<Byte>, code: Byte, payload: seq<Byte>) returns (r: Outcome<seq<Byte>>)
    ensures r.Panicked? <==> |payload| > 255
    ensures r.Returned? ==> r.value == buffer + ([code, |payload|] + payload)
  {
    var b := buffer + [code];
    if |payload| > 255 { return Panicked; }
    b := b + [|payload|];
    b := b + payload;
    return Returned(b);
  }

  /** Appends an option to the buffer; panics when its payload is longer than 255 bytes. */
  method Serialize(o: DhcpOption, buffer: seq<Byte>) returns (r: Outcome<seq<Byte>>)
    ensures r.Panicked? <==> |Payload(o)| > 255
    ensures r.Returned? ==> r.value == buffer + Encode(o)
  {
    hide Digits, FromMessageType;
    match o
    case SubnetMask(mask) => r := PushOption(buffer, 1, Digits(mask, 4));
    case BroadcastIp(addr) => r := PushOption(buffer, 28, Digits(addr, 4));
    case RequestedIp(addr) => r := PushOption(buffer, 50, Digits(addr, 4));
    case LeaseTime(time) => r := PushOption(buffer, 51, Digits(time, 4));
    case Message(typ) => r := PushOption(buffer, 53, [FromMessageType(typ)]);
    case ServerIp(addr) => r := PushOption(buffer, 54, Digits(addr, 4));
    case ParameterRequestList(params) => r := PushOption(buffer, 55, params);
    case RenewalTime(time) => r := PushOption(buffer, 58, Digits(time, 4));
    case Unknown(code, payload) => r := PushOption(buffer, code, payload);
    case End => r := Returned(buffer + [255]);
  }

  // ----- round trips -----

  predicate Recognised(code: Byte) { Numeric(code) || code == 53 || code == 55 || code == 255 }

  /** An option that can be written and read back: not the end mark, values of 32 bits,
      payloads of at most 255 bytes, no recognised code passed off as unknown. */
  predicate Sendable(o: DhcpOption) {
    match o
    case Message(_) => true
    case ParameterRequestList(params) => |params| <= 255
    case Unknown(code, payload) => !Recognised(code) && |payload| <= 255
    case End => false
    case _ => o.addr < WORD32
  }

  /** Reading what was written gives the option back and leaves the rest. */
  lemma ParseEncoded(o: DhcpOption, rest: seq<Byte>)
    requires Sendable(o)
    ensures |Payload(o)| <= 255 && Parse(Encode(o) + rest) == Some((o, rest))
  {
    if !(o.Message? || o.ParameterRequestList? || o.Unknown?) {
      FourDigits();
      ValueOfDigits(o.addr, 4);
    }
    hide Digits, Value;
    var p, n := Encode(o) + rest, |Payload(o)|;
    assert p[2..2 + n] == Payload(o) && p[2 + n..] == rest;
  }

  ghost predicate AllSendable(opts: seq<DhcpOption>) { forall i :: 0 <= i < |opts| ==> Sendable(opts[i]) }

  lemma SendableFits(o: DhcpOption)
    requires Sendable(o)
    ensures |Payload(o)| <= 255 && !o.End?
  {
  }

  ghost function EncodeAll(opts: seq<DhcpOption>): seq<Byte>
    requires AllSendable(opts)
  {
    if opts == [] then [] else
    SendableFits(opts[0]);
    Encode(opts[0]) + EncodeAll(opts[1..])
  }

  /** The loop reads a written list back and goes on with what follows it. */
  lemma {:induction false} ListThenRest(opts: seq<DhcpOption>, rest: seq<Byte>)
    requires AllSendable(opts)
    ensures ParseAll(EncodeAll(opts) + rest) == opts + ParseAll(rest)
    decreases |opts|
  {
    hide Parse, Encode, Payload, Sendable;
    if opts == [] {
      assert EncodeAll(opts) + rest == rest;
    } else {
      SendableFits(opts[0]);
      var tail := EncodeAll(opts[1..]) + rest;
      ParseEncoded(opts[0], tail);
      ListThenRest(opts[1..], rest);
      assert EncodeAll(opts) + rest == Encode(opts[0]) + tail;
    }
  }

  /** Written options read back as they were. */
  lemma OptionsRoundTrip(opts: seq<DhcpOption>)
    requires AllSendable(opts)
    ensures ParseAll(EncodeAll(opts)) == opts
  {
    ListThenRest(opts, []);
    EndMark([]);
    hide *;
    assert EncodeAll(opts) + [] == EncodeAll(opts);
  }

  /** What an end mark followed by `tail` is read as: reported when a length byte and as many
      bytes follow it, otherwise dropped. */
  function EndShown(tail: seq<Byte>): seq<DhcpOption> { if tail != [] && |tail| > tail[0] then [End] else [] }

  lemma EndMark(tail: seq<Byte>)
    ensures ParseAll([255] + tail) == EndShown(tail) && ParseAll([]) == []
  {
  }

  /** So do written options with an end mark and anything behind it; a bare end mark is
      dropped. */
  lemma EndedRoundTrip(opts: seq<DhcpOption>, tail: seq<Byte>)
    requires AllSendable(opts)
    ensures ParseAll(EncodeAll(opts) + ([255] + tail)) == opts + EndShown(tail)
    ensures ParseAll(EncodeAll(opts) + [255]) == opts
  {
    var mark: seq<Byte> := [255];
    ListThenRest(opts, mark + tail);
    EndMark(tail);
    ListThenRest(opts, mark);
    EndMark([]);
    assert EndShown([]) == [];
    hide *;
    assert mark + [] == mark;
  }

  /** Writing what was read restores the bytes read, exactly unless the option was a message
      type with a value that has no name. */
  lemma EncodeParsed(p: seq<Byte>)
    requires Parse(p).Some? && !Parse(p).value.0.End?
    ensures var (o, rest) := Parse(p).value;
            && |Payload(o)| <= 255
            && (Encode(o) + rest == p <==> !(p[0] == 53 && ToMessageType(p[2]).Invalid? && p[2] != 255))
  {
    var (o, rest) := Parse(p).value;
    ParseConsumes(p);
    var payload := p[2..Next(p)];
    if |payload| == 4 { DigitsOfValue(payload); }
    hide Digits, Value;
    assert p == [p[0], p[1]] + payload + rest;
    assert |Payload(o)| == |payload| && Code(o) == p[0];
    assert Encode(o) + rest == [p[0], p[1]] + Payload(o) + rest;
    assert (Encode(o) + rest)[2..Next(p)] == Payload(o);
  }
}
