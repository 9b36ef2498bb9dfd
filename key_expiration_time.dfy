/** The OpenPGP Key Expiration Time signature subpacket (subpacket type 9,
    section 5.2.3.6 of RFC 4880). Its body is one four-octet time field,
    a number of seconds, written most significant octet first as sections
    3.1 and 3.5 of RFC 4880 require of scalars.

    Decoding runs the grammar `must<expiration, eof>` with `expiration`
    being `bytes<4>`: the rules are tried in turn, a rule that matches
    hands its bytes to its action, and a rule that does not match raises
    the error message its control specialisation attaches to it. The body
    given to the decoder is the subpacket body alone; positions in errors
    are offsets into that body. */
module KeyExpirationTime {

  import opened Machine
  import opened Wrappers

  /** The decoded subpacket: `m_expiration`. */
  datatype KeyExpirationTimeSubpacket = KeyExpirationTimeSubpacket(expiration: uint32)

  /** The error raised by the control layer: the message of the rule that
      failed and the input position at which it failed. */
  datatype ParseError = ParseError(message: string, position: nat)

  /** The outcome of a parse: the packet, or the error that was raised
      instead of returning one. */
  datatype Result<T> = Ok(value: T) | Err(error: ParseError)

  /** The two rules of the grammar: `expiration` (`bytes<4>`) and `eof`. */
  datatype Rule = Expiration | Eof

  /** `grammar`: `must<expiration, eof>`. */
  const GRAMMAR: seq<Rule> := [Expiration, Eof]

  const INVALID_MESSAGE: string := "key expiration time subpacket is invalid"
  const TOO_LARGE_MESSAGE: string := "key expiration time subpacket is too large"

  /** `control<Rule>::error_message` */
  function ErrorMessage(rule: Rule): (m: string)
    ensures m == INVALID_MESSAGE || m == TOO_LARGE_MESSAGE
    ensures (m == INVALID_MESSAGE) <==> rule == Expiration
  {
    match rule
    case Expiration => INVALID_MESSAGE
    case Eof => TOO_LARGE_MESSAGE
  }

  /** Matching one rule at `pos`: the position after the matched bytes, or
      None. `bytes<4>` needs four bytes left and consumes them; `eof` needs
      none left and consumes nothing. */
  function Match(rule: Rule, input: seq<uint8>, pos: nat): (r: Option<nat>)
    requires pos <= |input|
    ensures r.Some? ==> pos <= r.value <= |input|
    ensures rule == Expiration ==> (r.Some? <==> pos + 4 <= |input|)
    ensures rule == Eof ==> (r.Some? <==> pos == |input|)
    ensures r.Some? && rule == Expiration ==> r.value == pos + 4
    ensures r.Some? && rule == Eof ==> r.value == pos
  {
    match rule
    case Expiration => if |input| - pos >= 4 then Some(pos + 4) else None
    case Eof => if pos == |input| then Some(pos) else None
  }

  /** The unsigned number whose base-256 digits, most significant first,
      are `s`. */
  function BigEndian(s: seq<uint8>): nat
  {
    if s == [] then 0 else BigEndian(s[..|s| - 1]) * 0x100 + s[|s| - 1]
  }

  /** Four big-endian octets, written out. */
  lemma BigEndianOfFour(s: seq<uint8>)
    requires |s| == 4
    ensures BigEndian(s) == s[0] as int * 0x100_0000 + s[1] as int * 0x1_0000 + s[2] as int * 0x100 + s[3] as int
    ensures BigEndian(s) < 0x1_0000_0000
  {
    assert s[..1][..0] == [];
    assert BigEndian(s[..1]) == s[0];
    assert s[..2][..1] == s[..1];
    assert BigEndian(s[..2]) == s[0] as int * 0x100 + s[1];
    assert s[..3][..2] == s[..2];
    assert BigEndian(s[..3]) == s[0] as int * 0x1_0000 + s[1] as int * 0x100 + s[2];
    assert s[..4] == s;
  }

  /** `action<Rule>::apply`: `expiration` binds its four bytes, as a
      big-endian number, to `m_expiration`; every other rule does nothing. */
  function Apply(rule: Rule, matched: seq<uint8>, packet: KeyExpirationTimeSubpacket): (p: KeyExpirationTimeSubpacket)
    requires rule == Expiration ==> |matched| == 4
    ensures rule == Expiration ==> p.expiration == BigEndian(matched)
    ensures rule == Eof ==> p == packet
  {
    match rule
    case Expiration =>
      BigEndianOfFour(matched);
      packet.(expiration := BigEndian(matched))
    case Eof => packet
  }

  /** `must<rules...>`: the rules in sequence; the first one that does not
      match raises its own error message at the position where it was
      tried, and no packet is returned. */
  function Must(rules: seq<Rule>, input: seq<uint8>, pos: nat, packet: KeyExpirationTimeSubpacket)
    : (r: Result<KeyExpirationTimeSubpacket>)
    requires pos <= |input|
    ensures r.Err? ==> pos <= r.error.position <= |input|
    ensures r.Err? ==> exists k :: 0 <= k < |rules| && r.error.message == ErrorMessage(rules[k])
                                   && Match(rules[k], input, r.error.position).None?
    ensures rules == [] ==> r == Ok(packet)
    decreases |rules|
  {
    if rules == [] then Ok(packet)
    else
      match Match(rules[0], input, pos)
      case None => Err(ParseError(ErrorMessage(rules[0]), pos))
      case Some(next) =>
        var r := Must(rules[1..], input, next, Apply(rules[0], input[pos..next], packet));
        assert r.Err? ==> exists k :: 1 <= k < |rules| && r.error.message == ErrorMessage(rules[k])
                                      && Match(rules[k], input, r.error.position).None? by {
          if r.Err? {
            var k :| 0 <= k < |rules[1..]| && r.error.message == ErrorMessage(rules[1..][k])
                     && Match(rules[1..][k], input, r.error.position).None?;
            assert rules[1..][k] == rules[k + 1];
          }
        }
        r
  }

  /** `create_or_throw`: a fresh packet filled in by the grammar, or the
      error it raised. Exactly four body bytes decode, to their big-endian
      value; a shorter body is "invalid" at offset 0, a longer one is "too
      large" at offset 4, where `eof` was tried. */
  function CreateOrThrow(body: seq<uint8>): (r: Result<KeyExpirationTimeSubpacket>)
    ensures r.Ok? <==> |body| == 4
    ensures r.Ok? ==> r.value.expiration == BigEndian(body)
    ensures |body| < 4 ==> r == Err(ParseError(INVALID_MESSAGE, 0))
    ensures |body| > 4 ==> r == Err(ParseError(TOO_LARGE_MESSAGE, 4))
  {
    var initial := KeyExpirationTimeSubpacket(0);
    var r := Must(GRAMMAR, body, 0, initial);
    assert GRAMMAR[1..] == [Eof] && GRAMMAR[1..][1..] == [];
    assert |body| == 4 ==> body[0..4] == body;
    r
  }

  /** `static_cast<uint8_t>`: the low eight bits. */
  function Low8(x: nat): uint8
  {
    x % 0x100
  }

  /** `write_body`: `m_expiration >> 24`, `>> 16`, `>> 8` and the value
      itself, each cut to a byte: the four-octet big-endian encoding. */
  function WriteBody(packet: KeyExpirationTimeSubpacket): (body: seq<uint8>)
    ensures |body| == 4
    ensures BigEndian(body) == packet.expiration
  {
    var v := packet.expiration;
    var body := [Low8(v / 0x100_0000), Low8(v / 0x1_0000), Low8(v / 0x100), Low8(v)];
    BigEndianOfFour(body);
    WriteBodyDigits(v);
    body
  }

  /** The four truncated shifts of a 32-bit value are its base-256 digits. */
  lemma WriteBodyDigits(v: uint32)
    ensures Low8(v / 0x100_0000) * 0x100_0000 + Low8(v / 0x1_0000) * 0x1_0000
            + Low8(v / 0x100) * 0x100 + Low8(v) == v
  {
    var q1, d := v / 0x100, v % 0x100;
    var q2, c := q1 / 0x100, q1 % 0x100;
    var a, b := q2 / 0x100, q2 % 0x100;
    DivModUnique(v, 0x1_0000, q2, c * 0x100 + d);
    DivModUnique(v, 0x100_0000, a, b * 0x1_0000 + c * 0x100 + d);
    assert a < 0x100;
  }

  /** Encoding then decoding gives back the packet. */
  lemma DecodeWriteBody(packet: KeyExpirationTimeSubpacket)
    ensures CreateOrThrow(WriteBody(packet)) == Ok(packet)
  {
  }

  /** Decoding then encoding gives back every body that decodes. */
  lemma WriteBodyDecode(body: seq<uint8>)
    requires CreateOrThrow(body).Ok?
    ensures WriteBody(CreateOrThrow(body).value) == body
  {
    var v := CreateOrThrow(body).value.expiration;
    BigEndianOfFour(body);
    var b0, b1, b2, b3: int := body[0], body[1], body[2], body[3];
    DivModUnique(v, 0x100_0000, b0, b1 * 0x1_0000 + b2 * 0x100 + b3);
    DivModUnique(v, 0x1_0000, b0 * 0x100 + b1, b2 * 0x100 + b3);
    DivModUnique(v, 0x100, b0 * 0x1_0000 + b1 * 0x100 + b2, b3);
    DivModUnique(b0 * 0x100 + b1, 0x100, b0, b1);
    DivModUnique(b0 * 0x1_0000 + b1 * 0x100 + b2, 0x100, b0 * 0x100 + b1, b2);
    var w := WriteBody(CreateOrThrow(body).value);
    assert w[0] == b0 && w[1] == b1 && w[2] == b2 && w[3] == b3;
  }

  /** One day: 00 01 51 80 is 86400 seconds, both ways. */
  lemma OneDay()
    ensures CreateOrThrow([0x00, 0x01, 0x51, 0x80]) == Ok(KeyExpirationTimeSubpacket(86400))
    ensures WriteBody(KeyExpirationTimeSubpacket(86400)) == [0x00, 0x01, 0x51, 0x80]
  {
    BigEndianOfFour([0x00, 0x01, 0x51, 0x80]);
    WriteBodyDecode([0x00, 0x01, 0x51, 0x80]);
  }
}
