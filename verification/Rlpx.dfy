/**
 The encrypted transport between two peers (p2p/transport.py), the secrets both derive from the
 handshake (p2p/auth.py) and the messages sent over it (p2p/commands.py, p2p/message.py).

 Keccak, AES and the key agreement are parameters of the model. Of them it needs output lengths
 and the symmetry of the key agreement only.
 */
module Rlpx {
  import opened Collections
  import opened ByteStreams
  import opened Bits
  import Rlp

  const HEADER_LEN := 16
  const MAC_LEN := 16
  const HASH_LEN := 32

  // -------------------------------------------------------------------------------------------
  // Primitives
  // -------------------------------------------------------------------------------------------

  type Key = int

  datatype Primitives = Primitives(
    keccak: Bytes -> Bytes,
    publicKey: Key -> Key,
    agree: (Key, Key) -> Bytes,
    keystream: (Bytes, nat) -> Byte,
    macBlock: (Bytes, Bytes) -> Bytes)
  {
    ghost predicate Lawful()
    {
      && (forall x :: |keccak(x)| == HASH_LEN)
      && (forall k, x :: |macBlock(k, x)| == HEADER_LEN)
      && (forall a, b :: agree(a, publicKey(b)) == agree(b, publicKey(a)))
    }
  }

  function XorByte(a: Byte, b: Byte): Byte
  {
    assert Pow2(8) == 256;
    XorBelow(a, b, 8);
    Xor(a, b)
  }

  function XorBytes(a: Bytes, b: Bytes): (x: Bytes)
    requires |a| == |b|
    ensures |x| == |a|
  {
    seq(|a|, i requires 0 <= i < |a| => XorByte(a[i], b[i]))
  }

  /** Counter mode from a stream position on: encryption and decryption are the same. */
  function Cipher(p: Primitives, key: Bytes, pos: nat, data: Bytes): (x: Bytes)
    ensures |x| == |data|
  {
    seq(|data|, i requires 0 <= i < |data| => XorByte(data[i], p.keystream(key, pos + i)))
  }

  lemma CipherTwice(p: Primitives, key: Bytes, pos: nat, data: Bytes)
    ensures Cipher(p, key, pos, Cipher(p, key, pos, data)) == data
  {
    forall i | 0 <= i < |data|
      ensures XorByte(XorByte(data[i], p.keystream(key, pos + i)), p.keystream(key, pos + i)) == data[i]
    {
      XorCancels(data[i], p.keystream(key, pos + i));
    }
  }

  /** What turns the plain bytes into the cipher bytes is the keystream from a position on. */
  ghost predicate Enciphered(p: Primitives, key: Bytes, pos: nat, plain: Bytes, cipher: Bytes)
  {
    && |cipher| == |plain|
    && forall i :: 0 <= i < |plain| ==> XorByte(cipher[i], plain[i]) == p.keystream(key, pos + i)
  }

  lemma CipherEnciphers(p: Primitives, key: Bytes, pos: nat, data: Bytes)
    ensures Enciphered(p, key, pos, data, Cipher(p, key, pos, data))
  {
    forall i | 0 <= i < |data|
      ensures XorByte(Cipher(p, key, pos, data)[i], data[i]) == p.keystream(key, pos + i)
    {
      var k := p.keystream(key, pos + i);
      XorCommutes(data[i], k);
      XorCancels(k, data[i]);
    }
  }

  lemma CipherDeciphers(p: Primitives, key: Bytes, pos: nat, data: Bytes, size: nat)
    requires size <= |data|
    ensures Enciphered(p, key, pos, Cipher(p, key, pos, data)[..size], data[..size])
  {
    CipherEnciphers(p, key, pos, data);
    var plain := Cipher(p, key, pos, data);
    forall i | 0 <= i < size
      ensures XorByte(data[i], plain[i]) == p.keystream(key, pos + i)
    {
      XorCommutes(data[i], plain[i]);
    }
  }

  // -------------------------------------------------------------------------------------------
  // Secrets
  // -------------------------------------------------------------------------------------------

  /** One direction of a connection: what its MAC has absorbed, and its cipher position. */
  datatype Half = Half(mac: Bytes, pos: nat)

  datatype Secrets = Secrets(aes: Bytes, mac: Bytes, egress: Bytes, ingress: Bytes)

  function DeriveSecrets(p: Primitives, isInitiator: bool, ephemeral: Key, remoteEphemeral: Key,
                         initiatorNonce: Bytes, responderNonce: Bytes, authInit: Bytes, authAck: Bytes): Secrets
    requires p.Lawful() && |initiatorNonce| == HASH_LEN && |responderNonce| == HASH_LEN
  {
    var ecdhe := p.agree(ephemeral, remoteEphemeral);
    var shared := p.keccak(ecdhe + p.keccak(responderNonce + initiatorNonce));
    var aes := p.keccak(ecdhe + shared);
    var mac := p.keccak(ecdhe + aes);
    var mac1 := XorBytes(mac, responderNonce) + authInit;
    var mac2 := XorBytes(mac, initiatorNonce) + authAck;
    if isInitiator then Secrets(aes, mac, mac1, mac2) else Secrets(aes, mac, mac2, mac1)
  }

  /** Both ends derive the same keys, and what one writes with the other reads with. */
  lemma SecretsMirror(p: Primitives, initiator: Key, responder: Key,
                      initiatorNonce: Bytes, responderNonce: Bytes, authInit: Bytes, authAck: Bytes)
    requires p.Lawful() && |initiatorNonce| == HASH_LEN && |responderNonce| == HASH_LEN
    ensures var i := DeriveSecrets(p, true, initiator, p.publicKey(responder), initiatorNonce, responderNonce,
                                     authInit, authAck);
            var r := DeriveSecrets(p, false, responder, p.publicKey(initiator), initiatorNonce, responderNonce,
                                     authInit, authAck);
            i.aes == r.aes && i.mac == r.mac && i.egress == r.ingress && i.ingress == r.egress
  {
  }

  /** Each side starts its own MAC from the other side's nonce and its own handshake message. */
  lemma SecretsBindHandshake(p: Primitives, isInitiator: bool, ephemeral: Key, remoteEphemeral: Key,
                             initiatorNonce: Bytes, responderNonce: Bytes, authInit: Bytes, authAck: Bytes)
    requires p.Lawful() && |initiatorNonce| == HASH_LEN && |responderNonce| == HASH_LEN
    ensures var s := DeriveSecrets(p, isInitiator, ephemeral, remoteEphemeral, initiatorNonce, responderNonce,
                                   authInit, authAck);
            var mine, theirs := if isInitiator then initiatorNonce else responderNonce,
                                if isInitiator then responderNonce else initiatorNonce;
            var e := p.agree(ephemeral, remoteEphemeral);
            && s.aes == p.keccak(e + p.keccak(e + p.keccak(responderNonce + initiatorNonce)))
            && s.mac == p.keccak(e + s.aes)
            && |s.mac| == HASH_LEN && |s.egress| >= HASH_LEN && |s.ingress| >= HASH_LEN
            && XorBytes(s.egress[..HASH_LEN], theirs) == s.mac == XorBytes(s.ingress[..HASH_LEN], mine)
            && s.egress[HASH_LEN..] == (if isInitiator then authInit else authAck)
            && s.ingress[HASH_LEN..] == (if isInitiator then authAck else authInit)
  {
    var s := DeriveSecrets(p, isInitiator, ephemeral, remoteEphemeral, initiatorNonce, responderNonce,
                           authInit, authAck);
    XorBytesTwice(s.mac, initiatorNonce);
    XorBytesTwice(s.mac, responderNonce);
    assert (XorBytes(s.mac, initiatorNonce) + authAck)[..HASH_LEN] == XorBytes(s.mac, initiatorNonce);
    assert (XorBytes(s.mac, responderNonce) + authInit)[..HASH_LEN] == XorBytes(s.mac, responderNonce);
  }

  lemma XorBytesTwice(a: Bytes, b: Bytes)
    requires |a| == |b|
    ensures XorBytes(XorBytes(a, b), b) == a
  {
    forall i | 0 <= i < |a|
      ensures XorByte(XorByte(a[i], b[i]), b[i]) == a[i]
    {
      XorCancels(a[i], b[i]);
    }
  }

  // -------------------------------------------------------------------------------------------
  // Messages
  // -------------------------------------------------------------------------------------------

  datatype Message = Message(header: Bytes, body: Bytes)

  /** RLP of a non-negative integer (Appendix B of the Ethereum Yellow Paper); too long is an error. */
  function RlpInt(n: nat): Option<Bytes>
  {
    var digits := BigEndian(n);
    if 0 < n < 128 then Some([n])
    else if |digits| <= 55 then Some([0x80 + |digits|] + digits)
    else
      var size := BigEndian(|digits|);
      if |size| <= 8 then Some([0xb7 + |size|] + size + digits) else None
  }

  /** The command id a message carries, read from its first byte alone; anything else is malformed. */
  function CommandId(body: Bytes): Option<nat>
  {
    if body == [] then None
    else if body[0] == 0x80 then Some(0)
    else if 0 < body[0] < 0x80 then Some(body[0])
    else None
  }

  /** The ids are those that take one byte as an RLP integer. */
  lemma CommandIdIs(body: Bytes, n: nat)
    ensures CommandId(body) == Some(n) <==> body != [] && RlpInt(n) == Some([body[0]])
  {
    hide BigEndian;
    var digits := BigEndian(n);
    ZeroDigits(n);
    if body == [] || 0 < n < 128 {
    } else if n == 0 {
      assert [0x80] + digits == [0x80];
    } else {
      assert RlpInt(n).Some? ==> |RlpInt(n).value| > 1;
    }
  }

  /** An integer is encoded as the string of its digits. */
  lemma RlpIntIs(n: nat)
    requires |BigEndian(n)| < Rlp.SIZE_LIMIT - 9
    ensures Rlp.RlpSize(Rlp.Str(BigEndian(n))) < Rlp.SIZE_LIMIT
    ensures RlpInt(n) == Some(Rlp.Encode(Rlp.Str(BigEndian(n))))
  {
    hide BigEndian;
    var digits := BigEndian(n);
    Rlp.BigEndianLength(n);
    Rlp.LengthFits(|digits|);
    Rlp.BigEndianLength(|digits|);
    ZeroDigits(n);
    FewDigits(n);
  }

  lemma FewDigits(n: nat)
    ensures 0 < n < 256 ==> BigEndian(n) == [n]
    ensures n >= 256 ==> |BigEndian(n)| > 1
  {
    if n > 0 {
      ZeroDigits(n / 256);
    }
  }

  lemma ZeroDigits(n: nat)
    ensures BigEndian(n) == [] <==> n == 0
  {
  }

  /** Three bytes, most significant first. */
  function BE24(n: nat): (b: Bytes)
    requires n < 0x100_0000
    ensures |b| == 3
  {
    [n / 0x1_0000, n / 256 % 256, n % 256]
  }

  function FromBE24(b: Bytes): (n: nat)
    requires |b| == 3
  {
    0x1_0000 * b[0] as int + 256 * b[1] as int + b[2] as int
  }

  lemma BE24RoundTrip(n: nat)
    requires n < 0x100_0000
    ensures FromBE24(BE24(n)) == n
  {
  }

  /** The three bytes are the digits of the number. */
  lemma BE24Value(b: Bytes)
    requires |b| == 3
    ensures FromBE24(b) == FromBigEndian(b)
  {
    DigitsValue(b);
    DigitsValue(b[..2]);
    DigitsValue(b[..1]);
    assert b[..2][..1] == b[..1] && b[..1][..0] == [];
  }

  const HEADER_DATA: Bytes := [0xc2, 0x80, 0x80]

  /** The message for a command with the given id and (compressed) payload. */
  function EncodeCommand(cmdId: nat, payload: Bytes): Option<Message>
  {
    match RlpInt(cmdId)
    case Some(id) =>
      var body := id + payload;
      if |body| < 0x100_0000 && CommandId(body).Some? then Some(Message(BE24(|body|) + HEADER_DATA, body)) else None
    case None => None
  }

  /** A message as EncodeCommand builds them. */
  ghost predicate WellFormed(m: Message): (b: bool)
    ensures b ==> Sendable(m)
  {
    |m.body| < 0x100_0000 && CommandId(m.body).Some? && m.header == BE24(|m.body|) + HEADER_DATA
  }

  /** The header of a message fits the one block that the framing has for it. */
  predicate Sendable(m: Message)
  {
    0 < |m.header| <= HEADER_LEN
  }

  /** A command can be sent exactly when its id fits one byte and its frame three length bytes. */
  lemma EncodeCommandWorks(cmdId: nat, payload: Bytes)
    ensures EncodeCommand(cmdId, payload).Some? <==> cmdId < 128 && 1 + |payload| < 0x100_0000
    ensures EncodeCommand(cmdId, payload).Some? ==>
              var m := EncodeCommand(cmdId, payload).value;
              WellFormed(m) && CommandId(m.body) == Some(cmdId) && |m.body| == 1 + |payload| && m.body[1..] == payload
  {
  }

  // -------------------------------------------------------------------------------------------
  // Frames
  // -------------------------------------------------------------------------------------------

  function Roundup16(n: nat): (r: nat)
    ensures n <= r < n + 16 && r % 16 == 0
  {
    if n % 16 == 0 then n else n + 16 - n % 16
  }

  function Pad(b: Bytes): (x: Bytes)
    ensures |x| == Roundup16(|b|) && b <= x && forall i :: |b| <= i < |x| ==> x[i] == 0
  {
    b + seq(Roundup16(|b|) - |b|, _ => 0)
  }

  datatype Keys = Keys(p: Primitives, aes: Bytes, mac: Bytes)
  {
    function Digest(absorbed: Bytes): (d: Bytes)
      requires p.Lawful()
      ensures |d| == MAC_LEN
    {
      p.keccak(absorbed)[..MAC_LEN]
    }

    /** What the MAC absorbs for a block: the block masked with its own encrypted digest. */
    function Mixed(absorbed: Bytes, block: Bytes): Bytes
      requires p.Lawful() && |block| == HEADER_LEN
    {
      absorbed + XorBytes(p.macBlock(mac, Digest(absorbed)), block)
    }

    function AfterHeader(absorbed: Bytes, headerCipher: Bytes): Bytes
      requires p.Lawful() && |headerCipher| == HEADER_LEN
    {
      Mixed(absorbed, headerCipher)
    }

    function AfterBody(absorbed: Bytes, bodyCipher: Bytes): Bytes
      requires p.Lawful()
    {
      Mixed(absorbed + bodyCipher, Digest(absorbed + bodyCipher))
    }

    /** The bytes of one frame, and the state of the sending half after it. */
    function Seal(h: Half, header: Bytes, body: Bytes): (Bytes, Half)
      requires p.Lawful() && |header| == HEADER_LEN
    {
      var headerCipher := Cipher(p, aes, h.pos, header);
      var bodyCipher := Cipher(p, aes, h.pos + HEADER_LEN, body);
      var mac1 := AfterHeader(h.mac, headerCipher);
      var mac2 := AfterBody(mac1, bodyCipher);
      (headerCipher + Digest(mac1) + (bodyCipher + Digest(mac2)), Half(mac2, h.pos + HEADER_LEN + |body|))
    }

    function SealMessage(h: Half, m: Message): (Bytes, Half)
      requires p.Lawful() && Sendable(m)
    {
      Seal(h, Pad(m.header), Pad(m.body))
    }

    /** Checks and decrypts the 32 header bytes. */
    function OpenHeader(h: Half, data: Bytes): Option<(Bytes, Half)>
      requires p.Lawful() && |data| == HEADER_LEN + MAC_LEN
    {
      var headerCipher := data[..HEADER_LEN];
      var mac' := AfterHeader(h.mac, headerCipher);
      if Digest(mac') == data[HEADER_LEN..]
      then Some((Cipher(p, aes, h.pos, headerCipher), Half(mac', h.pos + HEADER_LEN))) else None
    }

    /** Checks and decrypts the padded body and its MAC. */
    function OpenBody(h: Half, data: Bytes, size: nat): Option<(Bytes, Half)>
      requires p.Lawful() && |data| == Roundup16(size) + MAC_LEN
    {
      var bodyCipher := data[..Roundup16(size)];
      var mac' := AfterBody(h.mac, bodyCipher);
      if Digest(mac') == data[Roundup16(size)..]
      then Some((Cipher(p, aes, h.pos, bodyCipher)[..size], Half(mac', h.pos + Roundup16(size)))) else None
    }

    /** Reading one message off a stream. */
    function Open(h: Half, s: Bytes): Opened
      requires p.Lawful()
    {
      if |s| < HEADER_LEN + MAC_LEN then Lost
      else
        match OpenHeader(h, s[..HEADER_LEN + MAC_LEN])
        case None => Malformed
        case Some((padded, h1)) =>
          var size := FromBE24(padded[..3]);
          var rest := s[HEADER_LEN + MAC_LEN..];
          if |rest| < Roundup16(size) + MAC_LEN then Lost
          else
            match OpenBody(h1, rest[..Roundup16(size) + MAC_LEN], size)
            case None => Malformed
            case Some((body, h2)) =>
              var m := Rebuild(padded, body);
              if m.None? then Malformed else Received(m.value, h2, rest[Roundup16(size) + MAC_LEN..])
    }
  }

  datatype Opened = Received(message: Message, half: Half, rest: Bytes) | Lost | Malformed

  /** One canonical integer off the front of an RLP list: what it is, and how many bytes it took. */
  function DecodeInt(b: Bytes): Option<(nat, nat)>
  {
    if b == [] || b[0] == 0 || b[0] > 0xb7 then None
    else if b[0] < 0x80 then Some((b[0] as int, 1))
    else
      var n := b[0] as int - 0x80;
      if |b| <= n || (n > 0 && b[1] == 0) || (n == 1 && b[1] < 0x80) then None
      else Some((FromBigEndian(b[1..n + 1]), n + 1))
  }

  function DecodeInts(b: Bytes): Option<seq<nat>>
    decreases |b|
  {
    if b == [] then Some([])
    else
      match DecodeInt(b)
      case None => None
      case Some((n, used)) =>
        if used > |b| || used == 0 then None
        else
          match DecodeInts(b[used..])
          case None => None
          case Some(ns) => Some([n] + ns)
  }

  /** RLP of a list of at most two integers; what follows it is padding. */
  function DecodeHeaderData(b: Bytes): Option<seq<nat>>
  {
    if b == [] || !(0xc0 <= b[0] <= 0xf7) || |b| <= b[0] as int - 0xc0 then None
    else
      var ns := DecodeInts(b[1..b[0] as int - 0xc0 + 1]);
      if ns.Some? && |ns.value| <= 2 then ns else None
  }

  function EncodeInts(ns: seq<nat>): Option<Bytes>
  {
    if ns == [] then Some([])
    else
      match (RlpInt(ns[0]), EncodeInts(ns[1..]))
      case (Some(first), Some(rest)) => Some(first + rest)
      case _ => None
  }

  function EncodeHeaderData(ns: seq<nat>): Option<Bytes>
  {
    match EncodeInts(ns)
    case Some(data) => if |data| <= 55 then Some([0xc0 + |data|] + data) else None
    case None => None
  }

  lemma {:induction false} BigEndianRoundTrip(digits: Bytes)
    requires digits == [] || digits[0] != 0
    ensures BigEndian(FromBigEndian(digits)) == digits && (digits != [] ==> FromBigEndian(digits) > 0)
  {
    if digits != [] {
      var init, last := digits[..|digits| - 1], digits[|digits| - 1];
      BigEndianRoundTrip(init);
      var n := FromBigEndian(init);
      assert (256 * n + last as int) / 256 == n && (256 * n + last as int) % 256 == last as int;
      assert digits == init + [last];
    }
  }

  /** Decoding accepts only what encoding produces. */
  lemma IntIsCanonical(b: Bytes)
    requires DecodeInt(b).Some?
    ensures var (n, used) := DecodeInt(b).value; 0 < used <= |b| && RlpInt(n) == Some(b[..used])
  {
    hide BigEndian, FromBigEndian;
    if b[0] >= 0x80 {
      var n := b[0] as int - 0x80;
      var digits := b[1..n + 1];
      BigEndianRoundTrip(digits);
      assert b[..n + 1] == [b[0]] + digits;
      if n == 0 {
        NoDigitsValue();
      } else if n == 1 {
        assert digits == [b[1]];
        OneDigitValue(b[1]);
      } else {
        ManyDigits(digits);
      }
    } else {
      assert b[..1] == [b[0]];
    }
  }

  lemma NoDigitsValue()
    ensures FromBigEndian([]) == 0
  {
  }

  lemma OneDigitValue(d: Byte)
    ensures FromBigEndian([d]) == d as int
  {
    assert [d][..0] == [];
  }

  lemma ManyDigits(digits: Bytes)
    requires |digits| > 1 && digits[0] != 0
    ensures FromBigEndian(digits) >= 256
  {
  }

  lemma {:induction false} IntsAreCanonical(b: Bytes)
    requires DecodeInts(b).Some?
    ensures EncodeInts(DecodeInts(b).value) == Some(b)
    decreases |b|
  {
    hide DecodeInt, RlpInt;
    if b != [] {
      IntIsCanonical(b);
      var (n, used) := DecodeInt(b).value;
      IntsAreCanonical(b[used..]);
      var ns := DecodeInts(b[used..]).value;
      assert ([n] + ns)[1..] == ns;
      assert b[..used] + b[used..] == b;
    }
  }

  lemma {:induction false} LeadingDigit(n: nat)
    requires n > 0
    ensures BigEndian(n) != [] && BigEndian(n)[0] != 0
    ensures |BigEndian(n)| == 1 ==> BigEndian(n) == [n]
    decreases n
  {
    if n >= 256 {
      LeadingDigit(n / 256);
    } else {
      assert BigEndian(n / 256) == [];
    }
  }

  /** And it accepts everything encoding produces that fits a short list. */
  lemma IntRoundTrip(n: nat, rest: Bytes)
    requires RlpInt(n).Some? && |RlpInt(n).value| <= 55
    ensures DecodeInt(RlpInt(n).value + rest) == Some((n, |RlpInt(n).value|))
    ensures RlpInt(n).value != []
  {
    hide BigEndian, FromBigEndian;
    var digits, b := BigEndian(n), RlpInt(n).value + rest;
    Rlp.BigEndianLength(n);
    ZeroDigits(n);
    if n >= 128 {
      LeadingDigit(n);
      assert b[1..|digits| + 1] == digits;
    } else if n == 0 {
      assert b[1..1] == [];
      NoDigitsValue();
    }
  }

  lemma {:induction false} IntsRoundTrip(ns: seq<nat>)
    requires EncodeInts(ns).Some? && |EncodeInts(ns).value| <= 55
    ensures DecodeInts(EncodeInts(ns).value) == Some(ns)
  {
    hide DecodeInt, RlpInt;
    if ns != [] {
      var first, rest := RlpInt(ns[0]).value, EncodeInts(ns[1..]).value;
      IntRoundTrip(ns[0], rest);
      IntsRoundTrip(ns[1..]);
      assert (first + rest)[|first|..] == rest;
      assert [ns[0]] + ns[1..] == ns;
    }
  }

  /** Every header list of at most two integers that can be encoded is read back, whatever follows it. */
  lemma HeaderDataRoundTrip(ns: seq<nat>, rest: Bytes)
    requires |ns| <= 2 && EncodeHeaderData(ns).Some?
    ensures DecodeHeaderData(EncodeHeaderData(ns).value + rest) == Some(ns)
  {
    hide DecodeInts, EncodeInts;
    IntsRoundTrip(ns);
    var data := EncodeInts(ns).value;
    assert (EncodeHeaderData(ns).value + rest)[1..|data| + 1] == data;
  }

  /** The header is rebuilt without its padding by decoding and encoding its list again. */
  function Rebuild(padded: Bytes, body: Bytes): Option<Message>
    requires |padded| == HEADER_LEN
  {
    match DecodeHeaderData(padded[3..])
    case None => None
    case Some(ns) =>
      var data := EncodeHeaderData(ns);
      if data.None? || CommandId(body).None? then None else Some(Message(padded[..3] + data.value, body))
  }

  lemma HeaderDataIsCanonical(data: Bytes)
    requires DecodeHeaderData(data).Some? && |data| == HEADER_LEN - 3
    ensures var n := data[0] as int - 0xc0;
            0 <= n < |data| && EncodeHeaderData(DecodeHeaderData(data).value) == Some(data[..n + 1])
  {
    hide DecodeInts, EncodeInts;
    var n := data[0] as int - 0xc0;
    var ints := data[1..n + 1];
    IntsAreCanonical(ints);
    assert data[..n + 1] == [data[0]] + ints;
  }

  /** Rebuilding cuts off the padding and changes nothing else, for every header list the decoder accepts. */
  lemma RebuildCutsPadding(padded: Bytes, body: Bytes)
    requires |padded| == HEADER_LEN
    ensures Rebuild(padded, body).Some? <==> DecodeHeaderData(padded[3..]).Some? && CommandId(body).Some?
    ensures Rebuild(padded, body).Some? ==>
              var m := Rebuild(padded, body).value;
              m.header == padded[..3] + padded[3..][..padded[3] as int - 0xc0 + 1] && m.body == body
  {
    hide DecodeHeaderData, EncodeHeaderData;
    if DecodeHeaderData(padded[3..]).Some? {
      HeaderDataIsCanonical(padded[3..]);
    }
  }

  /** Padding a header and rebuilding it loses nothing. */
  lemma HeaderRoundTrip(m: Message)
    requires WellFormed(m)
    ensures |Pad(m.header)| == HEADER_LEN && FromBE24(Pad(m.header)[..3]) == |m.body|
    ensures Rebuild(Pad(m.header), m.body) == Some(m)
  {
    var padded := Pad(m.header);
    BE24RoundTrip(|m.body|);
    assert padded[..3] == BE24(|m.body|);
    assert padded[3] == 0xc2 && padded[4] == 0x80 && padded[5] == 0x80;
    var data := padded[3..];
    var ints := data[1..3];
    assert ints == [0x80, 0x80] && ints[1..] == [0x80] && [0x80 as Byte][1..] == [];
    assert DecodeInts([]) == Some([]) && DecodeInts([0x80]) == Some([0] + []);
    assert DecodeInts(ints) == Some([0] + ([0] + []));
    RebuildCutsPadding(padded, m.body);
    assert data[..3] == HEADER_DATA;
  }

  /** What one half seals the mirrored half opens, ending in the same state. */
  lemma SealOpens(k: Keys, h: Half, m: Message, rest: Bytes)
    requires k.p.Lawful() && WellFormed(m)
    ensures var (bytes, h') := k.SealMessage(h, m);
            k.Open(h, bytes + rest) == Received(m, h', rest)
  {
    hide Cipher, Rebuild, FromBE24, Pad;
    var header, body := Pad(m.header), Pad(m.body);
    HeaderRoundTrip(m);
    var hc, bc := Cipher(k.p, k.aes, h.pos, header), Cipher(k.p, k.aes, h.pos + HEADER_LEN, body);
    var mac1 := k.AfterHeader(h.mac, hc);
    var mac2 := k.AfterBody(mac1, bc);
    var headerPart, bodyPart := hc + k.Digest(mac1), bc + k.Digest(mac2);
    var s := k.SealMessage(h, m).0 + rest;
    assert s[..HEADER_LEN + MAC_LEN] == headerPart;
    assert headerPart[..HEADER_LEN] == hc && headerPart[HEADER_LEN..] == k.Digest(mac1);
    CipherTwice(k.p, k.aes, h.pos, header);
    var tail := s[HEADER_LEN + MAC_LEN..];
    assert tail == bodyPart + rest;
    var n := Roundup16(|m.body|) + MAC_LEN;
    assert tail[..n] == bodyPart && tail[n..] == rest;
    assert bodyPart[..|bc|] == bc && bodyPart[|bc|..] == k.Digest(mac2);
    CipherTwice(k.p, k.aes, h.pos + HEADER_LEN, body);
    assert body[..|m.body|] == m.body;
  }

  // -------------------------------------------------------------------------------------------
  // Tampering
  // -------------------------------------------------------------------------------------------

  /** Two different inputs with the same digest. */
  ghost predicate Collision(k: Keys, x: Bytes, y: Bytes)
    requires k.p.Lawful()
  {
    x != y && k.Digest(x) == k.Digest(y)
  }

  lemma XorBytesInjective(a: Bytes, b: Bytes, c: Bytes)
    requires |a| == |b| == |c| && XorBytes(a, b) == XorBytes(a, c)
    ensures b == c
  {
    forall i | 0 <= i < |a|
      ensures b[i] == c[i]
    {
      assert XorBytes(a, b)[i] == XorBytes(a, c)[i];
      XorCommutes(a[i], b[i]);
      XorCommutes(a[i], c[i]);
      XorInjective(b[i], c[i], a[i]);
    }
  }

  /** Of a header that is accepted, neither the bytes nor the MAC alone can be changed without a collision. */
  lemma HeaderTamperEvident(k: Keys, h: Half, data: Bytes, data': Bytes)
    requires k.p.Lawful() && |data| == |data'| == HEADER_LEN + MAC_LEN && data != data'
    requires k.OpenHeader(h, data).Some? && k.OpenHeader(h, data').Some?
    ensures data[..HEADER_LEN] != data'[..HEADER_LEN]
    ensures data[HEADER_LEN..] == data'[HEADER_LEN..] ==>
              Collision(k, k.AfterHeader(h.mac, data[..HEADER_LEN]), k.AfterHeader(h.mac, data'[..HEADER_LEN]))
  {
    hide XorBytes;
    hide Keys.Digest;
    var c, c' := data[..HEADER_LEN], data'[..HEADER_LEN];
    assert data == c + data[HEADER_LEN..] && data' == c' + data'[HEADER_LEN..];
    var block := k.p.macBlock(k.mac, k.Digest(h.mac));
    var x, x' := XorBytes(block, c), XorBytes(block, c');
    assert (h.mac + x)[|h.mac|..] == x && (h.mac + x')[|h.mac|..] == x';
    if x == x' {
      XorBytesInjective(block, c, c');
    }
  }

  /** The same for a body. */
  lemma BodyTamperEvident(k: Keys, h: Half, data: Bytes, data': Bytes, size: nat)
    requires k.p.Lawful() && |data| == |data'| == Roundup16(size) + MAC_LEN && data != data'
    requires k.OpenBody(h, data, size).Some? && k.OpenBody(h, data', size).Some?
    ensures data[..Roundup16(size)] != data'[..Roundup16(size)]
    ensures data[Roundup16(size)..] == data'[Roundup16(size)..] ==>
              Collision(k, k.AfterBody(h.mac, data[..Roundup16(size)]), k.AfterBody(h.mac, data'[..Roundup16(size)]))
  {
    hide XorBytes, Roundup16;
    hide Keys.Digest;
    var n := Roundup16(size);
    var c, c' := data[..n], data'[..n];
    assert data == c + data[n..] && data' == c' + data'[n..];
    var x, x' := k.AfterBody(h.mac, c), k.AfterBody(h.mac, c');
    assert x[|h.mac|..|h.mac| + n] == c && x'[|h.mac|..|h.mac| + n] == c';
  }

  // -------------------------------------------------------------------------------------------
  // A direction of the connection as a FIFO channel
  // -------------------------------------------------------------------------------------------

  /** The bytes and the final state for a run of messages sealed from a given state. */
  ghost function SealAll(k: Keys, h: Half, ms: seq<Message>): (Bytes, Half)
    requires k.p.Lawful() && forall m :: m in ms ==> WellFormed(m)
    decreases |ms|
  {
    if ms == [] then ([], h)
    else
      var m := ms[0];
      assert m in ms && WellFormed(m);
      var (bytes, h') := k.SealMessage(h, m);
      var (more, h'') := SealAll(k, h', ms[1..]);
      (bytes + more, h'')
  }

  lemma {:induction false} SealAllAppend(k: Keys, h: Half, ms: seq<Message>, m: Message)
    requires k.p.Lawful() && WellFormed(m) && forall q :: q in ms ==> WellFormed(q)
    ensures var (bytes, h') := SealAll(k, h, ms);
            var (more, h'') := k.SealMessage(h', m);
            SealAll(k, h, ms + [m]) == (bytes + more, h'')
    decreases |ms|
  {
    hide Keys.SealMessage;
    if ms == [] {
      assert ms + [m] == [m];
      var sealed := k.SealMessage(h, m);
      assert SealAll(k, sealed.1, [m][1..]) == ([], sealed.1);
      assert sealed.0 + [] == sealed.0 && [] + sealed.0 == sealed.0;
    } else {
      assert ms[0] in ms;
      var first := k.SealMessage(h, ms[0]);
      SealAllAppend(k, first.1, ms[1..], m);
      assert (ms + [m])[1..] == ms[1..] + [m];
      var (x, h1) := SealAll(k, first.1, ms[1..]);
      var (y, h2) := k.SealMessage(h1, m);
      assert first.0 + (x + y) == (first.0 + x) + y;
    }
  }

  // -------------------------------------------------------------------------------------------
  // What is on the wire
  // -------------------------------------------------------------------------------------------

  /** A frame holds the header and the body, enciphered with the keystream from pos on, and two MACs. */
  ghost predicate FrameAt(k: Keys, pos: nat, frame: Bytes, header: Bytes, body: Bytes)
  {
    && |header| == HEADER_LEN && |frame| == HEADER_LEN + MAC_LEN + |body| + MAC_LEN
    && Enciphered(k.p, k.aes, pos, header, frame[..HEADER_LEN])
    && Enciphered(k.p, k.aes, pos + HEADER_LEN, body, frame[HEADER_LEN + MAC_LEN..|frame| - MAC_LEN])
  }

  /**
   The MACs of a frame: what went before, the header masked with its encrypted digest, the body, and
   the digest of all that masked in the same way.
   */
  ghost predicate TaggedFrame(k: Keys, before: Bytes, frame: Bytes, after: Bytes)
    requires k.p.Lawful() && |frame| >= HEADER_LEN + 2 * MAC_LEN
  {
    var n := |frame| - MAC_LEN;
    var mac1 := before + XorBytes(k.p.macBlock(k.mac, k.p.keccak(before)[..16]), frame[..16]);
    var mac2 := mac1 + frame[32..n];
    var seed := k.p.keccak(mac2)[..16];
    && frame[16..32] == k.p.keccak(mac1)[..16] && after == mac2 + XorBytes(k.p.macBlock(k.mac, seed), seed)
    && frame[n..] == k.p.keccak(after)[..16]
  }

  lemma FrameParts(a: Bytes, b: Bytes, c: Bytes, d: Bytes)
    requires |a| == HEADER_LEN && |b| == MAC_LEN && |d| == MAC_LEN
    ensures var frame := a + b + c + d;
            && frame[..HEADER_LEN] == a && frame[HEADER_LEN + MAC_LEN..|frame| - MAC_LEN] == c
            && frame[16..32] == b && frame[|frame| - MAC_LEN..] == d
            && frame == a + b + (c + d)
  {
  }

  lemma SealEnciphers(k: Keys, h: Half, header: Bytes, body: Bytes)
    requires k.p.Lawful() && |header| == HEADER_LEN
    ensures FrameAt(k, h.pos, k.Seal(h, header, body).0, header, body)
    ensures k.Seal(h, header, body).1.pos == h.pos + HEADER_LEN + |body|
  {
    hide Enciphered, Cipher;
    hide Keys.AfterHeader, Keys.AfterBody;
    CipherEnciphers(k.p, k.aes, h.pos, header);
    CipherEnciphers(k.p, k.aes, h.pos + HEADER_LEN, body);
    var hc, bc := Cipher(k.p, k.aes, h.pos, header), Cipher(k.p, k.aes, h.pos + HEADER_LEN, body);
    var mac1 := k.AfterHeader(h.mac, hc);
    FrameParts(hc, k.Digest(mac1), bc, k.Digest(k.AfterBody(mac1, bc)));
  }

  /** How many keystream positions the first i messages take. */
  ghost function Position(ms: seq<Message>, i: nat): nat
    requires i <= |ms|
  {
    if i == 0 then 0 else Position(ms, i - 1) + HEADER_LEN + |Pad(ms[i - 1].body)|
  }

  ghost function Offset(ms: seq<Message>, i: nat): nat
    requires i <= |ms|
  {
    Position(ms, i) + 2 * MAC_LEN * i
  }

  lemma {:induction false} PositionsGrow(ms: seq<Message>, i: nat, j: nat)
    requires i <= j <= |ms|
    ensures Position(ms, i) <= Position(ms, j) && Offset(ms, i) <= Offset(ms, j)
    decreases j
  {
    if i < j {
      PositionsGrow(ms, i, j - 1);
    }
  }

  /** No keystream position serves two bytes of the messages sent in one direction. */
  lemma {:induction false} PositionsDistinct(ms: seq<Message>, i: nat, t: nat, j: nat, u: nat)
    requires i < |ms| && j < |ms| && (i, t) != (j, u)
    requires t < HEADER_LEN + |Pad(ms[i].body)| && u < HEADER_LEN + |Pad(ms[j].body)|
    ensures Position(ms, i) + t != Position(ms, j) + u
  {
    hide Pad;
    if i < j {
      PositionsGrow(ms, i + 1, j);
    } else if j < i {
      PositionsGrow(ms, j + 1, i);
    }
  }

  lemma {:induction false} PositionPrefix(ms: seq<Message>, more: seq<Message>, i: nat)
    requires i <= |ms|
    ensures Position(ms + more, i) == Position(ms, i)
    decreases i
  {
    if i > 0 {
      PositionPrefix(ms, more, i - 1);
    }
  }

  /** The bytes are the frames of the messages, one after the other, on consecutive keystream positions. */
  ghost predicate Frames(k: Keys, pos: nat, wire: Bytes, ms: seq<Message>)
  {
    && |wire| == Offset(ms, |ms|)
    && forall i :: 0 <= i < |ms| ==> FrameOf(k, pos, wire, ms, i)
  }

  ghost predicate FrameOf(k: Keys, pos: nat, wire: Bytes, ms: seq<Message>, i: nat)
    requires i < |ms|
  {
    && Offset(ms, i) <= Offset(ms, i + 1) <= |wire|
    && FrameAt(k, pos + Position(ms, i), wire[Offset(ms, i)..Offset(ms, i + 1)], Pad(ms[i].header), Pad(ms[i].body))
  }

  lemma {:induction false} FramesMore(k: Keys, pos: nat, wire: Bytes, ms: seq<Message>, frame: Bytes, m: Message)
    requires Frames(k, pos, wire, ms)
    requires FrameAt(k, pos + Position(ms, |ms|), frame, Pad(m.header), Pad(m.body))
    ensures Frames(k, pos, wire + frame, ms + [m])
  {
    hide FrameAt, Pad, FrameOf, Position;
    var ms', wire' := ms + [m], wire + frame;
    FrameLength(k, pos + Position(ms, |ms|), frame, Pad(m.header), Pad(m.body));
    PositionNext(ms, m);
    forall i | 0 <= i < |ms'|
      ensures FrameOf(k, pos, wire', ms', i)
    {
      if i < |ms| {
        FrameStays(k, pos, wire, ms, frame, m, i);
      } else {
        FrameLast(k, pos, wire, ms, frame, m);
      }
    }
  }

  lemma {:induction false} PositionNext(ms: seq<Message>, m: Message)
    ensures Position(ms + [m], |ms|) == Position(ms, |ms|)
    ensures Position(ms + [m], |ms| + 1) == Position(ms, |ms|) + HEADER_LEN + |Pad(m.body)|
  {
    hide Pad;
    PositionPrefix(ms, [m], |ms|);
  }

  lemma {:induction false} FrameStays(k: Keys, pos: nat, wire: Bytes, ms: seq<Message>, frame: Bytes, m: Message,
                                      i: nat)
    requires i < |ms| && FrameOf(k, pos, wire, ms, i)
    ensures FrameOf(k, pos, wire + frame, ms + [m], i)
  {
    hide FrameAt, Pad, Position;
    PositionPrefix(ms, [m], i);
    PositionPrefix(ms, [m], i + 1);
    assert (wire + frame)[Offset(ms, i)..Offset(ms, i + 1)] == wire[Offset(ms, i)..Offset(ms, i + 1)];
  }

  lemma {:induction false} FrameLast(k: Keys, pos: nat, wire: Bytes, ms: seq<Message>, frame: Bytes, m: Message)
    requires |wire| == Offset(ms, |ms|)
    requires FrameAt(k, pos + Position(ms, |ms|), frame, Pad(m.header), Pad(m.body))
    ensures FrameOf(k, pos, wire + frame, ms + [m], |ms|)
  {
    hide FrameAt, Pad, Position;
    FrameLength(k, pos + Position(ms, |ms|), frame, Pad(m.header), Pad(m.body));
    PositionNext(ms, m);
    assert (wire + frame)[|wire|..|wire + frame|] == frame;
  }

  lemma FrameLength(k: Keys, pos: nat, frame: Bytes, header: Bytes, body: Bytes)
    requires FrameAt(k, pos, frame, header, body)
    ensures |frame| == HEADER_LEN + MAC_LEN + |body| + MAC_LEN
  {
  }

  lemma {:induction false} SealAllFrames(k: Keys, h: Half, ms: seq<Message>)
    requires k.p.Lawful() && forall m :: m in ms ==> WellFormed(m)
    ensures Frames(k, h.pos, SealAll(k, h, ms).0, ms)
    ensures SealAll(k, h, ms).1.pos == h.pos + Position(ms, |ms|)
    decreases |ms|
  {
    hide WellFormed, Pad, FrameAt, Frames, Position;
    hide Keys.Seal;
    NoFrames(k, h.pos);
    if ms != [] {
      var init, m := ms[..|ms| - 1], ms[|ms| - 1];
      assert ms == init + [m] && m in ms;
      SealAllFrames(k, h, init);
      SealAllAppend(k, h, init, m);
      var (wire, h') := SealAll(k, h, init);
      HeaderRoundTrip(m);
      SealEnciphers(k, h', Pad(m.header), Pad(m.body));
      FramesMore(k, h.pos, wire, init, k.SealMessage(h', m).0, m);
      PositionNext(init, m);
    }
  }

  lemma NoFrames(k: Keys, pos: nat)
    ensures Frames(k, pos, [], []) && Position([], 0) == 0
  {
  }

  lemma {:induction false} SealAllConcat(k: Keys, h: Half, ms: seq<Message>, more: seq<Message>)
    requires k.p.Lawful() && (forall m :: m in ms ==> WellFormed(m)) && forall m :: m in more ==> WellFormed(m)
    ensures var (bytes, h') := SealAll(k, h, ms);
            var (rest, h'') := SealAll(k, h', more);
            (forall m :: m in ms + more ==> WellFormed(m)) && SealAll(k, h, ms + more) == (bytes + rest, h'')
    decreases |ms|
  {
    hide WellFormed;
    hide Keys.SealMessage;
    if ms == [] {
      assert ms + more == more;
      var rest := SealAll(k, h, more).0;
      assert [] + rest == rest;
    } else {
      assert ms[0] in ms;
      var first := k.SealMessage(h, ms[0]);
      SealAllConcat(k, first.1, ms[1..], more);
      assert (ms + more)[1..] == ms[1..] + more;
      var (x, h1) := SealAll(k, first.1, ms[1..]);
      var y := SealAll(k, h1, more).0;
      assert first.0 + (x + y) == (first.0 + x) + y;
    }
  }

  datatype SendResult = Sent | BadHeader | ConnectionLost

  class Transport {
    const keys: Keys
    var egressMac: Bytes
    var ingressMac: Bytes
    var encPos: nat
    var decPos: nat

    constructor (p: Primitives, s: Secrets)
      ensures keys == Keys(p, s.aes, s.mac)
      ensures Sending() == Half(s.egress, 0) && Receiving() == Half(s.ingress, 0)
    {
      keys := Keys(p, s.aes, s.mac);
      egressMac, ingressMac, encPos, decPos := s.egress, s.ingress, 0, 0;
    }

    ghost function Sending(): Half
      reads this
    {
      Half(egressMac, encPos)
    }

    ghost function Receiving(): Half
      reads this
    {
      Half(ingressMac, decPos)
    }

    /** Encrypts one frame, advancing the cipher and the egress MAC step by step. */
    method Encrypt(header: Bytes, frame: Bytes) returns (ok: bool, data: Bytes)
      requires keys.p.Lawful()
      modifies this`egressMac, this`encPos
      ensures ok <==> |header| == HEADER_LEN
      ensures ok ==> (data, Sending()) == keys.Seal(old(Sending()), header, frame)
      ensures ok ==> FrameAt(keys, old(encPos), data, header, frame) && encPos == old(encPos) + HEADER_LEN + |frame|
      ensures ok ==> TaggedFrame(keys, old(egressMac), data, egressMac)
      ensures !ok ==> Sending() == old(Sending())
    {
      hide Enciphered, Cipher, XorBytes;
      if |header| != HEADER_LEN {
        return false, [];
      }
      var headerCipher := Cipher(keys.p, keys.aes, encPos, header);
      encPos := encPos + |header|;
      var macSecret := keys.Digest(egressMac);
      egressMac := egressMac + XorBytes(keys.p.macBlock(keys.mac, macSecret), headerCipher);
      var headerMac := keys.Digest(egressMac);

      var frameCipher := Cipher(keys.p, keys.aes, encPos, frame);
      encPos := encPos + |frame|;
      egressMac := egressMac + frameCipher;
      var seed := keys.Digest(egressMac);
      macSecret := keys.Digest(egressMac);
      egressMac := egressMac + XorBytes(keys.p.macBlock(keys.mac, macSecret), seed);
      var frameMac := keys.Digest(egressMac);
      data := headerCipher + headerMac + frameCipher + frameMac;
      assert data == headerCipher + headerMac + (frameCipher + frameMac);
      CipherEnciphers(keys.p, keys.aes, old(encPos), header);
      CipherEnciphers(keys.p, keys.aes, old(encPos) + HEADER_LEN, frame);
      FrameParts(headerCipher, headerMac, frameCipher, frameMac);
      return true, data;
    }

    /** Sends a message unless the transport is closing or the padded header has the wrong size. */
    method Send(m: Message, wire: BufferedSocket, closing: bool) returns (res: SendResult)
      requires keys.p.Lawful()
      modifies this`egressMac, this`encPos, wire
      ensures res == if closing then ConnectionLost else if Sendable(m) then Sent else BadHeader
      ensures res == Sent ==> Sending() == keys.SealMessage(old(Sending()), m).1
      ensures res == Sent ==> wire.Stream() == old(wire.Stream()) + keys.SealMessage(old(Sending()), m).0
      ensures res == Sent ==> |wire.Stream()| >= |old(wire.Stream())|
      ensures res == Sent ==>
                FrameAt(keys, old(encPos), wire.Stream()[|old(wire.Stream())|..], Pad(m.header), Pad(m.body))
      ensures res != Sent ==> Sending() == old(Sending()) && wire.Stream() == old(wire.Stream())
    {
      if closing {
        return ConnectionLost;
      }
      var ok, data := Encrypt(Pad(m.header), Pad(m.body));
      if !ok {
        return BadHeader;
      }
      wire.Deliver(data);
      assert wire.Stream()[|old(wire.Stream())|..] == data;
      return Sent;
    }

    method DecryptHeader(data: Bytes) returns (ok: bool, header: Bytes)
      requires keys.p.Lawful()
      modifies this`ingressMac, this`decPos
      ensures ok <==> |data| == HEADER_LEN + MAC_LEN && keys.OpenHeader(old(Receiving()), data).Some?
      ensures ok ==> (header, Receiving()) == keys.OpenHeader(old(Receiving()), data).value
      ensures ok ==> Enciphered(keys.p, keys.aes, old(decPos), header, data[..HEADER_LEN])
    {
      hide Cipher, Enciphered;
      if |data| != HEADER_LEN + MAC_LEN {
        return false, [];
      }
      var headerCipher, headerMac := data[..HEADER_LEN], data[HEADER_LEN..];
      var macSecret := keys.Digest(ingressMac);
      ingressMac := ingressMac + XorBytes(keys.p.macBlock(keys.mac, macSecret), headerCipher);
      if keys.Digest(ingressMac) != headerMac {
        return false, [];
      }
      header := Cipher(keys.p, keys.aes, decPos, headerCipher);
      CipherDeciphers(keys.p, keys.aes, decPos, headerCipher, HEADER_LEN);
      assert header[..HEADER_LEN] == header && headerCipher[..HEADER_LEN] == headerCipher;
      decPos := decPos + |headerCipher|;
      ok := true;
    }

    /** Reads as much as the body size says; longer data is cut. */
    method DecryptBody(data: Bytes, size: nat) returns (ok: bool, body: Bytes)
      requires keys.p.Lawful()
      modifies this`ingressMac, this`decPos
      ensures var n := Roundup16(size) + MAC_LEN;
              && (ok <==> |data| >= n && keys.OpenBody(old(Receiving()), data[..n], size).Some?)
              && (ok ==> (body, Receiving()) == keys.OpenBody(old(Receiving()), data[..n], size).value)
      ensures ok ==> Enciphered(keys.p, keys.aes, old(decPos), body, data[..size])
    {
      hide Cipher, Enciphered;
      var readSize := Roundup16(size);
      if |data| < readSize + MAC_LEN {
        return false, [];
      }
      var frameCipher, frameMac := data[..readSize], data[readSize..readSize + MAC_LEN];
      assert data[..readSize + MAC_LEN][..readSize] == frameCipher;
      assert data[..readSize + MAC_LEN][readSize..] == frameMac;
      ingressMac := ingressMac + frameCipher;
      var seed := keys.Digest(ingressMac);
      ingressMac := ingressMac + XorBytes(keys.p.macBlock(keys.mac, seed), seed);
      if keys.Digest(ingressMac) != frameMac {
        return false, [];
      }
      body := Cipher(keys.p, keys.aes, decPos, frameCipher)[..size];
      CipherDeciphers(keys.p, keys.aes, decPos, frameCipher, size);
      assert frameCipher[..size] == data[..size];
      decPos := decPos + |frameCipher|;
      ok := true;
    }

    /** Reads one message; losing the connection and a malformed message are told apart. */
    method Recv(wire: BufferedSocket) returns (res: Option<Message>, lost: bool)
      requires keys.p.Lawful()
      modifies this`ingressMac, this`decPos, wire
      ensures var o := keys.Open(old(Receiving()), old(wire.Stream()));
              && lost == o.Lost?
              && (o.Received? ==> res == Some(o.message) && Receiving() == o.half && wire.Stream() == o.rest)
              && (!o.Received? ==> res == None)
    {
      hide Cipher, FromBE24, Rebuild;
      var ok, headerBytes := wire.ReadExactly(HEADER_LEN + MAC_LEN);
      if !ok {
        return None, true;
      }
      var padded;
      ok, padded := DecryptHeader(headerBytes);
      if !ok {
        return None, false;
      }
      var size := FromBE24(padded[..3]);
      var frame, body;
      ok, frame := wire.ReadExactly(Roundup16(size) + MAC_LEN);
      if !ok {
        return None, true;
      }
      assert frame[..Roundup16(size) + MAC_LEN] == frame;
      ok, body := DecryptBody(frame, size);
      if !ok {
        return None, false;
      }
      return Rebuild(padded, body), false;
    }
  }

  /**
   One direction between two transports, with the messages under way: the receiver's state is the
   one they were sealed from, the sender's the one after the last of them.
   */
  ghost predicate Channel(sender: Transport, receiver: Transport, wire: BufferedSocket, underWay: seq<Message>)
    reads sender, receiver, wire
  {
    && sender.keys == receiver.keys && sender.keys.p.Lawful()
    && (forall m :: m in underWay ==> WellFormed(m))
    && SealAll(sender.keys, receiver.Receiving(), underWay) == (wire.Stream(), sender.Sending())
  }

  /** Nothing under way: both ends agree on the MAC and the cipher position. */
  lemma InStep(sender: Transport, receiver: Transport, wire: BufferedSocket)
    requires Channel(sender, receiver, wire, [])
    ensures sender.egressMac == receiver.ingressMac && sender.encPos == receiver.decPos && wire.Stream() == []
  {
  }

  /** Sending puts the message at the end of the channel. */
  method ChannelSend(sender: Transport, receiver: Transport, wire: BufferedSocket, ghost underWay: seq<Message>,
                     m: Message)
    requires Channel(sender, receiver, wire, underWay) && WellFormed(m)
    modifies sender`egressMac, sender`encPos, wire
    ensures Channel(sender, receiver, wire, underWay + [m])
  {
    hide WellFormed;
    hide Keys.SealMessage;
    SealAllAppend(sender.keys, receiver.Receiving(), underWay, m);
    var _ := sender.Send(m, wire, false);
  }

  /** Receiving takes the first message under way, whatever else both ends do in the meantime. */
  method ChannelRecv(sender: Transport, receiver: Transport, wire: BufferedSocket, ghost underWay: seq<Message>)
    returns (res: Option<Message>)
    requires Channel(sender, receiver, wire, underWay) && underWay != []
    modifies receiver`ingressMac, receiver`decPos, wire
    ensures res == Some(underWay[0]) && Channel(sender, receiver, wire, underWay[1..])
    ensures WellFormed(underWay[0])
    ensures var (bytes, h) := receiver.keys.SealMessage(old(receiver.Receiving()), underWay[0]);
            old(wire.Stream()) == bytes + wire.Stream() && receiver.Receiving() == h
  {
    hide WellFormed;
    hide Keys.SealMessage;
    hide Keys.Open;
    ghost var h, m := receiver.Receiving(), underWay[0];
    assert m in underWay;
    ghost var sealed := sender.keys.SealMessage(h, m);
    ghost var rest := SealAll(sender.keys, sealed.1, underWay[1..]).0;
    SealOpens(sender.keys, h, m, rest);
    var lost;
    res, lost := receiver.Recv(wire);
  }

  /** A connection: one channel each way. */
  ghost predicate Connected(a: Transport, b: Transport, ab: BufferedSocket, ba: BufferedSocket,
                            fromA: seq<Message>, fromB: seq<Message>)
    reads a, b, ab, ba
  {
    a != b && ab != ba && Channel(a, b, ab, fromA) && Channel(b, a, ba, fromB)
  }

  /** A finished handshake connects its two ends. */
  method Connect(p: Primitives, initiator: Key, responder: Key,
                 initiatorNonce: Bytes, responderNonce: Bytes, authInit: Bytes, authAck: Bytes)
    returns (a: Transport, b: Transport, ab: BufferedSocket, ba: BufferedSocket)
    requires p.Lawful() && |initiatorNonce| == HASH_LEN && |responderNonce| == HASH_LEN
    ensures Connected(a, b, ab, ba, [], []) && fresh({a, b, ab, ba})
  {
    SecretsMirror(p, initiator, responder, initiatorNonce, responderNonce, authInit, authAck);
    a := new Transport(p, DeriveSecrets(p, true, initiator, p.publicKey(responder),
                                        initiatorNonce, responderNonce, authInit, authAck));
    b := new Transport(p, DeriveSecrets(p, false, responder, p.publicKey(initiator),
                                        initiatorNonce, responderNonce, authInit, authAck));
    ab := new BufferedSocket([]);
    ba := new BufferedSocket([]);
  }

  datatype Step = SendA(m: Message) | SendB(m: Message) | RecvA | RecvB

  function SentByA(steps: seq<Step>): seq<Message>
  {
    if steps == [] then []
    else SentByA(steps[..|steps| - 1]) + (if steps[|steps| - 1].SendA? then [steps[|steps| - 1].m] else [])
  }

  function SentByB(steps: seq<Step>): seq<Message>
  {
    if steps == [] then []
    else SentByB(steps[..|steps| - 1]) + (if steps[|steps| - 1].SendB? then [steps[|steps| - 1].m] else [])
  }

  /** What one end has received, and the bytes it read for that, from the state h on. */
  ghost predicate Heard(k: Keys, h: Half, got: seq<Message>, read: Bytes, receiving: Half)
  {
    k.p.Lawful() && (forall m :: m in got ==> WellFormed(m)) && SealAll(k, h, got) == (read, receiving)
  }

  lemma NothingHeard(sender: Transport, receiver: Transport, wire: BufferedSocket)
    requires Channel(sender, receiver, wire, [])
    ensures sender.keys == receiver.keys && Heard(sender.keys, sender.Sending(), [], [], receiver.Receiving())
  {
  }

  lemma HeardMore(k: Keys, h: Half, got: seq<Message>, read: Bytes, receiving: Half, m: Message)
    requires Heard(k, h, got, read, receiving) && WellFormed(m)
    ensures var (bytes, h') := k.SealMessage(receiving, m);
            Heard(k, h, got + [m], read + bytes, h')
  {
    hide WellFormed;
    hide Keys.SealMessage;
    SealAllAppend(k, h, got, m);
  }

  lemma AllFramed(sender: Transport, receiver: Transport, wire: BufferedSocket, underWay: seq<Message>, h: Half,
                  got: seq<Message>, read: Bytes)
    requires Channel(sender, receiver, wire, underWay) && Heard(sender.keys, h, got, read, receiver.Receiving())
    ensures Frames(sender.keys, h.pos, read + wire.Stream(), got + underWay)
  {
    hide WellFormed, Frames, Position;
    SealAllConcat(sender.keys, h, got, underWay);
    SealAllFrames(sender.keys, h, got + underWay);
  }

  /**
   Any schedule of sends and receives at both ends: each side receives exactly what the other sent,
   in order, and the ends stay in step. What was read from a wire and what is still on it are the
   frames of everything sent that way, enciphered on consecutive keystream positions.
   */
  method Session(a: Transport, b: Transport, ab: BufferedSocket, ba: BufferedSocket, steps: seq<Step>)
    returns (gotA: seq<Message>, gotB: seq<Message>, ghost fromA: seq<Message>, ghost fromB: seq<Message>,
             ghost readA: Bytes, ghost readB: Bytes)
    requires Connected(a, b, ab, ba, [], [])
    requires forall s :: s in steps && (s.SendA? || s.SendB?) ==> WellFormed(s.m)
    modifies a, b, ab, ba
    ensures Connected(a, b, ab, ba, fromA, fromB)
    ensures gotB + fromA == SentByA(steps) && gotA + fromB == SentByB(steps)
    ensures Frames(a.keys, old(a.encPos), readB + ab.Stream(), SentByA(steps))
    ensures Frames(b.keys, old(b.encPos), readA + ba.Stream(), SentByB(steps))
  {
    hide WellFormed, SealAll, Channel, Heard, Frames;
    hide Keys.SealMessage;
    gotA, gotB, fromA, fromB, readA, readB := [], [], [], [], [], [];
    NothingHeard(a, b, ab);
    NothingHeard(b, a, ba);
    for i := 0 to |steps|
      invariant Connected(a, b, ab, ba, fromA, fromB)
      invariant gotB + fromA == SentByA(steps[..i]) && gotA + fromB == SentByB(steps[..i])
      invariant Heard(a.keys, old(a.Sending()), gotB, readB, b.Receiving())
      invariant Heard(b.keys, old(b.Sending()), gotA, readA, a.Receiving())
    {
      var s := steps[i];
      assert s in steps;
      assert steps[..i + 1][..i] == steps[..i];
      match s
      case SendA(m) =>
        SendOne(a, b, ab, ba, fromA, fromB, m);
        fromA := fromA + [m];
      case SendB(m) =>
        SendOne(b, a, ba, ab, fromB, fromA, m);
        fromB := fromB + [m];
      case RecvA =>
        ghost var before, h := ba.Stream(), a.Receiving();
        var m := RecvOne(b, a, ba, ab, fromB, fromA);
        if m.Some? {
          HeardMore(b.keys, old(b.Sending()), gotA, readA, h, m.value);
          gotA, fromB, readA := gotA + [m.value], fromB[1..], readA + Taken(before, ba.Stream());
        }
      case RecvB =>
        ghost var before, h := ab.Stream(), b.Receiving();
        var m := RecvOne(a, b, ab, ba, fromA, fromB);
        if m.Some? {
          HeardMore(a.keys, old(a.Sending()), gotB, readB, h, m.value);
          gotB, fromA, readB := gotB + [m.value], fromA[1..], readB + Taken(before, ab.Stream());
        }
    }
    assert steps[..|steps|] == steps;
    AllFramed(a, b, ab, fromA, old(a.Sending()), gotB, readB);
    AllFramed(b, a, ba, fromB, old(b.Sending()), gotA, readA);
  }

  /** The bytes that were read from the front of a stream. */
  ghost function Taken(before: Bytes, after: Bytes): Bytes
    requires |after| <= |before|
  {
    before[..|before| - |after|]
  }

  method SendOne(a: Transport, b: Transport, ab: BufferedSocket, ba: BufferedSocket,
                 ghost fromA: seq<Message>, ghost fromB: seq<Message>, m: Message)
    requires Connected(a, b, ab, ba, fromA, fromB) && WellFormed(m)
    modifies a`egressMac, a`encPos, ab
    ensures Connected(a, b, ab, ba, fromA + [m], fromB)
  {
    hide WellFormed, SealAll;
    ChannelSend(a, b, ab, fromA, m);
  }

  /** Receives if anything is under way; an empty channel would make the source wait. */
  method RecvOne(a: Transport, b: Transport, ab: BufferedSocket, ba: BufferedSocket,
                 ghost fromA: seq<Message>, ghost fromB: seq<Message>) returns (res: Option<Message>)
    requires Connected(a, b, ab, ba, fromA, fromB)
    modifies b`ingressMac, b`decPos, ab
    ensures res == if fromA == [] then None else Some(fromA[0])
    ensures Connected(a, b, ab, ba, if fromA == [] then [] else fromA[1..], fromB)
    ensures fromA == [] ==> b.Receiving() == old(b.Receiving()) && ab.Stream() == old(ab.Stream())
    ensures fromA != [] ==>
              var m := fromA[0];
              && WellFormed(m) && |ab.Stream()| <= |old(ab.Stream())|
              && (Taken(old(ab.Stream()), ab.Stream()), b.Receiving())
                 == b.keys.SealMessage(old(b.Receiving()), m)
  {
    hide WellFormed;
    if ab.buffer == [] && ab.incoming == [] {
      NothingUnderWay(a, b, ab, fromA);
      return None;
    }
    NothingUnderWay(a, b, ab, fromA);
    hide SealAll;
    res := ChannelRecv(a, b, ab, fromA);
  }

  lemma NothingUnderWay(sender: Transport, receiver: Transport, wire: BufferedSocket, underWay: seq<Message>)
    requires Channel(sender, receiver, wire, underWay)
    ensures wire.Stream() == [] <==> underWay == []
  {
  }
}
