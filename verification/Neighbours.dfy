/** Splitting a list of neighbours into datagrams that fit (p2p/discovery.py). */
module Neighbours {
  import opened Collections
  import opened ByteStreams
  import opened Rlp

  const MAC_SIZE := 32
  const SIG_SIZE := 65
  const HEAD_SIZE := MAC_SIZE + SIG_SIZE
  const MAX_PACKET_SIZE := 1280
  const PUBLIC_KEY_SIZE := 64

  // -------------------------------------------------------------------------------------------
  // Packets
  // -------------------------------------------------------------------------------------------

  /** A node as it is announced: addresses of 4 or 16 bytes, two-byte ports, a public key. */
  datatype Neighbour = Neighbour(id: nat, ip: Bytes, udp: Bytes, tcp: Bytes, key: Bytes)
  {
    ghost predicate Sound()
    {
      (|ip| == 4 || |ip| == 16) && |udp| == 2 && |tcp| == 2 && |key| == PUBLIC_KEY_SIZE
    }

    function ToItem(): Item
    {
      List([Str(ip), Str(udp), Str(tcp), Str(key)])
    }
  }

  function ToItems(ns: seq<Neighbour>): seq<Item>
  {
    if ns == [] then [] else [ns[0].ToItem()] + ToItems(ns[1..])
  }

  function Payload(ns: seq<Neighbour>, expiration: Bytes): Item
  {
    List([List(ToItems(ns)), Str(expiration)])
  }

  /** The signed datagram: hash, signature, command byte, payload. */
  function PacketSize(ns: seq<Neighbour>, expiration: Bytes): nat
  {
    HEAD_SIZE + 1 + RlpSize(Payload(ns, expiration))
  }

  /** The largest possible announcement, as the sizing loop builds it. */
  const TEMPLATE := Neighbour(0, seq(16, _ => 0), [0x76, 0x5f], [0x76, 0x5f], seq(PUBLIC_KEY_SIZE, _ => 0))

  const NODE_SIZE := 91

  function Copies(n: nat): (ns: seq<Neighbour>)
    ensures |ns| == n
  {
    seq(n, _ => TEMPLATE)
  }

  /** Payload bytes for a total node size and an expiration field. */
  function PayloadSize(nodes: nat, expiration: Bytes): nat
  {
    var inner := PrefixSize(nodes) + nodes + RlpSize(Str(expiration));
    PrefixSize(inner) + inner
  }

  lemma PayloadIs(ns: seq<Neighbour>, expiration: Bytes)
    ensures RlpSize(Payload(ns, expiration)) == PayloadSize(RlpSizes(ToItems(ns)), expiration)
  {
    var items := [List(ToItems(ns)), Str(expiration)];
    assert items[1..] == [Str(expiration)];
    assert items[1..][1..] == [];
    assert RlpSizes(items[1..]) == RlpSize(Str(expiration)) + RlpSizes([]);
    assert RlpSizes(items) == RlpSize(List(ToItems(ns))) + RlpSizes(items[1..]);
  }

  lemma NodeSize(n: Neighbour)
    requires n.Sound()
    ensures RlpSize(n.ToItem()) <= NODE_SIZE && (|n.ip| == 16 ==> RlpSize(n.ToItem()) == NODE_SIZE)
  {
    var items := [Str(n.ip), Str(n.udp), Str(n.tcp), Str(n.key)];
    var tail1, tail2, tail3 := items[1..], items[1..][1..], items[1..][1..][1..];
    assert tail1 == [Str(n.udp), Str(n.tcp), Str(n.key)];
    assert tail2 == [Str(n.tcp), Str(n.key)];
    assert tail3 == [Str(n.key)] && tail3[1..] == [];
    assert RlpSize(Str(n.key)) == 66 by { assert LengthOfLength(64) == 1; }
    assert RlpSizes(tail3) == 66 + RlpSizes([]);
    assert RlpSizes(tail2) == 3 + RlpSizes(tail3);
    assert RlpSizes(tail1) == 3 + RlpSizes(tail2);
    assert RlpSizes(items) == RlpSize(Str(n.ip)) + RlpSizes(tail1);
    assert LengthOfLength(RlpSizes(items)) == 1;
  }

  lemma {:induction false} NodesSize(ns: seq<Neighbour>)
    requires forall n :: n in ns ==> n.Sound()
    ensures RlpSizes(ToItems(ns)) <= NODE_SIZE * |ns|
    ensures (forall n :: n in ns ==> |n.ip| == 16) ==> RlpSizes(ToItems(ns)) == NODE_SIZE * |ns|
  {
    if ns != [] {
      NodeSize(ns[0]);
      NodesSize(ns[1..]);
      assert ToItems(ns)[1..] == ToItems(ns[1..]);
    }
  }

  lemma PayloadGrows(n: nat, m: nat, e: Bytes, f: Bytes)
    requires n <= m && RlpSize(Str(e)) <= RlpSize(Str(f))
    ensures PayloadSize(n, e) <= PayloadSize(m, f)
  {
    PrefixGrows(n, m);
    PrefixGrows(PrefixSize(n) + n + RlpSize(Str(e)), PrefixSize(m) + m + RlpSize(Str(f)));
  }

  lemma TemplateSize(n: nat, e: Bytes)
    ensures RlpSize(Payload(Copies(n), e)) == PayloadSize(NODE_SIZE * n, e)
  {
    PayloadIs(Copies(n), e);
    NodesSize(Copies(n));
  }

  /** How many of the largest announcements fit, counting hash and signature but not the command byte. */
  method MaxNeighboursPerPacket(expiration: Bytes) returns (max: nat)
    ensures max > 0 <==> HEAD_SIZE + PayloadSize(NODE_SIZE, expiration) <= MAX_PACKET_SIZE
    ensures max > 0 ==> HEAD_SIZE + PayloadSize(NODE_SIZE * max, expiration) <= MAX_PACKET_SIZE
    ensures HEAD_SIZE + PayloadSize(NODE_SIZE * (max + 1), expiration) > MAX_PACKET_SIZE
  {
    hide RlpSize, PayloadSize;
    var neighbours := 1;
    TemplateSize(1, expiration);
    var size := RlpSize(Payload(Copies(1), expiration));
    while HEAD_SIZE + size <= MAX_PACKET_SIZE
      invariant neighbours >= 1 && size == PayloadSize(NODE_SIZE * neighbours, expiration)
      invariant neighbours > 1 ==> HEAD_SIZE + PayloadSize(NODE_SIZE, expiration) <= MAX_PACKET_SIZE
      invariant neighbours > 1 ==> HEAD_SIZE + PayloadSize(NODE_SIZE * (neighbours - 1), expiration) <= MAX_PACKET_SIZE
      decreases MAX_PACKET_SIZE - neighbours
    {
      AtLeastNodes(NODE_SIZE * neighbours, expiration);
      neighbours := neighbours + 1;
      TemplateSize(neighbours, expiration);
      size := RlpSize(Payload(Copies(neighbours), expiration));
    }
    max := neighbours - 1;
  }

  lemma AtLeastNodes(n: nat, e: Bytes)
    ensures PayloadSize(n, e) >= n
  {
  }

  /** A timestamp of up to eight bytes leaves room for twelve nodes, with some to spare. */
  lemma TwelveFit(e: Bytes)
    requires |e| <= 8
    ensures PayloadSize(NODE_SIZE * 12, e) <= 1107
  {
    assert RlpSize(Str(e)) <= 9;
    assert LengthOfLength(NODE_SIZE * 12) == 2 by { assert LengthOfLength(NODE_SIZE * 12 / 256) == 1; }
    var inner := 3 + NODE_SIZE * 12 + RlpSize(Str(e));
    assert LengthOfLength(inner / 256) == 1 by { assert inner / 256 == 4; }
    assert LengthOfLength(inner) == 2;
  }

  /** The sizing loop answers twelve for every timestamp of up to eight bytes. */
  lemma MaxIsTwelve(e: Bytes, max: nat)
    requires |e| <= 8
    requires HEAD_SIZE + PayloadSize(NODE_SIZE * max, e) <= MAX_PACKET_SIZE
    requires MAX_PACKET_SIZE < HEAD_SIZE + PayloadSize(NODE_SIZE * (max + 1), e)
    ensures max == 12
  {
    TwelveFit(e);
    if max < 12 {
      PayloadGrows(NODE_SIZE * (max + 1), NODE_SIZE * 12, e, e);
    }
  }

  function Concat(packets: seq<seq<Neighbour>>): seq<Neighbour>
  {
    if packets == [] then [] else Concat(packets[..|packets| - 1]) + packets[|packets| - 1]
  }

  /**
   The datagrams for a list of neighbours: together they carry the whole list in id order, and each
   stays within the packet size. `sizing` is the timestamp the (cached) count was computed with.
   */
  method SendNeighbours(neighbours: seq<Neighbour>, sizing: Bytes, expiration: Bytes)
    returns (packets: seq<seq<Neighbour>>)
    requires |sizing| <= 8 && |expiration| <= 8
    requires forall n :: n in neighbours ==> n.Sound()
    ensures Concat(packets) == Sort((n: Neighbour) => n.id, neighbours)
    ensures forall i :: 0 <= i < |packets| ==>
              0 < |packets[i]| <= 12 && PacketSize(packets[i], expiration) <= MAX_PACKET_SIZE
  {
    hide RlpSize, PayloadSize, Sort;
    var key := (n: Neighbour) => n.id;
    var nodes := Sort(key, neighbours);
    SortSpec(key, neighbours);
    OneFits(sizing);
    var max := MaxNeighboursPerPacket(sizing);
    MaxIsTwelve(sizing, max);
    packets := [];
    var i := 0;
    assert nodes[..0] == [];
    while i < |nodes|
      invariant 0 <= i <= |nodes| && Concat(packets) == nodes[..i]
      invariant forall j :: 0 <= j < |packets| ==>
                  0 < |packets[j]| <= 12 && PacketSize(packets[j], expiration) <= MAX_PACKET_SIZE
    {
      var end := if i + max < |nodes| then i + max else |nodes|;
      var packet := nodes[i..end];
      forall n | n in packet
        ensures n.Sound()
      {
        assert n in multiset(nodes);
      }
      PacketFits(packet, expiration);
      assert (packets + [packet])[..|packets|] == packets;
      assert nodes[..i] + packet == nodes[..end];
      packets := packets + [packet];
      i := end;
    }
    assert nodes[..|nodes|] == nodes;
  }

  lemma OneFits(e: Bytes)
    requires |e| <= 8
    ensures HEAD_SIZE + PayloadSize(NODE_SIZE, e) <= MAX_PACKET_SIZE
  {
  }

  lemma PacketFits(ns: seq<Neighbour>, e: Bytes)
    requires |ns| <= 12 && |e| <= 8 && forall n :: n in ns ==> n.Sound()
    ensures PacketSize(ns, e) <= MAX_PACKET_SIZE
  {
    PayloadIs(ns, e);
    NodesSize(ns);
    TwelveFit(e);
    PayloadGrows(RlpSizes(ToItems(ns)), NODE_SIZE * 12, e, e);
  }

  /** The loop leaves the command byte out, so its answer is right exactly when a byte is left over. */
  lemma FullPacketFits(e: Bytes, max: nat)
    requires HEAD_SIZE + PayloadSize(NODE_SIZE * max, e) <= MAX_PACKET_SIZE
    ensures PacketSize(Copies(max), e) <= MAX_PACKET_SIZE
       <==> HEAD_SIZE + PayloadSize(NODE_SIZE * max, e) != MAX_PACKET_SIZE
  {
    TemplateSize(max, e);
  }

  /** With a much longer expiration field the loop's answer would not fit. */
  lemma CommandByteForgotten(e: Bytes)
    requires |e| == 83
    ensures HEAD_SIZE + PayloadSize(NODE_SIZE * 12, e) <= MAX_PACKET_SIZE < PacketSize(Copies(12), e)
  {
    TemplateSize(12, e);
    assert LengthOfLength(83) == 1;
    assert LengthOfLength(NODE_SIZE * 12) == 2 by { assert LengthOfLength(NODE_SIZE * 12 / 256) == 1; }
    var inner := 3 + NODE_SIZE * 12 + 85;
    assert LengthOfLength(inner) == 2 by { assert LengthOfLength(inner / 256) == 1; }
  }
}
