/**
 A command on its way from one peer to the other: numbered by the sender's protocol
 (p2p/protocol.py), encoded (p2p/commands.py), sent over the encrypted transport (p2p/transport.py)
 and dispatched by the receiver's multiplexer (p2p/multiplexer.py).
 */
module PeerProtocol {
  import opened Collections
  import opened ByteStreams
  import Rlpx
  import opened Capabilities

  /** What the receiver makes of a message: the protocol, the command within it, and the payload. */
  datatype Delivery = Delivery(target: Target, command: int, payload: Bytes)

  /**
   Two peers that negotiated independently agree on every command that can be sent; it can be sent
   if and only if its id fits one byte of RLP and the frame fits 3 bytes.
   */
  method Exchange(ours: seq<Capability>, theirs: seq<Capability>, protocolOf: Capability -> Protocol,
                  sender: Rlpx.Transport, receiver: Rlpx.Transport, wire: BufferedSocket, dispatcher: Dispatcher,
                  i: nat, c: nat, payload: Bytes) returns (delivery: Option<Delivery>)
    requires Rlpx.Channel(sender, receiver, wire, []) && sender != receiver
    requires dispatcher.Valid() && dispatcher.protocols == Negotiated(ours, theirs, protocolOf)
    requires forall cap :: protocolOf(cap).Sound()
    requires i < |Negotiated(theirs, ours, protocolOf)| && c in Negotiated(theirs, ours, protocolOf)[i].commands
    modifies sender`egressMac, sender`encPos, receiver`ingressMac, receiver`decPos, wire, dispatcher`cache
    ensures Rlpx.Channel(sender, receiver, wire, []) && dispatcher.Valid()
    ensures var id := CmdOffsets(P2P_PROTOCOL_COMMAND_LENGTH, Negotiated(theirs, ours, protocolOf))[i] + c;
            delivery == if id < 128 && 1 + |payload| < 0x100_0000 then Some(Delivery(Sub(i), c, payload)) else None
  {
    hide Rlpx.Channel, Rlpx.EncodeCommand, Rlpx.CommandId, CmdOffsets, Negotiated;
    SameProtocols(ours, theirs, protocolOf);
    var offsets := CmdOffsets(P2P_PROTOCOL_COMMAND_LENGTH, Negotiated(theirs, ours, protocolOf));
    var id := offsets[i] + c;
    var encoded := Rlpx.EncodeCommand(id, payload);
    Rlpx.EncodeCommandWorks(id, payload);
    if encoded.None? {
      return None;
    }
    var sent := encoded.value;
    Rlpx.ChannelSend(sender, receiver, wire, [], sent);
    assert [] + [sent] == [sent];
    var received := Rlpx.ChannelRecv(sender, receiver, wire, [sent]);
    assert [sent][1..] == [];
    var number := Rlpx.CommandId(received.value.body);
    var target := dispatcher.Dispatch(number.value);
    DispatchRoundTrip(dispatcher.protocols, i, c);
    delivery := Some(Delivery(target, number.value - offsets[i], received.value.body[1..]));
  }

  lemma SameProtocols(ours: seq<Capability>, theirs: seq<Capability>, protocolOf: Capability -> Protocol)
    requires forall cap :: protocolOf(cap).Sound()
    ensures Negotiated(theirs, ours, protocolOf) == Negotiated(ours, theirs, protocolOf)
    ensures var protocols := Negotiated(ours, theirs, protocolOf);
            forall i :: 0 <= i < |protocols| ==> protocols[i].Sound()
  {
    SelectSymmetric(ours, theirs);
  }
}
