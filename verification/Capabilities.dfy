/**
 What two peers agree on after exchanging hello messages: the shared capabilities
 (p2p/handshake.py), the command id ranges of the selected protocols (p2p/protocol.py), and the
 dispatch of received command ids to protocols and commands (p2p/multiplexer.py).
 */
module Capabilities {
  import opened Collections

  /** Protocol names matter only through their order. */
  type Name = int

  datatype Capability = Capability(name: Name, version: int)

  const P2P_PROTOCOL_COMMAND_LENGTH := 16
  const DEVP2P_V5 := 5

  // -------------------------------------------------------------------------------------------
  // Selecting capabilities
  // -------------------------------------------------------------------------------------------

  function Shared(remote: seq<Capability>, local: seq<Capability>): seq<Capability>
  {
    if local == [] then []
    else (if local[0] in remote then [local[0]] else []) + Shared(remote, local[1..])
  }

  /** Names in increasing order, each once. */
  function InsertName(n: Name, names: seq<Name>): seq<Name>
  {
    if names == [] || n < names[0] then [n] + names
    else if n == names[0] then names
    else [names[0]] + InsertName(n, names[1..])
  }

  function SortedNames(caps: seq<Capability>): seq<Name>
  {
    if caps == [] then [] else InsertName(caps[0].name, SortedNames(caps[1..]))
  }

  /** The highest version listed under a name. */
  function Highest(caps: seq<Capability>, n: Name): Option<Capability>
  {
    if caps == [] then None
    else
      var best := Highest(caps[1..], n);
      if caps[0].name == n && (best.None? || caps[0].version > best.value.version) then Some(caps[0]) else best
  }

  function PickHighest(caps: seq<Capability>, names: seq<Name>): seq<Capability>
  {
    if names == [] then []
    else (match Highest(caps, names[0]) case Some(c) => [c] case None => []) + PickHighest(caps, names[1..])
  }

  function SelectCapabilities(remote: seq<Capability>, local: seq<Capability>): seq<Capability>
  {
    var shared := Shared(remote, local);
    PickHighest(shared, SortedNames(shared))
  }

  /** A member of `caps` that no member of the same name beats. */
  ghost predicate Best(caps: set<Capability>, c: Capability)
  {
    c in caps && forall d :: d in caps && d.name == c.name ==> d.version <= c.version
  }

  /** One capability per shared name, the highest version of it, in the order of the names. */
  ghost predicate IsSelection(caps: set<Capability>, out: seq<Capability>)
  {
    && (forall i, j :: 0 <= i < j < |out| ==> out[i].name < out[j].name)
    && (forall c :: c in out <==> Best(caps, c))
  }

  ghost predicate Increasing(names: seq<Name>)
  {
    forall i, j :: 0 <= i < j < |names| ==> names[i] < names[j]
  }

  lemma {:induction false} SharedSpec(remote: seq<Capability>, local: seq<Capability>)
    ensures forall c :: c in Shared(remote, local) <==> c in local && c in remote
  {
    if local != [] {
      SharedSpec(remote, local[1..]);
      assert local == [local[0]] + local[1..];
    }
  }

  lemma {:induction false} InsertNameSpec(n: Name, names: seq<Name>)
    requires Increasing(names)
    ensures Increasing(InsertName(n, names))
    ensures forall m :: m in InsertName(n, names) <==> m == n || m in names
  {
    if names != [] && n > names[0] {
      var rest := InsertName(n, names[1..]);
      InsertNameSpec(n, names[1..]);
      assert names == [names[0]] + names[1..];
      forall i | 0 <= i < |rest|
        ensures names[0] < rest[i]
      {
        assert rest[i] in rest;
      }
    }
  }

  lemma {:induction false} SortedNamesSpec(caps: seq<Capability>)
    ensures Increasing(SortedNames(caps))
    ensures forall m :: m in SortedNames(caps) <==> exists c :: c in caps && c.name == m
  {
    if caps != [] {
      SortedNamesSpec(caps[1..]);
      InsertNameSpec(caps[0].name, SortedNames(caps[1..]));
      assert caps == [caps[0]] + caps[1..];
    }
  }

  lemma {:induction false} HighestSpec(caps: seq<Capability>, n: Name)
    ensures Highest(caps, n).None? <==> forall c :: c in caps ==> c.name != n
    ensures Highest(caps, n).Some? ==> Highest(caps, n).value.name == n && Best(Elements(caps), Highest(caps, n).value)
  {
    if caps != [] {
      HighestSpec(caps[1..], n);
      assert caps == [caps[0]] + caps[1..];
    }
  }

  lemma {:induction false} PickHighestSpec(caps: seq<Capability>, names: seq<Name>)
    requires Increasing(names) && forall n :: n in names ==> exists c :: c in caps && c.name == n
    ensures |PickHighest(caps, names)| == |names|
    ensures forall i :: 0 <= i < |names| ==>
              PickHighest(caps, names)[i].name == names[i] && Best(Elements(caps), PickHighest(caps, names)[i])
  {
    if names != [] {
      HighestSpec(caps, names[0]);
      assert names[0] in names;
      forall n | n in names[1..]
        ensures n in names
      {
      }
      PickHighestSpec(caps, names[1..]);
    }
  }

  lemma SelectIsSelection(remote: seq<Capability>, local: seq<Capability>)
    ensures IsSelection(Elements(local) * Elements(remote), SelectCapabilities(remote, local))
  {
    var caps := Shared(remote, local);
    var names, out := SortedNames(caps), SelectCapabilities(remote, local);
    SharedSpec(remote, local);
    SortedNamesSpec(caps);
    PickHighestSpec(caps, names);
    assert Elements(caps) == Elements(local) * Elements(remote);
    forall c | Best(Elements(caps), c)
      ensures c in out
    {
      assert c in caps && c.name in names;
      var i :| 0 <= i < |names| && names[i] == c.name;
      assert out[i].version == c.version;
      assert out[i] == c;
    }
  }

  /** A selection is determined by what is shared. */
  lemma {:induction false} SelectionUnique(caps: set<Capability>, a: seq<Capability>, b: seq<Capability>)
    requires IsSelection(caps, a) && IsSelection(caps, b)
    ensures a == b
  {
    IncreasingUnique(a, b);
  }

  lemma {:induction false} IncreasingUnique(a: seq<Capability>, b: seq<Capability>)
    requires forall i, j :: 0 <= i < j < |a| ==> a[i].name < a[j].name
    requires forall i, j :: 0 <= i < j < |b| ==> b[i].name < b[j].name
    requires forall c :: c in a <==> c in b
    ensures a == b
  {
    assert |b| > 0 ==> b[0] in b;
    if a != [] {
      assert a[0] in a && a[0] in b;
      assert b[0] in b && b[0] in a;
      assert a[0] == b[0];
      var head := a[0];
      assert a == [head] + a[1..] && b == [head] + b[1..];
      assert head !in a[1..] && head !in b[1..];
      assert forall c :: c in a[1..] <==> c in a && c != head;
      assert forall c :: c in b[1..] <==> c in b && c != head;
      IncreasingUnique(a[1..], b[1..]);
    }
  }

  /** Both peers select the same capabilities. */
  lemma SelectSymmetric(ours: seq<Capability>, theirs: seq<Capability>)
    ensures SelectCapabilities(theirs, ours) == SelectCapabilities(ours, theirs)
  {
    SelectIsSelection(theirs, ours);
    SelectIsSelection(ours, theirs);
    assert Elements(ours) * Elements(theirs) == Elements(theirs) * Elements(ours);
    SelectionUnique(Elements(ours) * Elements(theirs), SelectCapabilities(theirs, ours),
                    SelectCapabilities(ours, theirs));
  }

  // -------------------------------------------------------------------------------------------
  // Compression
  // -------------------------------------------------------------------------------------------

  /** Whether the connection compresses: decided from our protocol version and the one received. */
  function SnappySupport(ourVersion: int, theirVersion: int): bool
  {
    if ourVersion >= DEVP2P_V5 then theirVersion >= DEVP2P_V5 else false
  }

  /** Compression is on if and only if both versions have it, so both peers decide alike. */
  lemma SnappyAgreed(ours: int, theirs: int)
    ensures SnappySupport(ours, theirs) <==> ours >= 5 && theirs >= 5
    ensures SnappySupport(ours, theirs) == SnappySupport(theirs, ours)
  {
  }

  // -------------------------------------------------------------------------------------------
  // Command ids
  // -------------------------------------------------------------------------------------------

  /** A protocol: how many command ids it reserves, and the ids (within it) of its commands. */
  datatype Protocol = Protocol(length: nat, commands: seq<nat>)
  {
    ghost predicate Sound()
    {
      NoDuplicates(commands) && forall c :: c in commands ==> c < length
    }
  }

  /** Running sums of the lengths from `start`, without the last one. */
  function CmdOffsets(start: nat, protocols: seq<Protocol>): (offsets: seq<nat>)
    ensures |offsets| == |protocols|
    decreases |protocols|
  {
    if protocols == [] then [] else [start] + CmdOffsets(start + protocols[0].length, protocols[1..])
  }

  /** The ranges are contiguous: each protocol starts where the one before it ends. */
  lemma {:induction false} OffsetsContiguous(start: nat, protocols: seq<Protocol>, i: nat)
    requires i < |protocols|
    ensures CmdOffsets(start, protocols)[i] == if i == 0 then start
            else CmdOffsets(start, protocols)[i - 1] + protocols[i - 1].length
    decreases i
  {
    if i > 0 {
      OffsetsContiguous(start + protocols[0].length, protocols[1..], i - 1);
    }
  }

  lemma {:induction false} OffsetsFromStart(start: nat, protocols: seq<Protocol>, i: nat)
    requires i < |protocols|
    ensures start <= CmdOffsets(start, protocols)[i]
    decreases i
  {
    if i > 0 {
      OffsetsFromStart(start + protocols[0].length, protocols[1..], i - 1);
    }
  }

  lemma {:induction false} OffsetsOrdered(start: nat, protocols: seq<Protocol>, i: nat, j: nat)
    requires i < j < |protocols|
    ensures CmdOffsets(start, protocols)[i] + protocols[i].length <= CmdOffsets(start, protocols)[j]
    decreases j
  {
    OffsetsContiguous(start, protocols, j);
    if i < j - 1 {
      OffsetsOrdered(start, protocols, i, j - 1);
    }
  }

  // -------------------------------------------------------------------------------------------
  // Dispatch
  // -------------------------------------------------------------------------------------------

  datatype Target = Base | Sub(index: nat) | Unknown

  class Dispatcher {
    const protocols: seq<Protocol>
    const offsets: seq<nat>
    /** Sub-protocol or base protocol found for a command id before. */
    var cache: map<nat, Target>

    ghost predicate Valid()
      reads this
    {
      && offsets == CmdOffsets(P2P_PROTOCOL_COMMAND_LENGTH, protocols)
      && forall id :: id in cache ==> cache[id] == FirstMatch(offsets, protocols, id) && cache[id] != Unknown
    }

    constructor (protocols: seq<Protocol>)
      ensures Valid() && this.protocols == protocols
    {
      this.protocols, offsets, cache := protocols, CmdOffsets(P2P_PROTOCOL_COMMAND_LENGTH, protocols), map[];
    }

    /** The protocol responsible for a command id: from the cache, or the first whose range ends above it. */
    method Dispatch(id: nat) returns (target: Target)
      requires Valid()
      modifies this`cache
      ensures Valid() && target == FirstMatch(offsets, protocols, id)
    {
      if id in cache {
        return cache[id];
      }
      target := Unknown;
      if id < P2P_PROTOCOL_COMMAND_LENGTH {
        target := Base;
      } else {
        for i := 0 to |protocols|
          invariant target == Unknown && forall j :: 0 <= j < i ==> !(id < offsets[j] + protocols[j].length)
        {
          if id < offsets[i] + protocols[i].length {
            target := Sub(i);
            break;
          }
        }
      }
      FirstMatchIs(offsets, protocols, id, target);
      if target != Unknown {
        cache := cache[id := target];
      }
    }
  }

  /** The rule the cache abbreviates. */
  ghost function FirstMatch(offsets: seq<nat>, protocols: seq<Protocol>, id: nat): Target
    requires |offsets| == |protocols|
  {
    if id < P2P_PROTOCOL_COMMAND_LENGTH then Base
    else if i :| IsFirst(offsets, protocols, id, i) then Sub(i)
    else Unknown
  }

  ghost predicate IsFirst(offsets: seq<nat>, protocols: seq<Protocol>, id: nat, i: nat)
    requires |offsets| == |protocols|
  {
    && i < |protocols| && id < offsets[i] + protocols[i].length
    && forall j :: 0 <= j < i ==> !(id < offsets[j] + protocols[j].length)
  }

  lemma FirstMatchIs(offsets: seq<nat>, protocols: seq<Protocol>, id: nat, t: Target)
    requires |offsets| == |protocols|
    requires id < P2P_PROTOCOL_COMMAND_LENGTH ==> t == Base
    requires id >= P2P_PROTOCOL_COMMAND_LENGTH ==>
               if t.Sub? then IsFirst(offsets, protocols, id, t.index)
               else t == Unknown && forall j :: 0 <= j < |protocols| ==> !(id < offsets[j] + protocols[j].length)
    ensures FirstMatch(offsets, protocols, id) == t
  {
  }

  /** The id a command is sent under comes back to its protocol and command at the other end. */
  lemma DispatchRoundTrip(protocols: seq<Protocol>, i: nat, c: nat)
    requires i < |protocols| && protocols[i].Sound() && c in protocols[i].commands
    ensures var offsets := CmdOffsets(P2P_PROTOCOL_COMMAND_LENGTH, protocols);
            var id := offsets[i] + c;
            && FirstMatch(offsets, protocols, id) == Sub(i)
            && forall d :: d in protocols[i].commands && offsets[i] + d == id ==> d == c
  {
    hide CmdOffsets, FirstMatch, NoDuplicates;
    var offsets := CmdOffsets(P2P_PROTOCOL_COMMAND_LENGTH, protocols);
    var id := offsets[i] + c;
    OffsetsFromStart(P2P_PROTOCOL_COMMAND_LENGTH, protocols, i);
    forall j | 0 <= j < i
      ensures offsets[j] + protocols[j].length <= id
    {
      OffsetsOrdered(P2P_PROTOCOL_COMMAND_LENGTH, protocols, j, i);
    }
    assert IsFirst(offsets, protocols, id, i);
    FirstMatchIs(offsets, protocols, id, Sub(i));
  }

  /** The protocols two peers run after their handshake. */
  function Negotiated(remote: seq<Capability>, local: seq<Capability>,
                      protocolOf: Capability -> Protocol): seq<Protocol>
  {
    var caps := SelectCapabilities(remote, local);
    seq(|caps|, i requires 0 <= i < |caps| => protocolOf(caps[i]))
  }

  /**
   After the handshake, a command one peer sends is dispatched by the other to the same protocol and
   command, whatever the receiver dispatched before; ids below 16 go to the base protocol.
   */
  method Deliver(ours: seq<Capability>, theirs: seq<Capability>, protocolOf: Capability -> Protocol,
                 receiver: Dispatcher, i: nat, c: nat) returns (id: nat, target: Target)
    requires receiver.Valid() && receiver.protocols == Negotiated(ours, theirs, protocolOf)
    requires forall cap :: protocolOf(cap).Sound()
    requires i < |Negotiated(theirs, ours, protocolOf)| && c in Negotiated(theirs, ours, protocolOf)[i].commands
    modifies receiver`cache
    ensures receiver.Valid() && target == Sub(i) && i < |receiver.protocols|
    ensures id == CmdOffsets(P2P_PROTOCOL_COMMAND_LENGTH, receiver.protocols)[i] + c
    ensures forall d :: d in receiver.protocols[i].commands && receiver.offsets[i] + d == id ==> d == c
  {
    SelectSymmetric(ours, theirs);
    var sending := Negotiated(theirs, ours, protocolOf);
    id := CmdOffsets(P2P_PROTOCOL_COMMAND_LENGTH, sending)[i] + c;
    DispatchRoundTrip(sending, i, c);
    target := receiver.Dispatch(id);
  }
}
