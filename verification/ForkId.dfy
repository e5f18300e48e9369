/** Fork identifiers (EIP-2124) and their validation (trinity/protocol/eth/forkid.py). */
module ForkIds {
  import opened Collections
  import opened ByteStreams
  import opened Crc

  const MAX_BLOCK := 0x7fff_ffff_ffff_ffff

  // -------------------------------------------------------------------------------------------
  // Block numbers as bytes
  // -------------------------------------------------------------------------------------------

  /** Eight bytes, most significant first. */
  function BE64(n: nat): Bytes
    requires n < 0x1_0000_0000_0000_0000
  {
    [n / 0x100_0000_0000_0000, n / 0x1_0000_0000_0000 % 256, n / 0x100_0000_0000 % 256, n / 0x1_0000_0000 % 256,
     n / 0x100_0000 % 256, n / 0x1_0000 % 256, n / 256 % 256, n % 256]
  }

  /** They are the digits of the number. */
  lemma BE64Value(n: nat)
    requires n < 0x1_0000_0000_0000_0000
    ensures |BE64(n)| == 8 && FromBigEndian(BE64(n)) == n
  {
    hide FromBigEndian;
    var b := BE64(n);
    HighHalf(n);
    Leading(b, n / 0x100_0000, 5);
    Leading(b, n / 0x1_0000, 6);
    Leading(b, n / 256, 7);
    Leading(b, n, 8);
    assert b[..8] == b;
  }

  lemma HighHalf(n: nat)
    requires n < 0x1_0000_0000_0000_0000
    ensures FromBigEndian(BE64(n)[..4]) == n / 0x1_0000_0000
  {
    hide FromBigEndian;
    var b := BE64(n);
    NoDigits(b);
    Leading(b, n / 0x100_0000_0000_0000, 1);
    Leading(b, n / 0x1_0000_0000_0000, 2);
    Leading(b, n / 0x100_0000_0000, 3);
    Leading(b, n / 0x1_0000_0000, 4);
  }

  lemma NoDigits(b: Bytes)
    ensures FromBigEndian(b[..0]) == 0
  {
  }

  lemma Leading(b: Bytes, n: nat, k: nat)
    requires 0 < k <= |b| && b[k - 1] as int == n % 256 && FromBigEndian(b[..k - 1]) == n / 256
    ensures FromBigEndian(b[..k]) == n
  {
    assert b[..k][..k - 1] == b[..k - 1];
  }

  /** The bytes are the first i block numbers, eight big-endian digits each. */
  ghost predicate SpellOut(bytes: Bytes, forks: seq<nat>, i: nat)
    requires i <= |forks|
  {
    |bytes| == 8 * i && forall j :: 0 <= j < i ==> FromBigEndian(bytes[8 * j..8 * j + 8]) == forks[j]
  }

  lemma {:induction false} ForkBytesSpellOut(forks: seq<nat>, i: nat)
    requires BlockList(forks) && i <= |forks|
    ensures SpellOut(ForkBytes(forks, i), forks, i)
    decreases i
  {
    hide BE64;
    if i > 0 {
      ForkBytesSpellOut(forks, i - 1);
      BE64Value(forks[i - 1]);
      var init, last := ForkBytes(forks, i - 1), BE64(forks[i - 1]);
      forall j | 0 <= j < i
        ensures FromBigEndian((init + last)[8 * j..8 * j + 8]) == forks[j]
      {
        if j < i - 1 {
          assert (init + last)[8 * j..8 * j + 8] == init[8 * j..8 * j + 8];
        } else {
          assert (init + last)[8 * j..8 * j + 8] == last;
        }
      }
    }
  }

  // -------------------------------------------------------------------------------------------
  // Fork identifiers
  // -------------------------------------------------------------------------------------------

  /** The four hash bytes as a number, and the next fork block, 0 if there is none. */
  datatype ForkId = ForkId(hash: Checksum, next: nat)

  /** Any list of block numbers, which have 64 bits. */
  ghost predicate BlockList(forks: seq<nat>)
  {
    forall i :: 0 <= i < |forks| ==> forks[i] < 0x1_0000_0000_0000_0000
  }

  /** Fork blocks as a chain configuration lists them: positive, increasing, within the block range. */
  ghost predicate ForkList(forks: seq<nat>)
  {
    && BlockList(forks)
    && (forall i :: 0 <= i < |forks| ==> 0 < forks[i] < MAX_BLOCK)
    && (forall i, j :: 0 <= i < j < |forks| ==> forks[i] < forks[j])
  }

  /** The checksum after the first i forks. */
  ghost function ChecksumAt(genesis: Bytes, forks: seq<nat>, i: nat): Checksum
    requires BlockList(forks) && i <= |forks|
  {
    Crc32(genesis + ForkBytes(forks, i), 0)
  }

  ghost function ForkBytes(forks: seq<nat>, i: nat): Bytes
    requires BlockList(forks) && i <= |forks|
  {
    if i == 0 then [] else ForkBytes(forks, i - 1) + BE64(forks[i - 1])
  }

  lemma ChecksumChain(genesis: Bytes, forks: seq<nat>, i: nat)
    requires BlockList(forks) && i < |forks|
    ensures ChecksumAt(genesis, forks, i + 1) == Crc32(BE64(forks[i]), ChecksumAt(genesis, forks, i))
  {
    hide Crc32, BE64;
    var before := genesis + ForkBytes(forks, i);
    CrcChain(before, BE64(forks[i]), 0);
    assert before + BE64(forks[i]) == genesis + ForkBytes(forks, i + 1);
  }

  /** How many forks a chain with this head has passed: all before the first one above the head. */
  ghost function Passed(forks: seq<nat>, head: nat): (i: nat)
    ensures i <= |forks|
    ensures (forall j :: 0 <= j < i ==> forks[j] <= head) && (i < |forks| ==> forks[i] > head)
    decreases |forks|
  {
    if forks == [] || forks[0] > head then 0 else 1 + Passed(forks[1..], head)
  }

  ghost function ForkIdAt(genesis: Bytes, forks: seq<nat>, head: nat): ForkId
    requires BlockList(forks)
  {
    var i := Passed(forks, head);
    ForkId(ChecksumAt(genesis, forks, i), if i < |forks| then forks[i] else 0)
  }

  method MakeForkId(genesis: Bytes, head: nat, forks: seq<nat>) returns (id: ForkId)
    requires BlockList(forks)
    ensures id == ForkIdAt(genesis, forks, head)
    ensures exists bytes :: SpellOut(bytes, forks, Passed(forks, head)) && id.hash == Crc32(genesis + bytes, 0)
  {
    hide Crc32, BE64, SpellOut;
    ForkBytesSpellOut(forks, Passed(forks, head));
    var bytes, next := genesis, 0;
    var i := 0;
    while i < |forks|
      invariant 0 <= i <= |forks| && next == 0 && bytes == genesis + ForkBytes(forks, i)
      invariant forall j :: 0 <= j < i ==> forks[j] <= head
    {
      if forks[i] > head {
        next := forks[i];
        break;
      }
      bytes := bytes + BE64(forks[i]);
      assert genesis + ForkBytes(forks, i) + BE64(forks[i]) == genesis + ForkBytes(forks, i + 1);
      i := i + 1;
    }
    return ForkId(Crc32(bytes, 0), next);
  }

  // -------------------------------------------------------------------------------------------
  // Validation
  // -------------------------------------------------------------------------------------------

  datatype Verdict = Accept | RemoteStale | LocalIncompatible

  /** The first of the checksums from..to that equals the hash. */
  ghost predicate FirstAt(genesis: Bytes, forks: seq<nat>, from: nat, to: nat, hash: Checksum, k: nat)
    requires BlockList(forks) && to <= |forks| + 1
  {
    && from <= k < to && ChecksumAt(genesis, forks, k) == hash
    && forall j :: from <= j < k ==> ChecksumAt(genesis, forks, j) != hash
  }

  ghost predicate NoneAt(genesis: Bytes, forks: seq<nat>, from: nat, to: nat, hash: Checksum)
    requires BlockList(forks) && to <= |forks| + 1
  {
    forall j :: from <= j < to ==> ChecksumAt(genesis, forks, j) != hash
  }

  /**
   The rules of section "Validation rules" of EIP-2124, for a local chain that has passed i forks:
   same hash, past hash, future hash, or none of them.
   */
  ghost predicate Rules(genesis: Bytes, forks: seq<nat>, head: nat, i: nat, id: ForkId, v: Verdict)
    requires BlockList(forks) && i <= |forks|
  {
    if ChecksumAt(genesis, forks, i) == id.hash then
      v == if id.next > 0 && head >= id.next then LocalIncompatible else Accept
    else if !NoneAt(genesis, forks, 0, i, id.hash) then
      exists k: nat ::
        FirstAt(genesis, forks, 0, i, id.hash, k) && v == if forks[k] == id.next then Accept else RemoteStale
    else
      v == if NoneAt(genesis, forks, i, |forks| + 1, id.hash) then LocalIncompatible else Accept
  }

  /** How many forks the validation counts as passed: it takes a fork at the head itself as not passed. */
  ghost function CountedPassed(forks: seq<nat>, head: nat): (i: nat)
    ensures i <= |forks|
  {
    if head == 0 then 0 else Passed(forks, head - 1)
  }

  method ValidateForkId(id: ForkId, genesis: Bytes, head: nat, forks: seq<nat>) returns (v: Verdict)
    requires BlockList(forks)
    ensures var i := CountedPassed(forks, head);
            if i < |forks| || head <= MAX_BLOCK then Rules(genesis, forks, head, i, id, v) else v == Accept
  {
    hide Crc32, BE64, ChecksumAt;
    var checksums := Checksums(genesis, forks);
    var blocks := forks + [MAX_BLOCK];
    for i := 0 to |blocks|
      invariant forall j :: 0 <= j < i ==> head > blocks[j]
    {
      if head > blocks[i] {
        continue;
      }
      CountedIs(forks, head, i);
      v := Decide(id, genesis, head, forks, checksums, i);
      return;
    }
    assert head > blocks[|forks|];
    assert forall j :: 0 <= j < |forks| ==> head > blocks[j] == forks[j];
    v := Accept;
  }

  /** The prefix checksums, each computed from the one before it. */
  method Checksums(genesis: Bytes, forks: seq<nat>) returns (cs: seq<Checksum>)
    requires BlockList(forks)
    ensures |cs| == |forks| + 1 && forall i :: 0 <= i < |cs| ==> cs[i] == ChecksumAt(genesis, forks, i)
  {
    hide Crc32, BE64;
    cs := [Crc32(genesis, 0)];
    assert genesis + ForkBytes(forks, 0) == genesis;
    for i := 0 to |forks|
      invariant |cs| == i + 1 && forall j :: 0 <= j < |cs| ==> cs[j] == ChecksumAt(genesis, forks, j)
    {
      ChecksumChain(genesis, forks, i);
      cs := cs + [Crc32(BE64(forks[i]), cs[i])];
    }
  }

  method Decide(id: ForkId, genesis: Bytes, head: nat, forks: seq<nat>, cs: seq<Checksum>, i: nat) returns (v: Verdict)
    requires BlockList(forks) && i <= |forks| && |cs| == |forks| + 1
    requires forall j :: 0 <= j < |cs| ==> cs[j] == ChecksumAt(genesis, forks, j)
    ensures Rules(genesis, forks, head, i, id, v)
  {
    hide ChecksumAt;
    if cs[i] == id.hash {
      return if id.next > 0 && head >= id.next then LocalIncompatible else Accept;
    }
    for k := 0 to i
      invariant NoneAt(genesis, forks, 0, k, id.hash)
    {
      if cs[k] == id.hash {
        assert FirstAt(genesis, forks, 0, i, id.hash, k);
        assert !NoneAt(genesis, forks, 0, i, id.hash);
        return if forks[k] == id.next then Accept else RemoteStale;
      }
    }
    for k := i to |cs|
      invariant NoneAt(genesis, forks, i, k, id.hash)
    {
      if cs[k] == id.hash {
        assert !NoneAt(genesis, forks, i, |forks| + 1, id.hash);
        return Accept;
      }
    }
    return LocalIncompatible;
  }

  lemma {:induction false} PassedIs(forks: seq<nat>, head: nat, i: nat)
    requires BlockList(forks) && i <= |forks|
    requires (forall j :: 0 <= j < i ==> forks[j] <= head) && (i < |forks| ==> forks[i] > head)
    ensures Passed(forks, head) == i
  {
  }

  lemma CountedIs(forks: seq<nat>, head: nat, i: nat)
    requires BlockList(forks) && i <= |forks|
    requires (forall j :: 0 <= j < i ==> head > (forks + [MAX_BLOCK])[j]) && head <= (forks + [MAX_BLOCK])[i]
    ensures CountedPassed(forks, head) == i
  {
    assert forall j :: 0 <= j < i ==> (forks + [MAX_BLOCK])[j] == forks[j];
    assert i > 0 ==> head > (forks + [MAX_BLOCK])[0];
    if head > 0 {
      PassedIs(forks, head - 1, i);
    }
  }

  /** The validation counts the passed forks as EIP-2124 does exactly off the fork blocks themselves. */
  lemma {:induction false} FollowsEip(forks: seq<nat>, head: nat)
    requires ForkList(forks)
    ensures CountedPassed(forks, head) == Passed(forks, head) <==> head !in forks
  {
    hide Passed;
    var k, i := CountedPassed(forks, head), Passed(forks, head);
    if head in forks {
      var m :| 0 <= m < |forks| && forks[m] == head;
      assert k <= m < i;
    } else if head > 0 && k < |forks| {
      assert forks[k] != head;
    }
  }

  ghost predicate DistinctChecksums(genesis: Bytes, forks: seq<nat>)
    requires BlockList(forks)
  {
    forall i, j :: 0 <= i < j <= |forks| ==> ChecksumAt(genesis, forks, i) != ChecksumAt(genesis, forks, j)
  }

  /** Checksums agree only for the same genesis and the same forks. */
  ghost predicate NoCollisions(genesis: Bytes, forks: seq<nat>, genesis': Bytes, forks': seq<nat>)
    requires BlockList(forks) && BlockList(forks')
  {
    forall i, j :: 0 <= i <= |forks| && 0 <= j <= |forks'| ==>
      (ChecksumAt(genesis, forks, i) == ChecksumAt(genesis', forks', j) ==>
         genesis == genesis' && forks[..i] == forks'[..j])
  }

  lemma {:induction false} SamePrefix(forks: seq<nat>, forks': seq<nat>, i: nat)
    requires BlockList(forks) && BlockList(forks') && i <= |forks| && i <= |forks'| && forks[..i] == forks'[..i]
    ensures ForkBytes(forks, i) == ForkBytes(forks', i)
    decreases i
  {
    hide BE64;
    if i > 0 {
      assert forks[..i - 1] == forks[..i][..i - 1] == forks'[..i - 1];
      assert forks[i - 1] == forks[..i][i - 1] == forks'[i - 1];
      SamePrefix(forks, forks', i - 1);
    }
  }

  /**
   What is decided about a peer on any chain: it is compatible only if it has the same genesis and the
   forks it has passed are the first of ours. If it is behind, it must know our next fork; if it is
   level with us, we must not have reached the fork it announces; if it is ahead, we are behind.
   */
  lemma {:induction false} VerdictBetweenChains(genesis: Bytes, forks: seq<nat>, head: nat, genesis': Bytes,
                                                forks': seq<nat>, remoteHead: nat, v: Verdict)
    requires BlockList(forks) && BlockList(forks') && NoCollisions(genesis, forks, genesis', forks')
    requires Rules(genesis, forks, head, CountedPassed(forks, head), ForkIdAt(genesis', forks', remoteHead), v)
    ensures var i, j := CountedPassed(forks, head), Passed(forks', remoteHead);
            var next := if j < |forks'| then forks'[j] else 0;
            v == if genesis != genesis' || j > |forks| || forks[..j] != forks'[..j] then LocalIncompatible
                 else if j < i then if forks[j] == next then Accept else RemoteStale
                 else if j == i && next > 0 && head >= next then LocalIncompatible
                 else Accept
  {
    hide ChecksumAt, Passed;
    var j := Passed(forks', remoteHead);
    if genesis == genesis' && j <= |forks| && forks[..j] == forks'[..j] {
      SameChecksum(genesis, forks, forks', j);
    }
    forall k | 0 <= k <= |forks| && ChecksumAt(genesis, forks, k) == ChecksumAt(genesis', forks', j)
      ensures k == j && genesis == genesis' && forks[..j] == forks'[..j]
    {
      assert |forks[..k]| == |forks'[..j]|;
    }
  }

  lemma SameChecksum(genesis: Bytes, forks: seq<nat>, forks': seq<nat>, i: nat)
    requires BlockList(forks) && BlockList(forks') && i <= |forks| && i <= |forks'| && forks[..i] == forks'[..i]
    ensures ChecksumAt(genesis, forks, i) == ChecksumAt(genesis, forks', i)
  {
    SamePrefix(forks, forks', i);
  }

  /** A peer on the same chain is accepted, unless our head is exactly the fork it announces next. */
  lemma {:induction false} SameChainAccepted(genesis: Bytes, forks: seq<nat>, head: nat, remoteHead: nat, v: Verdict)
    requires ForkList(forks) && DistinctChecksums(genesis, forks)
    requires Rules(genesis, forks, head, CountedPassed(forks, head), ForkIdAt(genesis, forks, remoteHead), v)
    ensures v == Accept <==> head == 0 || ForkIdAt(genesis, forks, remoteHead).next != head
  {
    hide ChecksumAt, Passed;
  }

  /** A node always accepts its own fork id. */
  lemma {:induction false} OwnForkIdAccepted(genesis: Bytes, forks: seq<nat>, head: nat, v: Verdict)
    requires ForkList(forks) && DistinctChecksums(genesis, forks)
    requires Rules(genesis, forks, head, CountedPassed(forks, head), ForkIdAt(genesis, forks, head), v)
    ensures v == Accept
  {
    hide ChecksumAt, Passed;
  }

  /** At a fork block itself, a peer that is one block behind is turned away. */
  lemma RejectedAtForkBlock(genesis: Bytes, v: Verdict)
    requires Rules(genesis, [10], 10, CountedPassed([10], 10), ForkIdAt(genesis, [10], 9), v)
    ensures v != Accept
  {
  }
}
