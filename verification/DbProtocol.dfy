/**
 The database protocol spoken over a local socket (trinity/db/manager.py) and the buffered socket
 under it (trinity/_utils/socket.py).

 A client prints requests; the server reads them from a byte stream that recv() cuts into chunks
 of any size, applies them to its database, and prints replies the client parses.
 */
module DbProtocol {
  import opened Collections
  import opened ByteStreams

  type Store = map<Bytes, Bytes>

  const SIZE_LIMIT := 0x1_0000_0000
  const SUCCESS: Byte := 1
  const FAIL: Byte := 0

  datatype Request =
    | Get(key: Bytes)
    | Put(key: Bytes, value: Bytes)
    | Delete(key: Bytes)
    | Exists(key: Bytes)
    | AtomicBatch(sets: seq<(Bytes, Bytes)>, deletes: seq<Bytes>)

  /** What a caller of the client sees. */
  datatype Answer = Value(value: Bytes) | Done | MissingKey | Found(present: bool) | Garbled | Closed

  // -------------------------------------------------------------------------------------------
  // The operations on a plain map
  // -------------------------------------------------------------------------------------------

  function Apply(db: Store, r: Request): Store
  {
    match r
    case Get(_) => db
    case Put(k, v) => db[k := v]
    case Delete(k) => db - {k}
    case Exists(_) => db
    case AtomicBatch(sets, deletes) => ApplyBatch(db, sets, deletes)
  }

  function AnswerOf(db: Store, r: Request): Answer
  {
    match r
    case Get(k) => if k in db then Value(db[k]) else MissingKey
    case Put(_, _) => Done
    case Delete(k) => if k in db then Done else MissingKey
    case Exists(k) => Found(k in db)
    case AtomicBatch(_, _) => Done
  }

  function ApplyBatch(db: Store, sets: seq<(Bytes, Bytes)>, deletes: seq<Bytes>): Store
  {
    ApplySets(db, sets) - set k | k in deletes
  }

  function ApplySets(db: Store, sets: seq<(Bytes, Bytes)>): Store
  {
    if sets == [] then db
    else ApplySets(db, sets[..|sets| - 1])[sets[|sets| - 1].0 := sets[|sets| - 1].1]
  }

  /** The changes a client collected in one atomic batch: a new value or a deletion per key. */
  type Diff = map<Bytes, Option<Bytes>>

  /** The whole diff at once; deleting an absent key is no error. */
  ghost function ApplyDiff(db: Store, diff: Diff): Store
  {
    map k | k in db.Keys + diff.Keys && (k in diff ==> diff[k].Some?) :: if k in diff then diff[k].value else db[k]
  }

  /** The two lists a client reads off its diff, in whatever order the diff yields them. */
  ghost predicate Lists(diff: Diff, sets: seq<(Bytes, Bytes)>, deletes: seq<Bytes>)
  {
    && (forall i, j :: 0 <= i < j < |sets| ==> sets[i].0 != sets[j].0)
    && (forall k, v :: (k, v) in sets <==> k in diff && diff[k] == Some(v))
    && (forall k :: k in deletes <==> k in diff && diff[k].None?)
  }

  // -------------------------------------------------------------------------------------------
  // The last write decides
  // -------------------------------------------------------------------------------------------

  /** After r, key k has the value v: in a batch the last pair for k counts, unless k is deleted too. */
  ghost predicate Assigns(r: Request, k: Bytes, v: Bytes)
  {
    || r == Put(k, v)
    || (r.AtomicBatch? && k !in r.deletes && exists i :: 0 <= i < |r.sets| && LastPair(r.sets, i, k, v))
  }

  ghost predicate LastPair(sets: seq<(Bytes, Bytes)>, i: nat, k: Bytes, v: Bytes)
    requires i < |sets|
  {
    sets[i] == (k, v) && forall j :: i < j < |sets| ==> sets[j].0 != k
  }

  ghost predicate Erases(r: Request, k: Bytes)
  {
    r == Delete(k) || (r.AtomicBatch? && k in r.deletes)
  }

  ghost predicate Writes(r: Request, k: Bytes)
  {
    Erases(r, k) || exists v :: Assigns(r, k, v)
  }

  ghost function Lookup(db: Store, k: Bytes): Option<Bytes>
  {
    if k in db then Some(db[k]) else None
  }

  /** What the last of the first i requests that writes k says of it; without one, what db says. */
  ghost predicate LastWrite(db: Store, rs: seq<Request>, i: nat, k: Bytes, o: Option<Bytes>)
    requires i <= |rs|
  {
    if forall j :: 0 <= j < i ==> !Writes(rs[j], k) then o == Lookup(db, k)
    else exists j :: 0 <= j < i && WrittenAt(rs, i, j, k, o)
  }

  ghost predicate WrittenAt(rs: seq<Request>, i: nat, j: nat, k: Bytes, o: Option<Bytes>)
    requires j < i <= |rs|
  {
    && (if o.Some? then Assigns(rs[j], k, o.value) else Erases(rs[j], k))
    && forall m :: j < m < i ==> !Writes(rs[m], k)
  }

  lemma LastWriteUnique(db: Store, rs: seq<Request>, i: nat, k: Bytes, o: Option<Bytes>, o': Option<Bytes>)
    requires i <= |rs| && LastWrite(db, rs, i, k, o) && LastWrite(db, rs, i, k, o')
    ensures o == o'
  {
    if !forall j :: 0 <= j < i ==> !Writes(rs[j], k) {
      var j :| 0 <= j < i && WrittenAt(rs, i, j, k, o);
      var j' :| 0 <= j' < i && WrittenAt(rs, i, j', k, o');
      assert Writes(rs[j], k) && Writes(rs[j'], k);
    }
  }

  lemma {:induction false} ApplySetsLast(db: Store, sets: seq<(Bytes, Bytes)>, k: Bytes)
    ensures (forall i :: 0 <= i < |sets| ==> sets[i].0 != k) ==> Lookup(ApplySets(db, sets), k) == Lookup(db, k)
    ensures (exists i :: 0 <= i < |sets| && sets[i].0 == k) ==>
              exists i, v :: 0 <= i < |sets| && LastPair(sets, i, k, v)
    ensures forall i, v :: 0 <= i < |sets| && LastPair(sets, i, k, v) ==> Lookup(ApplySets(db, sets), k) == Some(v)
  {
    if sets != [] {
      var n := |sets| - 1;
      var init := sets[..n];
      ApplySetsLast(db, init, k);
      if sets[n].0 == k {
        assert LastPair(sets, n, k, sets[n].1);
      } else {
        if i, v :| 0 <= i < n && LastPair(init, i, k, v) {
          assert LastPair(sets, i, k, v);
        }
        forall i, v | 0 <= i < |sets| && LastPair(sets, i, k, v)
          ensures Lookup(ApplySets(db, sets), k) == Some(v)
        {
          assert LastPair(init, i, k, v);
        }
      }
    }
  }

  /** What a request does to every key. */
  lemma ApplyTells(db: Store, r: Request, k: Bytes)
    ensures forall v :: Assigns(r, k, v) ==> Lookup(Apply(db, r), k) == Some(v)
    ensures Erases(r, k) ==> Lookup(Apply(db, r), k) == None
    ensures !Writes(r, k) ==> Lookup(Apply(db, r), k) == Lookup(db, k)
  {
    hide ApplySets;
    if r.AtomicBatch? {
      ApplySetsLast(db, r.sets, k);
      if i, v :| 0 <= i < |r.sets| && LastPair(r.sets, i, k, v) && k !in r.deletes {
        assert Assigns(r, k, v);
      }
    } else if r.Put? && r.key == k {
      assert Assigns(r, k, r.value);
    }
  }

  lemma {:induction false} ApplyOneMore(db: Store, done: seq<Request>, r: Request)
    ensures ApplyAll(db, done + [r]) == Apply(ApplyAll(db, done), r)
    decreases |done|
  {
    hide Apply;
    if done == [] {
      assert done + [r] == [r];
    } else {
      ApplyOneMore(Apply(db, done[0]), done[1..], r);
      assert (done + [r])[1..] == done[1..] + [r];
    }
  }

  /** After any requests, every key is as the last of them that wrote it left it. */
  lemma {:induction false} HistoryTells(db: Store, rs: seq<Request>, i: nat, k: Bytes)
    requires i <= |rs|
    ensures LastWrite(db, rs, i, k, Lookup(ApplyAll(db, rs[..i]), k))
    decreases i
  {
    hide Apply, Writes, Assigns, Erases;
    if i > 0 {
      HistoryTells(db, rs, i - 1, k);
      var before, r := ApplyAll(db, rs[..i - 1]), rs[i - 1];
      assert rs[..i] == rs[..i - 1] + [r];
      ApplyOneMore(db, rs[..i - 1], r);
      ApplyTells(before, r, k);
      LastWriteMore(db, rs, i, k, Lookup(before, k), Lookup(Apply(before, r), k));
    } else {
      assert rs[..0] == [];
    }
  }

  lemma LastWriteMore(db: Store, rs: seq<Request>, i: nat, k: Bytes, o: Option<Bytes>, o': Option<Bytes>)
    requires 0 < i <= |rs| && LastWrite(db, rs, i - 1, k, o)
    requires forall v :: Assigns(rs[i - 1], k, v) ==> o' == Some(v)
    requires Erases(rs[i - 1], k) ==> o' == None
    requires !Writes(rs[i - 1], k) ==> o' == o
    ensures LastWrite(db, rs, i, k, o')
  {
    var r := rs[i - 1];
    if Writes(r, k) {
      if !Erases(r, k) {
        var v :| Assigns(r, k, v);
        assert o' == Some(v);
      }
      assert WrittenAt(rs, i, i - 1, k, o');
    } else if !forall j :: 0 <= j < i - 1 ==> !Writes(rs[j], k) {
      var j :| 0 <= j < i - 1 && WrittenAt(rs, i - 1, j, k, o);
      assert WrittenAt(rs, i, j, k, o');
      assert Writes(rs[j], k);
    }
  }

  /** The answer a client must get to its request number i. */
  ghost predicate Answered(db: Store, rs: seq<Request>, i: nat, a: Answer)
    requires i < |rs|
  {
    match rs[i]
    case Get(k) => exists o :: LastWrite(db, rs, i, k, o) && a == if o.Some? then Value(o.value) else MissingKey
    case Delete(k) => exists o :: LastWrite(db, rs, i, k, o) && a == if o.Some? then Done else MissingKey
    case Exists(k) => exists o :: LastWrite(db, rs, i, k, o) && a == Found(o.Some?)
    case _ => a == Done
  }

  lemma AnswerTells(db: Store, rs: seq<Request>, i: nat)
    requires i < |rs|
    ensures Answered(db, rs, i, AnswerOf(ApplyAll(db, rs[..i]), rs[i]))
  {
    hide LastWrite, ApplyAll;
    if rs[i].Get? || rs[i].Delete? || rs[i].Exists? {
      var k := rs[i].key;
      HistoryTells(db, rs, i, k);
    }
  }

  lemma {:induction false} AnswersAt(db: Store, rs: seq<Request>, i: nat)
    requires i < |rs|
    ensures |AnswersOf(db, rs)| == |rs| && AnswersOf(db, rs)[i] == AnswerOf(ApplyAll(db, rs[..i]), rs[i])
    decreases |rs|
  {
    hide Apply, AnswerOf;
    if i > 0 {
      AnswersAt(Apply(db, rs[0]), rs[1..], i - 1);
      assert rs[..i][1..] == rs[1..][..i - 1];
    } else if |rs| > 1 {
      AnswersAt(Apply(db, rs[0]), rs[1..], 0);
    }
  }

  lemma {:induction false} ApplySetsAt(db: Store, sets: seq<(Bytes, Bytes)>, k: Bytes)
    requires forall i, j :: 0 <= i < j < |sets| ==> sets[i].0 != sets[j].0
    ensures k in ApplySets(db, sets) <==> k in db || exists i :: 0 <= i < |sets| && sets[i].0 == k
    ensures (forall i :: 0 <= i < |sets| ==> sets[i].0 != k) && k in db ==> ApplySets(db, sets)[k] == db[k]
    ensures forall i :: 0 <= i < |sets| && sets[i].0 == k ==> ApplySets(db, sets)[k] == sets[i].1
  {
    if sets != [] {
      ApplySetsAt(db, sets[..|sets| - 1], k);
    }
  }

  /** A batch, sent as two lists, has the effect of its diff. */
  lemma BatchIsDiff(db: Store, diff: Diff, sets: seq<(Bytes, Bytes)>, deletes: seq<Bytes>)
    requires Lists(diff, sets, deletes)
    ensures ApplyBatch(db, sets, deletes) == ApplyDiff(db, diff)
  {
    var a, b := ApplyBatch(db, sets, deletes), ApplyDiff(db, diff);
    forall k
      ensures k in a <==> k in b
      ensures k in a && k in b ==> a[k] == b[k]
    {
      ApplySetsAt(db, sets, k);
      if k in diff && diff[k].Some? {
        assert (k, diff[k].value) in sets;
      }
      if i :| 0 <= i < |sets| && sets[i].0 == k {
        assert sets[i] in sets && sets[i] == (k, sets[i].1);
      }
    }
  }

  // -------------------------------------------------------------------------------------------
  // Requests as bytes
  // -------------------------------------------------------------------------------------------

  ghost predicate Fits(r: Request)
  {
    match r
    case Get(k) => |k| < SIZE_LIMIT
    case Put(k, v) => |k| < SIZE_LIMIT && |v| < SIZE_LIMIT
    case Delete(k) => |k| < SIZE_LIMIT
    case Exists(k) => |k| < SIZE_LIMIT
    case AtomicBatch(sets, deletes) =>
      && |sets| < SIZE_LIMIT && |deletes| < SIZE_LIMIT
      && AllFit(PairSizes(sets)) && AllFit(KeySizes(deletes))
  }

  ghost predicate AllFit(sizes: seq<nat>)
  {
    forall i :: 0 <= i < |sizes| ==> sizes[i] < SIZE_LIMIT
  }

  function PairSizes(sets: seq<(Bytes, Bytes)>): (s: seq<nat>)
    ensures |s| == 2 * |sets|
  {
    if sets == [] then [] else [|sets[0].0|, |sets[0].1|] + PairSizes(sets[1..])
  }

  function KeySizes(keys: seq<Bytes>): (s: seq<nat>)
    ensures |s| == |keys|
  {
    if keys == [] then [] else [|keys[0]|] + KeySizes(keys[1..])
  }

  function SizesData(sizes: seq<nat>): (b: Bytes)
    requires AllFit(sizes)
    ensures |b| == 4 * |sizes|
  {
    if sizes == [] then [] else LE32(sizes[0]) + SizesData(sizes[1..])
  }

  function PairsData(sets: seq<(Bytes, Bytes)>): Bytes
  {
    if sets == [] then [] else sets[0].0 + sets[0].1 + PairsData(sets[1..])
  }

  function KeysData(keys: seq<Bytes>): Bytes
  {
    if keys == [] then [] else keys[0] + KeysData(keys[1..])
  }

  function Operation(r: Request): Byte
  {
    match r
    case Get(_) => 0
    case Put(_, _) => 1
    case Delete(_) => 2
    case Exists(_) => 3
    case AtomicBatch(_, _) => 4
  }

  function Payload(r: Request): Bytes
    requires Fits(r)
  {
    match r
    case Get(k) => LE32(|k|) + k
    case Put(k, v) => (LE32(|k|) + LE32(|v|)) + k + v
    case Delete(k) => LE32(|k|) + k
    case Exists(k) => LE32(|k|) + k
    case AtomicBatch(sets, deletes) =>
      (LE32(|sets|) + LE32(|deletes|)) + (SizesData(PairSizes(sets)) + SizesData(KeySizes(deletes)))
      + PairsData(sets) + KeysData(deletes)
  }

  /** What the client sends. */
  function Encode(r: Request): Bytes
    requires Fits(r)
  {
    [Operation(r)] + Payload(r)
  }

  /** The outcome of reading one request off a stream. */
  datatype Parsed<+T> = Parsed(value: T, rest: Bytes) | Truncated | BadOperation

  function Take(s: Bytes, n: nat): Parsed<Bytes>
  {
    if n <= |s| then Parsed(s[..n], s[n..]) else Truncated
  }

  function ParseKey(s: Bytes): Parsed<Bytes>
  {
    match Take(s, 4)
    case Parsed(size, rest) => Take(rest, FromLE32(size))
    case _ => Truncated
  }

  function ParseRequest(s: Bytes): Parsed<Request>
  {
    if s == [] then Truncated
    else if s[0] == 0 then MapParsed(ParseKey(s[1..]), k => Get(k))
    else if s[0] == 1 then ParsePut(s[1..])
    else if s[0] == 2 then MapParsed(ParseKey(s[1..]), k => Delete(k))
    else if s[0] == 3 then MapParsed(ParseKey(s[1..]), k => Exists(k))
    else if s[0] == 4 then ParseBatch(s[1..])
    else BadOperation
  }

  function MapParsed<T, U>(p: Parsed<T>, f: T -> U): Parsed<U>
  {
    match p
    case Parsed(t, rest) => Parsed(f(t), rest)
    case Truncated => Truncated
    case BadOperation => BadOperation
  }

  function Prepend<T>(done: seq<T>, p: Parsed<seq<T>>): Parsed<seq<T>>
  {
    if p.Parsed? then Parsed(done + p.value, p.rest) else p
  }

  lemma PrependNothing<T>(p: Parsed<seq<T>>)
    ensures Prepend([], p) == p
  {
    if p.Parsed? {
      assert [] + p.value == p.value;
    }
  }

  lemma PrependMore<T>(done: seq<T>, t: T, p: Parsed<seq<T>>)
    ensures Prepend(done, Prepend([t], p)) == Prepend(done + [t], p)
  {
    if p.Parsed? {
      assert done + ([t] + p.value) == (done + [t]) + p.value;
    }
  }

  function ParsePut(s: Bytes): Parsed<Request>
  {
    match Take(s, 8)
    case Parsed(sizes, rest) =>
      var keySize, valueSize := FromLE32(sizes[..4]), FromLE32(sizes[4..]);
      MapParsed(Take(rest, keySize + valueSize), (kv: Bytes) => SplitPut(kv, keySize))
    case _ => Truncated
  }

  function SplitPut(kv: Bytes, keySize: nat): Request
  {
    if keySize <= |kv| then Put(kv[..keySize], kv[keySize..]) else Put(kv, [])
  }

  function SizesOf(b: Bytes): (sizes: seq<nat>)
    ensures |sizes| == |b| / 4
  {
    if |b| < 4 then [] else [FromLE32(b[..4])] + SizesOf(b[4..])
  }

  function ParsePairs(sizes: seq<nat>, s: Bytes): Parsed<seq<(Bytes, Bytes)>>
  {
    if |sizes| < 2 then Parsed([], s)
    else
      match Take(s, sizes[0] + sizes[1])
      case Parsed(kv, rest) =>
        var pair := (kv[..sizes[0]], kv[sizes[0]..]);
        Prepend([pair], ParsePairs(sizes[2..], rest))
      case _ => Truncated
  }

  function ParseKeys(sizes: seq<nat>, s: Bytes): Parsed<seq<Bytes>>
  {
    if sizes == [] then Parsed([], s)
    else
      match Take(s, sizes[0])
      case Parsed(k, rest) => Prepend([k], ParseKeys(sizes[1..], rest))
      case _ => Truncated
  }

  function ParseBatch(s: Bytes): Parsed<Request>
  {
    match Take(s, 8)
    case Parsed(counts, rest) =>
      var n, m := FromLE32(counts[..4]), FromLE32(counts[4..]);
      (match Take(rest, 8 * n + 4 * m)
       case Parsed(sizesData, data) =>
         var sizes := SizesOf(sizesData);
         ParseBody(sizes[..2 * n], sizes[2 * n..], data)
       case _ => Truncated)
    case _ => Truncated
  }

  function ParseBody(pairSizes: seq<nat>, keySizes: seq<nat>, data: Bytes): Parsed<Request>
  {
    match ParsePairs(pairSizes, data)
    case Parsed(sets, rest) => MapParsed(ParseKeys(keySizes, rest), (ks: seq<Bytes>) => AtomicBatch(sets, ks))
    case _ => Truncated
  }

  // -------------------------------------------------------------------------------------------
  // Printing, then parsing
  // -------------------------------------------------------------------------------------------

  lemma TakeBack(a: Bytes, b: Bytes)
    ensures Take(a + b, |a|) == Parsed(a, b)
  {
  }

  lemma KeyRoundTrip(k: Bytes, rest: Bytes)
    requires |k| < SIZE_LIMIT
    ensures ParseKey(LE32(|k|) + k + rest) == Parsed(k, rest)
  {
    assert LE32(|k|) + k + rest == LE32(|k|) + (k + rest);
    TakeBack(LE32(|k|), k + rest);
    LE32RoundTrip(|k|);
    TakeBack(k, rest);
  }

  lemma PutRoundTrip(k: Bytes, v: Bytes, rest: Bytes)
    requires |k| < SIZE_LIMIT && |v| < SIZE_LIMIT
    ensures ParsePut((LE32(|k|) + LE32(|v|)) + k + v + rest) == Parsed(Put(k, v), rest)
  {
    var sizes := LE32(|k|) + LE32(|v|);
    assert sizes + k + v + rest == sizes + ((k + v) + rest);
    TakeBack(sizes, (k + v) + rest);
    LE32RoundTrip(|k|);
    LE32RoundTrip(|v|);
    assert sizes[..4] == LE32(|k|) && sizes[4..] == LE32(|v|);
    TakeBack(k + v, rest);
    assert (k + v)[..|k|] == k && (k + v)[|k|..] == v;
  }

  lemma {:induction false} SizesRoundTrip(sizes: seq<nat>)
    requires AllFit(sizes)
    ensures SizesOf(SizesData(sizes)) == sizes
  {
    if sizes != [] {
      LE32RoundTrip(sizes[0]);
      SizesRoundTrip(sizes[1..]);
      assert SizesData(sizes)[..4] == LE32(sizes[0]) && SizesData(sizes)[4..] == SizesData(sizes[1..]);
    }
  }

  lemma {:induction false} SizesConcat(a: seq<nat>, b: seq<nat>)
    requires AllFit(a) && AllFit(b)
    ensures AllFit(a + b) && SizesData(a + b) == SizesData(a) + SizesData(b)
  {
    hide LE32;
    if a == [] {
      assert a + b == b;
    } else {
      assert (a + b)[1..] == a[1..] + b;
      SizesConcat(a[1..], b);
      var first, x, y := LE32(a[0]), SizesData(a[1..]), SizesData(b);
      assert first + (x + y) == (first + x) + y;
    }
  }

  lemma {:induction false} PairsRoundTrip(sets: seq<(Bytes, Bytes)>, rest: Bytes)
    ensures ParsePairs(PairSizes(sets), PairsData(sets) + rest) == Parsed(sets, rest)
  {
    if sets == [] {
      assert PairsData(sets) + rest == rest;
    } else {
      var k, v, tail := sets[0].0, sets[0].1, PairsData(sets[1..]) + rest;
      assert PairsData(sets) + rest == (k + v) + tail;
      TakeBack(k + v, tail);
      assert (k + v)[..|k|] == k && (k + v)[|k|..] == v;
      assert PairSizes(sets)[2..] == PairSizes(sets[1..]);
      PairsRoundTrip(sets[1..], rest);
      assert [sets[0]] + sets[1..] == sets;
    }
  }

  lemma {:induction false} KeysRoundTrip(keys: seq<Bytes>, rest: Bytes)
    ensures ParseKeys(KeySizes(keys), KeysData(keys) + rest) == Parsed(keys, rest)
  {
    if keys == [] {
      assert KeysData(keys) + rest == rest;
    } else {
      var tail := KeysData(keys[1..]) + rest;
      assert KeysData(keys) + rest == keys[0] + tail;
      TakeBack(keys[0], tail);
      assert KeySizes(keys)[1..] == KeySizes(keys[1..]);
      KeysRoundTrip(keys[1..], rest);
      assert [keys[0]] + keys[1..] == keys;
    }
  }

  lemma BatchRoundTrip(sets: seq<(Bytes, Bytes)>, deletes: seq<Bytes>, rest: Bytes)
    requires Fits(AtomicBatch(sets, deletes))
    ensures ParseBatch(Payload(AtomicBatch(sets, deletes)) + rest) == Parsed(AtomicBatch(sets, deletes), rest)
  {
    hide LE32, FromLE32, SizesData, SizesOf, ParsePairs, ParseKeys, PairSizes, KeySizes, PairsData, KeysData;
    hide Take, AllFit;
    var counts := LE32(|sets|) + LE32(|deletes|);
    var ps, ks := PairSizes(sets), KeySizes(deletes);
    var sizesData := SizesData(ps) + SizesData(ks);
    var data := PairsData(sets) + (KeysData(deletes) + rest);
    assert Payload(AtomicBatch(sets, deletes)) + rest == counts + (sizesData + data);
    TakeBack(counts, sizesData + data);
    assert counts[..4] == LE32(|sets|) && counts[4..] == LE32(|deletes|);
    LE32RoundTrip(|sets|);
    LE32RoundTrip(|deletes|);
    TakeBack(sizesData, data);
    SizesConcat(ps, ks);
    SizesRoundTrip(ps + ks);
    assert (ps + ks)[..2 * |sets|] == ps && (ps + ks)[2 * |sets|..] == ks;
    PairsRoundTrip(sets, KeysData(deletes) + rest);
    KeysRoundTrip(deletes, rest);
  }

  /** Reading what a client printed gives back the request and leaves exactly the bytes after it. */
  lemma RequestRoundTrip(r: Request, rest: Bytes)
    requires Fits(r)
    ensures ParseRequest(Encode(r) + rest) == Parsed(r, rest)
  {
    hide LE32, FromLE32, SizesData, PairsData, KeysData, ParseKey, ParsePut, ParseBatch, AllFit;
    var s := Encode(r) + rest;
    assert s[1..] == Payload(r) + rest;
    match r {
      case Get(k) => KeyRoundTrip(k, rest);
      case Put(k, v) => PutRoundTrip(k, v, rest);
      case Delete(k) => KeyRoundTrip(k, rest);
      case Exists(k) => KeyRoundTrip(k, rest);
      case AtomicBatch(sets, deletes) => BatchRoundTrip(sets, deletes, rest);
    }
  }

  // -------------------------------------------------------------------------------------------
  // Replies as bytes
  // -------------------------------------------------------------------------------------------

  /** What the server sends back for one request. */
  function Reply(db: Store, r: Request): Bytes
    requires SmallValues(db)
  {
    match r
    case Get(k) => if k in db then [SUCCESS] + LE32(|db[k]|) + db[k] else [FAIL]
    case Delete(k) => if k in db then [SUCCESS] else [FAIL]
    case Exists(k) => if k in db then [SUCCESS] else [FAIL]
    case _ => [SUCCESS]
  }

  /** Every stored value can be sent back. */
  ghost predicate SmallValues(db: Store)
  {
    forall k :: k in db ==> |db[k]| < SIZE_LIMIT
  }

  /** What the client makes of the bytes that answer its request. */
  function ParseAnswer(r: Request, s: Bytes): Parsed<Answer>
  {
    if s == [] then Truncated
    else if s[0] != FAIL && s[0] != SUCCESS then Parsed(Garbled, s[1..])
    else
      match r
      case Get(_) => if s[0] == FAIL then Parsed(MissingKey, s[1..]) else MapParsed(ParseKey(s[1..]), v => Value(v))
      case Delete(_) => Parsed(if s[0] == SUCCESS then Done else MissingKey, s[1..])
      case Exists(_) => Parsed(Found(s[0] == SUCCESS), s[1..])
      case _ => Parsed(Done, s[1..])
  }

  /** The client reads back the answer a plain map gives, and leaves exactly the bytes after it. */
  lemma AnswerRoundTrip(db: Store, r: Request, rest: Bytes)
    requires SmallValues(db)
    ensures ParseAnswer(r, Reply(db, r) + rest) == Parsed(AnswerOf(db, r), rest)
  {
    hide LE32, FromLE32, ParseKey;
    var s := Reply(db, r) + rest;
    match r {
      case Get(k) =>
        if k in db {
          assert s[1..] == LE32(|db[k]|) + db[k] + rest;
          KeyRoundTrip(db[k], rest);
        } else {
          assert s[1..] == rest;
        }
      case _ => assert s[1..] == rest;
    }
  }

  lemma {:induction false} ApplySetsSmall(db: Store, sets: seq<(Bytes, Bytes)>)
    requires SmallValues(db) && forall i :: 0 <= i < |sets| ==> |sets[i].1| < SIZE_LIMIT
    ensures SmallValues(ApplySets(db, sets))
  {
    if sets != [] {
      ApplySetsSmall(db, sets[..|sets| - 1]);
    }
  }

  // -------------------------------------------------------------------------------------------
  // Any stream is a run of requests
  // -------------------------------------------------------------------------------------------

  function ApplyAll(db: Store, rs: seq<Request>): Store
    decreases |rs|
  {
    if rs == [] then db else ApplyAll(Apply(db, rs[0]), rs[1..])
  }

  function AnswersOf(db: Store, rs: seq<Request>): seq<Answer>
    decreases |rs|
  {
    if rs == [] then [] else [AnswerOf(db, rs[0])] + AnswersOf(Apply(db, rs[0]), rs[1..])
  }

  function RepliesOf(db: Store, rs: seq<Request>): Bytes
    requires SmallValues(db) && forall r :: r in rs ==> Fits(r)
    decreases |rs|
  {
    if rs == [] then []
    else
      ApplySmall(db, rs[0]);
      Reply(db, rs[0]) + RepliesOf(Apply(db, rs[0]), rs[1..])
  }

  lemma ApplySmall(db: Store, r: Request)
    requires SmallValues(db) && Fits(r)
    ensures SmallValues(Apply(db, r))
  {
    if r.AtomicBatch? {
      forall i | 0 <= i < |r.sets|
        ensures |r.sets[i].1| < SIZE_LIMIT
      {
        PairSizesAt(r.sets, i);
      }
      ApplySetsSmall(db, r.sets);
    }
  }

  lemma {:induction false} PairSizesAt(sets: seq<(Bytes, Bytes)>, i: nat)
    requires i < |sets|
    ensures PairSizes(sets)[2 * i] == |sets[i].0| && PairSizes(sets)[2 * i + 1] == |sets[i].1|
  {
    if i > 0 {
      PairSizesAt(sets[1..], i - 1);
    }
  }

  /** The complete requests at the front of a stream; a bad operation or a truncated one ends them. */
  function ParseAll(s: Bytes): (rs: seq<Request>)
    ensures forall r :: r in rs ==> Fits(r)
    decreases |s|
  {
    match ParseRequest(s)
    case Parsed(r, rest) =>
      ParsedFits(s);
      [r] + ParseAll(rest)
    case _ => []
  }

  lemma {:induction false} SizesOfFit(b: Bytes)
    ensures AllFit(SizesOf(b))
  {
    if |b| >= 4 {
      FromLE32Fits(b[..4]);
      SizesOfFit(b[4..]);
    }
  }

  lemma {:induction false} ParsedPairs(sizes: seq<nat>, s: Bytes)
    requires ParsePairs(sizes, s).Parsed? && |sizes| % 2 == 0
    ensures PairSizes(ParsePairs(sizes, s).value) == sizes && |ParsePairs(sizes, s).rest| <= |s|
  {
    if sizes != [] {
      var kv := Take(s, sizes[0] + sizes[1]);
      ParsedPairs(sizes[2..], kv.rest);
      assert ParsePairs(sizes, s).value[1..] == ParsePairs(sizes[2..], kv.rest).value;
    }
  }

  lemma {:induction false} ParsedKeys(sizes: seq<nat>, s: Bytes)
    requires ParseKeys(sizes, s).Parsed?
    ensures KeySizes(ParseKeys(sizes, s).value) == sizes && |ParseKeys(sizes, s).rest| <= |s|
  {
    if sizes != [] {
      var k := Take(s, sizes[0]);
      ParsedKeys(sizes[1..], k.rest);
      assert ParseKeys(sizes, s).value[1..] == ParseKeys(sizes[1..], k.rest).value;
    }
  }

  lemma ParsedBatchFits(s: Bytes)
    requires ParseBatch(s).Parsed?
    ensures Fits(ParseBatch(s).value) && |ParseBatch(s).rest| <= |s|
  {
    hide LE32, FromLE32, PairSizes, KeySizes, SizesOf, ParsePairs, ParseKeys;
    var counts := Take(s, 8);
    FromLE32Fits(counts.value[..4]);
    FromLE32Fits(counts.value[4..]);
    var n, m := FromLE32(counts.value[..4]), FromLE32(counts.value[4..]);
    var sized := Take(counts.rest, 8 * n + 4 * m);
    var sizes := SizesOf(sized.value);
    SizesOfFit(sized.value);
    ParsedPairs(sizes[..2 * n], sized.rest);
    ParsedKeys(sizes[2 * n..], ParsePairs(sizes[..2 * n], sized.rest).rest);
  }

  /** Whatever parses could have been printed, and took at least one byte. */
  lemma ParsedFits(s: Bytes)
    requires ParseRequest(s).Parsed?
    ensures Fits(ParseRequest(s).value) && |ParseRequest(s).rest| < |s|
  {
    hide LE32, FromLE32, ParseBatch;
    var t := s[1..];
    if s[0] == 4 {
      ParsedBatchFits(t);
    } else if s[0] == 1 {
      FromLE32Fits(t[..8][..4]);
      FromLE32Fits(t[..8][4..]);
    } else {
      FromLE32Fits(t[..4]);
    }
  }

  ghost function EncodeAll(rs: seq<Request>): Bytes
    requires forall r :: r in rs ==> Fits(r)
  {
    if rs == [] then [] else Encode(rs[0]) + EncodeAll(rs[1..])
  }

  /** A stream of printed requests parses to exactly those requests. */
  lemma {:induction false} ParseAllRoundTrip(rs: seq<Request>)
    requires forall r :: r in rs ==> Fits(r)
    ensures ParseAll(EncodeAll(rs)) == rs
  {
    if rs != [] {
      RequestRoundTrip(rs[0], EncodeAll(rs[1..]));
      ParseAllRoundTrip(rs[1..]);
    }
  }

  // -------------------------------------------------------------------------------------------
  // The server
  // -------------------------------------------------------------------------------------------

  class DbManager {
    var db: Store

    constructor (db: Store)
      ensures this.db == db
    {
      this.db := db;
    }

    /** Serves one client until its stream ends or stops making sense. */
    method ServeConn(sock: BufferedSocket, out: BufferedSocket)
      requires SmallValues(db) && sock != out
      modifies this, sock, out
      ensures SmallValues(db)
      ensures var rs := ParseAll(old(sock.Stream()));
              && db == ApplyAll(old(db), rs)
              && out.Stream() == old(out.Stream()) + RepliesOf(old(db), rs)
              && forall k :: LastWrite(old(db), rs, |rs|, k, Lookup(db, k))
    {
      hide ParseRequest, Apply, Reply, SmallValues, Fits, ParseAll, RepliesOf, ApplyAll, LastWrite, Lookup;
      ghost var done, s0 := [], sock.Stream();
      ServedNothing(db);
      while true
        invariant SmallValues(db) && forall r :: r in done ==> Fits(r)
        invariant ParseAll(s0) == done + ParseAll(sock.Stream())
        invariant db == ApplyAll(old(db), done)
        invariant out.Stream() == old(out.Stream()) + RepliesOf(old(db), done)
        decreases |sock.Stream()|
      {
        ghost var s := sock.Stream();
        var served := ServeOne(sock, out);
        ParseAllStep(s);
        if !served {
          assert done + [] == done;
          ConversationTells(old(db), done);
          return;
        }
        ParsedFits(s);
        ghost var r := ParseRequest(s).value;
        ServedOneMore(old(db), done, r);
        assert done + ([r] + ParseAll(sock.Stream())) == (done + [r]) + ParseAll(sock.Stream());
        done := done + [r];
      }
    }

    /** Reads, applies and answers one request; a broken one changes nothing. */
    method ServeOne(sock: BufferedSocket, out: BufferedSocket) returns (served: bool)
      requires SmallValues(db) && sock != out
      modifies this, sock, out
      ensures SmallValues(db)
      ensures served <==> ParseRequest(old(sock.Stream())).Parsed?
      ensures served ==>
                var p := ParseRequest(old(sock.Stream()));
                && db == Apply(old(db), p.value) && sock.Stream() == p.rest
                && out.Stream() == old(out.Stream()) + Reply(old(db), p.value)
      ensures !served ==> db == old(db) && out.Stream() == old(out.Stream())
    {
      hide LE32, FromLE32, ParseKey, ParsePut, ParseBatch, ApplyBatch;
      ghost var s := sock.Stream();
      var ok, op := sock.ReadExactly(1);
      if !ok || op[0] > 4 {
        return false;
      }
      assert op[0] == s[0] && sock.Stream() == s[1..];
      var r: Request;
      if op[0] == 1 {
        ok, r := ReadPut(sock);
      } else if op[0] == 4 {
        ok, r := ReadBatch(sock);
      } else {
        var key;
        ok, key := ReadKey(sock);
        r := if op[0] == 0 then Get(key) else if op[0] == 2 then Delete(key) else Exists(key);
      }
      if !ok {
        return false;
      }
      ParsedFits(s);
      ApplySmall(db, r);
      match r {
        case Get(key) => HandleGet(key, out);
        case Put(key, value) => HandleSet(key, value, out);
        case Delete(key) => HandleDelete(key, out);
        case Exists(key) => HandleExists(key, out);
        case AtomicBatch(sets, deletes) => HandleBatch(sets, deletes, out);
      }
      return true;
    }

    method HandleGet(key: Bytes, out: BufferedSocket)
      requires SmallValues(db)
      modifies out
      ensures out.Stream() == old(out.Stream()) + Reply(db, Get(key))
    {
      hide LE32;
      if key in db {
        var value := db[key];
        out.Deliver([SUCCESS] + LE32(|value|) + value);
      } else {
        out.Deliver([FAIL]);
      }
    }

    method HandleSet(key: Bytes, value: Bytes, out: BufferedSocket)
      requires SmallValues(db)
      modifies this, out
      ensures db == Apply(old(db), Put(key, value))
      ensures out.Stream() == old(out.Stream()) + Reply(old(db), Put(key, value))
    {
      db := db[key := value];
      out.Deliver([SUCCESS]);
    }

    method HandleDelete(key: Bytes, out: BufferedSocket)
      requires SmallValues(db)
      modifies this, out
      ensures db == Apply(old(db), Delete(key)) && out.Stream() == old(out.Stream()) + Reply(old(db), Delete(key))
    {
      if key in db {
        db := db - {key};
        out.Deliver([SUCCESS]);
      } else {
        out.Deliver([FAIL]);
      }
    }

    method HandleExists(key: Bytes, out: BufferedSocket)
      requires SmallValues(db)
      modifies out
      ensures out.Stream() == old(out.Stream()) + Reply(db, Exists(key))
    {
      if key in db {
        out.Deliver([SUCCESS]);
      } else {
        out.Deliver([FAIL]);
      }
    }

    /** Collects the changes pair by pair and key by key, and commits them at once. */
    method HandleBatch(sets: seq<(Bytes, Bytes)>, deletes: seq<Bytes>, out: BufferedSocket)
      requires SmallValues(db)
      modifies this, out
      ensures db == Apply(old(db), AtomicBatch(sets, deletes))
      ensures out.Stream() == old(out.Stream()) + Reply(old(db), AtomicBatch(sets, deletes))
    {
      hide SmallValues;
      var batch := db;
      for i := 0 to |sets|
        invariant batch == ApplySets(db, sets[..i])
      {
        assert sets[..i + 1][..i] == sets[..i];
        batch := batch[sets[i].0 := sets[i].1];
      }
      assert sets[..|sets|] == sets;
      for i := 0 to |deletes|
        invariant batch == ApplyBatch(db, sets, deletes[..i])
      {
        assert deletes[..i + 1] == deletes[..i] + [deletes[i]];
        batch := batch - {deletes[i]};
      }
      assert deletes[..|deletes|] == deletes;
      db := batch;
      out.Deliver([SUCCESS]);
    }

    method ReadKey(sock: BufferedSocket) returns (ok: bool, key: Bytes)
      modifies sock
      ensures var p := ParseKey(old(sock.Stream()));
              ok == p.Parsed? && (ok ==> key == p.value && sock.Stream() == p.rest)
    {
      hide FromLE32;
      var size;
      key := [];
      ok, size := sock.ReadExactly(4);
      if ok {
        ok, key := sock.ReadExactly(FromLE32(size));
      }
    }

    method ReadPut(sock: BufferedSocket) returns (ok: bool, r: Request)
      modifies sock
      ensures var p := ParsePut(old(sock.Stream())); ok == p.Parsed? && (ok ==> r == p.value && sock.Stream() == p.rest)
    {
      hide FromLE32;
      r := Get([]);
      var sizes;
      ok, sizes := sock.ReadExactly(8);
      if !ok {
        return;
      }
      var keySize, valueSize := FromLE32(sizes[..4]), FromLE32(sizes[4..]);
      var kv;
      ok, kv := sock.ReadExactly(keySize + valueSize);
      if ok {
        r := Put(kv[..keySize], kv[keySize..]);
      }
    }

    /** A batch is collected whole before any of it is applied. */
    method ReadBatch(sock: BufferedSocket) returns (ok: bool, r: Request)
      modifies sock
      ensures var p := ParseBatch(old(sock.Stream()));
              ok == p.Parsed? && (ok ==> r == p.value && sock.Stream() == p.rest)
    {
      hide FromLE32, ParsePairs, ParseKeys;
      r := Get([]);
      var counts, sizesData, sets, deletes;
      ok, counts := sock.ReadExactly(8);
      if !ok {
        return;
      }
      var n, m := FromLE32(counts[..4]), FromLE32(counts[4..]);
      ok, sizesData := sock.ReadExactly(8 * n + 4 * m);
      if !ok {
        return;
      }
      var sizes := SizesOf(sizesData);
      ok, sets := ReadPairs(sock, sizes[..2 * n]);
      if !ok {
        return;
      }
      ok, deletes := ReadKeys(sock, sizes[2 * n..]);
      if ok {
        r := AtomicBatch(sets, deletes);
      }
    }

    method ReadPairs(sock: BufferedSocket, sizes: seq<nat>) returns (ok: bool, sets: seq<(Bytes, Bytes)>)
      requires |sizes| % 2 == 0
      modifies sock
      ensures var p := ParsePairs(sizes, old(sock.Stream()));
              ok == p.Parsed? && (ok ==> sets == p.value && sock.Stream() == p.rest)
    {
      sets := [];
      ghost var whole := ParsePairs(sizes, sock.Stream());
      PrependNothing(whole);
      assert sizes[0..] == sizes;
      var i := 0;
      while i < |sizes|
        invariant 0 <= i <= |sizes| && i % 2 == 0
        invariant whole == Prepend(sets, ParsePairs(sizes[i..], sock.Stream()))
      {
        ghost var rest := sizes[i..];
        var got, kv := sock.ReadExactly(sizes[i] + sizes[i + 1]);
        if !got {
          return false, [];
        }
        assert rest[2..] == sizes[i + 2..];
        var pair := (kv[..sizes[i]], kv[sizes[i]..]);
        PrependMore(sets, pair, ParsePairs(sizes[i + 2..], sock.Stream()));
        sets := sets + [pair];
        i := i + 2;
      }
      assert sets + [] == sets;
      ok := true;
    }

    method ReadKeys(sock: BufferedSocket, sizes: seq<nat>) returns (ok: bool, keys: seq<Bytes>)
      modifies sock
      ensures var p := ParseKeys(sizes, old(sock.Stream()));
              ok == p.Parsed? && (ok ==> keys == p.value && sock.Stream() == p.rest)
    {
      keys := [];
      ghost var whole := ParseKeys(sizes, sock.Stream());
      PrependNothing(whole);
      assert sizes[0..] == sizes;
      for i := 0 to |sizes|
        invariant whole == Prepend(keys, ParseKeys(sizes[i..], sock.Stream()))
      {
        ghost var rest := sizes[i..];
        var got, k := sock.ReadExactly(sizes[i]);
        if !got {
          return false, [];
        }
        assert rest[1..] == sizes[i + 1..];
        PrependMore(keys, k, ParseKeys(sizes[i + 1..], sock.Stream()));
        keys := keys + [k];
      }
      assert keys + [] == keys;
      ok := true;
    }
  }

  lemma ParseAllStep(s: Bytes)
    ensures var p := ParseRequest(s);
            ParseAll(s) == if p.Parsed? then [p.value] + ParseAll(p.rest) else []
  {
  }

  lemma ServedNothing(db: Store)
    requires SmallValues(db)
    ensures ApplyAll(db, []) == db && RepliesOf(db, []) == []
  {
  }

  lemma {:induction false} ServedOneMore(db: Store, done: seq<Request>, r: Request)
    requires SmallValues(db) && Fits(r) && forall q :: q in done ==> Fits(q)
    ensures ApplyAll(db, done + [r]) == Apply(ApplyAll(db, done), r)
    ensures SmallValues(ApplyAll(db, done))
    ensures RepliesOf(db, done + [r]) == RepliesOf(db, done) + Reply(ApplyAll(db, done), r)
    decreases |done|
  {
    hide Reply, Apply, SmallValues, Fits;
    if done == [] {
      assert done + [r] == [r];
      ApplySmall(db, r);
    } else {
      ApplySmall(db, done[0]);
      ServedOneMore(Apply(db, done[0]), done[1..], r);
      assert (done + [r])[1..] == done[1..] + [r];
    }
  }

  // -------------------------------------------------------------------------------------------
  // The client, in step with the server
  // -------------------------------------------------------------------------------------------

  method ReadAnswer(sock: BufferedSocket, r: Request) returns (a: Answer)
    modifies sock
    ensures var p := ParseAnswer(r, old(sock.Stream()));
            if p.Parsed? then a == p.value && sock.Stream() == p.rest else a == Closed
  {
    hide FromLE32;
    var ok, result := sock.ReadExactly(1);
    if !ok {
      return Closed;
    }
    if result[0] > 1 {
      return Garbled;
    }
    match r
    case Get(_) =>
      if result[0] == 0 {
        return MissingKey;
      }
      var size, value;
      ok, size := sock.ReadExactly(4);
      if ok {
        ok, value := sock.ReadExactly(FromLE32(size));
      }
      return if ok then Value(value) else Closed;
    case Delete(_) => return if result[0] == 1 then Done else MissingKey;
    case Exists(_) => return Found(result[0] == 1);
    case _ => return Done;
  }

  /** One client operation: send the request, let the server work, read the answer. */
  method Call(server: DbManager, toServer: BufferedSocket, toClient: BufferedSocket, r: Request) returns (a: Answer)
    requires Fits(r) && SmallValues(server.db) && toServer != toClient
    requires toServer.Stream() == [] && toClient.Stream() == []
    modifies server, toServer, toClient
    ensures a == AnswerOf(old(server.db), r) && server.db == Apply(old(server.db), r)
    ensures SmallValues(server.db) && toServer.Stream() == [] && toClient.Stream() == []
  {
    hide ParseRequest, ParseAnswer, Encode, Reply, Apply, AnswerOf, SmallValues, Fits;
    toServer.Deliver(Encode(r));
    RequestRoundTrip(r, []);
    assert Encode(r) + [] == Encode(r) && [] + Encode(r) == Encode(r);
    var served := server.ServeOne(toServer, toClient);
    AnswerRoundTrip(old(server.db), r, []);
    assert toClient.Stream() == Reply(old(server.db), r) + [];
    a := ReadAnswer(toClient, r);
  }

  /** Every conversation is the same operations on a plain map. */
  method Converse(server: DbManager, toServer: BufferedSocket, toClient: BufferedSocket, rs: seq<Request>)
    returns (answers: seq<Answer>)
    requires (forall r :: r in rs ==> Fits(r)) && SmallValues(server.db) && toServer != toClient
    requires toServer.Stream() == [] && toClient.Stream() == []
    modifies server, toServer, toClient
    ensures |answers| == |rs| && forall i :: 0 <= i < |rs| ==> Answered(old(server.db), rs, i, answers[i])
    ensures forall k :: LastWrite(old(server.db), rs, |rs|, k, Lookup(server.db, k))
    ensures answers == AnswersOf(old(server.db), rs) && server.db == ApplyAll(old(server.db), rs)
    ensures toServer.Stream() == [] && toClient.Stream() == []
  {
    hide Apply, AnswerOf, SmallValues, Fits, LastWrite, Lookup, Answered;
    answers := [];
    assert rs[0..] == rs;
    for i := 0 to |rs|
      invariant SmallValues(server.db) && toServer.Stream() == [] && toClient.Stream() == []
      invariant ApplyAll(server.db, rs[i..]) == ApplyAll(old(server.db), rs)
      invariant answers + AnswersOf(server.db, rs[i..]) == AnswersOf(old(server.db), rs)
    {
      assert rs[i..][1..] == rs[i + 1..];
      var a := Call(server, toServer, toClient, rs[i]);
      answers := answers + [a];
    }
    assert answers == AnswersOf(old(server.db), rs);
    ConversationTells(old(server.db), rs);
  }

  lemma ConversationTells(db: Store, rs: seq<Request>)
    ensures |AnswersOf(db, rs)| == |rs| && forall i :: 0 <= i < |rs| ==> Answered(db, rs, i, AnswersOf(db, rs)[i])
    ensures forall k :: LastWrite(db, rs, |rs|, k, Lookup(ApplyAll(db, rs), k))
  {
    hide ApplyAll, LastWrite, Lookup, Answered, AnswerOf;
    if rs != [] {
      AnswersAt(db, rs, 0);
    }
    forall i | 0 <= i < |rs|
      ensures Answered(db, rs, i, AnswersOf(db, rs)[i])
    {
      AnswersAt(db, rs, i);
      AnswerTells(db, rs, i);
    }
    forall k
      ensures LastWrite(db, rs, |rs|, k, Lookup(ApplyAll(db, rs), k))
    {
      HistoryTells(db, rs, |rs|, k);
      assert rs[..|rs|] == rs;
    }
  }
}
