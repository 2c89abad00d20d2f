/** Reading preimages through the oracle file descriptors: the key window that writes fill, and the
    stream of length prefix and data that reads deliver, through a one-entry cache
    (cannon/mipsevm/mips.go and mips_syscalls.go). */
module Preimages {
  import opened Words
  import opened Merkle

  type Oracle = Bytes32 -> seq<byte>

  /** A write or read reaches at most to the end of the aligned word it starts in. */
  type WordBytes = b: seq<byte> | |b| <= 4
  type Alignment = x: int | 0 <= x < 4

  /** What the guest reads for a key: the length on eight bytes, then the data. */
  function Preimage(oracle: Oracle, key: Bytes32): (p: seq<byte>)
    ensures |p| == 8 + |oracle(key)|
  {
    PutBE(|oracle(key)| % 0x1_0000_0000_0000_0000, 8) + oracle(key)
  }

  /** The first eight bytes decode to the length, and the rest is the data. */
  lemma PreimageContents(oracle: Oracle, key: Bytes32)
    ensures var p, data := Preimage(oracle, key), oracle(key);
            && p[8..] == data
            && (|data| < 0x1_0000_0000_0000_0000 ==> GetBE(p[..8]) == |data|)
  {
    hide PutBE, GetBE;
    var p, data := Preimage(oracle, key), oracle(key);
    Pow256Of8();
    assert p[..8] == PutBE(|data| % 0x1_0000_0000_0000_0000, 8) && p[8..] == data;
    if |data| < 0x1_0000_0000_0000_0000 {
      GetPut(|data|, 8);
    }
  }

  /** The last preimage fetched. A new VM has an empty entry under the zero key. */
  datatype Cache = Cache(key: Bytes32, data: seq<byte>)

  const FRESH: Cache := Cache(ZERO32, [])

  function Fetch(oracle: Oracle, cache: Cache, key: Bytes32): Cache {
    if key != cache.key then Cache(key, Preimage(oracle, key)) else cache
  }

  function Min(x: int, y: int): int {
    if x < y then x else y
  }

  /** Up to 32 bytes from `offset` on, or None where slicing the preimage would panic. */
  function ReadPreimage(oracle: Oracle, cache: Cache, key: Bytes32, offset: nat): (dat: Option<seq<byte>>)
    ensures dat.Some? ==> |dat.value| <= 32
  {
    var p := Fetch(oracle, cache, key).data;
    if offset > |p| then None else Some(p[offset..Min(offset + 32, |p|)])
  }

  /** How many bytes a read at the given alignment and count delivers. */
  function ReadLength(available: nat, alignment: Alignment, count: nat): (n: nat)
    ensures n <= available && n <= 4 - alignment && n <= count
  {
    Min(Min(available, 4 - alignment), count)
  }

  /** The bytes of the word at a read's address, overwritten from the alignment on. */
  function Overwrite(word: seq<byte>, alignment: nat, dat: seq<byte>): (out: seq<byte>)
    requires |word| == 4 && alignment + |dat| <= 4
    ensures |out| == 4
  {
    word[..alignment] + dat + word[alignment + |dat|..]
  }

  // ----- the key window -----

  /** A write shifts its bytes, at most four, into the low end of the key. */
  function ShiftKey(key: Bytes32, bytes: WordBytes): Bytes32 {
    key[|bytes|..] + bytes
  }

  function ShiftKeys(key: Bytes32, writes: seq<WordBytes>): Bytes32
    decreases |writes|
  {
    if writes == [] then key else ShiftKeys(ShiftKey(key, writes[0]), writes[1..])
  }

  function Flatten(writes: seq<WordBytes>): seq<byte> {
    if writes == [] then []
    else
      var w: seq<byte> := writes[0];
      w + Flatten(writes[1..])
  }

  /** Whatever the sizes of the writes, the key is the last 32 bytes written. */
  lemma {:induction false} KeyIsLastBytesWritten(key: Bytes32, writes: seq<WordBytes>)
    ensures ShiftKeys(key, writes) == (key + Flatten(writes))[|Flatten(writes)|..]
    decreases |writes|
  {
    if writes == [] {
      assert key + [] == key;
    } else {
      var w, tail := writes[0], Flatten(writes[1..]);
      KeyIsLastBytesWritten(ShiftKey(key, w), writes[1..]);
      var k: seq<byte> := key;
      assert (k[|w|..] + w) + tail == (k + (w + tail))[|w|..];
      assert (k + (w + tail))[|w|..][|tail|..] == (k + (w + tail))[|w| + |tail|..];
    }
  }

  // ----- whole sessions -----

  datatype Op = KeyWrite(bytes: WordBytes) | Read(alignment: Alignment, count: nat)

  /** Key, offset and cache of the VM, and the bytes delivered since the key was last written. */
  datatype Session = Session(key: Bytes32, offset: nat, cache: Cache, delivered: seq<byte>)

  function Apply(oracle: Oracle, s: Session, op: Op): Option<Session> {
    match op
    case KeyWrite(bytes) => Some(Session(ShiftKey(s.key, bytes), 0, s.cache, []))
    case Read(alignment, count) =>
      match ReadPreimage(oracle, s.cache, s.key, s.offset)
      case None => None
      case Some(dat) =>
        var n := ReadLength(|dat|, alignment, count);
        Some(Session(s.key, Wrap32(s.offset + n), Fetch(oracle, s.cache, s.key), s.delivered + dat[..n]))
  }

  function Run(oracle: Oracle, s: Session, ops: seq<Op>): Option<Session>
    decreases |ops|
  {
    if ops == [] then Some(s)
    else
      match Apply(oracle, s, ops[0])
      case None => None
      case Some(s') => Run(oracle, s', ops[1..])
  }

  /** Reading the zero key through an entry that was never filled. */
  predicate UnfetchedZero(s: Session, op: Op) {
    op.Read? && s.key == ZERO32 && s.cache == FRESH && (op.count > 0 || s.offset > 0)
  }

  /** How many bytes a read gets to deliver of the preimage of the current key. */
  function Wanted(oracle: Oracle, s: Session, op: Op): (n: nat)
    requires op.Read? && s.offset <= |Preimage(oracle, s.key)|
    ensures s.offset + n <= |Preimage(oracle, s.key)|
  {
    ReadLength(Min(32, |Preimage(oracle, s.key)| - s.offset), op.alignment, op.count)
  }

  /** Not a read through an entry that was never filled, nor one that takes the offset beyond 32 bits. */
  predicate Harmless(oracle: Oracle, s: Session, op: Op) {
    op.Read? && s.offset <= |Preimage(oracle, s.key)| ==>
      !UnfetchedZero(s, op) && s.offset + Wanted(oracle, s, op) < 0x1_0000_0000
  }

  predicate AllHarmless(oracle: Oracle, s: Session, ops: seq<Op>)
    decreases |ops|
  {
    ops == [] ||
    (Harmless(oracle, s, ops[0]) &&
     match Apply(oracle, s, ops[0])
     case None => true
     case Some(s') => AllHarmless(oracle, s', ops[1..]))
  }

  /** The cache holds what the oracle says, and the bytes delivered are the prefix up to the offset. */
  ghost predicate Faithful(oracle: Oracle, s: Session) {
    && (s.cache == FRESH || s.cache.data == Preimage(oracle, s.cache.key))
    && s.offset <= |Preimage(oracle, s.key)|
    && s.delivered == Preimage(oracle, s.key)[..s.offset]
  }

  lemma SliceJoin(p: seq<byte>, i: nat, j: nat, n: nat)
    requires i <= j <= |p| && n <= j - i
    ensures p[..i] + p[i..i + n] == p[..i + n]
  {
  }

  /** A read through a filled entry delivers the next bytes, and moves the offset on 32 bits. */
  lemma ReadDelivers(oracle: Oracle, s: Session, op: Op)
    requires op.Read? && Faithful(oracle, s)
    requires Fetch(oracle, s.cache, s.key).data == Preimage(oracle, s.key)
    ensures var p, n := Preimage(oracle, s.key), Wanted(oracle, s, op);
            Apply(oracle, s, op) == Some(Session(s.key, Wrap32(s.offset + n), Fetch(oracle, s.cache, s.key), p[..s.offset + n]))
  {
    hide PutBE;
    var p, n := Preimage(oracle, s.key), Wanted(oracle, s, op);
    assert p[s.offset..Min(s.offset + 32, |p|)][..n] == p[s.offset..s.offset + n];
    SliceJoin(p, s.offset, |p|, n);
  }

  /** A read is right exactly if it is harmless: it delivers the next bytes and the offset says how many there are.
      Otherwise it delivers nothing although every preimage is at least eight bytes long, or its slice is out of
      range, or the offset has wrapped around. */
  lemma FaithfulReadExactly(oracle: Oracle, s: Session, op: Op)
    requires op.Read? && Faithful(oracle, s)
    ensures var p, r, n := Preimage(oracle, s.key), Apply(oracle, s, op), Wanted(oracle, s, op);
            Harmless(oracle, s, op) <==> r.Some? && r.value.delivered == p[..s.offset + n] && r.value.offset == s.offset + n
    ensures Harmless(oracle, s, op) ==> Faithful(oracle, Apply(oracle, s, op).value)
  {
    hide PutBE;
    if s.key == s.cache.key && s.cache == FRESH {
      assert Fetch(oracle, s.cache, s.key) == FRESH;
      if s.offset == 0 {
        assert ReadPreimage(oracle, s.cache, s.key, 0) == Some([]);
      }
    } else {
      ReadDelivers(oracle, s, op);
    }
  }

  /** In every session, the slice of the preimage is in range, and what the reads since the last key write
      delivered is the beginning of the preimage of the current key, as long as the offset says. */
  lemma {:induction false} SessionsAreFaithful(oracle: Oracle, s: Session, ops: seq<Op>)
    requires Faithful(oracle, s) && AllHarmless(oracle, s, ops)
    ensures Run(oracle, s, ops).Some? && Faithful(oracle, Run(oracle, s, ops).value)
    decreases |ops|
  {
    hide Harmless, Preimage;
    if ops != [] {
      var op := ops[0];
      if op.Read? {
        FaithfulReadExactly(oracle, s, op);
      } else {
        assert Preimage(oracle, ShiftKey(s.key, op.bytes))[..0] == [];
      }
      SessionsAreFaithful(oracle, Apply(oracle, s, op).value, ops[1..]);
    }
  }

  /** So a guest that went on reading to the end of a session has the length and all of the oracle's data for the key. */
  lemma ReadToTheEnd(oracle: Oracle, s: Session, ops: seq<Op>)
    requires Faithful(oracle, s) && AllHarmless(oracle, s, ops)
    ensures var s' := Run(oracle, s, ops);
            s'.Some? && (s'.value.offset == 8 + |oracle(s'.value.key)| ==>
              && |s'.value.delivered| >= 8 && s'.value.delivered[8..] == oracle(s'.value.key)
              && (|oracle(s'.value.key)| < 0x1_0000_0000_0000_0000 ==> GetBE(s'.value.delivered[..8]) == |oracle(s'.value.key)|))
  {
    hide Preimage, AllHarmless;
    SessionsAreFaithful(oracle, s, ops);
    var s' := Run(oracle, s, ops).value;
    PreimageContents(oracle, s'.key);
    var p := Preimage(oracle, s'.key);
    assert s'.offset == |p| ==> p[..s'.offset] == p;
  }

  /** A harmless read that asks for something, before the end, makes progress. */
  lemma ReadProgress(oracle: Oracle, s: Session, op: Op)
    requires op.Read? && op.count > 0
    requires Faithful(oracle, s) && Harmless(oracle, s, op) && s.offset < |Preimage(oracle, s.key)|
    ensures Apply(oracle, s, op).Some? && s.offset < Apply(oracle, s, op).value.offset
  {
    hide PutBE;
    FaithfulReadExactly(oracle, s, op);
  }
}
