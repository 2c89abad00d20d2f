/** Input commitments of the alt-DA mode and the key that identifies a challenge against one
    (op-plasma/commitment.go, op-plasma/dastate.go). */
module Commitments {
  import opened Words
  import opened Merkle
  import opened Text

  datatype CommitmentType = Keccak256Type | GenericType

  datatype CommitmentData = Keccak(hash: Bytes32) | Generic(bytes: seq<byte>) {
    function Type(): CommitmentType {
      if Keccak? then Keccak256Type else GenericType
    }

    /** A type byte, then the commitment. */
    function Encode(): seq<byte> {
      if Keccak? then Tagged(0, hash) else Tagged(1, bytes)
    }

    /** Generic commitments are verified by the storage server only. */
    predicate Verify(K: Hasher, input: seq<byte>) {
      Keccak? ==> hash == K(input)
    }
  }

  function Tagged(tag: byte, b: seq<byte>): seq<byte> {
    [tag] + b
  }

  function Decode(input: seq<byte>): Option<CommitmentData> {
    if input == [] then None
    else if input[0] == 0 then
      if |input| == 33 then Some(Keccak(input[1..])) else None
    else if input[0] == 1 then
      if |input| > 1 then Some(Generic(input[1..])) else None
    else None
  }

  /** Decoding inverts encoding, and only encodings decode. The one commitment that is not decoded back is the
      empty generic one. */
  lemma DecodeEncode(c: CommitmentData, input: seq<byte>)
    ensures Decode(c.Encode()) == Some(c) <==> c != Generic([])
    ensures Decode(input).Some? ==> Decode(input).value.Encode() == input
  {
    if c.Keccak? {
      assert c.Encode()[1..] == c.hash;
    } else {
      assert c.Encode()[1..] == c.bytes;
    }
    if Decode(input).Some? {
      assert input == [input[0]] + input[1..];
    }
  }

  /** The bytes themselves: type 0 and the 32-byte hash, or type 1 and the rest. */
  lemma EncodingBytes(c: CommitmentData)
    ensures c.Keccak? ==> |c.Encode()| == 33 && c.Encode()[0] == 0 && c.Encode()[1..] == c.hash
    ensures c.Generic? ==> |c.Encode()| == 1 + |c.bytes| && c.Encode()[0] == 1 && c.Encode()[1..] == c.bytes
  {
  }

  // ----- challenge keys -----

  /** Block number in decimal, then the encoded commitment in hex, with nothing in between. */
  function ChallengeKey(c: CommitmentData, block: nat): string {
    Decimal(block) + Hex(c.Encode())
  }

  /** Exactly when two challenges share a key, `c` being the one with the longer encoding: it ends in the other
      encoding, and the bytes before that, in hex, continue its block number to that of the other. */
  lemma KeysEqualIff(c: CommitmentData, m: nat, d: CommitmentData, n: nat)
    requires |c.Encode()| >= |d.Encode()|
    ensures var j := |c.Encode()| - |d.Encode()|;
            ChallengeKey(c, m) == ChallengeKey(d, n) <==>
            c.Encode()[j..] == d.Encode() && Decimal(n) == Decimal(m) + Hex(c.Encode()[..j])
  {
    hide Decimal, Hex;
    var x, y := c.Encode(), d.Encode();
    var j := |x| - |y|;
    assert x == x[..j] + x[j..];
    HexSplit(x[..j], x[j..]);
    var head := Decimal(m) + Hex(x[..j]);
    assert ChallengeKey(c, m) == head + Hex(x[j..]);
    if head + Hex(x[j..]) == Decimal(n) + Hex(y) {
      SameTail(head, Hex(x[j..]), Decimal(n), Hex(y));
      HexInjective(x[j..], y);
    }
  }

  lemma SameTail(a: string, b: string, c: string, d: string)
    requires a + b == c + d && |b| == |d|
    ensures a == c && b == d
  {
    assert a == (a + b)[..|a|] && c == (c + d)[..|a|];
    assert b == (a + b)[|a|..] && d == (c + d)[|a|..];
  }

  lemma EncodeInjective(c: CommitmentData, d: CommitmentData)
    requires c.Encode() == d.Encode()
    ensures c == d
  {
    assert c.Encode()[0] == d.Encode()[0] && c.Encode()[1..] == d.Encode()[1..];
  }

  /** Commitments whose encodings are equally long, as all Keccak commitments are, share a key only if they and
      their blocks are equal. */
  lemma KeyInjective(c: CommitmentData, m: nat, d: CommitmentData, n: nat)
    requires ChallengeKey(c, m) == ChallengeKey(d, n) && |c.Encode()| == |d.Encode()|
    ensures c == d && m == n
  {
    hide Decimal;
    KeysEqualIff(c, m, d, n);
    assert c.Encode()[0..] == c.Encode() && Decimal(m) + Hex([]) == Decimal(m);
    DecimalInjective(m, n);
    EncodeInjective(c, d);
  }

  lemma KeccakKeyInjective(c: CommitmentData, m: nat, d: CommitmentData, n: nat)
    requires c.Keccak? && d.Keccak?
    ensures ChallengeKey(c, m) == ChallengeKey(d, n) <==> c == d && m == n
  {
    if ChallengeKey(c, m) == ChallengeKey(d, n) {
      KeyInjective(c, m, d, n);
    }
  }

  /** Encodings of different lengths can share a key, because nothing separates the two parts. */
  lemma GenericKeysCollide()
    ensures ChallengeKey(Generic([1, 0xAA]), 1) == ChallengeKey(Generic([0xAA]), 101)
  {
    var c, d := Generic([1, 0xAA]), Generic([0xAA]);
    assert c.Encode() == [1, 1, 0xAA] && d.Encode() == [1, 0xAA];
    assert c.Encode()[1..] == d.Encode() && c.Encode()[..1] == [1];
    assert Decimal(10) == "10";
    HexStep(1, []);
    assert [1] + [] == [1];
    assert Decimal(1) + Hex([1]) == "101";
    KeysEqualIff(c, 1, d, 101);
  }
}
