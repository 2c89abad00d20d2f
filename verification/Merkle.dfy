/** Binary Merkle trees over a byte string cut into 32-byte leaves.
    Keccak-256 enters only as an arbitrary function from byte strings to 32-byte strings. */
module Merkle {
  import opened Words
  import opened Arithmetic

  const ZERO32: seq<byte> :=
    [0, 0, 0, 0, 0, 0, 0, 0, 0, 0, 0, 0, 0, 0, 0, 0, 0, 0, 0, 0, 0, 0, 0, 0, 0, 0, 0, 0, 0, 0, 0, 0]

  type Bytes32 = s: seq<byte> | |s| == 32 witness ZERO32

  type Hasher = seq<byte> -> Bytes32

  function HashPair(K: Hasher, left: Bytes32, right: Bytes32): Bytes32 {
    K(left + right)
  }

  /** Number of bytes below a node of height `h`. */
  function Span(h: nat): (n: int)
    ensures n >= 32
  {
    if h == 0 then 32 else 2 * Span(h - 1)
  }

  /** The hash of a whole byte string, without any cache: halves are hashed and paired. */
  function TreeHash(K: Hasher, b: seq<byte>, h: nat): Bytes32
    requires |b| == Span(h)
  {
    if h == 0 then b
    else
      HashPair(K, TreeHash(K, b[..Span(h - 1)], h - 1), TreeHash(K, b[Span(h - 1)..], h - 1))
  }

  /** A leaf is its 32 bytes; a node is the hash of its left child's hash followed by its right child's. */
  lemma TreeHashIs(K: Hasher, b: seq<byte>, h: nat)
    requires |b| == Span(h)
    ensures h == 0 ==> |b| == 32 && TreeHash(K, b, h) == b
    ensures h > 0 ==>
              var half := |b| / 2;
              half == Span(h - 1) && TreeHash(K, b, h) == K(TreeHash(K, b[..half], h - 1) + TreeHash(K, b[half..], h - 1))
  {
  }

  function Zeros(n: nat): (z: seq<byte>)
    ensures |z| == n
    ensures forall i :: 0 <= i < n ==> z[i] == 0
  {
    seq(n, _ => 0)
  }

  /** The hash of a subtree of height `h` that is all zero. */
  function ZeroHash(K: Hasher, h: nat): Bytes32 {
    TreeHash(K, Zeros(Span(h)), h)
  }

  /** zeroHashes is filled by pairing each entry with itself; every entry is the hash
      of an all-zero byte string of that height. */
  method ZeroHashes(K: Hasher) returns (out: seq<Bytes32>)
    ensures |out| == 256
    ensures forall h :: 0 <= h < 256 ==> out[h] == ZeroHash(K, h)
  {
    assert ZERO32 == Zeros(Span(0));
    out := [ZERO32];
    for i := 1 to 256
      invariant |out| == i
      invariant forall h :: 0 <= h < i ==> out[h] == ZeroHash(K, h)
    {
      ghost var z := Zeros(Span(i));
      assert z[..Span(i - 1)] == Zeros(Span(i - 1)) && z[Span(i - 1)..] == Zeros(Span(i - 1));
      out := out + [HashPair(K, out[i - 1], out[i - 1])];
    }
  }

  // ----- generalized indices -----

  /** Node `g` has height `h` in a tree of height `H`. The root is node 1. */
  predicate NodeAt(H: nat, g: int, h: int) {
    0 <= h <= H && Pow2(H - h) <= g < 2 * Pow2(H - h)
  }

  lemma LenPositive(g: nat)
    ensures BitLen(g) > 0 <==> g > 0
  {
  }

  lemma Pow2Next(n: nat)
    ensures Pow2(n + 1) == 2 * Pow2(n)
  {
  }

  /** The height of a node is read off its bit length. */
  lemma HeightIsBitLen(H: nat, g: nat, h: nat)
    requires g > 0
    ensures NodeAt(H, g, h) <==> h == H + 1 - BitLen(g)
  {
    LenPositive(g);
    hide Pow2, BitLen;
    BitLenBounds(g);
    var l := BitLen(g) - 1;
    Pow2Next(l);
    if 0 <= h <= H {
      Pow2Next(H - h);
    }
    if NodeAt(H, g, h) {
      if l < H - h { Pow2Monotone(l + 1, H - h); }
      if l > H - h { Pow2Monotone(H - h + 1, l); }
    }
  }

  /** `g` is `k` or one of the nodes reached from `k` by halving, the root included. */
  predicate OnPath(k: nat, g: nat) {
    k > 0 && (g == k || OnPath(k / 2, g))
  }

  lemma {:induction false} OnPathBounds(k: nat, g: nat)
    requires OnPath(k, g)
    ensures 1 <= g <= k
  {
    if g != k {
      OnPathBounds(k / 2, g);
    }
  }

  lemma PathBounds(k: nat)
    ensures forall g: nat :: OnPath(k, g) ==> 1 <= g <= k
  {
    forall g: nat | OnPath(k, g) ensures 1 <= g <= k {
      OnPathBounds(k, g);
    }
  }

  /** A path that goes through `g` goes through one of its children, unless it starts at `g`. */
  lemma {:induction false} PathThroughChild(k: nat, g: nat)
    requires OnPath(k, g) && k != g
    ensures OnPath(k, 2 * g) || OnPath(k, 2 * g + 1)
  {
    if k / 2 == g {
    } else {
      PathThroughChild(k / 2, g);
    }
  }

  /** Offset of the first byte below node `g`. */
  function NodeLo(H: nat, g: int, h: int): int
    requires NodeAt(H, g, h)
  {
    (g - Pow2(H - h)) * Span(h)
  }

  lemma {:induction false} SpanSplit(H: nat, h: nat)
    requires h <= H
    ensures Span(H) == Pow2(H - h) * Span(h)
  {
    if h < H {
      SpanSplit(H - 1, h);
      assert Pow2(H - h) == 2 * Pow2(H - 1 - h);
    }
  }

  lemma NodeFits(H: nat, g: int, h: int)
    requires NodeAt(H, g, h)
    ensures 0 <= NodeLo(H, g, h) && NodeLo(H, g, h) + Span(h) <= Span(H)
  {
    SpanSplit(H, h);
    var i := g - Pow2(H - h);
    MulMonotone(0, i, Span(h));
    MulMonotone(i + 1, Pow2(H - h), Span(h));
    assert (i + 1) * Span(h) == i * Span(h) + Span(h);
  }

  /** The bytes below node `g`. */
  function NodeSlice(b: seq<byte>, H: nat, g: int, h: int): (s: seq<byte>)
    requires |b| == Span(H) && NodeAt(H, g, h)
    ensures |s| == Span(h)
  {
    NodeFits(H, g, h);
    b[NodeLo(H, g, h)..NodeLo(H, g, h) + Span(h)]
  }

  /** The hash every cache is supposed to hold for node `g`. */
  function NodeHash(K: Hasher, b: seq<byte>, H: nat, g: int, h: int): Bytes32
    requires |b| == Span(H) && NodeAt(H, g, h)
  {
    TreeHash(K, NodeSlice(b, H, g, h), h)
  }

  lemma NodeChildren(H: nat, g: int, h: int)
    requires NodeAt(H, g, h) && h > 0
    ensures NodeAt(H, 2 * g, h - 1) && NodeAt(H, 2 * g + 1, h - 1)
    ensures NodeLo(H, 2 * g, h - 1) == NodeLo(H, g, h)
    ensures NodeLo(H, 2 * g + 1, h - 1) == NodeLo(H, g, h) + Span(h - 1)
  {
    assert Pow2(H - (h - 1)) == 2 * Pow2(H - h);
    var i, s := g - Pow2(H - h), Span(h - 1);
    assert (2 * i) * s == i * (2 * s);
    assert (2 * i + 1) * s == (2 * i) * s + s;
  }

  lemma NodeHashStep(K: Hasher, b: seq<byte>, H: nat, g: int, h: int)
    requires |b| == Span(H) && NodeAt(H, g, h) && h > 0
    ensures NodeAt(H, 2 * g, h - 1) && NodeAt(H, 2 * g + 1, h - 1)
    ensures NodeHash(K, b, H, g, h)
         == HashPair(K, NodeHash(K, b, H, 2 * g, h - 1), NodeHash(K, b, H, 2 * g + 1, h - 1))
  {
    NodeChildren(H, g, h);
    NodeFits(H, g, h);
    var s, lo := NodeSlice(b, H, g, h), NodeLo(H, g, h);
    SliceOfSlice(b, lo, lo + Span(h), 0, Span(h - 1));
    SliceOfSlice(b, lo, lo + Span(h), Span(h - 1), Span(h));
    assert s[..Span(h - 1)] == NodeSlice(b, H, 2 * g, h - 1);
    assert s[Span(h - 1)..] == NodeSlice(b, H, 2 * g + 1, h - 1);
  }

  /** The hash of node `g`, its height read off its bit length. */
  function Node(K: Hasher, b: seq<byte>, H: nat, g: nat): Bytes32
    requires |b| == Span(H) && 1 <= g && BitLen(g) <= H + 1
  {
    HeightIsBitLen(H, g, H + 1 - BitLen(g));
    NodeHash(K, b, H, g, H + 1 - BitLen(g))
  }

  lemma NodeStep(K: Hasher, b: seq<byte>, H: nat, g: nat)
    requires |b| == Span(H) && 1 <= g && BitLen(g) <= H
    ensures BitLen(2 * g) == BitLen(2 * g + 1) == BitLen(g) + 1
    ensures Node(K, b, H, g) == HashPair(K, Node(K, b, H, 2 * g), Node(K, b, H, 2 * g + 1))
  {
    hide TreeHash, Pow2, Span, NodeHash;
    HeightIsBitLen(H, g, H + 1 - BitLen(g));
    NodeHashStep(K, b, H, g, H + 1 - BitLen(g));
    HeightIsBitLen(H, 2 * g, H - BitLen(g));
    HeightIsBitLen(H, 2 * g + 1, H - BitLen(g));
  }

  lemma SliceOfSlice(s: seq<byte>, i: int, j: int, u: int, v: int)
    requires 0 <= i <= j <= |s| && 0 <= u <= v <= j - i
    ensures s[i..j][u..v] == s[i + u..i + v]
  {
    var t, w := s[i..j][u..v], s[i + u..i + v];
    assert |t| == |w| && forall x :: 0 <= x < |t| ==> t[x] == w[x];
  }

  /** Index, among the subtrees of height `P`, of the one node `g` is in, `d` levels below its root. */
  function SubtreeOf(H: nat, P: nat, g: nat, d: nat): int
    requires P <= H
  {
    g / Pow2(d) - Pow2(H - P)
  }

  function IndexInSubtree(g: nat, d: nat): nat {
    Pow2(d) + g % Pow2(d)
  }

  lemma DivideByPower(g: nat, n: nat, p: nat)
    requires p > 0 && n * p <= g < 2 * (n * p)
    ensures n <= g / p < 2 * n
  {
    QuotientBound(g, p, 2 * n);
    MulDivLower(g, p, n);
  }

  lemma WhichSubtree(H: nat, P: nat, g: nat, d: nat)
    requires d <= P <= H && BitLen(g) == H - P + 1 + d
    ensures 0 <= SubtreeOf(H, P, g, d) < Pow2(H - P)
  {
    hide Pow2, BitLen;
    LenPositive(g);
    BitLenBounds(g);
    Pow2Next(H - P + d);
    Pow2Sum(H - P, d);
    DivideByPower(g, Pow2(H - P), Pow2(d));
  }

  lemma WithinSubtree(P: nat, g: nat, d: nat)
    requires d <= P
    ensures NodeAt(P, IndexInSubtree(g, d), P - d) && BitLen(IndexInSubtree(g, d)) == d + 1
  {
    hide Pow2, BitLen;
    assert P - (P - d) == d;
    HeightIsBitLen(P, IndexInSubtree(g, d), P - d);
  }

  lemma SubtreeBounds(H: nat, P: nat, g: nat, d: nat)
    requires d <= P <= H && BitLen(g) == H - P + 1 + d
    ensures 0 <= SubtreeOf(H, P, g, d) < Pow2(H - P)
    ensures NodeAt(P, IndexInSubtree(g, d), P - d)
    ensures BitLen(IndexInSubtree(g, d)) == d + 1
  {
    hide SubtreeOf, IndexInSubtree, Pow2, BitLen, NodeAt;
    WhichSubtree(H, P, g, d);
    WithinSubtree(P, g, d);
  }

  lemma SubtreeFits(H: nat, P: nat, k: nat)
    requires P <= H && k < Pow2(H - P)
    ensures 0 <= k * Span(P) && k * Span(P) + Span(P) <= Span(H)
  {
    SpanSplit(H, P);
    MulMonotone(0, k, Span(P));
    MulMonotone(k + 1, Pow2(H - P), Span(P));
    assert (k + 1) * Span(P) == k * Span(P) + Span(P);
  }

  lemma OffsetAlgebra(g: int, n: int, p: int, s: int, k: int, r: int)
    requires g == (n + k) * p + r
    ensures (g - n * p) * s == k * (p * s) + r * s
  {
    assert g - n * p == k * p + r;
    assert (k * p + r) * s == (k * p) * s + r * s;
  }

  lemma SubtreeLo(H: nat, P: nat, g: nat, d: nat)
    requires d <= P <= H && BitLen(g) == H - P + 1 + d
    ensures NodeAt(H, g, P - d) && NodeAt(P, IndexInSubtree(g, d), P - d)
    ensures NodeLo(H, g, P - d)
         == SubtreeOf(H, P, g, d) * Span(P) + NodeLo(P, IndexInSubtree(g, d), P - d)
  {
    hide Pow2, BitLen, Span;
    var p, h, n := Pow2(d), P - d, Pow2(H - P);
    SubtreeBounds(H, P, g, d);
    HeightIsBitLen(H, g, h);
    Pow2Sum(H - P, d);
    assert H - h == H - P + d && P - h == d;
    SpanSplit(P, h);
    var k, r, s := SubtreeOf(H, P, g, d), g % p, Span(h);
    assert NodeLo(H, g, h) == (g - n * p) * s;
    assert NodeLo(P, IndexInSubtree(g, d), h) == r * s;
    DivMod(g, p, n + k);
    OffsetAlgebra(g, n, p, s, k, r);
  }

  /** A node inside a subtree is a node of the tree over the bytes of that subtree alone. */
  lemma SubtreeNode(K: Hasher, b: seq<byte>, H: nat, P: nat, g: nat, d: nat)
    requires |b| == Span(H) && d <= P <= H && BitLen(g) == H - P + 1 + d
    ensures var k := SubtreeOf(H, P, g, d);
            && 0 <= k * Span(P) && k * Span(P) + Span(P) <= |b|
            && BitLen(IndexInSubtree(g, d)) == d + 1
            && Node(K, b, H, g) == Node(K, b[k * Span(P)..k * Span(P) + Span(P)], P, IndexInSubtree(g, d))
  {
    hide TreeHash, Pow2, BitLen, Span;
    SubtreeBounds(H, P, g, d);
    SubtreeFits(H, P, SubtreeOf(H, P, g, d));
    SubtreeLo(H, P, g, d);
    NodeFits(P, IndexInSubtree(g, d), P - d);
    var lo := SubtreeOf(H, P, g, d) * Span(P);
    var off := NodeLo(P, IndexInSubtree(g, d), P - d);
    SliceOfSlice(b, lo, lo + Span(P), off, off + Span(P - d));
  }

  lemma RootIsTreeHash(K: Hasher, b: seq<byte>, H: nat)
    requires |b| == Span(H)
    ensures NodeAt(H, 1, H) && NodeHash(K, b, H, 1, H) == TreeHash(K, b, H)
  {
    assert NodeSlice(b, H, 1, H) == b;
  }

  /** The node of height `h` above byte `a`. */
  function Ancestor(H: nat, a: nat, h: nat): int
    requires h <= H
  {
    Pow2(H - h) + a / Span(h)
  }

  lemma AncestorParent(H: nat, a: nat, h: nat)
    requires h < H
    ensures Ancestor(H, a, h) / 2 == Ancestor(H, a, h + 1)
  {
    DivDiv(a, Span(h));
  }

  /** Byte `a` lies below node `g` exactly if `g` is the ancestor of `a` at that height. */
  lemma BelowIffAncestor(H: nat, g: int, h: int, a: nat)
    requires NodeAt(H, g, h) && a < Span(H)
    ensures NodeLo(H, g, h) <= a < NodeLo(H, g, h) + Span(h) <==> g == Ancestor(H, a, h)
  {
    QuotientRange(a, Span(h), g - Pow2(H - h));
  }

  lemma AncestorIsNode(H: nat, a: nat, h: nat)
    requires h <= H && a < Span(H)
    ensures NodeAt(H, Ancestor(H, a, h), h)
  {
    SpanSplit(H, h);
    QuotientBound(a, Span(h), Pow2(H - h));
  }

  /** The path from the ancestor of `a` at height `low` holds exactly its higher ancestors. */
  lemma {:induction false} PathIsAncestors(H: nat, a: nat, low: nat, g: nat, h: nat)
    requires low <= H && a < Span(H) && NodeAt(H, g, h)
    ensures Ancestor(H, a, low) > 0
    ensures OnPath(Ancestor(H, a, low), g) <==> low <= h && g == Ancestor(H, a, h)
    decreases H - low
  {
    var k := Ancestor(H, a, low);
    AncestorIsNode(H, a, low);
    if g == k {
      HeightIsBitLen(H, g, low);
      HeightIsBitLen(H, g, h);
    } else if low < H {
      AncestorParent(H, a, low);
      PathIsAncestors(H, a, low + 1, g, h);
    }
  }

  /** Two byte strings that agree below a node have the same hash there. */
  lemma NodeHashLocal(K: Hasher, b: seq<byte>, c: seq<byte>, H: nat, g: int, h: int)
    requires |b| == |c| == Span(H) && NodeAt(H, g, h)
    requires forall i :: NodeLo(H, g, h) <= i < NodeLo(H, g, h) + Span(h) && 0 <= i < |b| ==> b[i] == c[i]
    ensures NodeHash(K, b, H, g, h) == NodeHash(K, c, H, g, h)
  {
    NodeFits(H, g, h);
    assert NodeSlice(b, H, g, h) == NodeSlice(c, H, g, h);
  }

  /** `c` is `b` with some bytes of the leaf around `a` changed. */
  ghost predicate SameOutsideLeaf(b: seq<byte>, c: seq<byte>, a: nat) {
    |b| == |c| && forall i :: 0 <= i < |b| && i / 32 != a / 32 ==> b[i] == c[i]
  }

  /** Changing one leaf changes no node but its ancestors. */
  lemma OnlyAncestorsChange(K: Hasher, b: seq<byte>, c: seq<byte>, a: nat, H: nat, g: int, h: int)
    requires |b| == Span(H) && NodeAt(H, g, h) && a < Span(H)
    requires SameOutsideLeaf(b, c, a)
    requires g != Ancestor(H, a, h)
    ensures NodeHash(K, b, H, g, h) == NodeHash(K, c, H, g, h)
  {
    forall i | NodeLo(H, g, h) <= i < NodeLo(H, g, h) + Span(h) && 0 <= i < |b|
      ensures b[i] == c[i]
    {
      BelowIffAncestor(H, g, h, i);
      if i / 32 == a / 32 {
        SameLeafSameAncestor(i, a, h);
        assert false;
      }
    }
    NodeHashLocal(K, b, c, H, g, h);
  }

  lemma {:induction false} SameLeafSameAncestor(i: nat, a: nat, h: nat)
    requires i / 32 == a / 32
    ensures i / Span(h) == a / Span(h)
  {
    if h == 0 {
    } else {
      SameLeafSameAncestor(i, a, h - 1);
      DivDiv(i, Span(h - 1));
      DivDiv(a, Span(h - 1));
    }
  }
}
