/** Branches of the memory tree: a leaf followed by the siblings on its way to the root. */
module MerkleProofs {
  import opened Words
  import opened Arithmetic
  import opened Merkle

  function Sibling(g: int): int {
    if g % 2 == 0 then g + 1 else g - 1
  }

  lemma SiblingIsNode(H: nat, g: int, h: int)
    requires NodeAt(H, g, h) && h < H
    ensures NodeAt(H, Sibling(g), h) && Sibling(g) != g
  {
    assert Pow2(H - h) == 2 * Pow2(H - h - 1);
    SiblingBounds(g, Pow2(H - h - 1));
  }

  lemma SiblingBounds(g: int, q: int)
    requires 2 * q <= g < 4 * q
    ensures 2 * q <= Sibling(g) < 4 * q && Sibling(g) != g
  {
  }

  /** The branch of byte `a`: entry 0 is its leaf, entry i + 1 the sibling at height i. */
  function ProofOf(K: Hasher, b: seq<byte>, H: nat, a: nat): (proof: seq<Bytes32>)
    requires |b| == Span(H) && a < |b|
    ensures |proof| == H + 1
  {
    seq(H + 1, i requires 0 <= i <= H => ProofEntry(K, b, H, a, i))
  }

  function ProofEntry(K: Hasher, b: seq<byte>, H: nat, a: nat, i: nat): Bytes32
    requires |b| == Span(H) && a < |b| && i <= H
  {
    AncestorIsNode(H, a, if i == 0 then 0 else i - 1);
    if i == 0 then NodeHash(K, b, H, Ancestor(H, a, 0), 0)
    else
      SiblingIsNode(H, Ancestor(H, a, i - 1), i - 1);
      NodeHash(K, b, H, Sibling(Ancestor(H, a, i - 1)), i - 1)
  }

  /** What a verifier computes: hash upwards from `node`, the bits of `path` deciding the side. */
  function FoldUp(K: Hasher, node: Bytes32, path: nat, siblings: seq<Bytes32>): Bytes32
    decreases |siblings|
  {
    if siblings == [] then node
    else
      var up := if path % 2 == 0 then HashPair(K, node, siblings[0]) else HashPair(K, siblings[0], node);
      FoldUp(K, up, path / 2, siblings[1..])
  }

  /** The root a branch for byte `a` stands for. */
  function Fold(K: Hasher, a: nat, proof: seq<Bytes32>): Bytes32
    requires |proof| >= 1
  {
    FoldUp(K, proof[0], a / 32, proof[1..])
  }

  lemma AncestorParity(H: nat, a: nat, h: nat)
    requires h < H
    ensures Ancestor(H, a, h) % 2 == (a / Span(h)) % 2
  {
    hide Pow2, Span;
    Pow2Next(H - h - 1);
    EvenPlus(Pow2(H - h - 1), a / Span(h));
  }

  lemma EvenPlus(x: int, q: int)
    ensures (2 * x + q) % 2 == q % 2
  {
  }

  /** The two children met when walking down towards `a`: the one above `a`, and its sibling. */
  lemma BranchIndices(H: nat, a: nat, h: nat)
    requires h < H && a < Span(H)
    ensures var parent, right := Ancestor(H, a, h + 1), (a / Span(h)) % 2 != 0;
            && Ancestor(H, a, h) == (if right then 2 * parent + 1 else 2 * parent)
            && Sibling(Ancestor(H, a, h)) == (if right then 2 * parent else 2 * parent + 1)
    ensures NodeAt(H, Sibling(Ancestor(H, a, h)), h)
  {
    AncestorIsNode(H, a, h);
    AncestorParent(H, a, h);
    AncestorParity(H, a, h);
    SiblingIsNode(H, Ancestor(H, a, h), h);
  }

  lemma PairOfAncestor(K: Hasher, b: seq<byte>, H: nat, a: nat, h: nat)
    requires |b| == Span(H) && a < |b| && h < H
    ensures NodeAt(H, Ancestor(H, a, h), h) && NodeAt(H, Ancestor(H, a, h + 1), h + 1)
    ensures NodeAt(H, Sibling(Ancestor(H, a, h)), h)
    ensures var self := NodeHash(K, b, H, Ancestor(H, a, h), h);
            var sibling := NodeHash(K, b, H, Sibling(Ancestor(H, a, h)), h);
            NodeHash(K, b, H, Ancestor(H, a, h + 1), h + 1)
            == if (a / Span(h)) % 2 == 0 then HashPair(K, self, sibling) else HashPair(K, sibling, self)
  {
    AncestorIsNode(H, a, h);
    AncestorIsNode(H, a, h + 1);
    AncestorParent(H, a, h);
    AncestorParity(H, a, h);
    SiblingIsNode(H, Ancestor(H, a, h), h);
    NodeHashStep(K, b, H, Ancestor(H, a, h + 1), h + 1);
  }

  lemma {:induction false} FoldFromHeight(K: Hasher, b: seq<byte>, H: nat, a: nat, h: nat)
    requires |b| == Span(H) && a < |b| && h <= H
    ensures NodeAt(H, Ancestor(H, a, h), h)
    ensures FoldUp(K, NodeHash(K, b, H, Ancestor(H, a, h), h), a / Span(h), ProofOf(K, b, H, a)[h + 1..])
         == TreeHash(K, b, H)
    decreases H - h
  {
    hide TreeHash, NodeHash;
    AncestorIsNode(H, a, h);
    var p := ProofOf(K, b, H, a);
    if h == H {
      assert a / Span(H) == 0;
      RootIsTreeHash(K, b, H);
    } else {
      FoldFromHeight(K, b, H, a, h + 1);
      PairOfAncestor(K, b, H, a, h);
      DivDiv(a, Span(h));
      assert p[h + 1] == ProofEntry(K, b, H, a, h + 1);
      assert p[h + 1..][1..] == p[h + 2..];
    }
  }

  /** Folding the branch of any byte gives the root. */
  lemma ProofFoldsToRoot(K: Hasher, b: seq<byte>, H: nat, a: nat)
    requires |b| == Span(H) && a < |b|
    ensures Fold(K, a, ProofOf(K, b, H, a)) == TreeHash(K, b, H)
  {
    FoldFromHeight(K, b, H, a, 0);
  }

  /** The 32 bytes that share a leaf with byte `a`. */
  function LeafOf(b: seq<byte>, a: nat): (leaf: seq<byte>)
    requires a < |b| && |b| % 32 == 0
    ensures |leaf| == 32
  {
    b[a / 32 * 32..a / 32 * 32 + 32]
  }

  lemma {:induction false} SpanMod32(h: nat)
    ensures Span(h) % 32 == 0
  {
    if h > 0 { SpanMod32(h - 1); }
  }

  lemma LeafIsProofHead(K: Hasher, b: seq<byte>, H: nat, a: nat)
    requires |b| == Span(H) && a < |b|
    ensures |b| % 32 == 0
    ensures ProofOf(K, b, H, a)[0] == LeafOf(b, a)
  {
    SpanMod32(H);
    AncestorIsNode(H, a, 0);
    NodeFits(H, Ancestor(H, a, 0), 0);
    assert NodeSlice(b, H, Ancestor(H, a, 0), 0) == LeafOf(b, a);
  }

  /** Changing bytes inside the leaf of `a` leaves all its siblings as they were. */
  lemma SiblingsUnchanged(K: Hasher, b: seq<byte>, c: seq<byte>, H: nat, a: nat)
    requires |b| == Span(H) && a < |b| && SameOutsideLeaf(b, c, a)
    ensures ProofOf(K, b, H, a)[1..] == ProofOf(K, c, H, a)[1..]
  {
    forall i | 1 <= i <= H ensures ProofEntry(K, b, H, a, i) == ProofEntry(K, c, H, a, i) {
      AncestorIsNode(H, a, i - 1);
      SiblingIsNode(H, Ancestor(H, a, i - 1), i - 1);
      OnlyAncestorsChange(K, b, c, a, H, Sibling(Ancestor(H, a, i - 1)), i - 1);
    }
  }

  /** One branch is enough to compute the root after a write to its leaf. */
  lemma RefoldGivesNewRoot(K: Hasher, b: seq<byte>, c: seq<byte>, H: nat, a: nat)
    requires |b| == Span(H) && a < |b| && SameOutsideLeaf(b, c, a)
    ensures |c| % 32 == 0
    ensures Fold(K, a, [LeafOf(c, a)] + ProofOf(K, b, H, a)[1..]) == TreeHash(K, c, H)
  {
    LeafIsProofHead(K, c, H, a);
    SiblingsUnchanged(K, b, c, H, a);
    assert [LeafOf(c, a)] + ProofOf(K, b, H, a)[1..] == ProofOf(K, c, H, a);
    ProofFoldsToRoot(K, c, H, a);
  }

  /** Binding: a branch that folds to the root of `b` is the branch of `b`,
      unless it exhibits two byte strings with the same hash. */
  lemma ProofBinding(K: Hasher, b: seq<byte>, H: nat, a: nat, p: seq<Bytes32>)
    returns (x: seq<byte>, y: seq<byte>)
    requires |b| == Span(H) && a < |b| && |p| == H + 1
    requires Fold(K, a, p) == TreeHash(K, b, H)
    ensures p == ProofOf(K, b, H, a) || (x != y && K(x) == K(y))
  {
    var q := ProofOf(K, b, H, a);
    ProofFoldsToRoot(K, b, H, a);
    x, y := SameFoldSameBranch(K, p[0], q[0], a / 32, p[1..], q[1..]);
    assert p == [p[0]] + p[1..] && q == [q[0]] + q[1..];
  }

  lemma {:induction false} SameFoldSameBranch(
    K: Hasher, u: Bytes32, v: Bytes32, path: nat, p: seq<Bytes32>, q: seq<Bytes32>)
    returns (x: seq<byte>, y: seq<byte>)
    requires |p| == |q| && FoldUp(K, u, path, p) == FoldUp(K, v, path, q)
    ensures (u == v && p == q) || (x != y && K(x) == K(y))
    decreases |p|
  {
    x, y := [], [];
    if p != [] {
      var s: seq<byte>, t: seq<byte> := p[0], q[0];
      var left, right := if path % 2 == 0 then u + s else s + u, if path % 2 == 0 then v + t else t + v;
      x, y := SameFoldSameBranch(K, K(left), K(right), path / 2, p[1..], q[1..]);
      assert left[..32] == (if path % 2 == 0 then u else s) && left[32..] == (if path % 2 == 0 then s else u);
      assert right[..32] == (if path % 2 == 0 then v else t) && right[32..] == (if path % 2 == 0 then t else v);
      if left != right && K(left) == K(right) {
        x, y := left, right;
      } else if left == right {
        assert p == [p[0]] + p[1..] && q == [q[0]] + q[1..];
      }
    }
  }
}
