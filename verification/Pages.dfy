/** A 4 KiB page of VM memory with its cache of interior hashes (cannon/mipsevm/page.go). */
module Pages {
  import opened Words
  import opened Arithmetic
  import opened Merkle

  const PAGE_SIZE := 4096
  const PAGE_DEPTH := 7

  lemma PageSpan()
    ensures Span(PAGE_DEPTH) == PAGE_SIZE
    ensures Pow2(PAGE_DEPTH) == 128
  {
  }

  /** The hash of node `g` of the tree over one page. Nodes 128..255 are the leaves. */
  function PageNode(K: Hasher, data: seq<byte>, g: nat): Bytes32
    requires |data| == PAGE_SIZE && 1 <= g < 256
  {
    PageSpan();
    PageNodeHeight(g);
    Node(K, data, PAGE_DEPTH, g)
  }

  lemma PageNodeHeight(g: nat)
    requires 1 <= g < 256
    ensures 1 <= BitLen(g) <= 8 && NodeAt(PAGE_DEPTH, g, 8 - BitLen(g))
  {
    BitLenBounds(g);
    if BitLen(g) > 8 { Pow2Monotone(8, BitLen(g) - 1); }
    HeightIsBitLen(PAGE_DEPTH, g, 8 - BitLen(g));
  }

  lemma PageNodeStep(K: Hasher, data: seq<byte>, g: nat)
    requires |data| == PAGE_SIZE && 1 <= g < 128
    ensures PageNode(K, data, g) == HashPair(K, PageNode(K, data, 2 * g), PageNode(K, data, 2 * g + 1))
  {
    PageSpan();
    PageNodeHeight(g);
    PageNodeHeight(2 * g);
    NodeStep(K, data, PAGE_DEPTH, g);
  }

  lemma PageLeaf(K: Hasher, data: seq<byte>, g: nat)
    requires |data| == PAGE_SIZE && 128 <= g < 256
    ensures PageNode(K, data, g) == data[(g - 128) * 32..(g - 128) * 32 + 32]
  {
    PageSpan();
    PageNodeHeight(g);
    HeightIsBitLen(PAGE_DEPTH, g, 0);
  }

  /** Index of the lowest interior node above a page address. */
  function CacheIndex(pageAddr: nat): nat {
    (PAGE_SIZE + pageAddr) / 64
  }

  lemma CacheIndexIsAncestor(pageAddr: nat)
    requires pageAddr < PAGE_SIZE
    ensures CacheIndex(pageAddr) == Ancestor(PAGE_DEPTH, pageAddr, 1)
  {
    assert Span(1) == 64 && Pow2(6) == 64;
  }

  /** A node that is not above `pageAddr` keeps its hash when the leaf of `pageAddr` changes. */
  lemma PageNodeUntouched(K: Hasher, d: seq<byte>, e: seq<byte>, pageAddr: nat, g: nat)
    requires |d| == PAGE_SIZE && pageAddr < PAGE_SIZE && SameOutsideLeaf(d, e, pageAddr)
    requires 1 <= g < 128 && !OnPath(CacheIndex(pageAddr), g)
    ensures PageNode(K, d, g) == PageNode(K, e, g)
  {
    PageSpan();
    PageNodeHeight(g);
    var h := 8 - BitLen(g);
    assert h > 0;
    CacheIndexIsAncestor(pageAddr);
    PathIsAncestors(PAGE_DEPTH, pageAddr, 1, g, h);
    OnlyAncestorsChange(K, d, e, pageAddr, PAGE_DEPTH, g, h);
  }

  /** The bytes of a page, its cached interior hashes and their validity marks, as values. */
  datatype PageView = PageView(data: seq<byte>, cache: seq<Bytes32>, ok: seq<bool>) {
    /** Every interior hash marked valid is the hash of the bytes below it. */
    ghost predicate Sound(K: Hasher) {
      && |data| == PAGE_SIZE && |cache| == 128 && |ok| == 128
      && forall g :: 1 <= g < 128 && ok[g] ==> cache[g] == PageNode(K, data, g)
    }

    /** The same bytes with the marks above `pageAddr` cleared. */
    ghost predicate InvalidatedTo(v: PageView, pageAddr: nat) {
      && v.data == data && v.cache == cache && |v.ok| == |ok|
      && forall g :: 0 <= g < |ok| ==> v.ok[g] == (ok[g] && !OnPath(CacheIndex(pageAddr), g))
    }
  }

  const EMPTY_PAGE: PageView := PageView(Zeros(PAGE_SIZE), seq(128, _ => ZERO32), seq(128, _ => false))

  /** The arrays embedded in the page record are values there, so they are sequence fields here. */
  class CachedPage {
    var Data: seq<byte>
    var Cache: seq<Bytes32>
    var Ok: seq<bool>

    ghost function View(): PageView
      reads this
    {
      PageView(Data, Cache, Ok)
    }

    constructor ()
      ensures View() == EMPTY_PAGE
    {
      Data := Zeros(PAGE_SIZE);
      Cache := seq(128, _ => ZERO32);
      Ok := seq(128, _ => false);
    }

    /** Clears the marks of exactly the interior nodes above `pageAddr`. */
    method Invalidate(pageAddr: nat)
      requires |Ok| == 128 && pageAddr < PAGE_SIZE
      modifies this`Ok
      ensures old(View()).InvalidatedTo(View(), pageAddr)
    {
      var k := (PAGE_SIZE + pageAddr) / 64;
      while k > 0
        invariant 0 <= k < 128 && |Ok| == 128
        invariant forall g :: OnPath(k, g) ==> OnPath(CacheIndex(pageAddr), g)
        invariant forall g :: 0 <= g < 128 ==>
                                Ok[g] == (old(Ok)[g] && (OnPath(CacheIndex(pageAddr), g) ==> OnPath(k, g)))
      {
        Ok := Ok[k := false];
        if OnPath(k / 2, k) { OnPathBounds(k / 2, k); }
        k := k / 2;
      }
    }

    /** Records a computed hash. */
    method Store(K: Hasher, j: nat, hash: Bytes32)
      requires View().Sound(K) && 1 <= j < 128 && hash == PageNode(K, Data, j)
      modifies this`Cache, this`Ok
      ensures View().Sound(K)
      ensures Ok == old(Ok)[j := true]
    {
      Cache := Cache[j := hash];
      Ok := Ok[j := true];
    }

    method InvalidateFull()
      modifies this`Ok
      ensures Ok == seq(128, _ => false)
    {
      Ok := seq(128, _ => false);
    }

    method HashBottomLayer(K: Hasher)
      requires View().Sound(K)
      modifies this`Cache, this`Ok
      ensures View().Sound(K)
      ensures forall g :: 64 <= g < 128 ==> Ok[g]
    {
      var i := 0;
      while i < PAGE_SIZE
        invariant i % 64 == 0 && 0 <= i <= PAGE_SIZE
        invariant View().Sound(K)
        invariant forall g :: 64 <= g < 64 + i / 64 ==> Ok[g]
      {
        var j := PAGE_SIZE / 32 / 2 + i / 64;
        if !Ok[j] {
          HashBottom(K, Data, j);
          Store(K, j, K(Data[i..i + 64]));
        }
        i := i + 64;
      }
    }

    method HashParent(K: Hasher, i: nat)
      requires View().Sound(K) && 2 <= i <= 126 && i % 2 == 0 && Ok[i] && Ok[i + 1]
      modifies this`Cache, this`Ok
      ensures View().Sound(K) && Ok == old(Ok)[i / 2 := true]
    {
      var j := i / 2;
      if !Ok[j] {
        PageNodeStep(K, Data, j);
        Store(K, j, HashPair(K, Cache[i], Cache[i + 1]));
      }
    }

    method HashCacheLayers(K: Hasher)
      requires View().Sound(K) && forall g :: 64 <= g < 128 ==> Ok[g]
      modifies this`Cache, this`Ok
      ensures View().Sound(K)
      ensures forall g :: 1 <= g < 128 ==> Ok[g]
    {
      hide PageNode;
      var i := PAGE_SIZE / 32 - 2;
      while i > 0
        invariant 0 <= i <= 126 && i % 2 == 0
        invariant View().Sound(K)
        invariant forall g :: i / 2 < g < 128 ==> Ok[g]
      {
        HashParent(K, i);
        i := i - 2;
      }
    }

    /** Fills the whole cache and returns the root of the page. */
    method MerkleRoot(K: Hasher) returns (root: Bytes32)
      requires View().Sound(K)
      modifies this`Cache, this`Ok
      ensures View().Sound(K)
      ensures forall g :: 1 <= g < 128 ==> Ok[g]
      ensures root == PageNode(K, Data, 1)
    {
      HashBottomLayer(K);
      HashCacheLayers(K);
      root := Cache[1];
    }

    /** The hash of any node of the page, leaves included. */
    method MerkleizeSubtree(K: Hasher, gindex: nat) returns (hash: Bytes32)
      requires View().Sound(K)
      requires 1 <= gindex < 256
      modifies this`Cache, this`Ok
      ensures View().Sound(K)
      ensures forall g :: 1 <= g < 128 ==> Ok[g]
      ensures hash == PageNode(K, Data, gindex)
    {
      var _ := MerkleRoot(K);
      if gindex >= PAGE_SIZE / 32 {
        var nodeIndex := gindex % 128;
        PageLeaf(K, Data, gindex);
        assert nodeIndex == gindex - 128;
        hash := Data[nodeIndex * 32..nodeIndex * 32 + 32];
      } else {
        hash := Cache[gindex];
      }
    }
  }

  lemma HashBottom(K: Hasher, data: seq<byte>, j: nat)
    requires |data| == PAGE_SIZE && 64 <= j < 128
    ensures PageNode(K, data, j) == K(data[(j - 64) * 64..(j - 64) * 64 + 64])
  {
    PageNodeStep(K, data, j);
    PageLeaf(K, data, 2 * j);
    PageLeaf(K, data, 2 * j + 1);
    var i := (j - 64) * 64;
    assert data[i..i + 64] == data[i..i + 32] + data[i + 32..i + 64];
  }
}
