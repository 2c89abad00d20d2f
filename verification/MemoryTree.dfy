/** The Merkle tree over the 32-bit address space of the VM, seen as a flat byte string
    of 2^32 bytes cut into pages. */
module MemoryTree {
  import opened Words
  import opened Arithmetic
  import opened Merkle
  import opened MerkleProofs
  import opened Pages

  const MEM_DEPTH := 27
  const MEM_SIZE := 0x1_0000_0000
  const PAGE_COUNT := 0x10_0000
  const NO_KEY: uint32 := 0xFFFF_FFFF

  lemma MemSpan()
    ensures Span(MEM_DEPTH) == MEM_SIZE
    ensures Pow2(20) == PAGE_COUNT
    ensures Span(PAGE_DEPTH) == PAGE_SIZE
  {
    PageSpan();
    assert Pow2(5) == 32;
    Pow2Sum(5, 5);
    Pow2Sum(10, 10);
    SpanSplit(MEM_DEPTH, PAGE_DEPTH);
  }

  /** The bytes of page `k`. */
  function PageBytes(mem: seq<byte>, k: nat): (d: seq<byte>)
    requires |mem| == MEM_SIZE && k < PAGE_COUNT
    ensures |d| == PAGE_SIZE
  {
    mem[k * PAGE_SIZE..k * PAGE_SIZE + PAGE_SIZE]
  }

  /** The hash of memory node `g`. */
  function MemNode(K: Hasher, mem: seq<byte>, g: nat): Bytes32
    requires |mem| == MEM_SIZE && 1 <= g && BitLen(g) <= 28
  {
    MemSpan();
    Node(K, mem, MEM_DEPTH, g)
  }

  function MemRoot(K: Hasher, mem: seq<byte>): Bytes32
    requires |mem| == MEM_SIZE
  {
    MemSpan();
    TreeHash(K, mem, MEM_DEPTH)
  }

  lemma MemNodeRoot(K: Hasher, mem: seq<byte>)
    requires |mem| == MEM_SIZE
    ensures BitLen(1) == 1 && MemNode(K, mem, 1) == MemRoot(K, mem)
  {
    MemSpan();
    RootIsTreeHash(K, mem, MEM_DEPTH);
  }

  lemma MemNodeStep(K: Hasher, mem: seq<byte>, g: nat)
    requires |mem| == MEM_SIZE && 1 <= g && BitLen(g) <= 27
    ensures BitLen(2 * g) == BitLen(2 * g + 1) == BitLen(g) + 1
    ensures MemNode(K, mem, g) == HashPair(K, MemNode(K, mem, 2 * g), MemNode(K, mem, 2 * g + 1))
  {
    MemSpan();
    NodeStep(K, mem, MEM_DEPTH, g);
  }

  /** The page that node `g`, `d` levels below page level, is in. */
  function PageOf(g: nat, d: nat): int {
    g / Pow2(d) % PAGE_COUNT
  }

  lemma PageIndices(g: nat, d: nat)
    requires d <= 7 && BitLen(g) == 21 + d
    ensures 0 <= PageOf(g, d) < PAGE_COUNT && PageOf(g, d) == SubtreeOf(MEM_DEPTH, PAGE_DEPTH, g, d)
    ensures 1 <= IndexInSubtree(g, d) < 256 && BitLen(IndexInSubtree(g, d)) == d + 1
    ensures d == 0 ==> PageOf(g, d) == g - PAGE_COUNT
  {
    assert Pow2(0) == 1;
    hide Pow2, BitLen, Span;
    MemSpan();
    SubtreeBounds(MEM_DEPTH, PAGE_DEPTH, g, d);
    HeightBelow8(IndexInSubtree(g, d), d);
    ModOnce(g / Pow2(d), PAGE_COUNT);
  }

  lemma HeightBelow8(i: nat, d: nat)
    requires d <= 7 && BitLen(i) == d + 1
    ensures 1 <= i < 256
  {
    BitLenBounds(i);
    Pow2Monotone(d + 1, 8);
    assert Pow2(8) == 256;
  }

  lemma ModOnce(x: int, n: int)
    requires 0 < n <= x < 2 * n
    ensures x % n == x - n
  {
    QuotientUnique(x, n, 1, x - n);
  }

  /** A node at or below page level is a node of the tree over that page alone. */
  lemma PageSubtree(K: Hasher, mem: seq<byte>, g: nat, d: nat)
    requires |mem| == MEM_SIZE && d <= 7 && BitLen(g) == 21 + d
    ensures 0 <= PageOf(g, d) < PAGE_COUNT && 1 <= IndexInSubtree(g, d) < 256
    ensures MemNode(K, mem, g) == PageNode(K, PageBytes(mem, PageOf(g, d)), IndexInSubtree(g, d))
  {
    MemSpan();
    PageIndices(g, d);
    hide TreeHash, Span, Pow2, BitLen, SubtreeOf, IndexInSubtree, PageOf, Node;
    SubtreeNode(K, mem, MEM_DEPTH, PAGE_DEPTH, g, d);
  }

  /** Byte `a` lies below the nodes on the path from its page to the root, and no others above page level. */
  lemma PathOfPage(g: nat, a: nat)
    requires 1 <= g < PAGE_COUNT && a < MEM_SIZE
    ensures BitLen(g) <= 20 && NodeAt(MEM_DEPTH, g, 28 - BitLen(g))
    ensures OnPath(PAGE_COUNT + a / PAGE_SIZE, g) <==> g == Ancestor(MEM_DEPTH, a, 28 - BitLen(g))
  {
    MemSpan();
    BitLenBounds(g);
    if BitLen(g) > 20 { Pow2Monotone(20, BitLen(g) - 1); }
    var h := 28 - BitLen(g);
    HeightIsBitLen(MEM_DEPTH, g, h);
    PathIsAncestors(MEM_DEPTH, a, PAGE_DEPTH, g, h);
  }

  /** Only the path of its page is affected by a change of one leaf. */
  lemma MemNodeUntouched(K: Hasher, mem: seq<byte>, mem': seq<byte>, a: nat, g: nat)
    requires |mem| == MEM_SIZE && a < MEM_SIZE && SameOutsideLeaf(mem, mem', a)
    requires 1 <= g < PAGE_COUNT && !OnPath(PAGE_COUNT + a / PAGE_SIZE, g)
    ensures BitLen(g) <= 28 && MemNode(K, mem, g) == MemNode(K, mem', g)
  {
    MemSpan();
    PathOfPage(g, a);
    OnlyAncestorsChange(K, mem, mem', a, MEM_DEPTH, g, 28 - BitLen(g));
  }

  lemma ByteInPage(mem: seq<byte>, a: nat)
    requires |mem| == MEM_SIZE && a < MEM_SIZE
    ensures a / PAGE_SIZE < PAGE_COUNT && PageBytes(mem, a / PAGE_SIZE)[a % PAGE_SIZE] == mem[a]
  {
  }

  /** A byte below a node that no page is below is zero. */
  lemma ZeroBelow(mem: seq<byte>, present: set<nat>, g: nat, h: nat, a: nat)
    requires |mem| == MEM_SIZE && 1 <= g < PAGE_COUNT && a < MEM_SIZE
    requires forall k :: 0 <= k < PAGE_COUNT && k !in present ==> PageBytes(mem, k) == Zeros(PAGE_SIZE)
    requires forall k :: k in present ==> !OnPath(PAGE_COUNT + k, g)
    requires h == 28 - BitLen(g) && g == Ancestor(MEM_DEPTH, a, h)
    ensures mem[a] == 0
  {
    hide OnPath, Ancestor, PageBytes, BitLen, Zeros;
    PathOfPage(g, a);
    ByteInPage(mem, a);
  }

  lemma AllZero(s: seq<byte>, n: nat)
    requires |s| == n && forall i :: 0 <= i < n ==> s[i] == 0
    ensures s == Zeros(n)
  {
  }

  /** A node with no page below it is the hash of zeroes. */
  lemma EmptySubtree(K: Hasher, mem: seq<byte>, present: set<nat>, g: nat)
    requires |mem| == MEM_SIZE && 1 <= g < PAGE_COUNT
    requires forall k :: 0 <= k < PAGE_COUNT && k !in present ==> PageBytes(mem, k) == Zeros(PAGE_SIZE)
    requires forall k :: k in present ==> !OnPath(PAGE_COUNT + k, g)
    ensures BitLen(g) <= 20 && MemNode(K, mem, g) == ZeroHash(K, 28 - BitLen(g))
  {
    hide OnPath, TreeHash, Pow2, Span, NodeLo, Ancestor, PageBytes, Zeros, BitLen;
    MemSpan();
    PathOfPage(g, 0);
    var h := 28 - BitLen(g);
    NodeFits(MEM_DEPTH, g, h);
    var lo, s := NodeLo(MEM_DEPTH, g, h), NodeSlice(mem, MEM_DEPTH, g, h);
    forall i | 0 <= i < Span(h) ensures s[i] == 0 {
      BelowIffAncestor(MEM_DEPTH, g, h, lo + i);
      ZeroBelow(mem, present, g, h, lo + i);
    }
    AllZero(s, Span(h));
  }

  lemma ZeroPageNode(K: Hasher, pg: nat)
    requires 1 <= pg < 256
    ensures 1 <= BitLen(pg) <= 8
    ensures PageNode(K, Zeros(PAGE_SIZE), pg) == ZeroHash(K, 8 - BitLen(pg))
  {
    hide TreeHash, Pow2, Span, Zeros, BitLen;
    MemSpan();
    PageNodeHeight(pg);
    var h := 8 - BitLen(pg);
    NodeFits(PAGE_DEPTH, pg, h);
    AllZero(NodeSlice(Zeros(PAGE_SIZE), PAGE_DEPTH, pg, h), Span(h));
  }

  // ----- the invariant of the cached tree, on values -----

  /** The contents of the address space, the table of interior hashes and the allocated pages. */
  datatype MemView = MemView(mem: seq<byte>, nodes: map<nat, Option<Bytes32>>, pages: map<nat, PageView>) {

    /** Every page holds its part of the contents and a sound cache; all other bytes are zero. */
    ghost predicate PagesOk(K: Hasher) {
      && |mem| == MEM_SIZE
      && (forall k :: k in pages ==>
                        k < PAGE_COUNT && pages[k].Sound(K) && pages[k].data == PageBytes(mem, k))
      && (forall k :: 0 <= k < PAGE_COUNT && k !in pages ==> PageBytes(mem, k) == Zeros(PAGE_SIZE))
    }

    /** Every node above a page has an entry. */
    ghost predicate PathsExist() {
      && (forall k, g :: k in pages && OnPath(PAGE_COUNT + k, g) ==> g in nodes)
      && (forall g :: g in nodes ==> 1 <= g < 2 * PAGE_COUNT)
    }

    /** Node `g` is above page level and its hash is cached. */
    predicate Cached(g: nat) {
      g in nodes && g < PAGE_COUNT && nodes[g].Some?
    }

    /** A cached hash is the hash of the bytes below it. */
    ghost predicate HashesOk(K: Hasher)
      requires |mem| == MEM_SIZE
    {
      forall g :: Cached(g) ==> 1 <= g && BitLen(g) <= 28 && nodes[g].value == MemNode(K, mem, g)
    }

    /** Below a cached hash, every page has a valid root. */
    ghost predicate CachedAbovePages(K: Hasher)
      requires PagesOk(K)
    {
      forall g, k :: Cached(g) && k in pages && OnPath(PAGE_COUNT + k, g) ==> pages[k].ok[1]
    }

    ghost predicate Inv(K: Hasher) {
      PagesOk(K) && PathsExist() && HashesOk(K) && CachedAbovePages(K)
    }

    /** Every page below node `g` has a valid root. */
    ghost predicate RootsCached(g: nat) {
      forall k :: k in pages && OnPath(PAGE_COUNT + k, g) ==> |pages[k].ok| == 128 && pages[k].ok[1]
    }

    /** All marks and hashes above address `addr` are invalid. */
    ghost predicate StaleAt(addr: nat)
      requires addr / PAGE_SIZE in pages && |pages[addr / PAGE_SIZE].ok| == 128
    {
      && (forall g :: 0 <= g < 128 && OnPath(CacheIndex(addr % PAGE_SIZE), g) ==> !pages[addr / PAGE_SIZE].ok[g])
      && (forall g :: OnPath(PAGE_COUNT + addr / PAGE_SIZE, g) ==> !Cached(g))
    }
  }

  /** `after` is `before` with node `k` and everything above it marked invalid. */
  ghost predicate PathCleared(before: map<nat, Option<Bytes32>>, after: map<nat, Option<Bytes32>>, k: nat) {
    && (forall g :: OnPath(k, g) ==> g in after && after[g].None?)
    && (forall g :: !OnPath(k, g) ==> (g in after <==> g in before) && (g in after ==> after[g] == before[g]))
  }

  lemma AllocKeepsInv(K: Hasher, t: MemView, t': MemView, k: nat)
    requires t.Inv(K) && k < PAGE_COUNT && k !in t.pages
    requires t'.mem == t.mem && PathCleared(t.nodes, t'.nodes, PAGE_COUNT + k)
    requires t'.pages == t.pages[k := EMPTY_PAGE]
    ensures t'.Inv(K)
  {
    hide MemNode, PageBytes, OnPath, BitLen, PageNode, TreeHash, Span;
    PathBounds(PAGE_COUNT + k);
    assert t'.PagesOk(K);
    assert t'.PathsExist();
    assert forall g :: t'.Cached(g) ==> t.Cached(g) && t'.nodes[g] == t.nodes[g] && !OnPath(PAGE_COUNT + k, g);
    assert t'.HashesOk(K);
  }

  /** Filling the cache of one page. */
  lemma FillKeepsInv(K: Hasher, t: MemView, k: nat, v: PageView)
    requires t.Inv(K) && k in t.pages
    requires v.Sound(K) && v.data == t.pages[k].data && v.ok[1]
    ensures t.(pages := t.pages[k := v]).Inv(K)
  {
    hide MemNode, PageBytes, OnPath, BitLen, PageNode, TreeHash, Span;
    var t' := t.(pages := t.pages[k := v]);
    assert t'.PagesOk(K);
    assert t'.PathsExist();
    assert forall g :: t'.Cached(g) ==> t.Cached(g);
    assert t'.HashesOk(K);
    assert forall l :: l in t.pages && t.pages[l].ok[1] ==> t'.pages[l].ok[1];
    assert t'.CachedAbovePages(K);
  }

  /** Storing a freshly computed hash. */
  lemma StoreKeepsInv(K: Hasher, t: MemView, g: nat)
    requires t.Inv(K) && g in t.nodes && g < PAGE_COUNT && BitLen(g) <= 28
    requires forall k :: k in t.pages && OnPath(PAGE_COUNT + k, g) ==> t.pages[k].ok[1]
    ensures t.(nodes := t.nodes[g := Some(MemNode(K, t.mem, g))]).Inv(K)
  {
    hide MemNode, PageBytes, OnPath, BitLen, PageNode, TreeHash, Span;
    var t' := t.(nodes := t.nodes[g := Some(MemNode(K, t.mem, g))]);
    assert forall i :: t'.Cached(i) ==> i == g || t.Cached(i);
    assert t'.PagesOk(K) && t'.PathsExist();
    assert t'.HashesOk(K);
  }

  /** The early return of Invalidate: a page whose root mark is clear has no cached hash above it. */
  lemma EarlyReturnSound(K: Hasher, t: MemView, k: nat)
    requires t.Inv(K) && k in t.pages && !t.pages[k].ok[1]
    ensures forall g :: OnPath(PAGE_COUNT + k, g) ==> !t.Cached(g)
  {
  }

  /** Clearing the marks above `addr` in its page, and the hashes above that page
      unless its root mark was clear already, as Invalidate does. */
  ghost predicate Invalidated(t: MemView, t': MemView, addr: nat)
    requires addr / PAGE_SIZE in t.pages && |t.pages[addr / PAGE_SIZE].ok| == 128
  {
    var p := addr / PAGE_SIZE;
    && t'.mem == t.mem && t'.pages.Keys == t.pages.Keys
    && (forall k :: k in t.pages && k != p ==> t'.pages[k] == t.pages[k])
    && t.pages[p].InvalidatedTo(t'.pages[p], addr % PAGE_SIZE)
    && if t.pages[p].ok[1] then PathCleared(t.nodes, t'.nodes, PAGE_COUNT + p) else t'.nodes == t.nodes
  }

  lemma InvalidateMakesStale(K: Hasher, t: MemView, t': MemView, addr: nat)
    requires t.Inv(K) && addr / PAGE_SIZE in t.pages && Invalidated(t, t', addr)
    ensures t'.StaleAt(addr)
    ensures forall g :: t'.Cached(g) ==> t.Cached(g) && t'.nodes[g] == t.nodes[g]
  {
    var p := addr / PAGE_SIZE;
    forall g: nat | OnPath(PAGE_COUNT + p, g) ensures !t'.Cached(g) {
      if t.pages[p].ok[1] {
        assert PathCleared(t.nodes, t'.nodes, PAGE_COUNT + p);
        assert t'.nodes[g].None?;
      } else {
        EarlyReturnSound(K, t, p);
        assert !t.Cached(g);
        assert t'.nodes == t.nodes;
      }
    }
  }

  lemma InvalidateKeepsPages(K: Hasher, t: MemView, t': MemView, addr: nat)
    requires t.Inv(K) && addr / PAGE_SIZE in t.pages && Invalidated(t, t', addr)
    ensures t'.PagesOk(K) && t'.PathsExist()
  {
    PathBounds(PAGE_COUNT + addr / PAGE_SIZE);
    assert forall k :: k in t'.pages ==> t'.pages[k].Sound(K) && t'.pages[k].data == t.pages[k].data;
  }

  lemma InvalidateKeepsInv(K: Hasher, t: MemView, t': MemView, addr: nat)
    requires t.Inv(K) && addr / PAGE_SIZE in t.pages && Invalidated(t, t', addr)
    ensures t'.Inv(K) && t'.StaleAt(addr)
  {
    hide MemNode, PageBytes, OnPath, BitLen, PageNode, TreeHash, Span;
    InvalidateKeepsPages(K, t, t', addr);
    InvalidateMakesStale(K, t, t', addr);
    forall g, k | t'.Cached(g) && k in t'.pages && OnPath(PAGE_COUNT + k, g) ensures t'.pages[k].ok[1] {
      assert t.Cached(g) && k != addr / PAGE_SIZE;
    }
  }

  /** `mem` with the four bytes at `addr` replaced by the big-endian word `v`. */
  function StoreWord(mem: seq<byte>, addr: nat, v: uint32): (mem': seq<byte>)
    requires addr + 4 <= |mem|
    ensures |mem'| == |mem|
  {
    mem[..addr] + PutBE(v, 4) + mem[addr + 4..]
  }

  function LoadWord(mem: seq<byte>, addr: nat): uint32
    requires addr + 4 <= |mem|
  {
    Word(mem[addr..addr + 4])
  }

  /** The bytes of a loaded word are the bytes in memory. */
  lemma LoadedBytes(mem: seq<byte>, addr: nat)
    requires addr + 4 <= |mem|
    ensures PutBE(LoadWord(mem, addr), 4) == mem[addr..addr + 4]
  {
    PutGet(mem[addr..addr + 4]);
  }

  lemma StoreWordInLeaf(mem: seq<byte>, addr: nat, v: uint32)
    requires addr + 4 <= |mem| && addr % 4 == 0
    ensures SameOutsideLeaf(mem, StoreWord(mem, addr, v), addr)
  {
    var mem' := StoreWord(mem, addr, v);
    forall i | 0 <= i < |mem| && i / 32 != addr / 32 ensures mem[i] == mem'[i] {
      assert i < addr || i >= addr + 4;
    }
  }

  /** A store that falls into a slice is a store into that slice. */
  lemma StoreInSlice(mem: seq<byte>, lo: nat, hi: nat, addr: nat, v: uint32)
    requires lo <= addr && addr + 4 <= hi <= |mem|
    ensures StoreWord(mem, addr, v)[lo..hi] == StoreWord(mem[lo..hi], addr - lo, v)
  {
    hide PutBE;
    SpliceInSlice(mem, lo, hi, addr, PutBE(v, 4));
  }

  lemma SpliceInSlice(mem: seq<byte>, lo: nat, hi: nat, addr: nat, d: seq<byte>)
    requires lo <= addr && addr + |d| <= hi <= |mem|
    ensures (mem[..addr] + d + mem[addr + |d|..])[lo..hi]
         == mem[lo..hi][..addr - lo] + d + mem[lo..hi][addr - lo + |d|..]
  {
    var full, part := mem[..addr] + d + mem[addr + |d|..], mem[lo..hi];
    var a := addr - lo;
    var r := part[..a] + d + part[a + |d|..];
    assert |full| == |mem| && |r| == |part|;
    forall i | 0 <= i < hi - lo ensures full[lo + i] == r[i] {
      if i < a {
        assert full[lo + i] == mem[lo + i] == part[i] == r[i];
      } else if i < a + |d| {
        assert full[lo + i] == d[i - a] == r[i];
      } else {
        assert full[lo + i] == mem[lo + i] == part[i] == r[i];
      }
    }
    assert full[lo..hi] == r;
  }

  lemma PageRange(addr: nat)
    requires addr < MEM_SIZE
    ensures addr - addr / PAGE_SIZE * PAGE_SIZE == addr % PAGE_SIZE && addr / PAGE_SIZE < PAGE_COUNT
    ensures addr % 4 == 0 ==> addr % PAGE_SIZE + 4 <= PAGE_SIZE
  {
  }

  /** A word store seen from the page it falls into. */
  lemma StoreWordInPage(mem: seq<byte>, addr: nat, v: uint32)
    requires |mem| == MEM_SIZE && addr < MEM_SIZE && addr % 4 == 0
    ensures addr % PAGE_SIZE + 4 <= PAGE_SIZE
    ensures PageBytes(StoreWord(mem, addr, v), addr / PAGE_SIZE)
         == StoreWord(PageBytes(mem, addr / PAGE_SIZE), addr % PAGE_SIZE, v)
  {
    PageRange(addr);
    var lo := addr / PAGE_SIZE * PAGE_SIZE;
    StoreInSlice(mem, lo, lo + PAGE_SIZE, addr, v);
  }

  lemma StoreWordOutsidePage(mem: seq<byte>, addr: nat, v: uint32, k: nat)
    requires |mem| == MEM_SIZE && addr < MEM_SIZE && addr % 4 == 0 && k < PAGE_COUNT && k != addr / PAGE_SIZE
    ensures PageBytes(StoreWord(mem, addr, v), k) == PageBytes(mem, k)
  {
    PageRange(addr);
    var lo := k * PAGE_SIZE;
    assert addr + 4 <= lo || lo + PAGE_SIZE <= addr;
    StoreOutsideSlice(mem, lo, lo + PAGE_SIZE, addr, v);
  }

  lemma StoreOutsideSlice(mem: seq<byte>, lo: nat, hi: nat, addr: nat, v: uint32)
    requires addr + 4 <= |mem| && lo <= hi <= |mem| && (addr + 4 <= lo || hi <= addr)
    ensures StoreWord(mem, addr, v)[lo..hi] == mem[lo..hi]
  {
    hide PutBE;
    var mem' := StoreWord(mem, addr, v);
    forall j | lo <= j < hi ensures mem'[j] == mem[j] {
      if j < addr {
        assert mem'[j] == mem[..addr][j];
      } else {
        assert mem'[j] == mem[addr + 4..][j - addr - 4];
      }
    }
  }

  /** A fresh page has nothing cached in it or above it. */
  lemma FreshPageStale(t: MemView, addr: nat)
    requires addr / PAGE_SIZE in t.pages && t.pages[addr / PAGE_SIZE] == EMPTY_PAGE
    requires forall g :: OnPath(PAGE_COUNT + addr / PAGE_SIZE, g) ==> g in t.nodes && t.nodes[g].None?
    ensures t.StaleAt(addr)
  {
  }

  /** A word never straddles two pages. */
  lemma PageWord(mem: seq<byte>, addr: nat)
    requires |mem| == MEM_SIZE && addr < MEM_SIZE && addr % 4 == 0
    ensures addr % PAGE_SIZE + 4 <= PAGE_SIZE
    ensures mem[addr..addr + 4] == PageBytes(mem, addr / PAGE_SIZE)[addr % PAGE_SIZE..addr % PAGE_SIZE + 4]
  {
    PageRange(addr);
    var lo := addr / PAGE_SIZE * PAGE_SIZE;
    SliceOfSlice(mem, lo, lo + PAGE_SIZE, addr - lo, addr - lo + 4);
  }

  /** Writing into a page below cleared marks keeps the marks that remain right. */
  lemma WriteKeepsSound(K: Hasher, p: PageView, pageAddr: nat, v: uint32)
    requires p.Sound(K) && pageAddr + 4 <= PAGE_SIZE && pageAddr % 4 == 0
    requires forall g :: 0 <= g < 128 && OnPath(CacheIndex(pageAddr), g) ==> !p.ok[g]
    ensures p.(data := StoreWord(p.data, pageAddr, v)).Sound(K)
  {
    StoreWordInLeaf(p.data, pageAddr, v);
    forall g | 1 <= g < 128 && p.ok[g] ensures p.cache[g] == PageNode(K, StoreWord(p.data, pageAddr, v), g) {
      PageNodeUntouched(K, p.data, StoreWord(p.data, pageAddr, v), pageAddr, g);
    }
  }

  /** Writing a word under invalidated nodes keeps everything that is still cached right. */
  lemma WriteKeepsPages(K: Hasher, t: MemView, t': MemView, addr: nat, v: uint32)
    requires t.Inv(K) && addr < MEM_SIZE && addr % 4 == 0
    requires addr / PAGE_SIZE in t.pages && t.StaleAt(addr)
    requires t'.mem == StoreWord(t.mem, addr, v) && t'.nodes == t.nodes
    requires var p := t.pages[addr / PAGE_SIZE];
             && addr % PAGE_SIZE + 4 <= PAGE_SIZE
             && t'.pages == t.pages[addr / PAGE_SIZE := p.(data := StoreWord(p.data, addr % PAGE_SIZE, v))]
    ensures t'.PagesOk(K) && t'.PathsExist()
  {
    hide MemNode, PageBytes, OnPath, BitLen, PageNode, TreeHash, Span, StoreWord;
    StoreWordInPage(t.mem, addr, v);
    forall k | 0 <= k < PAGE_COUNT && k != addr / PAGE_SIZE ensures PageBytes(t'.mem, k) == PageBytes(t.mem, k) {
      StoreWordOutsidePage(t.mem, addr, v, k);
    }
    WriteKeepsSound(K, t.pages[addr / PAGE_SIZE], addr % PAGE_SIZE, v);
  }

  lemma WriteKeepsInv(K: Hasher, t: MemView, t': MemView, addr: nat, v: uint32)
    requires t.Inv(K) && addr < MEM_SIZE && addr % 4 == 0
    requires addr / PAGE_SIZE in t.pages && t.StaleAt(addr)
    requires t'.mem == StoreWord(t.mem, addr, v) && t'.nodes == t.nodes
    requires var p := t.pages[addr / PAGE_SIZE];
             && addr % PAGE_SIZE + 4 <= PAGE_SIZE
             && t'.pages == t.pages[addr / PAGE_SIZE := p.(data := StoreWord(p.data, addr % PAGE_SIZE, v))]
    ensures t'.Inv(K)
  {
    hide MemNode, PageBytes, OnPath, BitLen, PageNode, TreeHash, Span, StoreWord;
    WriteKeepsPages(K, t, t', addr, v);
    StoreWordInLeaf(t.mem, addr, v);
    forall g | t'.Cached(g) ensures 1 <= g && BitLen(g) <= 28 && t'.nodes[g].value == MemNode(K, t'.mem, g) {
      assert t.Cached(g);
      MemNodeUntouched(K, t.mem, t'.mem, addr, g);
    }
    forall g, k | t'.Cached(g) && k in t'.pages && OnPath(PAGE_COUNT + k, g) ensures t'.pages[k].ok[1] {
      assert t.Cached(g);
    }
  }

  // ----- loading contents -----

  /** `s` with the bytes from `i` on replaced by `d`. */
  function WriteAt(s: seq<byte>, i: nat, d: seq<byte>): (r: seq<byte>)
    requires i + |d| <= |s|
    ensures |r| == |s|
  {
    s[..i] + d + s[i + |d|..]
  }

  /** No hash above page `k` is cached. */
  ghost predicate Cold(t: MemView, k: nat) {
    forall g :: OnPath(PAGE_COUNT + k, g) ==> !t.Cached(g)
  }

  ghost predicate Unmarked(ok: seq<bool>) {
    |ok| == 128 && forall i :: 0 <= i < 128 ==> !ok[i]
  }

  lemma WriteAtSlice(s: seq<byte>, lo: nat, hi: nat, a: nat, d: seq<byte>)
    requires lo <= hi <= |s| && a + |d| <= |s|
    ensures lo <= a && a + |d| <= hi ==> WriteAt(s, a, d)[lo..hi] == WriteAt(s[lo..hi], a - lo, d)
    ensures a + |d| <= lo || hi <= a ==> WriteAt(s, a, d)[lo..hi] == s[lo..hi]
  {
    var w := WriteAt(s, a, d);
    if lo <= a && a + |d| <= hi {
      var l, r := w[lo..hi], WriteAt(s[lo..hi], a - lo, d);
      assert forall i :: 0 <= i < |l| ==> l[i] == r[i];
    }
    if a + |d| <= lo || hi <= a {
      assert forall i :: lo <= i < hi ==> w[i] == s[i];
    }
  }

  lemma LoadInPages(mem: seq<byte>, addr: nat, d: seq<byte>, k: nat)
    requires |mem| == MEM_SIZE && addr < MEM_SIZE && addr % PAGE_SIZE + |d| <= PAGE_SIZE && k < PAGE_COUNT
    ensures addr + |d| <= MEM_SIZE
    ensures PageBytes(WriteAt(mem, addr, d), k) ==
            if k == addr / PAGE_SIZE then WriteAt(PageBytes(mem, k), addr % PAGE_SIZE, d) else PageBytes(mem, k)
  {
    hide WriteAt;
    PageRange(addr);
    WriteAtSlice(mem, k * PAGE_SIZE, k * PAGE_SIZE + PAGE_SIZE, addr, d);
  }

  /** A node that page `k` is not below does not depend on it. */
  lemma OtherPagesDecide(K: Hasher, mem: seq<byte>, mem': seq<byte>, k: nat, g: nat)
    requires |mem| == |mem'| == MEM_SIZE && 1 <= g < PAGE_COUNT && !OnPath(PAGE_COUNT + k, g)
    requires forall j :: 0 <= j < PAGE_COUNT && j != k ==> PageBytes(mem', j) == PageBytes(mem, j)
    ensures BitLen(g) <= 28 && MemNode(K, mem, g) == MemNode(K, mem', g)
  {
    hide OnPath, TreeHash, Pow2, Span, NodeLo, Ancestor, PageBytes, BitLen;
    MemSpan();
    PathOfPage(g, 0);
    var h := 28 - BitLen(g);
    NodeFits(MEM_DEPTH, g, h);
    var lo, s, s' := NodeLo(MEM_DEPTH, g, h), NodeSlice(mem, MEM_DEPTH, g, h), NodeSlice(mem', MEM_DEPTH, g, h);
    forall i | 0 <= i < Span(h) ensures s[i] == s'[i] {
      BelowIffAncestor(MEM_DEPTH, g, h, lo + i);
      PathOfPage(g, lo + i);
      ByteInPage(mem, lo + i);
      ByteInPage(mem', lo + i);
    }
    assert s == s';
  }

  /** `t'` is `t` after a load: bytes in one page replaced and all marks of that page cleared, but no hash above it. */
  ghost predicate Loaded(t: MemView, t': MemView, addr: nat, d: seq<byte>)
    requires |t.mem| == MEM_SIZE && addr < MEM_SIZE && addr / PAGE_SIZE in t.pages
    requires addr % PAGE_SIZE + |d| <= PAGE_SIZE && addr + |d| <= MEM_SIZE && |t.pages[addr / PAGE_SIZE].data| == PAGE_SIZE
  {
    && t'.mem == WriteAt(t.mem, addr, d) && t'.nodes == t.nodes
    && addr / PAGE_SIZE in t'.pages && t'.pages == t.pages[addr / PAGE_SIZE := t'.pages[addr / PAGE_SIZE]]
    && t'.pages[addr / PAGE_SIZE].data == WriteAt(t.pages[addr / PAGE_SIZE].data, addr % PAGE_SIZE, d)
    && t'.pages[addr / PAGE_SIZE].cache == t.pages[addr / PAGE_SIZE].cache && Unmarked(t'.pages[addr / PAGE_SIZE].ok)
  }

  /** The contents are right after a load in any case. */
  lemma LoadKeepsPages(K: Hasher, t: MemView, t': MemView, addr: nat, d: seq<byte>)
    requires t.Inv(K) && addr < MEM_SIZE && addr / PAGE_SIZE in t.pages
    requires addr % PAGE_SIZE + |d| <= PAGE_SIZE && addr + |d| <= MEM_SIZE && Loaded(t, t', addr, d)
    ensures t'.PagesOk(K) && t'.PathsExist()
    ensures forall k :: 0 <= k < PAGE_COUNT && k != addr / PAGE_SIZE ==> PageBytes(t'.mem, k) == PageBytes(t.mem, k)
  {
    hide MemNode, PageBytes, OnPath, BitLen, PageNode, TreeHash, Span, WriteAt;
    forall k | 0 <= k < PAGE_COUNT
      ensures PageBytes(t'.mem, k) ==
              if k == addr / PAGE_SIZE then WriteAt(PageBytes(t.mem, k), addr % PAGE_SIZE, d) else PageBytes(t.mem, k)
    {
      LoadInPages(t.mem, addr, d, k);
    }
  }

  /** A load keeps the tree right exactly if no hash above the page is cached. */
  lemma LoadKeepsInvIff(K: Hasher, t: MemView, t': MemView, addr: nat, d: seq<byte>)
    requires t.Inv(K) && addr < MEM_SIZE && addr / PAGE_SIZE in t.pages
    requires addr % PAGE_SIZE + |d| <= PAGE_SIZE && addr + |d| <= MEM_SIZE && Loaded(t, t', addr, d)
    ensures t'.Inv(K) <==> Cold(t, addr / PAGE_SIZE)
  {
    hide MemNode, PageBytes, OnPath, BitLen, PageNode, TreeHash, Span, WriteAt;
    var k := addr / PAGE_SIZE;
    LoadKeepsPages(K, t, t', addr, d);
    assert !t'.pages[k].ok[1];
    assert forall g :: t'.Cached(g) <==> t.Cached(g);
    if Cold(t, k) {
      forall g | t'.Cached(g) ensures 1 <= g && BitLen(g) <= 28 && t'.nodes[g].value == MemNode(K, t'.mem, g) {
        assert t.Cached(g) && !OnPath(PAGE_COUNT + k, g);
        OtherPagesDecide(K, t.mem, t'.mem, k, g);
      }
      assert t'.HashesOk(K);
      forall g, l | t'.Cached(g) && l in t'.pages && OnPath(PAGE_COUNT + l, g) ensures t'.pages[l].ok[1] {
        assert t.Cached(g) && l != k;
      }
    }
  }

  /** Otherwise a cached hash above the page stays that of the contents before the load, so the root can be wrong. */
  lemma LoadLeavesHash(K: Hasher, t: MemView, t': MemView, addr: nat, d: seq<byte>, g: nat)
    requires t.Inv(K) && addr < MEM_SIZE && addr / PAGE_SIZE in t.pages
    requires addr % PAGE_SIZE + |d| <= PAGE_SIZE && addr + |d| <= MEM_SIZE && Loaded(t, t', addr, d)
    requires t.Cached(g)
    ensures |t'.mem| == MEM_SIZE && t'.Cached(g) && 1 <= g && BitLen(g) <= 28 && t'.nodes[g].value == MemNode(K, t.mem, g)
    ensures t'.nodes[g].value == MemNode(K, t'.mem, g) <==> MemNode(K, t.mem, g) == MemNode(K, t'.mem, g)
  {
    hide MemNode, BitLen, WriteAt;
  }

  /** Bytes written one after the other, around the end of the address space. */
  function Written(mem: seq<byte>, addr: uint32, d: seq<byte>): (r: seq<byte>)
    requires |mem| == MEM_SIZE
    ensures |r| == MEM_SIZE
    decreases |d|
  {
    if d == [] then mem else Written(mem[addr := d[0]], Wrap32(addr + 1), d[1..])
  }

  lemma {:induction false} WrittenInOne(mem: seq<byte>, addr: uint32, d: seq<byte>)
    requires |mem| == MEM_SIZE && addr + |d| <= MEM_SIZE
    ensures Written(mem, addr, d) == WriteAt(mem, addr, d)
    decreases |d|
  {
    if d == [] {
      assert mem[..addr] + [] + mem[addr..] == mem;
    } else {
      WriteOneMore(mem, addr, d);
      if |d| == 1 {
        assert Written(mem[addr := d[0]], Wrap32(addr + 1), d[1..]) == mem[addr := d[0]];
        assert mem[addr := d[0]] == mem[..addr] + d + mem[addr + 1..];
      } else {
        hide WriteAt;
        WrittenInOne(mem[addr := d[0]], addr + 1, d[1..]);
      }
    }
  }

  lemma WriteOneMore(mem: seq<byte>, addr: nat, d: seq<byte>)
    requires d != [] && addr + |d| <= |mem|
    ensures WriteAt(mem[addr := d[0]], addr + 1, d[1..]) == WriteAt(mem, addr, d)
  {
    var m := mem[addr := d[0]];
    assert m[..addr + 1] == mem[..addr] + [d[0]];
    assert [d[0]] + d[1..] == d;
    assert m[addr + |d|..] == mem[addr + |d|..];
  }

  lemma {:induction false} WrittenSplit(mem: seq<byte>, addr: uint32, a: seq<byte>, b: seq<byte>)
    requires |mem| == MEM_SIZE
    ensures Written(mem, addr, a + b) == Written(Written(mem, addr, a), Wrap32(addr + |a|), b)
    decreases |a|
  {
    WrapNone(addr);
    if a != [] {
      WrapStep(addr + 1, |a| - 1);
    }
    hide Wrap32;
    if a == [] {
      assert a + b == b;
    } else {
      assert (a + b)[1..] == a[1..] + b;
      WrittenSplit(mem[addr := a[0]], Wrap32(addr + 1), a[1..], b);
    }
  }

  lemma WrapNone(addr: uint32)
    ensures Wrap32(addr) == addr && Wrap32(addr + 0) == addr
  {
  }

  // ----- computing hashes only fills caches -----

  /** `t'` is `t` with more caches filled. */
  ghost predicate Warmed(t: MemView, t': MemView) {
    && t'.mem == t.mem && t'.nodes.Keys == t.nodes.Keys && t'.pages.Keys == t.pages.Keys
    && forall k :: k in t.pages && |t.pages[k].ok| == 128 && t.pages[k].ok[1] ==>
                     |t'.pages[k].ok| == 128 && t'.pages[k].ok[1]
  }

  lemma WarmedTransitive(t: MemView, t1: MemView, t2: MemView)
    requires Warmed(t, t1) && Warmed(t1, t2)
    ensures Warmed(t, t2)
  {
  }

  lemma BelowPageCount(g: nat)
    requires 1 <= g && BitLen(g) <= 20
    ensures g < PAGE_COUNT
  {
    MemSpan();
    BitLenBounds(g);
    Pow2Monotone(BitLen(g), 20);
  }

  lemma BothChildrenCached(t: MemView, t': MemView, g: nat)
    requires g < PAGE_COUNT && Warmed(t, t')
    requires t.RootsCached(2 * g) && t'.RootsCached(2 * g + 1)
    ensures t'.RootsCached(g)
  {
    forall k | k in t'.pages && OnPath(PAGE_COUNT + k, g)
      ensures |t'.pages[k].ok| == 128 && t'.pages[k].ok[1]
    {
      PathThroughChild(PAGE_COUNT + k, g);
    }
  }

  /** Below page level, no page lies under a node, and at page level only the page itself. */
  lemma PageNodesOnPath(t: MemView, g: nat, d: nat)
    requires d <= 7 && BitLen(g) == 21 + d
    requires forall k :: k in t.pages ==> k < PAGE_COUNT
    ensures forall k :: k in t.pages && OnPath(PAGE_COUNT + k, g) ==> d == 0 && k == g - PAGE_COUNT
  {
    MemSpan();
    BitLenBounds(g);
    forall k | k in t.pages && OnPath(PAGE_COUNT + k, g) ensures d == 0 && k == g - PAGE_COUNT {
      OnPathBounds(PAGE_COUNT + k, g);
      assert Pow2(21) == 2 * PAGE_COUNT;
      if d > 0 { Pow2Monotone(21, 20 + d); }
      if g != PAGE_COUNT + k {
        OnPathBounds((PAGE_COUNT + k) / 2, g);
      }
    }
  }

  /** After a page has filled its cache, its node is the memory node. */
  lemma FilledPageNode(K: Hasher, t: MemView, t': MemView, g: nat, d: nat)
    requires t.Inv(K) && d <= 7 && BitLen(g) == 21 + d
    requires var k := PageOf(g, d);
             && k in t.pages && k in t'.pages && t' == t.(pages := t.pages[k := t'.pages[k]])
             && t'.pages[k].Sound(K) && t'.pages[k].data == t.pages[k].data && t'.pages[k].ok[1]
    ensures t'.Inv(K) && Warmed(t, t') && t'.RootsCached(g)
    ensures 1 <= IndexInSubtree(g, d) < 256
    ensures PageNode(K, t'.pages[PageOf(g, d)].data, IndexInSubtree(g, d)) == MemNode(K, t.mem, g)
  {
    hide PageOf, IndexInSubtree, MemNode, PageBytes, OnPath, BitLen, PageNode, TreeHash, Span;
    FillKeepsInv(K, t, PageOf(g, d), t'.pages[PageOf(g, d)]);
    PageIndices(g, d);
    PageSubtree(K, t.mem, g, d);
    PageNodesOnPath(t', g, d);
    forall l | l in t'.pages && OnPath(PAGE_COUNT + l, g) ensures |t'.pages[l].ok| == 128 && t'.pages[l].ok[1] {
      assert l == PageOf(g, d);
    }
  }

  lemma AbsentPageNode(K: Hasher, t: MemView, g: nat, d: nat)
    requires t.Inv(K) && d <= 7 && BitLen(g) == 21 + d && PageOf(g, d) !in t.pages
    ensures t.RootsCached(g)
    ensures MemNode(K, t.mem, g) == ZeroHash(K, 7 - d)
  {
    hide PageOf, IndexInSubtree, MemNode, PageBytes, OnPath, BitLen, PageNode, TreeHash, Span;
    PageIndices(g, d);
    PageSubtree(K, t.mem, g, d);
    PageNodesOnPath(t, g, d);
    ZeroPageNode(K, IndexInSubtree(g, d));
  }

  /** A node without an entry has no page below it. */
  lemma AbsentNode(K: Hasher, t: MemView, g: nat)
    requires t.Inv(K) && 1 <= g < PAGE_COUNT && g !in t.nodes
    ensures t.RootsCached(g)
    ensures BitLen(g) <= 20 && MemNode(K, t.mem, g) == ZeroHash(K, 28 - BitLen(g))
  {
    EmptySubtree(K, t.mem, t.pages.Keys, g);
  }

  // ----- branches -----

  /** The branch of `addr` in the tree over the whole memory. */
  function MemProof(K: Hasher, mem: seq<byte>, addr: nat): (proof: seq<Bytes32>)
    requires |mem| == MEM_SIZE && addr < MEM_SIZE
    ensures |proof| == 28
  {
    MemSpan();
    ProofOf(K, mem, MEM_DEPTH, addr)
  }

  lemma {:induction false} SpanPow(h: nat)
    ensures Span(h) == Pow2(h + 5)
  {
    if h == 0 {
      assert Pow2(5) == 32;
    } else {
      SpanPow(h - 1);
    }
  }

  lemma RootAncestor(addr: nat)
    requires addr < MEM_SIZE
    ensures Ancestor(MEM_DEPTH, addr, MEM_DEPTH) == 1
  {
    MemSpan();
  }

  lemma BranchLeaf(K: Hasher, mem: seq<byte>, addr: nat)
    requires |mem| == MEM_SIZE && addr < MEM_SIZE
    ensures var leaf := Ancestor(MEM_DEPTH, addr, 0);
            && 1 <= leaf && BitLen(leaf) == 28
            && MemProof(K, mem, addr)[..1] == [MemNode(K, mem, leaf)]
  {
    MemSpan();
    AncestorIsNode(MEM_DEPTH, addr, 0);
    HeightIsBitLen(MEM_DEPTH, Ancestor(MEM_DEPTH, addr, 0), 0);
    assert MemProof(K, mem, addr)[0] == ProofEntry(K, mem, MEM_DEPTH, addr, 0);
  }

  /** The walk from the root to a leaf takes the right child where the address bit is set. */
  lemma BranchTurn(addr: nat, depth: nat)
    requires addr < MEM_SIZE && depth < 27
    ensures var h, right := 26 - depth, (addr / Pow2(31 - depth)) % 2 != 0;
            var parent := Ancestor(MEM_DEPTH, addr, h + 1);
            && Ancestor(MEM_DEPTH, addr, h) == (if right then 2 * parent + 1 else 2 * parent)
            && Sibling(Ancestor(MEM_DEPTH, addr, h)) == (if right then 2 * parent else 2 * parent + 1)
  {
    hide Pow2, Span, Ancestor;
    MemSpan();
    SpanPow(26 - depth);
    BranchIndices(MEM_DEPTH, addr, 26 - depth);
  }

  lemma BranchStep(K: Hasher, mem: seq<byte>, addr: nat, depth: nat)
    requires |mem| == MEM_SIZE && addr < MEM_SIZE && depth < 27
    ensures var parent := Ancestor(MEM_DEPTH, addr, 27 - depth);
            var right := (addr / Pow2(31 - depth)) % 2 != 0;
            var self := if right then 2 * parent + 1 else 2 * parent;
            var sibling := if right then 2 * parent else 2 * parent + 1;
            && self == Ancestor(MEM_DEPTH, addr, 26 - depth)
            && 1 <= sibling && BitLen(sibling) <= 28
            && MemProof(K, mem, addr)[27 - depth] == MemNode(K, mem, sibling)
  {
    hide Pow2, Span, BitLen, Ancestor, Sibling, MemProof, MemNode;
    BranchTurn(addr, depth);
    ProofEntryIsNode(K, mem, addr, 26 - depth);
  }

  lemma TakeOneMore(p: seq<Bytes32>, n: nat)
    requires n < |p|
    ensures p[..n + 1] == p[..n] + [p[n]]
  {
  }

  lemma ProofEntryIsNode(K: Hasher, mem: seq<byte>, addr: nat, h: nat)
    requires |mem| == MEM_SIZE && addr < MEM_SIZE && h < MEM_DEPTH
    ensures var sibling := Sibling(Ancestor(MEM_DEPTH, addr, h));
            1 <= sibling && BitLen(sibling) <= 28 && MemProof(K, mem, addr)[h + 1] == MemNode(K, mem, sibling)
  {
    MemSpan();
    AncestorIsNode(MEM_DEPTH, addr, h);
    SiblingIsNode(MEM_DEPTH, Ancestor(MEM_DEPTH, addr, h), h);
    HeightIsBitLen(MEM_DEPTH, Sibling(Ancestor(MEM_DEPTH, addr, h)), h);
    assert MemProof(K, mem, addr)[h + 1] == ProofEntry(K, mem, MEM_DEPTH, addr, h + 1);
  }

  /** The leaf a branch starts with holds the word at `addr`. */
  function WordInLeaf(leaf: Bytes32, addr: nat): uint32
    requires addr % 4 == 0
  {
    Word(leaf[addr % 32..addr % 32 + 4])
  }

  function StoreInLeaf(leaf: Bytes32, addr: nat, v: uint32): Bytes32
    requires addr % 4 == 0
  {
    StoreWord(leaf, addr % 32, v)
  }

  /** A branch proves the word at an aligned address against the root of the memory. */
  lemma MemProofCorrect(K: Hasher, mem: seq<byte>, addr: nat)
    requires |mem| == MEM_SIZE && addr < MEM_SIZE && addr % 4 == 0
    ensures Fold(K, addr, MemProof(K, mem, addr)) == MemRoot(K, mem)
    ensures WordInLeaf(MemProof(K, mem, addr)[0], addr) == LoadWord(mem, addr)
  {
    MemSpan();
    ProofFoldsToRoot(K, mem, MEM_DEPTH, addr);
    LeafIsProofHead(K, mem, MEM_DEPTH, addr);
    LeafRange(|mem|, addr);
    SliceOfSlice(mem, addr / 32 * 32, addr / 32 * 32 + 32, addr % 32, addr % 32 + 4);
  }

  /** The same siblings, folded over the leaf with its word replaced, give the root after the store. */
  lemma MemProofAfterStore(K: Hasher, mem: seq<byte>, addr: nat, v: uint32)
    requires |mem| == MEM_SIZE && addr < MEM_SIZE && addr % 4 == 0
    ensures var proof := MemProof(K, mem, addr);
            Fold(K, addr, [StoreInLeaf(proof[0], addr, v)] + proof[1..]) == MemRoot(K, StoreWord(mem, addr, v))
  {
    MemSpan();
    var mem' := StoreWord(mem, addr, v);
    StoreWordInLeaf(mem, addr, v);
    RefoldGivesNewRoot(K, mem, mem', MEM_DEPTH, addr);
    LeafIsProofHead(K, mem, MEM_DEPTH, addr);
    LeafAfterStore(mem, addr, v);
  }

  lemma LeafAfterStore(mem: seq<byte>, addr: nat, v: uint32)
    requires |mem| % 32 == 0 && addr < |mem| && addr % 4 == 0
    ensures LeafOf(StoreWord(mem, addr, v), addr) == StoreInLeaf(LeafOf(mem, addr), addr, v)
  {
    LeafRange(|mem|, addr);
    StoreInSlice(mem, addr / 32 * 32, addr / 32 * 32 + 32, addr, v);
  }

  lemma LeafRange(n: nat, addr: nat)
    requires n % 32 == 0 && addr < n && addr % 4 == 0
    ensures addr - addr / 32 * 32 == addr % 32 <= 28 && addr / 32 * 32 + 32 <= n
  {
    LeafRemainder(addr);
    LeafFits(n, addr);
  }

  lemma LeafRemainder(addr: nat)
    requires addr % 4 == 0
    ensures addr - addr / 32 * 32 == addr % 32 <= 28
  {
    var s := addr / 4;
    RemainderUnique(addr, 32, s / 8, 4 * (s % 8));
  }

  lemma LeafFits(n: nat, addr: nat)
    requires n % 32 == 0 && addr < n
    ensures addr / 32 * 32 + 32 <= n
  {
    DivMod(n, 32, n / 32);
    DivMod(addr, 32, addr / 32);
  }

  /** Whoever accepts a branch for the root of `mem` accepts the one branch of `mem` and its word,
      or holds two inputs with the same hash. */
  lemma MemProofBinding(K: Hasher, mem: seq<byte>, addr: nat, proof: seq<Bytes32>)
    returns (x: seq<byte>, y: seq<byte>)
    requires |mem| == MEM_SIZE && addr < MEM_SIZE && addr % 4 == 0 && |proof| == 28
    requires Fold(K, addr, proof) == MemRoot(K, mem)
    ensures (proof == MemProof(K, mem, addr) && WordInLeaf(proof[0], addr) == LoadWord(mem, addr)) || (x != y && K(x) == K(y))
  {
    MemSpan();
    x, y := ProofBinding(K, mem, MEM_DEPTH, addr, proof);
    MemProofCorrect(K, mem, addr);
  }

  // ----- ranges -----

  /** `count` bytes from `addr` on, wrapping around the address space. */
  function RangeBytes(mem: seq<byte>, addr: uint32, count: nat): (b: seq<byte>)
    requires |mem| == MEM_SIZE
    ensures |b| == count
  {
    seq(count, i requires 0 <= i < count => mem[(addr + i) % MEM_SIZE])
  }

  /** Reading on from where a range ends. */
  lemma RangeSplit(mem: seq<byte>, addr: uint32, n: nat, count: nat)
    requires |mem| == MEM_SIZE && n <= count
    ensures RangeBytes(mem, addr, count) == RangeBytes(mem, addr, n) + RangeBytes(mem, Wrap32(addr + n), count - n)
  {
    var all, tail := RangeBytes(mem, addr, count), RangeBytes(mem, Wrap32(addr + n), count - n);
    forall i | n <= i < count ensures all[i] == tail[i - n] {
      WrapStep(addr + n, i - n);
    }
  }

  lemma WrapStep(x: nat, i: nat)
    ensures (Wrap32(x) + i) % MEM_SIZE == (x + i) % MEM_SIZE
  {
  }

  /** A range inside one page. */
  lemma RangeInPage(mem: seq<byte>, addr: uint32, n: nat)
    requires |mem| == MEM_SIZE && addr % PAGE_SIZE + n <= PAGE_SIZE
    ensures RangeBytes(mem, addr, n) == PageBytes(mem, addr / PAGE_SIZE)[addr % PAGE_SIZE..addr % PAGE_SIZE + n]
  {
    PageRange(addr);
    var lo := addr / PAGE_SIZE * PAGE_SIZE;
    SliceOfSlice(mem, lo, lo + PAGE_SIZE, addr - lo, addr - lo + n);
    assert RangeBytes(mem, addr, n) == mem[addr..addr + n];
  }
}
