/** The sparse 32-bit memory of the VM and its incrementally maintained Merkle tree
    (cannon/mipsevm/memory.go). */
module PagedMemory {
  import opened Words
  import opened Merkle
  import opened Arithmetic
  import opened Pages
  import opened MemoryTree

  class Memory {
    const keccak: Hasher
    const zeroHashes: seq<Bytes32>
    // generalized index -> hash, or None if invalidated
    var nodes: map<nat, Option<Bytes32>>
    var pages: map<nat, CachedPage>
    // the two most recently used pages
    var lastPageKeys: seq<uint32>
    var lastPage: seq<CachedPage?>

    /** The flat, zero-extended contents of the address space. */
    ghost var mem: seq<byte>

    ghost function View(): MemView
      reads this, pages.Values
    {
      MemView(mem, nodes, map k | k in pages :: pages[k].View())
    }

    ghost predicate ZeroHashesOk() {
      && |zeroHashes| == 256
      && forall h :: 0 <= h < 256 ==> zeroHashes[h] == ZeroHash(keccak, h)
    }

    /** Pages are distinct objects, and the two-slot lookup cache agrees with the page table. */
    ghost predicate Shape()
      reads this
    {
      && (forall k, l :: k in pages && l in pages && k != l ==> pages[k] != pages[l])
      && |lastPageKeys| == 2 && |lastPage| == 2
      && (forall i :: 0 <= i < 2 && lastPageKeys[i] != NO_KEY ==>
                        lastPageKeys[i] in pages && lastPage[i] == pages[lastPageKeys[i]])
    }

    ghost predicate Valid()
      reads this, pages.Values
      ensures Valid() ==> |mem| == MEM_SIZE
    {
      ZeroHashesOk() && Shape() && View().Inv(keccak)
    }

    constructor (K: Hasher)
      ensures Valid() && pages == map[]
      ensures keccak == K && mem == Zeros(MEM_SIZE) && forall k :: Cold(View(), k)
    {
      keccak := K;
      var z := ZeroHashes(K);
      zeroHashes := z;
      nodes, pages := map[], map[];
      lastPageKeys, lastPage := [NO_KEY, NO_KEY], [null, null];
      mem := Zeros(MEM_SIZE);
    }

    /** Finds a page through the two-slot cache, moving it to the front on a miss. */
    method PageLookup(pageIndex: nat) returns (p: CachedPage?, ok: bool)
      requires Shape() && pageIndex < PAGE_COUNT
      modifies this`lastPageKeys, this`lastPage
      ensures Shape() && View() == old(View())
      ensures ok == (pageIndex in pages)
      ensures ok ==> p == pages[pageIndex] && View().pages[pageIndex] == p.View()
    {
      if pageIndex == lastPageKeys[0] {
        return lastPage[0], true;
      }
      if pageIndex == lastPageKeys[1] {
        return lastPage[1], true;
      }
      ok := pageIndex in pages;
      p := if ok then pages[pageIndex] else null;
      if ok {
        lastPageKeys := [pageIndex, lastPageKeys[0]];
        lastPage := [p, lastPage[0]];
      }
    }

    /** Marks node `k` and everything above it as invalid, creating missing entries. */
    method ClearPath(k: nat)
      modifies this`nodes
      ensures PathCleared(old(nodes), nodes, k)
      ensures View() == old(View()).(nodes := nodes)
    {
      var i := k;
      while i > 0
        invariant forall g :: OnPath(i, g) ==> OnPath(k, g)
        invariant forall g :: OnPath(k, g) && !OnPath(i, g) ==> g in nodes && nodes[g].None?
        invariant forall g :: !OnPath(k, g) ==>
                                (g in nodes <==> g in old(nodes)) && (g in nodes ==> nodes[g] == old(nodes)[g])
      {
        nodes := nodes[i := None];
        i := i / 2;
      }
    }

    method NewPage(pageIndex: nat) returns (p: CachedPage)
      requires Shape() && pageIndex !in pages
      modifies this`pages
      ensures Shape() && fresh(p) && pages == old(pages)[pageIndex := p]
      ensures View() == old(View()).(pages := old(View()).pages[pageIndex := EMPTY_PAGE])
    {
      p := new CachedPage();
      pages := pages[pageIndex := p];
      assert View().pages == old(View()).pages[pageIndex := EMPTY_PAGE];
    }

    method InvalidatePage(pageIndex: nat, pageAddr: nat)
      requires Shape() && pageIndex in pages && |pages[pageIndex].Ok| == 128 && pageAddr < PAGE_SIZE
      modifies pages[pageIndex]
      ensures old(View()).pages[pageIndex].InvalidatedTo(View().pages[pageIndex], pageAddr)
      ensures View() == old(View()).(pages := old(View()).pages[pageIndex := View().pages[pageIndex]])
    {
      pages[pageIndex].Invalidate(pageAddr);
      assert View().pages == old(View()).pages[pageIndex := View().pages[pageIndex]];
    }

    /** Adds an all-zero page and invalidates every node above it. */
    method AllocPage(pageIndex: nat) returns (p: CachedPage)
      requires Shape() && pageIndex !in pages
      modifies this`nodes, this`pages
      ensures Shape() && fresh(p) && pages == old(pages)[pageIndex := p]
      ensures View() == MemView(old(mem), nodes, old(View()).pages[pageIndex := EMPTY_PAGE])
      ensures PathCleared(old(nodes), nodes, PAGE_COUNT + pageIndex)
    {
      p := NewPage(pageIndex);
      ClearPath(PAGE_COUNT + pageIndex);
    }

    /** Invalidates the branch of `addr`; stops at the page if that was invalid already. */
    method Invalidate(addr: nat)
      requires Shape() && addr < MEM_SIZE && addr % 4 == 0
      requires addr / PAGE_SIZE in pages ==> |pages[addr / PAGE_SIZE].Ok| == 128
      modifies this`nodes, this`lastPageKeys, this`lastPage, pages.Values
      ensures Shape() && pages == old(pages)
      ensures if addr / PAGE_SIZE in pages then Invalidated(old(View()), View(), addr) else View() == old(View())
    {
      var p, ok := PageLookup(addr / PAGE_SIZE);
      if !ok {
        return;
      }
      var prevValid := p.Ok[1];
      InvalidatePage(addr / PAGE_SIZE, addr % PAGE_SIZE);
      if !prevValid {
        return;
      }
      var gindex := (MEM_SIZE + addr) / PAGE_SIZE;
      assert gindex == PAGE_COUNT + addr / PAGE_SIZE;
      ClearPath(gindex);
    }

    method WritePage(addr: nat, v: uint32)
      requires Shape() && addr / PAGE_SIZE in pages && addr + 4 <= |mem|
      requires addr % PAGE_SIZE + 4 <= |pages[addr / PAGE_SIZE].Data|
      modifies this`mem, pages[addr / PAGE_SIZE]
      ensures Shape()
      ensures var k, p := addr / PAGE_SIZE, old(View()).pages[addr / PAGE_SIZE];
              View() == MemView(StoreWord(old(mem), addr, v), old(nodes),
                                old(View()).pages[k := p.(data := StoreWord(p.data, addr % PAGE_SIZE, v))])
    {
      var p := pages[addr / PAGE_SIZE];
      p.Data := StoreWord(p.Data, addr % PAGE_SIZE, v);
      mem := StoreWord(mem, addr, v);
      assert View().pages == old(View()).pages[addr / PAGE_SIZE := p.View()];
    }

    /** The first half of a store: the page exists and nothing above `addr` is cached any more. */
    method OpenBranch(addr: nat)
      requires Valid() && addr < MEM_SIZE && addr % 4 == 0
      modifies this`nodes, this`pages, this`lastPageKeys, this`lastPage, pages.Values
      ensures Valid() && fresh(pages.Values - old(pages.Values))
      ensures addr / PAGE_SIZE in pages && View().StaleAt(addr)
    {
      var pageIndex := addr / PAGE_SIZE;
      ghost var t := View();
      var p, ok := PageLookup(pageIndex);
      if !ok {
        p := AllocPage(pageIndex);
        AllocKeepsInv(keccak, t, View(), pageIndex);
        FreshPageStale(View(), addr);
      } else {
        Invalidate(addr);
        InvalidateKeepsInv(keccak, t, View(), addr);
      }
    }

    /** Stores a word: the contents change by exactly these four bytes. */
    method SetMemory(addr: nat, v: uint32)
      requires Valid() && addr < MEM_SIZE && addr % 4 == 0
      modifies this, pages.Values
      ensures Valid() && fresh(pages.Values - old(pages.Values))
      ensures mem == StoreWord(old(mem), addr, v)
    {
      OpenBranch(addr);
      ghost var t := View();
      PageWord(t.mem, addr);
      assert t.pages[addr / PAGE_SIZE] == pages[addr / PAGE_SIZE].View();
      WritePage(addr, v);
      WriteKeepsInv(keccak, t, View(), addr, v);
    }

    /** Fills part of a page and drops its cache. */
    method LoadPage(addr: nat, d: seq<byte>)
      requires Shape() && addr / PAGE_SIZE in pages && addr < |mem| == MEM_SIZE && addr + |d| <= |mem|
      requires addr % PAGE_SIZE + |d| <= PAGE_SIZE == |pages[addr / PAGE_SIZE].Data|
      modifies this`mem, pages[addr / PAGE_SIZE]
      ensures Shape() && Loaded(old(View()), View(), addr, d)
    {
      var p := pages[addr / PAGE_SIZE];
      p.InvalidateFull();
      p.Data := WriteAt(p.Data, addr % PAGE_SIZE, d);
      mem := WriteAt(mem, addr, d);
      assert View().pages == old(View()).pages[addr / PAGE_SIZE := p.View()];
    }

    /** The page of `addr`, allocated if need be. */
    method OpenPage(addr: nat)
      requires Valid() && addr < MEM_SIZE
      modifies this`nodes, this`pages, this`lastPageKeys, this`lastPage
      ensures Valid() && mem == old(mem) && fresh(pages.Values - old(pages.Values))
      ensures addr / PAGE_SIZE in pages && Fewer(old(View()), View())
    {
      ghost var t := View();
      var p, ok := PageLookup(addr / PAGE_SIZE);
      if !ok {
        p := AllocPage(addr / PAGE_SIZE);
        AllocKeepsInv(keccak, t, View(), addr / PAGE_SIZE);
        AllocCachesFewer(t, View(), addr / PAGE_SIZE);
      }
    }

    /** Loads everything a reader holds, from `addr` on; the k-th read delivers at most `1 + limit(k)` bytes. No hash may
        be cached above a page that is opened, which includes the page after the last byte. */
    method SetMemoryRange(addr: uint32, data: seq<byte>, limit: nat -> nat)
      requires Valid() && Loadable(View(), addr, |data|)
      modifies this, pages.Values
      ensures Valid() && fresh(pages.Values - old(pages.Values)) && Fewer(old(View()), View())
      ensures mem == Written(old(mem), addr, data)
    {
      hide Valid, Written, Cold, Loadable, Fewer;
      var at: uint32, rest, k := addr, data, 0;
      ghost var t := View();
      SameCached(t);
      while true
        invariant Valid() && fresh(pages.Values - old(pages.Values)) && |mem| == MEM_SIZE == |old(mem)|
        invariant Fewer(t, View()) && Loadable(View(), at, |rest|)
        invariant Written(mem, at, rest) == Written(old(mem), addr, data)
        decreases |rest|
      {
        ghost var before := View();
        OpenPage(at);
        FewerTransitive(t, before, View());
        FewerLoadable(before, View(), at, |rest|);
        var n := if rest == [] then 0 else Least(PAGE_SIZE - at % PAGE_SIZE, |rest|, 1 + limit(k));
        NextChunk(mem, at, rest, n);
        ghost var atOpen := View();
        FirstPageCold(atOpen, at, |rest|);
        LoadChunk(at, rest[..n]);
        if rest == [] {
          FewerTransitive(t, atOpen, View());
          NothingWritten(atOpen.mem, at);
          NothingWritten(mem, Wrap32(at + n));
          return;
        }
        FewerTransitive(t, atOpen, View());
        FewerLoadable(atOpen, View(), at, |rest|);
        LoadableRest(View(), at, |rest|, n);
        at, rest, k := Wrap32(at + n), rest[n..], k + 1;
      }
    }

    method LoadChunk(at: uint32, d: seq<byte>)
      requires Valid() && Cold(View(), at / PAGE_SIZE) && at / PAGE_SIZE in pages && at % PAGE_SIZE + |d| <= PAGE_SIZE
      modifies this`mem, pages.Values
      ensures Valid() && pages == old(pages) && Fewer(old(View()), View()) && mem == Written(old(mem), at, d)
    {
      hide Cold;
      ghost var t := View();
      LoadInPages(mem, at, d, at / PAGE_SIZE);
      assert t.pages[at / PAGE_SIZE] == pages[at / PAGE_SIZE].View();
      LoadPage(at, d);
      LoadKeepsInvIff(keccak, t, View(), at, d);
      WrittenInOne(t.mem, at, d);
    }

    method GetMemory(addr: nat) returns (v: uint32)
      requires Valid() && addr < MEM_SIZE && addr % 4 == 0
      modifies this`lastPageKeys, this`lastPage
      ensures Valid() && View() == old(View())
      ensures v == LoadWord(mem, addr)
    {
      var p, ok := PageLookup(addr / PAGE_SIZE);
      PageWord(View().mem, addr);
      if !ok {
        WordOf(mem[addr..addr + 4]);
        return 0;
      }
      var pageAddr := addr % PAGE_SIZE;
      return Word(p.Data[pageAddr..pageAddr + 4]);
    }

    method FillPage(pageIndex: nat, pageGindex: nat) returns (hash: Bytes32)
      requires Shape() && pageIndex in pages && pages[pageIndex].View().Sound(keccak)
      requires 1 <= pageGindex < 256
      modifies pages[pageIndex]
      ensures var v := View().pages[pageIndex];
              && View() == old(View()).(pages := old(View()).pages[pageIndex := v])
              && v.Sound(keccak) && v.data == old(View()).pages[pageIndex].data && v.ok[1]
              && hash == PageNode(keccak, v.data, pageGindex)
    {
      hash := pages[pageIndex].MerkleizeSubtree(keccak, pageGindex);
      assert View().pages == old(View()).pages[pageIndex := pages[pageIndex].View()];
    }

    /** A node at or below page level, computed by its page. */
    method MerkleizePage(gindex: nat) returns (hash: Bytes32)
      requires Valid() && 20 < BitLen(gindex) <= 28
      modifies pages.Values
      ensures Valid() && pages == old(pages)
      ensures Warmed(old(View()), View()) && View().RootsCached(gindex)
      ensures hash == MemNode(keccak, mem, gindex)
    {
      hide MemNode, PageNode, TreeHash, Span, OnPath, BitLen, PageOf, IndexInSubtree, PageBytes;
      var l := BitLen(gindex);
      var depthIntoPage := l - 1 - 20;
      var pageIndex := PageOf(gindex, depthIntoPage);
      ghost var t := View();
      PageIndices(gindex, depthIntoPage);
      if pageIndex in pages {
        var pageGindex := IndexInSubtree(gindex, depthIntoPage);
        assert t.pages[pageIndex] == pages[pageIndex].View();
        hash := FillPage(pageIndex, pageGindex);
        FilledPageNode(keccak, t, View(), gindex, depthIntoPage);
      } else {
        hash := zeroHashes[28 - l];
        AbsentPageNode(keccak, t, gindex, depthIntoPage);
        assert View() == t;
      }
    }

    method StoreNode(gindex: nat, hash: Bytes32)
      requires Valid() && gindex in nodes && gindex < PAGE_COUNT && BitLen(gindex) <= 28
      requires View().RootsCached(gindex) && hash == MemNode(keccak, mem, gindex)
      modifies this`nodes
      ensures Valid() && pages == old(pages)
      ensures View() == old(View()).(nodes := old(nodes)[gindex := Some(hash)])
    {
      hide MemNode, OnPath, PageBytes, PageNode, TreeHash, Span, BitLen;
      ghost var t := View();
      nodes := nodes[gindex := Some(hash)];
      assert View().pages == t.pages;
      StoreKeepsInv(keccak, t, gindex);
    }

    /** The hash of any node of the tree, computed through the caches. Index 0, which is no node, gets the hash of an
        all-zero tree one level higher than the memory. */
    method MerkleizeSubtree(gindex: nat) returns (hash: Bytes32)
      requires Valid() && BitLen(gindex) <= 28
      modifies this`nodes, pages.Values
      ensures Valid() && pages == old(pages) && Warmed(old(View()), View())
      ensures if gindex == 0 then hash == ZeroHash(keccak, 28)
              else View().RootsCached(gindex) && hash == MemNode(keccak, mem, gindex)
      decreases 28 - BitLen(gindex), 1
    {
      var l := BitLen(gindex);
      if l > 20 {
        hash := MerkleizePage(gindex);
        return;
      }
      if gindex > 0 {
        BelowPageCount(gindex);
      }
      if gindex !in nodes {
        if gindex > 0 {
          AbsentNode(keccak, View(), gindex);
        }
        return zeroHashes[28 - l];
      }
      if nodes[gindex].Some? {
        assert View().Cached(gindex);
        return nodes[gindex].value;
      }
      hash := MerkleizeChildren(gindex);
    }

    method MerkleizeChildren(gindex: nat) returns (hash: Bytes32)
      requires Valid() && 1 <= gindex < PAGE_COUNT && BitLen(gindex) <= 20 && gindex in nodes
      modifies this`nodes, pages.Values
      ensures Valid() && pages == old(pages)
      ensures Warmed(old(View()), View()) && View().RootsCached(gindex)
      ensures hash == MemNode(keccak, mem, gindex)
      decreases 28 - BitLen(gindex), 0
    {
      ghost var t := View();
      var leftIndex, rightIndex := 2 * gindex, 2 * gindex + 1;
      MemNodeStep(keccak, mem, gindex);
      assert BitLen(leftIndex) == BitLen(rightIndex) == BitLen(gindex) + 1;
      var left := MerkleizeSubtree(leftIndex);
      ghost var t1 := View();
      var right := MerkleizeSubtree(rightIndex);
      hash := HashPair(keccak, left, right);
      BothChildrenCached(t1, View(), gindex);
      WarmedTransitive(t, t1, View());
      assert gindex in t.nodes.Keys && nodes.Keys == t.nodes.Keys;
      StoreNode(gindex, hash);
    }

    method MerkleRoot() returns (root: Bytes32)
      requires Valid()
      modifies this`nodes, pages.Values
      ensures Valid() && mem == old(mem) && pages == old(pages)
      ensures root == MemRoot(keccak, mem)
    {
      MemNodeRoot(keccak, mem);
      root := MerkleizeSubtree(1);
    }

    /** The branch of `addr` below `parent`, leaf first. */
    method TraverseBranch(parent: nat, addr: nat, depth: nat, ghost whole: seq<Bytes32>) returns (proof: seq<Bytes32>)
      requires Valid() && addr < MEM_SIZE && depth <= 27
      requires parent == Ancestor(MEM_DEPTH, addr, 27 - depth) && whole == MemProof(keccak, mem, addr)
      modifies this`nodes, pages.Values
      ensures Valid() && mem == old(mem) && pages == old(pages)
      ensures proof == whole[..28 - depth]
      decreases 27 - depth
    {
      if depth == 32 - 5 {
        BranchLeaf(keccak, mem, addr);
        var leaf := MerkleizeSubtree(parent);
        return [leaf];
      }
      var self, sibling := 2 * parent, 2 * parent + 1;
      if (addr / Pow2(31 - depth)) % 2 != 0 {
        self, sibling := sibling, self;
      }
      BranchStep(keccak, mem, addr, depth);
      assert 1 <= sibling && BitLen(sibling) <= 28 && whole[27 - depth] == MemNode(keccak, mem, sibling);
      TakeOneMore(whole, 27 - depth);
      proof := TraverseBranch(self, addr, depth + 1, whole);
      var siblingNode := MerkleizeSubtree(sibling);
      proof := proof + [siblingNode];
    }

    /** The 28 hashes that connect the leaf of `addr` to the root. */
    method MerkleProof(addr: nat) returns (proof: seq<Bytes32>)
      requires Valid() && addr < MEM_SIZE
      modifies this`nodes, pages.Values
      ensures Valid() && mem == old(mem) && pages == old(pages)
      ensures proof == MemProof(keccak, mem, addr)
    {
      RootAncestor(addr);
      proof := TraverseBranch(1, addr, 0, MemProof(keccak, mem, addr));
    }
  }

  function Least(x: nat, y: nat, z: nat): (m: nat)
    ensures m <= x && m <= y && m <= z && (x > 0 && y > 0 && z > 0 ==> m > 0)
  {
    if x <= y && x <= z then x else if y <= z then y else z
  }

  /** The page of the `i`-th byte after `addr`, around the end of the address space. */
  function PageAt(addr: uint32, i: nat): nat {
    Wrap32(addr + i) / PAGE_SIZE
  }

  /** No hash is cached above the pages of the `n` bytes from `addr` on and of the byte after them. */
  ghost predicate Loadable(t: MemView, addr: uint32, n: nat) {
    forall i: nat :: i <= n ==> Cold(t, PageAt(addr, i))
  }

  /** Nothing new is cached. */
  ghost predicate Fewer(t: MemView, t': MemView) {
    forall g :: t'.Cached(g) ==> t.Cached(g)
  }

  lemma SameCached(t: MemView)
    ensures Fewer(t, t)
  {
  }

  lemma FewerTransitive(t: MemView, t1: MemView, t2: MemView)
    requires Fewer(t, t1) && Fewer(t1, t2)
    ensures Fewer(t, t2)
  {
  }

  lemma AllocCachesFewer(t: MemView, t': MemView, k: nat)
    requires PathCleared(t.nodes, t'.nodes, PAGE_COUNT + k)
    ensures Fewer(t, t')
  {
    hide OnPath;
  }

  lemma FewerLoadable(t: MemView, t': MemView, addr: uint32, n: nat)
    requires Fewer(t, t') && Loadable(t, addr, n)
    ensures Loadable(t', addr, n)
  {
    hide OnPath, PageAt;
  }

  lemma FirstPageCold(t: MemView, addr: uint32, n: nat)
    requires Loadable(t, addr, n)
    ensures Cold(t, addr / PAGE_SIZE)
  {
    hide Cold;
    assert PageAt(addr, 0) == addr / PAGE_SIZE;
  }

  lemma LoadableRest(t: MemView, addr: uint32, n: nat, k: nat)
    requires Loadable(t, addr, n) && k <= n
    ensures Loadable(t, Wrap32(addr + k), n - k)
  {
    hide Cold, PageAt, Wrap32;
    var next := Wrap32(addr + k);
    forall i: nat | i <= n - k ensures Cold(t, PageAt(next, i)) {
      PageAtSum(addr, k, i);
    }
  }

  lemma PageAtSum(addr: uint32, k: nat, i: nat)
    ensures PageAt(Wrap32(addr + k), i) == PageAt(addr, k + i)
  {
    var x, y := addr + k, addr + k + i;
    DivMod(x, MEM_SIZE, x / MEM_SIZE);
    DivMod(y, MEM_SIZE, y / MEM_SIZE);
    RemainderUnique(x % MEM_SIZE + i, MEM_SIZE, y / MEM_SIZE - x / MEM_SIZE, y % MEM_SIZE);
  }

  lemma NothingWritten(mem: seq<byte>, at: uint32)
    requires |mem| == MEM_SIZE
    ensures Written(mem, at, []) == mem
  {
  }

  /** After the first `n` bytes, the rest is still to be written. */
  lemma NextChunk(mem: seq<byte>, at: uint32, rest: seq<byte>, n: nat)
    requires |mem| == MEM_SIZE && n <= |rest|
    ensures Written(mem, at, rest) == Written(Written(mem, at, rest[..n]), Wrap32(at + n), rest[n..])
  {
    assert rest == rest[..n] + rest[n..];
    WrittenSplit(mem, at, rest[..n], rest[n..]);
  }
}
