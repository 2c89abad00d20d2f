/** Streaming reads of a memory range (cannon/mipsevm/memory.go, memReader). */
module MemReaders {
  import opened Words
  import opened Merkle
  import opened Pages
  import opened MemoryTree
  import opened PagedMemory

  /** Where a read inside the page of `addr` stops: at the end of the range if that is in the same page. */
  function StopInPage(addr: uint32, count: uint32): nat {
    var endAddr := Wrap32(addr + count);
    if addr / PAGE_SIZE == endAddr / PAGE_SIZE then endAddr % PAGE_SIZE else PAGE_SIZE
  }

  /** The range does not wrap around into the page it starts in. */
  predicate NoOverlap(addr: uint32, count: uint32) {
    count + addr % PAGE_SIZE < MEM_SIZE
  }

  /** The slice of the page is well formed exactly if the range does not wrap into its own page. */
  lemma SliceInRange(addr: uint32, count: uint32)
    ensures addr % PAGE_SIZE <= StopInPage(addr, count) <==> NoOverlap(addr, count)
  {
    StopCases(addr, count);
  }

  lemma StopCases(addr: uint32, count: uint32)
    ensures StopInPage(addr, count) ==
            if addr % PAGE_SIZE + count < PAGE_SIZE then addr % PAGE_SIZE + count
            else if addr % PAGE_SIZE + count < MEM_SIZE then PAGE_SIZE
            else addr % PAGE_SIZE + count - MEM_SIZE
  {
    PageRange(addr);
  }

  class MemReader {
    const m: Memory
    var addr: uint32
    var count: uint32

    constructor (memory: Memory, a: uint32, c: uint32)
      ensures m == memory && addr == a && count == c
    {
      m, addr, count := memory, a, c;
    }

    /** The first `n` bytes of what the page of `addr` holds from there on. */
    method FromPage(n: nat) returns (dest: seq<byte>)
      requires m.Valid() && addr % PAGE_SIZE + n <= PAGE_SIZE
      modifies m`lastPageKeys, m`lastPage
      ensures m.Valid() && m.mem == old(m.mem) && m.pages == old(m.pages)
      ensures dest == RangeBytes(m.mem, addr, n)
    {
      hide MemView.Inv, RangeBytes;
      var start := addr % PAGE_SIZE;
      var p, ok := m.PageLookup(addr / PAGE_SIZE);
      PageContents(m.View(), m.keccak, addr / PAGE_SIZE);
      RangeInPage(m.mem, addr, n);
      if ok {
        dest := p.Data[start..start + n];
      } else {
        dest := Zeros(n);
      }
    }

    /** One Read call with a buffer of `destLen` bytes: at most the rest of the page. */
    method Read(destLen: nat) returns (dest: seq<byte>, eof: bool)
      requires m.Valid() && NoOverlap(addr, count)
      modifies this, m`lastPageKeys, m`lastPage
      ensures m.Valid() && m.mem == old(m.mem) && m.pages == old(m.pages)
      ensures eof <==> old(count) == 0
      ensures |dest| <= old(count) && |dest| <= destLen
      ensures dest == RangeBytes(m.mem, old(addr), |dest|)
      ensures addr == Wrap32(old(addr) + |dest|) && count == old(count) - |dest|
      ensures NoOverlap(addr, count)
      ensures old(count) > 0 && destLen > 0 ==> |dest| > 0
    {
      hide Memory.Valid, RangeBytes, NoOverlap, StopInPage, Wrap32;
      eof := count == 0;
      var n := 0;
      if !eof {
        var start, end := addr % PAGE_SIZE, StopInPage(addr, count);
        SliceInRange(addr, count);
        n := if destLen < end - start then destLen else end - start;
      }
      AdvanceInPage(addr, count, n);
      dest := FromPage(n);
      addr := Wrap32(addr + n);
      count := count - n;
    }
  }

  /** Reading on inside the page keeps the range from overlapping itself. */
  lemma AdvanceInPage(addr: uint32, count: uint32, n: nat)
    requires NoOverlap(addr, count) && (n == 0 || addr % PAGE_SIZE + n <= StopInPage(addr, count))
    ensures addr % PAGE_SIZE + n <= PAGE_SIZE
    ensures n <= count && NoOverlap(Wrap32(addr + n), count - n)
    ensures count > 0 ==> addr % PAGE_SIZE < StopInPage(addr, count)
  {
    StopCases(addr, count);
    PageRange(addr);
    if addr % PAGE_SIZE + n < PAGE_SIZE {
      assert Wrap32(addr + n) % PAGE_SIZE == addr % PAGE_SIZE + n;
    } else {
      assert Wrap32(addr + n) % PAGE_SIZE == 0;
    }
  }

  /** Reading until the end, with buffers of any positive sizes, delivers exactly the range. */
  method ReadAll(r: MemReader, sizes: nat -> nat) returns (data: seq<byte>)
    requires r.m.Valid() && NoOverlap(r.addr, r.count)
    requires forall i :: sizes(i) > 0
    modifies r, r.m`lastPageKeys, r.m`lastPage
    ensures r.m.Valid() && r.m.mem == old(r.m.mem) && r.m.pages == old(r.m.pages)
    ensures data == RangeBytes(r.m.mem, old(r.addr), old(r.count))
  {
    hide Memory.Valid, RangeBytes, NoOverlap, Wrap32;
    data := [];
    var i := 0;
    ghost var all := RangeBytes(r.m.mem, r.addr, r.count);
    while r.count > 0
      invariant r.m.Valid() && r.m.mem == old(r.m.mem) && r.m.pages == old(r.m.pages)
      invariant NoOverlap(r.addr, r.count)
      invariant all == data + RangeBytes(r.m.mem, r.addr, r.count)
      decreases r.count
    {
      ghost var addr, count := r.addr, r.count;
      var chunk, _ := r.Read(sizes(i));
      RangeSplit(r.m.mem, addr, |chunk|, count);
      data := data + chunk;
      i := i + 1;
    }
    assert |RangeBytes(r.m.mem, r.addr, 0)| == 0;
  }

  /** What the invariant says about one page. */
  lemma PageContents(t: MemView, K: Hasher, k: nat)
    requires t.Inv(K) && k < PAGE_COUNT
    ensures |t.mem| == MEM_SIZE
    ensures k in t.pages ==> t.pages[k].data == PageBytes(t.mem, k)
    ensures k !in t.pages ==> PageBytes(t.mem, k) == Zeros(PAGE_SIZE)
  {
  }
}
