/** Resolution of a dispute game: one reverse scan over the claims that writes in place
    (op-dispute-mon/mon/resolve.go and transform/tree.go). */
module DisputeTree {
  import opened Words

  type Address = nat

  const NOBODY: Address := 0

  /** A claim, its place among its siblings' positions, and its children by number. */
  datatype Node = Node(claimant: Address, indexAtDepth: nat, children: seq<nat>)

  type Tree = seq<Node>

  /** Children come after their parent in the list. */
  predicate Ordered(t: Tree) {
    forall i, k :: 0 <= i < |t| && 0 <= k < |t[i].children| ==> i < t[i].children[k] < |t|
  }

  // ----- the recursive definition -----

  /** Who counters claim `i` in the end: the leftmost child that is itself not countered, or whoever did at first. */
  ghost function Counter(t: Tree, initial: seq<Address>, i: nat): Address
    requires Ordered(t) && |initial| == |t| && i < |t|
    decreases |t| - i
  {
    match Leftmost(t, initial, i, |t[i].children|)
    case None => initial[i]
    case Some(c) => t[c].claimant
  }

  /** The leftmost uncountered child among the first `n` children of `i`, the first one on ties. */
  ghost function Leftmost(t: Tree, initial: seq<Address>, i: nat, n: nat): (c: Option<nat>)
    requires Ordered(t) && |initial| == |t| && i < |t| && n <= |t[i].children|
    ensures c.Some? ==> i < c.value < |t|
    decreases |t| - i, 0, n
  {
    if n == 0 then None
    else
      var best, c := Leftmost(t, initial, i, n - 1), t[i].children[n - 1];
      if Counter(t, initial, c) == NOBODY && (best.None? || t[c].indexAtDepth < t[best.value].indexAtDepth)
      then Some(c) else best
  }

  ghost predicate Uncountered(t: Tree, initial: seq<Address>, c: nat)
    requires Ordered(t) && |initial| == |t| && c < |t|
  {
    Counter(t, initial, c) == NOBODY
  }

  /** `k` picks an uncountered child with the least index, and the first such. */
  ghost predicate IsLeftmost(t: Tree, initial: seq<Address>, i: nat, n: nat, k: nat)
    requires Ordered(t) && |initial| == |t| && i < |t| && n <= |t[i].children|
  {
    && k < n && Uncountered(t, initial, t[i].children[k])
    && (forall l :: 0 <= l < n && Uncountered(t, initial, t[i].children[l]) ==>
                      t[t[i].children[k]].indexAtDepth <= t[t[i].children[l]].indexAtDepth)
    && (forall l :: 0 <= l < k && Uncountered(t, initial, t[i].children[l]) ==>
                      t[t[i].children[k]].indexAtDepth < t[t[i].children[l]].indexAtDepth)
  }

  lemma {:induction false} LeftmostCorrect(t: Tree, initial: seq<Address>, i: nat, n: nat)
    requires Ordered(t) && |initial| == |t| && i < |t| && n <= |t[i].children|
    ensures var c := Leftmost(t, initial, i, n);
            if c.None? then forall l :: 0 <= l < n ==> !Uncountered(t, initial, t[i].children[l])
            else exists k: nat :: IsLeftmost(t, initial, i, n, k) && c.value == t[i].children[k]
  {
    if n > 0 {
      LeftmostCorrect(t, initial, i, n - 1);
      var best, c := Leftmost(t, initial, i, n - 1), t[i].children[n - 1];
      if Uncountered(t, initial, c) && (best.None? || t[c].indexAtDepth < t[best.value].indexAtDepth) {
        assert IsLeftmost(t, initial, i, n, n - 1);
      } else if best.Some? {
        var k: nat :| IsLeftmost(t, initial, i, n - 1, k) && best.value == t[i].children[k];
        assert IsLeftmost(t, initial, i, n, k);
      }
    }
  }

  /** What resolution is about: a claim ends countered if and only if some child ends uncountered or it was countered at
      first. */
  ghost predicate CounteredAsMeant(t: Tree, initial: seq<Address>, i: nat)
    requires Ordered(t) && |initial| == |t| && i < |t|
  {
    Counter(t, initial, i) != NOBODY <==>
    initial[i] != NOBODY || exists k :: 0 <= k < |t[i].children| && Uncountered(t, initial, t[i].children[k])
  }

  /** The leftmost uncountered child was claimed under the zero address. */
  ghost predicate CounteredByNobody(t: Tree, initial: seq<Address>, i: nat)
    requires Ordered(t) && |initial| == |t| && i < |t|
  {
    var c := Leftmost(t, initial, i, |t[i].children|);
    c.Some? && t[c.value].claimant == NOBODY
  }

  /** The scan decides as meant exactly where no claim of the zero address is the leftmost answer; so everywhere if nobody
      claims under that address. */
  lemma CounteredIff(t: Tree, initial: seq<Address>, i: nat)
    requires Ordered(t) && |initial| == |t| && i < |t|
    ensures CounteredAsMeant(t, initial, i) <==> !CounteredByNobody(t, initial, i)
    ensures (forall j :: 0 <= j < |t| ==> t[j].claimant != NOBODY) ==> CounteredAsMeant(t, initial, i)
  {
    LeftmostCorrect(t, initial, i, |t[i].children|);
  }

  /** Two claims, the second under the zero address: it answers the first and ends uncountered, but the first ends
      uncountered too. */
  lemma ZeroClaimantIsOverlooked(root: Address, i0: nat, i1: nat)
    ensures var t := [Node(root, i0, [1]), Node(NOBODY, i1, [])];
            && Ordered(t) && Uncountered(t, [NOBODY, NOBODY], 1) && Uncountered(t, [NOBODY, NOBODY], 0)
            && !CounteredAsMeant(t, [NOBODY, NOBODY], 0)
  {
    var t, initial := [Node(root, i0, [1]), Node(NOBODY, i1, [])], [NOBODY, NOBODY];
    assert Leftmost(t, initial, 1, 0) == None && Counter(t, initial, 1) == NOBODY;
    assert t[0].children[0] == 1;
    assert Leftmost(t, initial, 0, 0) == None && Leftmost(t, initial, 0, 1) == Some(1);
    assert Uncountered(t, initial, t[0].children[0]);
  }

  /** No claim but `i` lists claim `k` as a child. */
  predicate OnlyParent(t: Tree, i: nat, k: nat) {
    forall j, n :: 0 <= j < |t| && j != i && 0 <= n < |t[j].children| ==> t[j].children[n] != k
  }

  /** Everything was countered at first, except `k`. */
  function AllBut(t: Tree, k: nat): (initial: seq<Address>)
    ensures |initial| == |t|
  {
    seq(|t|, j => if j == k then NOBODY else 1)
  }

  lemma {:induction false} OthersStayCountered(t: Tree, i: nat, k: nat, j: nat)
    requires Ordered(t) && OnlyParent(t, i, k) && i < j < |t|
    ensures Uncountered(t, AllBut(t, k), j) <==> j == k
    decreases |t| - j
  {
    var initial := AllBut(t, k);
    forall n | 0 <= n < |t[j].children| ensures !Uncountered(t, initial, t[j].children[n]) {
      OthersStayCountered(t, i, k, t[j].children[n]);
    }
    LeftmostCorrect(t, initial, j, |t[j].children|);
  }

  /** Claim `i` is decided as meant, whatever was countered at first. */
  ghost predicate AlwaysAsMeant(t: Tree, i: nat)
    requires Ordered(t) && i < |t|
  {
    forall initial :: |initial| == |t| ==> CounteredAsMeant(t, initial, i)
  }

  /** In a tree, a claim is always decided as meant exactly if none of its own children is claimed under the zero address. */
  lemma AlwaysAsMeantIff(t: Tree, i: nat)
    requires Ordered(t) && i < |t| && forall n :: 0 <= n < |t[i].children| ==> OnlyParent(t, i, t[i].children[n])
    ensures AlwaysAsMeant(t, i) <==> forall n :: 0 <= n < |t[i].children| ==> t[t[i].children[n]].claimant != NOBODY
  {
    hide OnlyParent, AllBut;
    if n :| 0 <= n < |t[i].children| && t[t[i].children[n]].claimant == NOBODY {
      var k := t[i].children[n];
      var initial := AllBut(t, k);
      forall j | i < j < |t| ensures Uncountered(t, initial, j) <==> j == k {
        OthersStayCountered(t, i, k, j);
      }
      LeftmostCorrect(t, initial, i, |t[i].children|);
      CounteredIff(t, initial, i);
      assert !CounteredAsMeant(t, initial, i);
    } else {
      forall initial: seq<Address> | |initial| == |t| ensures CounteredAsMeant(t, initial, i) {
        LeftmostCorrect(t, initial, i, |t[i].children|);
      }
    }
  }

  /** In general the leftmost uncountered child decides alone. */
  lemma CounterExactly(t: Tree, initial: seq<Address>, i: nat)
    requires Ordered(t) && |initial| == |t| && i < |t|
    ensures (exists k: nat :: IsLeftmost(t, initial, i, |t[i].children|, k) && Counter(t, initial, i) == t[t[i].children[k]].claimant) ||
            ((forall k :: 0 <= k < |t[i].children| ==> !Uncountered(t, initial, t[i].children[k])) && Counter(t, initial, i) == initial[i])
  {
    LeftmostCorrect(t, initial, i, |t[i].children|);
  }

  // ----- the scan -----

  /** All claims from `i` on are resolved, the ones before are as they were. */
  ghost predicate ResolvedFrom(t: Tree, initial: seq<Address>, now: seq<Address>, i: nat)
    requires Ordered(t) && |initial| == |t|
  {
    |now| == |t| && forall j :: 0 <= j < |t| ==> now[j] == if j < i then initial[j] else Counter(t, initial, j)
  }

  datatype GameStatus = DefenderWon | ChallengerWon

  /** The counter of one claim, from the counters of its children. */
  method CounterOf(t: Tree, counteredBy: array<Address>, i: nat, ghost initial: seq<Address>) returns (counter: Address)
    requires Ordered(t) && |initial| == |t| && i < |t| && ResolvedFrom(t, initial, counteredBy[..], i + 1)
    ensures counter == Counter(t, initial, i)
  {
    counter := counteredBy[i];
    var leftmost: Option<nat> := None;
    assert counteredBy[..][i] == initial[i];
    for n := 0 to |t[i].children|
      invariant leftmost == match Leftmost(t, initial, i, n) case None => None case Some(c) => Some(t[c].indexAtDepth)
      invariant counter == match Leftmost(t, initial, i, n) case None => initial[i] case Some(c) => t[c].claimant
    {
      var child := t[i].children[n];
      assert counteredBy[..][child] == Counter(t, initial, child);
      if counteredBy[child] != NOBODY {
        continue;
      }
      if leftmost.None? || t[child].indexAtDepth < leftmost.value {
        counter := t[child].claimant;
        leftmost := Some(t[child].indexAtDepth);
      }
    }
  }

  method Resolve(t: Tree, counteredBy: array<Address>) returns (status: GameStatus)
    requires Ordered(t) && counteredBy.Length == |t|
    modifies counteredBy
    ensures ResolvedFrom(t, old(counteredBy[..]), counteredBy[..], 0)
    ensures status == DefenderWon <==> |t| == 0 || Counter(t, old(counteredBy[..]), 0) == NOBODY
  {
    ghost var initial := counteredBy[..];
    var i := |t|;
    while i > 0
      invariant 0 <= i <= |t| && ResolvedFrom(t, initial, counteredBy[..], i)
    {
      i := i - 1;
      var counter := CounterOf(t, counteredBy, i, initial);
      counteredBy[i] := counter;
    }
    if |t| == 0 {
      return DefenderWon;
    }
    assert counteredBy[..][0] == counteredBy[0];
    status := if counteredBy[0] == NOBODY then DefenderWon else ChallengerWon;
  }

  /** What the scan leaves behind, as a list. */
  ghost function Resolved(t: Tree, initial: seq<Address>): (r: seq<Address>)
    requires Ordered(t) && |initial| == |t|
    ensures |r| == |t|
  {
    seq(|t|, i requires 0 <= i < |t| => Counter(t, initial, i))
  }

  /** A second scan changes nothing. */
  lemma {:induction false} ResolveTwice(t: Tree, initial: seq<Address>, i: nat)
    requires Ordered(t) && |initial| == |t| && i < |t|
    ensures Counter(t, Resolved(t, initial), i) == Counter(t, initial, i)
    decreases |t| - i
  {
    SameLeftmost(t, initial, Resolved(t, initial), i, |t[i].children|);
  }

  lemma {:induction false} SameLeftmost(t: Tree, initial: seq<Address>, again: seq<Address>, i: nat, n: nat)
    requires Ordered(t) && |initial| == |t| && again == Resolved(t, initial) && i < |t| && n <= |t[i].children|
    ensures Leftmost(t, again, i, n) == Leftmost(t, initial, i, n)
    decreases |t| - i, 0, n
  {
    if n > 0 {
      SameLeftmost(t, initial, again, i, n - 1);
      ResolveTwice(t, initial, t[i].children[n - 1]);
    }
  }

  // ----- building the tree -----

  datatype Claim = Claim(claimant: Address, indexAtDepth: nat, isRoot: bool, contractIndex: int, parent: int)

  /** The last of the first `n` claims with the given contract index. */
  function LastWith(claims: seq<Claim>, n: nat, index: int): (r: Option<nat>)
    requires n <= |claims|
    ensures r.Some? ==> r.value < n && claims[r.value].contractIndex == index
    ensures forall i :: (if r.Some? then r.value < i < n else 0 <= i < n) ==> claims[i].contractIndex != index
  {
    if n == 0 then None
    else if claims[n - 1].contractIndex == index then Some(n - 1)
    else LastWith(claims, n - 1, index)
  }

  /** Every claim but the root comes after the claim it names as its parent. */
  predicate ParentsFirst(claims: seq<Claim>) {
    forall j :: 0 <= j < |claims| && !claims[j].isRoot ==>
      claims[j].parent != claims[j].contractIndex && LastWith(claims, j, claims[j].parent).Some?
  }

  predicate IsChild(claims: seq<Claim>, i: nat, j: nat)
    requires j < |claims|
  {
    !claims[j].isRoot && LastWith(claims, j, claims[j].parent) == Some(i)
  }

  /** The numbers below `n` of the claims with parent `i`, in order. */
  function ChildrenOf(claims: seq<Claim>, i: nat, n: nat): (r: seq<nat>)
    requires n <= |claims|
    ensures forall k :: 0 <= k < |r| ==> i < r[k] < n && IsChild(claims, i, r[k])
    ensures forall j :: 0 <= j < n && IsChild(claims, i, j) ==> j in r
    ensures n <= i + 1 ==> r == []
  {
    if n == 0 then []
    else ChildrenOf(claims, i, n - 1) + if IsChild(claims, i, n - 1) then [n - 1] else []
  }

  /** The tree over the first `n` claims. */
  ghost predicate Built(claims: seq<Claim>, t: Tree, n: nat) {
    n <= |claims| && |t| == n &&
    forall i :: 0 <= i < n ==> t[i] == Node(claims[i].claimant, claims[i].indexAtDepth, ChildrenOf(claims, i, n))
  }

  function Appended(t: Tree, p: nat, n: nat): Tree
    requires p < |t|
  {
    t[p := t[p].(children := t[p].children + [n])]
  }

  lemma {:induction false} BuiltNext(claims: seq<Claim>, t: Tree, n: nat)
    requires ParentsFirst(claims) && Built(claims, t, n) && n < |claims|
    ensures var c := claims[n];
            var t1 := if c.isRoot then t else Appended(t, LastWith(claims, n, c.parent).value, n);
            Built(claims, t1 + [Node(c.claimant, c.indexAtDepth, [])], n + 1)
  {
    hide LastWith;
    var c := claims[n];
    var t1 := if c.isRoot then t else Appended(t, LastWith(claims, n, c.parent).value, n);
    var t' := t1 + [Node(c.claimant, c.indexAtDepth, [])];
    forall i | 0 <= i < n + 1
      ensures t'[i] == Node(claims[i].claimant, claims[i].indexAtDepth, ChildrenOf(claims, i, n + 1))
    {
      if i < n {
        assert ChildrenOf(claims, i, n + 1) == ChildrenOf(claims, i, n) + if IsChild(claims, i, n) then [n] else [];
      }
    }
  }

  /** The map from contract indices to claims. */
  ghost predicate Mapped(claims: seq<Claim>, claimMap: map<int, nat>, n: nat)
    requires n <= |claims|
  {
    forall index :: match LastWith(claims, n, index)
                    case None => index !in claimMap
                    case Some(i) => index in claimMap && claimMap[index] == i
  }

  /** Every claim is appended to the children of the claim that its parent index names at that time. */
  method CreateTree(claims: seq<Claim>) returns (t: Tree)
    requires ParentsFirst(claims)
    ensures Built(claims, t, |claims|) && Ordered(t)
  {
    hide Built, ChildrenOf;
    t := [];
    var claimMap: map<int, nat> := map[];
    EmptyBuilt(claims);
    for n := 0 to |claims|
      invariant Built(claims, t, n) && Mapped(claims, claimMap, n)
    {
      var c := claims[n];
      BuiltSize(claims, t, n);
      BuiltNext(claims, t, n);
      claimMap := claimMap[c.contractIndex := n];
      if !c.isRoot {
        assert LastWith(claims, n + 1, c.parent) == LastWith(claims, n, c.parent);
        t := Appended(t, claimMap[c.parent], n);
      }
      t := t + [Node(c.claimant, c.indexAtDepth, [])];
    }
    BuiltOrdered(claims, t);
  }

  lemma EmptyBuilt(claims: seq<Claim>)
    ensures Built(claims, [], 0)
  {
  }

  lemma BuiltSize(claims: seq<Claim>, t: Tree, n: nat)
    requires Built(claims, t, n)
    ensures |t| == n
  {
  }

  lemma BuiltOrdered(claims: seq<Claim>, t: Tree)
    requires Built(claims, t, |claims|)
    ensures Ordered(t)
  {
    forall i, k | 0 <= i < |t| && 0 <= k < |t[i].children| ensures i < t[i].children[k] < |t| {
      assert t[i].children == ChildrenOf(claims, i, |claims|);
    }
  }

  /** Every claim of a built tree has one parent at most, so `AlwaysAsMeantIff` applies to all of it. */
  lemma BuiltIsTree(claims: seq<Claim>, t: Tree, i: nat, n: nat)
    requires Built(claims, t, |claims|) && i < |t| && n < |t[i].children|
    ensures OnlyParent(t, i, t[i].children[n])
  {
    hide LastWith;
    var k := t[i].children[n];
    assert t[i].children == ChildrenOf(claims, i, |claims|) && IsChild(claims, i, k);
    forall j, m | 0 <= j < |t| && j != i && 0 <= m < |t[j].children| ensures t[j].children[m] != k {
      assert t[j].children == ChildrenOf(claims, j, |claims|) && IsChild(claims, j, t[j].children[m]);
    }
  }
}
