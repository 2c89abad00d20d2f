/** Monitoring of the claims of dispute games: chess clocks over the game tree and the record of honest actors
    (op-dispute-mon/mon/claims.go). */
module DisputeClaims {
  import opened Words
  import opened DisputeTree

  const SECOND := 1_000_000_000

  /** Times are in nanoseconds. */
  datatype EnrichedClaim = EnrichedClaim(
    claimant: Address,
    counteredBy: Address,
    bond: nat,
    resolved: bool,
    isRoot: bool,
    contractIndex: int,
    parentContractIndex: int,
    clockDuration: int,
    clockTimestamp: int)

  datatype Game = Game(timestamp: uint64, maxClockDuration: uint64, claims: seq<EnrichedClaim>)

  /** Claims are listed by contract index, the first is the root, and parents come before their children. */
  predicate WellFormed(g: Game) {
    forall i :: 0 <= i < |g.claims| ==>
                  && g.claims[i].contractIndex == i
                  && (g.claims[i].isRoot <==> i == 0)
                  && (i > 0 ==> 0 <= g.claims[i].parentContractIndex < i)
  }

  predicate IsChild(g: Game, p: int, j: nat)
    requires j < |g.claims|
  {
    !g.claims[j].isRoot && g.claims[j].parentContractIndex == p
  }

  // ----- clocks -----

  /** Time since the claim was made, plus the time its parent's side had used up before. */
  function Accumulated(g: Game, now: int, i: nat): int
    requires WellFormed(g) && i < |g.claims|
  {
    var c := g.claims[i];
    now - c.clockTimestamp + if c.isRoot then 0 else g.claims[c.parentContractIndex].clockDuration
  }

  function Min(x: int, y: int): int {
    if y < x then y else x
  }

  /** The least accumulated time of a claim and everything below it. */
  ghost function MinTime(g: Game, now: int, i: nat): int
    requires WellFormed(g) && i < |g.claims|
    decreases |g.claims| - i, 0
  {
    match MinOver(g, now, i, i + 1)
    case None => Accumulated(g, now, i)
    case Some(m) => Min(Accumulated(g, now, i), m)
  }

  /** The same over the children of `p` numbered `k` or higher. */
  ghost function MinOver(g: Game, now: int, p: int, k: nat): Option<int>
    requires WellFormed(g) && k <= |g.claims|
    decreases |g.claims| - k, 1
  {
    if k == |g.claims| then None
    else
      var rest := MinOver(g, now, p, k + 1);
      if !IsChild(g, p, k) then rest
      else if rest.None? then Some(MinTime(g, now, k))
      else Some(Min(rest.value, MinTime(g, now, k)))
  }

  /** `j` is `i` or below it. */
  predicate Below(g: Game, i: nat, j: nat)
    requires WellFormed(g) && j < |g.claims|
    decreases j
  {
    j == i || (j > i && Below(g, i, g.claims[j].parentContractIndex))
  }

  lemma {:induction false} MinOverBound(g: Game, now: int, p: nat, k: nat, j: nat)
    requires WellFormed(g) && k <= j < |g.claims| && IsChild(g, p, j)
    ensures MinOver(g, now, p, k).Some? && MinOver(g, now, p, k).value <= MinTime(g, now, j)
    decreases |g.claims| - k
  {
    if k < j { MinOverBound(g, now, p, k + 1, j); }
  }

  lemma {:induction false} MinTimeBelow(g: Game, now: int, i: nat, j: nat)
    requires WellFormed(g) && j < |g.claims| && i < |g.claims| && Below(g, i, j)
    ensures MinTime(g, now, i) <= MinTime(g, now, j) <= Accumulated(g, now, j)
    decreases j
  {
    if j > i {
      var p := g.claims[j].parentContractIndex;
      MinTimeBelow(g, now, i, p);
      MinOverBound(g, now, p, p + 1, j);
    }
  }

  /** The least time is that of some claim below. */
  lemma {:induction false} MinTimeAttained(g: Game, now: int, i: nat) returns (j: nat)
    requires WellFormed(g) && i < |g.claims|
    ensures j < |g.claims| && Below(g, i, j) && Accumulated(g, now, j) == MinTime(g, now, i)
    decreases |g.claims| - i, 0
  {
    var over := MinOver(g, now, i, i + 1);
    j := i;
    if over.Some? && over.value < Accumulated(g, now, i) {
      j := MinOverAttained(g, now, i, i + 1);
    }
  }

  lemma {:induction false} MinOverAttained(g: Game, now: int, p: nat, k: nat) returns (j: nat)
    requires WellFormed(g) && p < k <= |g.claims| && MinOver(g, now, p, k).Some?
    ensures j < |g.claims| && Below(g, p, j) && Accumulated(g, now, j) == MinOver(g, now, p, k).value
    decreases |g.claims| - k, 1
  {
    if IsChild(g, p, k) && MinOver(g, now, p, k).value == MinTime(g, now, k) {
      j := MinTimeAttained(g, now, k);
      BelowTransitive(g, p, k, j);
    } else {
      j := MinOverAttained(g, now, p, k + 1);
    }
  }

  lemma {:induction false} BelowTransitive(g: Game, p: nat, k: nat, j: nat)
    requires WellFormed(g) && k < |g.claims| && j < |g.claims| && IsChild(g, p, k) && Below(g, k, j)
    ensures Below(g, p, j)
    decreases j
  {
    if j > k { BelowTransitive(g, p, k, g.claims[j].parentContractIndex); }
  }

  function MaxChessTime(g: Game): int {
    g.maxClockDuration * SECOND
  }

  ghost predicate Resolvable(g: Game, now: int, i: nat)
    requires WellFormed(g) && i < |g.claims|
  {
    MinTime(g, now, i) >= MaxChessTime(g)
  }

  /** A claim is resolvable exactly if its clock and the clocks of all claims below it have expired. */
  lemma ResolvableIff(g: Game, now: int, i: nat)
    requires WellFormed(g) && i < |g.claims|
    ensures Resolvable(g, now, i) <==>
            forall j: nat :: j < |g.claims| && Below(g, i, j) ==> Accumulated(g, now, j) >= MaxChessTime(g)
  {
    var j := MinTimeAttained(g, now, i);
    forall k: nat | k < |g.claims| && Below(g, i, k) ensures MinTime(g, now, i) <= Accumulated(g, now, k) {
      MinTimeBelow(g, now, i, k);
    }
  }

  // ----- honest actors -----

  datatype HonestActorData = HonestActorData(
    pending: nat, valid: nat, invalid: nat, pendingBonds: nat, lostBonds: nat, wonBonds: nat)

  const NO_DATA := HonestActorData(0, 0, 0, 0, 0, 0)

  function Plus(x: HonestActorData, y: HonestActorData): HonestActorData {
    HonestActorData(x.pending + y.pending, x.valid + y.valid, x.invalid + y.invalid,
                    x.pendingBonds + y.pendingBonds, x.lostBonds + y.lostBonds, x.wonBonds + y.wonBonds)
  }

  /** What one claim means for an actor: as its claimant, and as the one who countered it. */
  function Share(c: EnrichedClaim, a: Address): HonestActorData {
    var mine := c.claimant == a;
    HonestActorData(
      if mine && !c.resolved then 1 else 0,
      if mine && c.resolved && c.counteredBy == NOBODY then 1 else 0,
      if mine && c.resolved && c.counteredBy != NOBODY then 1 else 0,
      if mine && !c.resolved then c.bond else 0,
      if mine && c.resolved && c.counteredBy != NOBODY then c.bond else 0,
      if c.resolved && c.counteredBy == a then c.bond else 0)
  }

  function Tally(cs: seq<EnrichedClaim>, a: Address): HonestActorData {
    if cs == [] then NO_DATA else Plus(Share(cs[0], a), Tally(cs[1..], a))
  }

  function CountOf(cs: seq<EnrichedClaim>, a: Address): nat {
    if cs == [] then 0 else (if cs[0].claimant == a then 1 else 0) + CountOf(cs[1..], a)
  }

  function BondsOf(cs: seq<EnrichedClaim>, a: Address): nat {
    if cs == [] then 0 else (if cs[0].claimant == a && (!cs[0].resolved || cs[0].counteredBy != NOBODY) then cs[0].bond else 0) + BondsOf(cs[1..], a)
  }

  /** Every claim of an actor is counted once, as pending, valid or invalid, and its bond as pending or lost
      unless the claim stood. */
  lemma {:induction false} TallyAddsUp(cs: seq<EnrichedClaim>, a: Address)
    ensures Tally(cs, a).pending + Tally(cs, a).valid + Tally(cs, a).invalid == CountOf(cs, a)
    ensures Tally(cs, a).pendingBonds + Tally(cs, a).lostBonds == BondsOf(cs, a)
  {
    if cs != [] { TallyAddsUp(cs[1..], a); }
  }

  // ----- each number is a count of claims -----

  function Filter(cs: seq<EnrichedClaim>, p: EnrichedClaim -> bool): seq<EnrichedClaim> {
    if cs == [] then [] else (if p(cs[0]) then [cs[0]] else []) + Filter(cs[1..], p)
  }

  function Bonds(cs: seq<EnrichedClaim>): nat {
    if cs == [] then 0 else cs[0].bond + Bonds(cs[1..])
  }

  lemma FilterStep(cs: seq<EnrichedClaim>, p: EnrichedClaim -> bool)
    requires cs != []
    ensures |Filter(cs, p)| == (if p(cs[0]) then 1 else 0) + |Filter(cs[1..], p)|
    ensures Bonds(Filter(cs, p)) == (if p(cs[0]) then cs[0].bond else 0) + Bonds(Filter(cs[1..], p))
  {
    if p(cs[0]) {
      assert Filter(cs, p)[1..] == Filter(cs[1..], p);
    } else {
      assert Filter(cs, p) == Filter(cs[1..], p);
    }
  }

  /** Pending are the actor's claims that are not resolved. */
  lemma {:induction false} PendingAre(cs: seq<EnrichedClaim>, a: Address, p: EnrichedClaim -> bool)
    requires forall c :: p(c) <==> c.claimant == a && !c.resolved
    ensures Tally(cs, a).pending == |Filter(cs, p)| && Tally(cs, a).pendingBonds == Bonds(Filter(cs, p))
  {
    if cs != [] {
      PendingAre(cs[1..], a, p);
      FilterStep(cs, p);
    }
  }

  /** Valid are those resolved without anyone countering them. */
  lemma {:induction false} ValidAre(cs: seq<EnrichedClaim>, a: Address, p: EnrichedClaim -> bool)
    requires forall c :: p(c) <==> c.claimant == a && c.resolved && c.counteredBy == 0
    ensures Tally(cs, a).valid == |Filter(cs, p)|
  {
    if cs != [] {
      ValidAre(cs[1..], a, p);
      FilterStep(cs, p);
    }
  }

  /** Invalid are those resolved and countered; their bonds are lost. */
  lemma {:induction false} InvalidAre(cs: seq<EnrichedClaim>, a: Address, p: EnrichedClaim -> bool)
    requires forall c :: p(c) <==> c.claimant == a && c.resolved && c.counteredBy != 0
    ensures Tally(cs, a).invalid == |Filter(cs, p)| && Tally(cs, a).lostBonds == Bonds(Filter(cs, p))
  {
    if cs != [] {
      InvalidAre(cs[1..], a, p);
      FilterStep(cs, p);
    }
  }

  /** Won are the bonds of the resolved claims, whoever made them, that the actor countered. */
  lemma {:induction false} WonAre(cs: seq<EnrichedClaim>, a: Address, p: EnrichedClaim -> bool)
    requires forall c :: p(c) <==> c.resolved && c.counteredBy == a
    ensures Tally(cs, a).wonBonds == Bonds(Filter(cs, p))
  {
    if cs != [] {
      WonAre(cs[1..], a, p);
      FilterStep(cs, p);
    }
  }

  datatype ClaimStatus = ClaimStatus(firstHalf: bool, clockExpired: bool, resolvable: bool, resolved: bool)

  predicate FirstHalf(g: Game, now: int) {
    (now / SECOND - g.timestamp) % 0x1_0000_0000_0000_0000 <= g.maxClockDuration
  }

  ghost function StatusAt(g: Game, now: int, i: nat): ClaimStatus
    requires WellFormed(g) && i < |g.claims|
  {
    ClaimStatus(FirstHalf(g, now), Accumulated(g, now, i) >= MaxChessTime(g), Resolvable(g, now, i), g.claims[i].resolved)
  }

  /** The clock of a claim: the time since it was made, plus what its parent's clock had run, against the maximum. */
  predicate ClockExpired(g: Game, now: int, j: nat)
    requires WellFormed(g) && j < |g.claims|
  {
    var c := g.claims[j];
    now - c.clockTimestamp + (if c.isRoot then 0 else g.claims[c.parentContractIndex].clockDuration) >= g.maxClockDuration * 1_000_000_000
  }

  /** What the recorded status of a claim says. */
  lemma StatusMeans(g: Game, now: int, i: nat)
    requires WellFormed(g) && i < |g.claims|
    ensures var s := StatusAt(g, now, i);
            && (s.clockExpired <==> ClockExpired(g, now, i))
            && (s.resolvable <==> forall j: nat :: j < |g.claims| && Below(g, i, j) ==> ClockExpired(g, now, j))
            && (s.resolved <==> g.claims[i].resolved)
            && (s.firstHalf <==> (now / 1_000_000_000 - g.timestamp) % 0x1_0000_0000_0000_0000 <= g.maxClockDuration)
  {
    hide Resolvable, Below, Accumulated, MaxChessTime, ClockExpired, WellFormed;
    ResolvableIff(g, now, i);
    forall j: nat | j < |g.claims| ensures ClockExpired(g, now, j) <==> Accumulated(g, now, j) >= MaxChessTime(g) {
      ClockIs(g, now, j);
    }
  }

  lemma ClockIs(g: Game, now: int, j: nat)
    requires WellFormed(g) && j < |g.claims|
    ensures ClockExpired(g, now, j) <==> Accumulated(g, now, j) >= MaxChessTime(g)
  {
  }

  /** The statuses of the claims from `i` on. */
  ghost function StatusesFrom(g: Game, now: int, i: nat): multiset<ClaimStatus>
    requires WellFormed(g) && i <= |g.claims|
    decreases |g.claims| - i
  {
    if i == |g.claims| then multiset{} else StatusesFrom(g, now, i + 1) + multiset{StatusAt(g, now, i)}
  }

  ghost function AllStatuses(gs: seq<Game>, now: int): multiset<ClaimStatus>
    requires forall i :: 0 <= i < |gs| ==> WellFormed(gs[i])
  {
    if gs == [] then multiset{} else AllStatuses(gs[..|gs| - 1], now) + StatusesFrom(gs[|gs| - 1], now, 0)
  }

  function AllTally(gs: seq<Game>, a: Address): HonestActorData {
    if gs == [] then NO_DATA else Plus(AllTally(gs[..|gs| - 1], a), Tally(gs[|gs| - 1].claims, a))
  }

  // ----- the monitor -----

  /** The tracked minimum of every parent covers its children numbered `i` or higher. */
  ghost predicate Tracks(g: Game, now: int, minBy: map<int, int>, i: nat)
    requires WellFormed(g) && i <= |g.claims|
  {
    forall p: nat :: p < |g.claims| ==>
      match MinOver(g, now, p, i)
      case None => p !in minBy
      case Some(m) => p in minBy && minBy[p] == m
  }

  class ClaimMonitor {
    const honestActors: set<Address>
    var statuses: multiset<ClaimStatus>
    var honest: map<Address, HonestActorData>

    constructor (actors: set<Address>)
      ensures honestActors == actors
    {
      honestActors := actors;
      statuses, honest := multiset{}, map[];
    }

    ghost predicate Valid()
      reads this`honest
    {
      honest.Keys == honestActors
    }

    method UpdateHonestActorStats(c: EnrichedClaim)
      requires Valid()
      modifies this`honest
      ensures Valid() && honest.Keys == old(honest.Keys)
      ensures forall a :: a in honestActors ==> honest[a] == Plus(old(honest[a]), Share(c, a))
    {
      if !c.resolved {
        if c.claimant in honestActors {
          var d := honest[c.claimant];
          honest := honest[c.claimant := d.(pending := d.pending + 1, pendingBonds := d.pendingBonds + c.bond)];
        }
        return;
      }
      if c.claimant in honestActors {
        var d := honest[c.claimant];
        if c.counteredBy != NOBODY {
          honest := honest[c.claimant := d.(invalid := d.invalid + 1, lostBonds := d.lostBonds + c.bond)];
        } else {
          honest := honest[c.claimant := d.(valid := d.valid + 1)];
        }
      }
      if c.counteredBy in honestActors {
        var d := honest[c.counteredBy];
        honest := honest[c.counteredBy := d.(wonBonds := d.wonBonds + c.bond)];
      }
    }

    /** One claim: its accumulated time, and the least time below it, which it also passes on to its parent. */
    method CheckClock(g: Game, now: int, i: nat, minBy: map<int, int>) returns (status: ClaimStatus, minBy': map<int, int>)
      requires WellFormed(g) && i < |g.claims| && Tracks(g, now, minBy, i + 1)
      ensures status == StatusAt(g, now, i)
      ensures i > 0 ==> Tracks(g, now, minBy', i)
    {
      var c := g.claims[i];
      var maxChessTime := g.maxClockDuration * SECOND;
      var accumulated := now - c.clockTimestamp;
      if !c.isRoot {
        accumulated := g.claims[c.parentContractIndex].clockDuration + accumulated;
      }
      var least := accumulated;
      if c.contractIndex in minBy && minBy[c.contractIndex] <= accumulated {
        least := minBy[c.contractIndex];
      }
      assert least == MinTime(g, now, i);
      minBy' := minBy;
      if c.parentContractIndex !in minBy || least < minBy[c.parentContractIndex] {
        minBy' := minBy[c.parentContractIndex := least];
      }
      status := ClaimStatus(FirstHalf(g, now), accumulated >= maxChessTime, least >= maxChessTime, c.resolved);
    }

    /** One pass over the claims, last to first. */
    method CheckGameClaims(g: Game, now: int)
      requires Valid() && WellFormed(g)
      modifies this
      ensures Valid() && statuses == old(statuses) + StatusesFrom(g, now, 0)
      ensures forall a :: a in honestActors ==> honest[a] == Plus(old(honest[a]), Tally(g.claims, a))
    {
      hide StatusAt, Tracks, Plus, Tally, Share, WellFormed, MinTime, MinOver, Accumulated;
      var minBy: map<int, int> := map[];
      var i := |g.claims|;
      NothingTracked(g, now);
      forall a | a in honestActors {
        NoClaims(a, honest[a]);
      }
      assert g.claims[|g.claims|..] == [];
      while i > 0
        invariant 0 <= i <= |g.claims| && Valid()
        invariant statuses == old(statuses) + StatusesFrom(g, now, i)
        invariant forall a :: a in honestActors ==> honest[a] == Plus(old(honest[a]), Tally(g.claims[i..], a))
        invariant i > 0 ==> Tracks(g, now, minBy, i)
      {
        i := i - 1;
        UpdateHonestActorStats(g.claims[i]);
        forall a | a in honestActors ensures honest[a] == Plus(old(honest[a]), Tally(g.claims[i..], a)) {
          NextClaim(g.claims, i, a, old(honest[a]));
        }
        var status;
        status, minBy := CheckClock(g, now, i, minBy);
        statuses := statuses + multiset{status};
      }
      assert g.claims[0..] == g.claims;
    }

    method CheckClaims(gs: seq<Game>, now: int)
      requires forall i :: 0 <= i < |gs| ==> WellFormed(gs[i])
      modifies this
      ensures statuses == AllStatuses(gs, now)
      ensures honest.Keys == honestActors && forall a :: a in honestActors ==> honest[a] == AllTally(gs, a)
    {
      hide WellFormed, StatusesFrom, Tally;
      statuses := multiset{};
      honest := map a | a in honestActors :: NO_DATA;
      for n := 0 to |gs|
        invariant Valid() && statuses == AllStatuses(gs[..n], now)
        invariant forall a :: a in honestActors ==> honest[a] == AllTally(gs[..n], a)
      {
        assert gs[..n + 1][..n] == gs[..n];
        CheckGameClaims(gs[n], now);
      }
      assert gs[..|gs|] == gs;
    }
  }

  lemma NextClaim(cs: seq<EnrichedClaim>, i: nat, a: Address, x: HonestActorData)
    requires i < |cs|
    ensures Plus(Plus(x, Tally(cs[i + 1..], a)), Share(cs[i], a)) == Plus(x, Tally(cs[i..], a))
  {
    hide Share;
    assert cs[i..][0] == cs[i] && cs[i..][1..] == cs[i + 1..];
  }

  lemma NoClaims(a: Address, x: HonestActorData)
    ensures Plus(x, Tally([], a)) == x
  {
  }

  lemma NothingTracked(g: Game, now: int)
    requires WellFormed(g)
    ensures Tracks(g, now, map[], |g.claims|)
  {
  }

  /** Over all games, every claim of an actor is counted once, and its bond unless the claim stood. */
  lemma {:induction false} AllTallyAddsUp(gs: seq<Game>, a: Address)
    ensures AllTally(gs, a).pending + AllTally(gs, a).valid + AllTally(gs, a).invalid == AllCount(gs, a)
    ensures AllTally(gs, a).pendingBonds + AllTally(gs, a).lostBonds == AllBonds(gs, a)
  {
    if gs != [] {
      AllTallyAddsUp(gs[..|gs| - 1], a);
      TallyAddsUp(gs[|gs| - 1].claims, a);
    }
  }

  function AllClaims(gs: seq<Game>): seq<EnrichedClaim> {
    if gs == [] then [] else AllClaims(gs[..|gs| - 1]) + gs[|gs| - 1].claims
  }

  lemma {:induction false} TallyConcat(x: seq<EnrichedClaim>, y: seq<EnrichedClaim>, a: Address)
    ensures Tally(x + y, a) == Plus(Tally(x, a), Tally(y, a))
    decreases |x|
  {
    hide Share, Plus;
    if x == [] {
      assert x + y == y;
      PlusNothing(Tally(y, a));
    } else {
      assert (x + y)[1..] == x[1..] + y && (x + y)[0] == x[0];
      TallyConcat(x[1..], y, a);
      PlusAssoc(Share(x[0], a), Tally(x[1..], a), Tally(y, a));
    }
  }

  lemma PlusNothing(x: HonestActorData)
    ensures Plus(NO_DATA, x) == x
  {
  }

  lemma PlusAssoc(x: HonestActorData, y: HonestActorData, z: HonestActorData)
    ensures Plus(x, Plus(y, z)) == Plus(Plus(x, y), z)
  {
  }

  /** The record over all games is that of all their claims together. */
  lemma {:induction false} AllTallyIsOfAllClaims(gs: seq<Game>, a: Address)
    ensures AllTally(gs, a) == Tally(AllClaims(gs), a)
  {
    if gs != [] {
      var n := |gs| - 1;
      AllTallyIsOfAllClaims(gs[..n], a);
      TallyConcat(AllClaims(gs[..n]), gs[n].claims, a);
    }
  }

  function AllBonds(gs: seq<Game>, a: Address): nat {
    if gs == [] then 0 else AllBonds(gs[..|gs| - 1], a) + BondsOf(gs[|gs| - 1].claims, a)
  }

  function AllCount(gs: seq<Game>, a: Address): nat {
    if gs == [] then 0 else AllCount(gs[..|gs| - 1], a) + CountOf(gs[|gs| - 1].claims, a)
  }
}
