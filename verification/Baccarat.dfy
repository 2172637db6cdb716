/**
  One round of the simplified baccarat game (main_final.py:232-254 and the
  settlement loop at 327-361): two two-card hands of values 1 to 9, the
  winner decided on points (sum modulo 10), the super six side bet, and
  the amount paid back for every bet kind placed.
 */
module Baccarat {
  import opened Wrappers
  import opened Bets

  type Hand = seq<int>

  /** A card value the dealer can draw. */
  predicate IsCard(c: int) {
    1 <= c <= 9
  }

  /** A hand as `deal_cards` produces it. */
  predicate IsDealtHand(h: Hand) {
    |h| == 2 && IsCard(h[0]) && IsCard(h[1])
  }

  /**
    `deal_cards` with its four random draws given in draw order: the
    player's hand takes the first two, the banker's hand the last two.
   */
  function DealCards(c0: int, c1: int, c2: int, c3: int): (hands: (Hand, Hand))
    requires IsCard(c0) && IsCard(c1) && IsCard(c2) && IsCard(c3)
    ensures IsDealtHand(hands.0) && IsDealtHand(hands.1)
    ensures hands.0 + hands.1 == [c0, c1, c2, c3]
  {
    ([c0, c1], [c2, c3])
  }

  function Sum(h: Hand): int {
    if h == [] then 0 else Sum(h[..|h| - 1]) + h[|h| - 1]
  }

  /** The baccarat point of a hand: its sum modulo 10. */
  function Point(h: Hand): (p: int)
    ensures 0 <= p < 10
  {
    Sum(h) % 10
  }

  datatype Outcome = PlayerWins | BankerWins | Tied

  /** `baccarat_result`: the side with the higher point wins; equal points tie. */
  function Resolve(player: Hand, banker: Hand): (r: Outcome)
    ensures r == PlayerWins <==> Point(player) > Point(banker)
    ensures r == BankerWins <==> Point(player) < Point(banker)
    ensures r == Tied <==> Point(player) == Point(banker)
  {
    if Point(player) > Point(banker) then PlayerWins
    else if Point(player) < Point(banker) then BankerWins
    else Tied
  }

  /** The outcome seen from the other side of the table. */
  function Mirror(o: Outcome): Outcome {
    match o
    case PlayerWins => BankerWins
    case BankerWins => PlayerWins
    case Tied => Tied
  }

  /**
    `check_super_six`: the side bet fires when the banker wins on a point
    of 6; it pays 20 for a three-card banker hand and 12 otherwise. The
    second component is 0 when it does not fire.
   */
  function CheckSuperSix(banker: Hand, winner: Outcome): (r: (bool, int))
    ensures r.0 <==> winner == BankerWins && Point(banker) == 6
    ensures !r.0 ==> r.1 == 0
    ensures r.0 ==> r.1 == (if |banker| == 3 then 20 else 12)
  {
    if winner == BankerWins && Point(banker) == 6 then
      if |banker| == 3 then (true, 20) else (true, 12)
    else (false, 0)
  }

  /** Python's `int(x)` of the exact quotient `n / d`: truncation toward zero. */
  function TruncDiv(n: int, d: int): (q: int)
    requires d > 0
    ensures n >= 0 ==> d * q <= n < d * q + d
    ensures n < 0 ==> d * q - d < n <= d * q
  {
    var m := if n >= 0 then n else -n;
    assert d * (m / d) + m % d == m && 0 <= m % d < d;
    if n >= 0 then m / d else -(m / d)
  }

  /**
    What a bet of `amount` on `kind` gains beyond its stake, or `None` when
    the bet loses: the `if/elif` chain of the settlement loop, with the
    commission factors 0.95, 0.54 and 1.5 read as the exact fractions
    95/100, 54/100 and 3/2 and `int()` as truncation.
   */
  function WinGain(kind: BetKind, amount: int, player: Hand, banker: Hand): (g: Option<int>)
    requires |player| >= 2 && |banker| >= 2
    ensures kind == Player ==> (g.Some? <==> Point(player) > Point(banker))
    ensures kind == Banker ==> (g.Some? <==> Point(player) < Point(banker))
    ensures kind == Tie ==> (g.Some? <==> Point(player) == Point(banker))
    ensures kind == PlayerPair ==> (g.Some? <==> player[0] == player[1])
    ensures kind == BankerPair ==> (g.Some? <==> banker[0] == banker[1])
    ensures kind == SuperSix ==> (g.Some? <==> Point(player) < Point(banker) == 6)
    ensures kind == Big ==> (g.Some? <==> |player| + |banker| in {5, 6})
    ensures kind == Small ==> (g.Some? <==> |player| + |banker| == 4)
    ensures g.Some? && amount >= 0 && kind == Banker ==> 100 * g.value <= 95 * amount < 100 * g.value + 100
    ensures g.Some? && amount >= 0 && kind == Big ==> 100 * g.value <= 54 * amount < 100 * g.value + 100
    ensures g.Some? && amount >= 0 && kind == Small ==> 2 * g.value <= 3 * amount < 2 * g.value + 2
  {
    var winner := Resolve(player, banker);
    var six := CheckSuperSix(banker, winner);
    match kind
    case Player => if winner == PlayerWins then Some(amount) else None
    case Banker => if winner == BankerWins then Some(TruncDiv(95 * amount, 100)) else None
    case Tie => if winner == Tied then Some(8 * amount) else None
    case PlayerPair => if player[0] == player[1] then Some(11 * amount) else None
    case BankerPair => if banker[0] == banker[1] then Some(11 * amount) else None
    case SuperSix => if six.0 then Some(amount * six.1) else None
    case Big => if |player + banker| in {5, 6} then Some(TruncDiv(54 * amount, 100)) else None
    case Small => if |player + banker| == 4 then Some(TruncDiv(3 * amount, 2)) else None
  }

  /** What one placed kind returns: its gain plus its stake when it wins, nothing when it loses. */
  function KindReturn(bets: BetMap, k: BetKind, player: Hand, banker: Hand): int
    requires |player| >= 2 && |banker| >= 2
  {
    if k !in bets then 0
    else match WinGain(k, bets[k], player, banker)
      case Some(g) => g + bets[k]
      case None => 0
  }

  /** The returns of the kinds in `kinds`. */
  function PayoutOver(bets: BetMap, kinds: seq<BetKind>, player: Hand, banker: Hand): int
    requires |player| >= 2 && |banker| >= 2
  {
    if kinds == [] then 0
    else PayoutOver(bets, kinds[..|kinds| - 1], player, banker) + KindReturn(bets, kinds[|kinds| - 1], player, banker)
  }

  /** The stakes of the kinds in `kinds`. */
  function StakeOver(bets: BetMap, kinds: seq<BetKind>): int {
    if kinds == [] then 0
    else StakeOver(bets, kinds[..|kinds| - 1]) + (if kinds[|kinds| - 1] in bets then bets[kinds[|kinds| - 1]] else 0)
  }

  /** `payout` after the settlement loop: the sum of every placed kind's return. */
  function Payout(bets: BetMap, player: Hand, banker: Hand): (p: int)
    requires |player| >= 2 && |banker| >= 2
    ensures Positive(bets) ==> 0 <= p <= 21 * TotalStake(bets)
  {
    assert Positive(bets) ==> 0 <= PayoutOver(bets, AllKinds, player, banker) <= 21 * TotalStake(bets) by {
      if Positive(bets) {
        PayoutOverBounds(bets, AllKinds, player, banker);
      }
    }
    PayoutOver(bets, AllKinds, player, banker)
  }

  /** `total_bet`: the sum of all stakes. */
  function TotalStake(bets: BetMap): (t: int)
    ensures Positive(bets) ==> t >= 0 && (t > 0 <==> bets != map[])
  {
    assert Positive(bets) ==> StakeOver(bets, AllKinds) >= 0 && (StakeOver(bets, AllKinds) > 0 <==> bets != map[]) by {
      if Positive(bets) {
        StakeOverPositive(bets, AllKinds);
        if bets != map[] {
          var k :| k in bets;
          assert k == AllKinds[AllKindsIndex(k)];
        } else {
          StakeOverEmpty(AllKinds);
        }
      }
    }
    StakeOver(bets, AllKinds)
  }

  /**
    The settlement loop of `baccarat_game`: walks every bet kind and adds
    up what the winning ones return.
   */
  method ComputePayout(bets: BetMap, player: Hand, banker: Hand) returns (payout: int)
    requires |player| >= 2 && |banker| >= 2
    ensures payout == Payout(bets, player, banker)
  {
    payout := 0;
    var i := 0;
    while i < |AllKinds|
      invariant 0 <= i <= |AllKinds|
      invariant payout == PayoutOver(bets, AllKinds[..i], player, banker)
    {
      var k := AllKinds[i];
      if k in bets {
        var amount := bets[k];
        match WinGain(k, amount, player, banker)
        case Some(gain) => payout := payout + gain + amount;
        case None =>
      }
      assert AllKinds[..i + 1][..i] == AllKinds[..i];
      i := i + 1;
    }
    assert AllKinds[..i] == AllKinds;
  }

  // ---------------------------------------------------------------- lemmas

  /** Swapping the hands swaps the winner. */
  lemma ResolveMirror(player: Hand, banker: Hand)
    ensures Resolve(banker, player) == Mirror(Resolve(player, banker))
  {
  }

  /** Super six fires only on a banker point of 6 against a lower player point. */
  lemma SuperSixNeedsBankerSix(player: Hand, banker: Hand)
    requires CheckSuperSix(banker, Resolve(player, banker)).0
    ensures Point(banker) == 6 && Point(player) < 6
  {
  }

  /**
    With the two-card hands of `deal_cards`, the total card count is always
    4: a small bet always wins, gaining one and a half times its stake
    (truncated) on top of the stake it gets back; a big bet never wins; and
    super six never reaches its three-card rate of 20.
   */
  lemma TwoCardSideBets(player: Hand, banker: Hand, amount: int)
    requires IsDealtHand(player) && IsDealtHand(banker)
    ensures WinGain(Small, amount, player, banker) == Some(TruncDiv(3 * amount, 2))
    ensures WinGain(Big, amount, player, banker) == None
    ensures CheckSuperSix(banker, Resolve(player, banker)).1 in {0, 12}
  {
  }

  /** Returns stay between nothing and 21 times the stakes. */
  lemma {:induction false} PayoutOverBounds(bets: BetMap, kinds: seq<BetKind>, player: Hand, banker: Hand)
    requires |player| >= 2 && |banker| >= 2 && Positive(bets)
    ensures 0 <= PayoutOver(bets, kinds, player, banker) <= 21 * StakeOver(bets, kinds)
  {
    if kinds != [] {
      var k := kinds[|kinds| - 1];
      PayoutOverBounds(bets, kinds[..|kinds| - 1], player, banker);
      if k in bets {
        GainBounds(k, bets[k], player, banker);
      }
    }
  }

  /** Positive stakes add up to a positive total unless nothing is placed. */
  lemma {:induction false} StakeOverPositive(bets: BetMap, kinds: seq<BetKind>)
    requires Positive(bets)
    ensures StakeOver(bets, kinds) >= 0
    ensures (exists i :: 0 <= i < |kinds| && kinds[i] in bets) ==> StakeOver(bets, kinds) > 0
  {
    if kinds != [] {
      var init := kinds[..|kinds| - 1];
      StakeOverPositive(bets, init);
      assert forall i :: 0 <= i < |init| ==> init[i] == kinds[i];
    }
  }

  /** Nothing staked adds up to nothing. */
  lemma {:induction false} StakeOverEmpty(kinds: seq<BetKind>)
    ensures StakeOver(map[], kinds) == 0
  {
    if kinds != [] {
      StakeOverEmpty(kinds[..|kinds| - 1]);
    }
  }

  /** Where a kind sits in `AllKinds`. */
  function AllKindsIndex(k: BetKind): (i: nat)
    ensures i < |AllKinds| && AllKinds[i] == k
  {
    match k
    case Player => 0
    case Banker => 1
    case Tie => 2
    case PlayerPair => 3
    case BankerPair => 4
    case SuperSix => 5
    case Big => 6
    case Small => 7
  }

  /** A winning kind gains at least nothing and at most 20 times its stake. */
  lemma GainBounds(k: BetKind, a: int, player: Hand, banker: Hand)
    requires |player| >= 2 && |banker| >= 2 && a > 0
    ensures WinGain(k, a, player, banker).Some? ==>
              0 <= WinGain(k, a, player, banker).value <= 20 * a
  {
  }

  /**
    Every kind is settled on its own: the returns of two wagers on disjoint
    kinds add up to the return of the two placed together.
   */
  lemma {:induction false} PayoutOverAdditive(b1: BetMap, b2: BetMap, kinds: seq<BetKind>, player: Hand, banker: Hand)
    requires |player| >= 2 && |banker| >= 2 && b1.Keys !! b2.Keys
    ensures PayoutOver(b1 + b2, kinds, player, banker)
         == PayoutOver(b1, kinds, player, banker) + PayoutOver(b2, kinds, player, banker)
  {
    if kinds != [] {
      PayoutOverAdditive(b1, b2, kinds[..|kinds| - 1], player, banker);
    }
  }

  lemma PayoutAdditive(b1: BetMap, b2: BetMap, player: Hand, banker: Hand)
    requires |player| >= 2 && |banker| >= 2 && b1.Keys !! b2.Keys
    ensures Payout(b1 + b2, player, banker) == Payout(b1, player, banker) + Payout(b2, player, banker)
  {
    PayoutOverAdditive(b1, b2, AllKinds, player, banker);
  }

  lemma {:induction false} StakeOverAdditive(b1: BetMap, b2: BetMap, kinds: seq<BetKind>)
    requires b1.Keys !! b2.Keys
    ensures StakeOver(b1 + b2, kinds) == StakeOver(b1, kinds) + StakeOver(b2, kinds)
  {
    if kinds != [] {
      StakeOverAdditive(b1, b2, kinds[..|kinds| - 1]);
    }
  }

  predicate Distinct(kinds: seq<BetKind>) {
    forall i, j :: 0 <= i < j < |kinds| ==> kinds[i] != kinds[j]
  }

  lemma {:induction false} SingleKindOver(k: BetKind, a: int, kinds: seq<BetKind>, player: Hand, banker: Hand)
    requires |player| >= 2 && |banker| >= 2 && Distinct(kinds)
    ensures PayoutOver(map[k := a], kinds, player, banker) == if k in kinds then KindReturn(map[k := a], k, player, banker) else 0
    ensures StakeOver(map[k := a], kinds) == if k in kinds then a else 0
  {
    if kinds != [] {
      var init := kinds[..|kinds| - 1];
      assert forall i :: 0 <= i < |init| ==> init[i] == kinds[i];
      SingleKindOver(k, a, init, player, banker);
      assert k in kinds <==> k in init || k == kinds[|kinds| - 1];
    }
  }

  /** A wager on a single kind stakes its amount and is paid that kind's return alone. */
  lemma SingleKind(k: BetKind, a: int, player: Hand, banker: Hand)
    requires |player| >= 2 && |banker| >= 2
    ensures TotalStake(map[k := a]) == a
    ensures Payout(map[k := a], player, banker) == KindReturn(map[k := a], k, player, banker)
  {
    assert k == AllKinds[AllKindsIndex(k)];
    SingleKindOver(k, a, AllKinds, player, banker);
  }

  /**
    The worked example: 100 on the player and 50 on small, player point 5
    against banker point 3. The player bet returns 200, small returns 125.
   */
  lemma PlayerAndSmallExample()
    ensures Payout(map[Player := 100, Small := 50], [2, 3], [1, 2]) == 325
    ensures TotalStake(map[Player := 100, Small := 50]) == 150
  {
    var p, b := [2, 3], [1, 2];
    assert Resolve(p, b) == PlayerWins by {
      assert Sum(p) == 5 by { assert p[..1] == [2]; }
      assert Sum(b) == 3 by { assert b[..1] == [1]; }
    }
    var onPlayer, onSmall := map[Player := 100], map[Small := 50];
    assert map[Player := 100, Small := 50] == onPlayer + onSmall;
    PayoutAdditive(onPlayer, onSmall, p, b);
    StakeOverAdditive(onPlayer, onSmall, AllKinds);
    SingleKind(Player, 100, p, b);
    SingleKind(Small, 50, p, b);
  }
}
