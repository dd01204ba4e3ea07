/**
 The arithmetic of list_sort's pending lists. After `c` elements have been taken
 from the input, the binary digits of `c` alone say how many sorted runs are
 pending, how long each one is and which two the next round merges. Runs are
 numbered from the newest, number 0, to the oldest, number `BitLength(c) - 1`.
 */
module PendingRuns {
  import opened Binary

  function TrailingOnes(c: nat): nat {
    if c % 2 == 1 then 1 + TrailingOnes(c / 2) else 0
  }

  /** Pending run `i` holds two to the power of this many elements. */
  function RunExp(c: nat, i: nat): nat {
    if i == 0 then 0 else i - 1 + Bit(c, i - 1)
  }

  function RunSize(c: nat, i: nat): nat {
    Pow2(RunExp(c, i))
  }

  /** The number of elements in the `i` newest pending runs. */
  function Newest(c: nat, i: nat): nat {
    if i == 0 then 0 else Pow2(i - 1) + Low(c, i - 1)
  }

  /** The round that takes element number `c` first merges two runs, if any run is old enough. */
  predicate MergesAt(c: nat) {
    BitLength(c) > TrailingOnes(c)
  }

  // ----- binary digits

  lemma {:induction false} LowStep(c: nat, j: nat)
    ensures Low(c, j + 1) == Low(c, j) + Bit(c, j) * Pow2(j)
  {
    if j > 0 {
      LowStep(c / 2, j - 1);
      assert Bit(c, j) == 0 || Bit(c, j) == 1;
    }
  }

  lemma {:induction false} LowAll(c: nat)
    ensures Low(c, BitLength(c)) == c
  {
    if c > 0 {
      LowAll(c / 2);
    }
  }

  lemma {:induction false} TrailingOnesBits(c: nat, i: nat)
    requires i <= TrailingOnes(c)
    ensures Bit(c, i) == if i < TrailingOnes(c) then 1 else 0
  {
    if i > 0 {
      TrailingOnesBits(c / 2, i - 1);
    }
  }

  lemma {:induction false} TrailingOnesLength(c: nat)
    ensures TrailingOnes(c) <= BitLength(c)
    ensures MergesAt(c) ==> TrailingOnes(c) + 1 < BitLength(c)
  {
    if c > 0 {
      TrailingOnesLength(c / 2);
      if MergesAt(c) && TrailingOnes(c) + 1 == BitLength(c) {
        TopBit(c);
        TrailingOnesBits(c, TrailingOnes(c));
      }
    }
  }

  /** Counting up sets one bit, clears the ones below it and keeps those above. */
  lemma {:induction false} IncrementBits(c: nat, i: nat)
    ensures i < TrailingOnes(c) ==> Bit(c + 1, i) == 0
    ensures i == TrailingOnes(c) ==> Bit(c + 1, i) == 1
    ensures i > TrailingOnes(c) ==> Bit(c + 1, i) == Bit(c, i)
  {
    if i > 0 && c % 2 == 1 {
      IncrementBits(c / 2, i - 1);
      assert (c + 1) / 2 == c / 2 + 1;
    } else if i > 0 {
      assert (c + 1) / 2 == c / 2;
    }
  }

  lemma {:induction false} IncrementLength(c: nat)
    ensures BitLength(c + 1) == if MergesAt(c) then BitLength(c) else BitLength(c) + 1
  {
    if c % 2 == 1 {
      IncrementLength(c / 2);
      assert (c + 1) / 2 == c / 2 + 1;
    } else {
      assert (c + 1) / 2 == c / 2;
    }
  }

  lemma {:induction false} IncrementLow(c: nat, j: nat)
    ensures j <= TrailingOnes(c) ==> Low(c, j) == Pow2(j) - 1 && Low(c + 1, j) == 0
    ensures j > TrailingOnes(c) ==> Low(c + 1, j) == Low(c, j) + 1
  {
    if j > 0 && c % 2 == 1 {
      IncrementLow(c / 2, j - 1);
      assert (c + 1) / 2 == c / 2 + 1;
    } else if j > 0 {
      assert (c + 1) / 2 == c / 2;
    }
  }

  // ----- the pending runs

  lemma NewestStep(c: nat, i: nat)
    ensures Newest(c, i + 1) == Newest(c, i) + RunSize(c, i)
  {
    if i > 0 {
      LowStep(c, i - 1);
      assert Bit(c, i - 1) == 0 || Bit(c, i - 1) == 1;
      assert Pow2(i) == 2 * Pow2(i - 1);
    }
  }

  /** The pending runs hold exactly the elements counted so far. */
  lemma NewestAll(c: nat)
    ensures Newest(c, BitLength(c)) == c
  {
    if c > 0 {
      LowStep(c, BitLength(c) - 1);
      TopBit(c);
      LowAll(c);
    }
  }

  lemma {:induction false} NewestMonotone(c: nat, i: nat, j: nat)
    requires i <= j
    ensures Newest(c, i) <= Newest(c, j)
    ensures i < j ==> Newest(c, i) + RunSize(c, i) <= Newest(c, j)
    decreases j
  {
    if i < j {
      NewestMonotone(c, i, j - 1);
      NewestStep(c, j - 1);
    }
  }

  lemma NewestWithin(c: nat, i: nat)
    requires i <= BitLength(c)
    ensures Newest(c, i) <= c
  {
    NewestMonotone(c, i, BitLength(c));
    NewestAll(c);
  }

  /** The two runs a round merges have the same size, two to the number of trailing ones. */
  lemma MergedRuns(c: nat)
    requires MergesAt(c)
    ensures var k := TrailingOnes(c);
      && k + 1 < BitLength(c)
      && RunExp(c, k) == k && RunExp(c, k + 1) == k
      && Newest(c, k) == Pow2(k) - 1
  {
    var k := TrailingOnes(c);
    TrailingOnesLength(c);
    TrailingOnesBits(c, k);
    if k > 0 {
      TrailingOnesBits(c, k - 1);
      IncrementLow(c, k - 1);
    }
  }

  /** What a round does to the exponents: shift the newest runs, double one, keep the oldest. */
  lemma RoundExp(c: nat, i: nat)
    ensures 0 < i <= TrailingOnes(c) ==> RunExp(c + 1, i) == RunExp(c, i - 1)
    ensures i == TrailingOnes(c) + 1 ==> RunExp(c + 1, i) == i
    ensures i > TrailingOnes(c) + 1 ==> RunExp(c + 1, i) == RunExp(c, i)
  {
    if i > 0 {
      IncrementBits(c, i - 1);
      if 1 < i <= TrailingOnes(c) {
        TrailingOnesBits(c, i - 2);
      }
    }
  }

  /** How a round renumbers the runs: their ends, counted from the newest element. */
  lemma RoundNewest(c: nat, i: nat)
    ensures i <= TrailingOnes(c) ==> Newest(c + 1, i + 1) == Newest(c, i) + 1
    ensures i > TrailingOnes(c) + 1 ==> Newest(c + 1, i) == Newest(c, i) + 1
  {
    if i <= TrailingOnes(c) {
      IncrementLow(c, i);
      if i > 0 {
        IncrementLow(c, i - 1);
      }
    } else if i > 0 {
      IncrementLow(c, i - 1);
    }
  }

  // ----- the machine that builds them

  /** What one round of list_sort does to the sizes of the pending runs. */
  function Round(sizes: seq<nat>, c: nat): seq<nat>
    requires |sizes| == BitLength(c)
  {
    var k := TrailingOnes(c);
    if MergesAt(c) then
      TrailingOnesLength(c);
      [1] + sizes[..k] + [sizes[k] + sizes[k + 1]] + sizes[k + 2..]
    else
      [1] + sizes
  }

  /** The sizes of the pending runs, newest first, after `c` rounds. */
  function Pending(c: nat): (sizes: seq<nat>)
    ensures |sizes| == BitLength(c)
  {
    if c == 0 then []
    else
      IncrementLength(c - 1);
      TrailingOnesLength(c - 1);
      Round(Pending(c - 1), c - 1)
  }

  lemma RoundAt(sizes: seq<nat>, c: nat, i: nat)
    requires |sizes| == BitLength(c) && i < |Round(sizes, c)|
    requires MergesAt(c) ==> TrailingOnes(c) + 1 < |sizes|
    ensures var k := TrailingOnes(c);
      Round(sizes, c)[i] ==
        if i == 0 then 1
        else if !MergesAt(c) || i <= k then sizes[i - 1]
        else if i == k + 1 then sizes[k] + sizes[k + 1]
        else sizes[i]
  {
  }

  /** A round turns the sizes that the digits of `c` announce into those of `c + 1`. */
  lemma RoundSizes(sizes: seq<nat>, c: nat, i: nat)
    requires |sizes| == BitLength(c) && i < BitLength(c + 1) == |Round(sizes, c)|
    requires forall j | 0 <= j < |sizes| :: sizes[j] == RunSize(c, j)
    ensures Round(sizes, c)[i] == RunSize(c + 1, i)
  {
    TrailingOnesLength(c);
    RoundAt(sizes, c, i);
    RoundExp(c, i);
    if MergesAt(c) && i == TrailingOnes(c) + 1 {
      MergedRuns(c);
    }
  }

  lemma RoundKeeps(sizes: seq<nat>, c: nat)
    requires |sizes| == BitLength(c) && forall i | 0 <= i < |sizes| :: sizes[i] == RunSize(c, i)
    ensures var next := Round(sizes, c);
      |next| == BitLength(c + 1) && forall i | 0 <= i < |next| :: next[i] == RunSize(c + 1, i)
  {
    IncrementLength(c);
    TrailingOnesLength(c);
    forall i | 0 <= i < |Round(sizes, c)| ensures Round(sizes, c)[i] == RunSize(c + 1, i) {
      RoundSizes(sizes, c, i);
    }
  }

  /** Every pending size is the power of two that the digits of `c` announce. */
  lemma {:induction false} PendingClosedForm(c: nat)
    ensures |Pending(c)| == BitLength(c)
    ensures forall i | 0 <= i < BitLength(c) :: Pending(c)[i] == RunSize(c, i)
  {
    if c > 0 {
      PendingClosedForm(c - 1);
      RoundKeeps(Pending(c - 1), c - 1);
    }
  }

  // ----- the table of six states

  /** How many of the `i` newest runs have size two to the power `k`. */
  function CountIn(c: nat, k: nat, i: nat): nat {
    if i == 0 then 0 else CountIn(c, k, i - 1) + if RunExp(c, i - 1) == k then 1 else 0
  }

  /** How many elements the `i` newest runs hold in runs smaller than two to the power `k`. */
  function SmallerIn(c: nat, k: nat, i: nat): nat {
    if i == 0 then 0 else SmallerIn(c, k, i - 1) + if RunExp(c, i - 1) < k then RunSize(c, i - 1) else 0
  }

  /** Bit `k - 1` of `c`; below bit 0 there is a bit that is always set. */
  function BitBelow(c: nat, k: nat): (b: nat)
    ensures b <= 1
  {
    if k == 0 then 1 else Bit(c, k - 1)
  }

  datatype State = S00x | S01x | Sx10x | Sx11x | Sy00x | Sy01x

  /** The state of digit `k`: the digit, the digit below it, and whether anything is above. */
  function DigitState(c: nat, k: nat): State {
    if Bit(c, k) == 1 then if BitBelow(c, k) == 0 then Sx10x else Sx11x
    else if BitLength(c) <= k + 1 then if BitBelow(c, k) == 0 then S00x else S01x
    else if BitBelow(c, k) == 0 then Sy00x else Sy01x
  }

  lemma {:induction false} CountInClosedForm(c: nat, k: nat, i: nat)
    ensures CountIn(c, k, i) ==
      (if i > k && BitBelow(c, k) == 1 then 1 else 0) + (if i > k + 1 && Bit(c, k) == 0 then 1 else 0)
  {
    if i > 0 {
      CountInClosedForm(c, k, i - 1);
    }
  }

  lemma {:induction false} SmallerInClosedForm(c: nat, k: nat, i: nat)
    ensures SmallerIn(c, k, i) ==
      if i <= k then Newest(c, i) else if BitBelow(c, k) == 0 then Newest(c, k + 1) else Newest(c, k)
  {
    if i > 0 {
      SmallerInClosedForm(c, k, i - 1);
      NewestStep(c, i - 1);
    }
  }

  lemma {:induction false} BitsAboveLength(c: nat, i: nat)
    ensures i >= BitLength(c) ==> Bit(c, i) == 0 && Low(c, i) == c
  {
    if i == 0 {
    } else if c > 0 {
      BitsAboveLength(c / 2, i - 1);
    } else {
      BitsAboveLength(0, i - 1);
    }
  }

  lemma DigitAtLength(c: nat, k: nat)
    ensures Bit(c, k) == 1 ==> BitLength(c) > k
    ensures BitLength(c) == k + 1 ==> Bit(c, k) == 1
  {
    BitsAboveLength(c, k);
    if BitLength(c) == k + 1 {
      TopBit(c);
    }
  }

  /** The table in the comment of list_sort: how many runs of size 2^k are pending in a state. */
  function StateRuns(state: State): nat {
    match state
    case S00x => 0
    case S01x => 0
    case Sx10x => 0
    case Sx11x => 1
    case Sy00x => 1
    case Sy01x => 2
  }

  /** The table's second column: how many elements are pending in runs smaller than 2^k. */
  function StateSmaller(state: State, k: nat, x: nat): nat
    requires k > 0
  {
    match state
    case S00x => x
    case S01x => Pow2(k - 1) + x
    case Sx10x => Pow2(k) + x
    case Sx11x => Pow2(k - 1) + x
    case Sy00x => Pow2(k) + x
    case Sy01x => Pow2(k - 1) + x
  }

  /** The pending runs obey the table, for every count and every digit. */
  lemma StateTable(c: nat, k: nat)
    ensures CountIn(c, k, BitLength(c)) == StateRuns(DigitState(c, k))
  {
    CountInClosedForm(c, k, BitLength(c));
    DigitAtLength(c, k);
  }

  lemma SmallerAboveZero(c: nat, k: nat)
    requires k > 0 && Bit(c, k - 1) == 0
    ensures SmallerIn(c, k, BitLength(c)) == StateSmaller(DigitState(c, k), k, Low(c, k - 1))
  {
    SmallerInClosedForm(c, k, BitLength(c));
    if BitLength(c) <= k {
      DigitAtLength(c, k - 1);
      NewestAll(c);
      BitsAboveLength(c, k - 1);
      BitsAboveLength(c, k);
    } else {
      DigitAtLength(c, k);
      LowStep(c, k - 1);
    }
  }

  lemma SmallerAboveOne(c: nat, k: nat)
    requires k > 0 && Bit(c, k - 1) == 1
    ensures SmallerIn(c, k, BitLength(c)) == StateSmaller(DigitState(c, k), k, Low(c, k - 1))
  {
    SmallerInClosedForm(c, k, BitLength(c));
    DigitAtLength(c, k);
    DigitAtLength(c, k - 1);
  }

  /** So do the numbers of elements that wait in smaller runs. */
  lemma StateTableSmaller(c: nat, k: nat)
    requires k > 0
    ensures SmallerIn(c, k, BitLength(c)) == StateSmaller(DigitState(c, k), k, Low(c, k - 1))
  {
    if Bit(c, k - 1) == 0 {
      SmallerAboveZero(c, k);
    } else {
      SmallerAboveOne(c, k);
    }
  }

  /** A late merge is never worse than 2:1 on one side, nor than 1:2 on the other. */
  lemma FinalBalance(c: nat, i: nat)
    requires 0 < i < BitLength(c)
    ensures RunSize(c, i) <= 2 * Newest(c, i)
    ensures Newest(c, i) <= 2 * RunSize(c, i) - 1
  {
    LowBound(c, i - 1);
    assert Pow2(i) == 2 * Pow2(i - 1);
  }

  // ----- the number of comparisons

  /** Comparisons that suffice to build a run of two to the power `e` by balanced merges. */
  function BuildCost(e: nat): nat {
    if e == 0 then 0 else 2 * BuildCost(e - 1) + Pow2(e) - 1
  }

  /** Comparisons that suffice to have built the `i` newest runs. */
  function PendingCost(c: nat, i: nat): nat {
    if i == 0 then 0 else PendingCost(c, i - 1) + BuildCost(RunExp(c, i - 1))
  }

  /** Comparisons that suffice to merge the `i` newest runs into one, newest first. */
  function FinalCost(c: nat, i: nat): (cost: nat) {
    if i <= 1 then 0
    else
      NewestStep(c, i - 1);
      FinalCost(c, i - 1) + Newest(c, i) - 1
  }

  lemma {:induction false} BuildCostClosedForm(e: nat)
    ensures BuildCost(e) == e * Pow2(e) - Pow2(e) + 1
  {
    if e > 0 {
      BuildCostClosedForm(e - 1);
      assert (e - 1) * Pow2(e - 1) == e * Pow2(e - 1) - Pow2(e - 1);
      assert e * Pow2(e) == e * (2 * Pow2(e - 1)) == 2 * (e * Pow2(e - 1));
    }
  }

  lemma BuildCostStep(e: nat)
    ensures BuildCost(e + 1) == 2 * BuildCost(e) + 2 * Pow2(e) - 1
  {
  }

  lemma PendingCostStep(c: nat, i: nat)
    ensures PendingCost(c, i + 1) == PendingCost(c, i) + BuildCost(RunExp(c, i))
  {
  }

  /** The newest runs only move back by one. */
  lemma {:induction false} RoundCostBelow(c: nat, i: nat)
    requires i <= TrailingOnes(c)
    ensures PendingCost(c + 1, i + 1) == PendingCost(c, i)
  {
    if i == 0 {
      PendingCostStep(c + 1, 0);
    } else {
      RoundCostBelow(c, i - 1);
      RoundExp(c, i);
      PendingCostStep(c + 1, i);
      PendingCostStep(c, i - 1);
    }
  }

  lemma TwoCosts(c: nat, k: nat)
    requires RunExp(c, k) == k && RunExp(c, k + 1) == k
    ensures PendingCost(c, k + 2) == PendingCost(c, k) + 2 * BuildCost(k)
  {
    PendingCostStep(c, k);
    PendingCostStep(c, k + 1);
  }

  lemma TopCost(c: nat, k: nat)
    requires RunExp(c, k + 1) == k + 1
    ensures PendingCost(c, k + 2) == PendingCost(c, k + 1) + BuildCost(k + 1)
  {
    PendingCostStep(c, k + 1);
  }

  /** A merge is paid for by the cost of the run that it builds. */
  lemma RoundCostMerge(c: nat)
    requires MergesAt(c)
    ensures var k := TrailingOnes(c);
      PendingCost(c + 1, k + 2) == PendingCost(c, k + 2) + 2 * Pow2(k) - 1
  {
    var k := TrailingOnes(c);
    MergedRuns(c);
    TwoCosts(c, k);
    RoundCostBelow(c, k);
    RoundExp(c, k + 1);
    TopCost(c + 1, k);
    BuildCostStep(k);
  }

  /** The oldest runs stay as they are. */
  lemma {:induction false} RoundCostAbove(c: nat, i: nat)
    requires MergesAt(c) && i >= TrailingOnes(c) + 2
    ensures PendingCost(c + 1, i) == PendingCost(c, i) + 2 * Pow2(TrailingOnes(c)) - 1
  {
    if i == TrailingOnes(c) + 2 {
      RoundCostMerge(c);
    } else {
      RoundCostAbove(c, i - 1);
      RoundExp(c, i - 1);
      PendingCostStep(c + 1, i - 1);
      PendingCostStep(c, i - 1);
    }
  }

  lemma RoundPays(c: nat)
    ensures PendingCost(c + 1, BitLength(c + 1)) ==
      PendingCost(c, BitLength(c)) + if MergesAt(c) then 2 * Pow2(TrailingOnes(c)) - 1 else 0
  {
    IncrementLength(c);
    TrailingOnesLength(c);
    if MergesAt(c) {
      RoundCostAbove(c, BitLength(c));
    } else {
      RoundCostBelow(c, BitLength(c));
    }
  }

  lemma CostStep(m: int, p: int, i: int)
    ensures m * (i - 1) + (i - 1) * (2 * p) - 2 * p + m == (m + 2 * p) * i - 4 * p
    ensures m * (i - 1) + (i - 2) * p + m == (m + p) * i - 2 * p
  {
  }

  lemma {:induction false} CostClosedForm(c: nat, i: nat)
    requires i > 0
    ensures PendingCost(c, i) + FinalCost(c, i) == Newest(c, i) * i - Pow2(i) + 1
  {
    if i > 1 {
      CostClosedForm(c, i - 1);
      NewestStep(c, i - 1);
      var e, m := RunExp(c, i - 1), Newest(c, i - 1);
      BuildCostClosedForm(e);
      PendingCostStep(c, i - 1);
      CostStep(m, Pow2(i - 2), i);
      assert Pow2(i - 1) == 2 * Pow2(i - 2) && Pow2(i) == 4 * Pow2(i - 2);
      assert e == i - 2 || e == i - 1;
    } else {
      PendingCostStep(c, 0);
    }
  }

  /**
   Sorting `n` elements takes at most n * (h + 1) - 2^(h + 1) + 1 comparisons, where
   h = floor(log2(n)): the cost of all rounds plus that of the merges at the end.
   */
  lemma ComparisonBound(n: nat)
    requires n > 0
    ensures PendingCost(n, BitLength(n)) + FinalCost(n, BitLength(n))
      == n * BitLength(n) - Pow2(BitLength(n)) + 1
  {
    CostClosedForm(n, BitLength(n));
    NewestAll(n);
  }
}
