/**
 Coins and coin holdings of the vending machine: the four denominations,
 their face values, sequences of coins and the per-denomination counts
 (an inventory) the machine keeps for making change.
 */
module Coins {

  /** The denominations the machine handles. */
  datatype Coin = Penny | Nickel | Dime | Quarter

  /** Face value in cents. */
  function Value(c: Coin): (v: nat)
    ensures 0 < v <= 25
  {
    match c
    case Penny => 1
    case Nickel => 5
    case Dime => 10
    case Quarter => 25
  }

  /** Every coin but the penny is worth a whole number of nickels. */
  lemma ValueInNickels(c: Coin)
    ensures c != Penny <==> Value(c) % 5 == 0
  {
  }

  /** Total value of a sequence of coins. */
  function Total(coins: seq<Coin>): nat
  {
    if |coins| == 0 then 0 else Value(coins[0]) + Total(coins[1..])
  }

  lemma {:induction false} TotalAppend(a: seq<Coin>, b: seq<Coin>)
    ensures Total(a + b) == Total(a) + Total(b)
  {
    if |a| == 0 {
      assert a + b == b;
    } else {
      assert (a + b)[1..] == a[1..] + b;
      TotalAppend(a[1..], b);
    }
  }

  /** Only the empty sequence is worth nothing. */
  lemma TotalZero(coins: seq<Coin>)
    ensures Total(coins) == 0 <==> coins == []
  {
  }

  /** `k` coins of denomination `c`. */
  function Repeat(c: Coin, k: nat): (r: seq<Coin>)
    ensures |r| == k
    ensures forall i :: 0 <= i < k ==> r[i] == c
  {
    if k == 0 then [] else [c] + Repeat(c, k - 1)
  }

  /** `k` coins of face value `v` are worth `k * v`; the face value is passed
      so that it can be a literal at the call site. */
  lemma {:induction false} RepeatTotal(c: Coin, k: nat, v: nat)
    requires v == Value(c)
    ensures Total(Repeat(c, k)) == k * v
  {
    if k > 0 {
      assert Repeat(c, k)[1..] == Repeat(c, k - 1);
      RepeatTotal(c, k - 1, v);
    }
  }

  lemma {:induction false} RepeatCounts(c: Coin, k: nat)
    ensures multiset(Repeat(c, k))[c] == k
    ensures forall d :: d != c ==> multiset(Repeat(c, k))[d] == 0
  {
    if k > 0 {
      RepeatCounts(c, k - 1);
      assert multiset(Repeat(c, k)) == multiset{c} + multiset(Repeat(c, k - 1));
    }
  }

  /** How many coins of each denomination are held; a missing key means none. */
  type Inventory = map<Coin, nat>

  function Count(inv: Inventory, c: Coin): nat
  {
    if c in inv then inv[c] else 0
  }

  /** Adds every coin of `coins` to the inventory, one unit per coin. */
  function Deposit(inv: Inventory, coins: seq<Coin>): (r: Inventory)
    ensures forall c :: Count(r, c) == Count(inv, c) + multiset(coins)[c]
    decreases |coins|
  {
    if |coins| == 0 then inv
    else
      assert coins == [coins[0]] + coins[1..];
      Deposit(inv[coins[0] := Count(inv, coins[0]) + 1], coins[1..])
  }

  /** The inventory holds at least the coins of `coins`, denomination by denomination. */
  predicate Covers(inv: Inventory, coins: seq<Coin>) {
    forall c :: multiset(coins)[c] <= Count(inv, c)
  }

  /** Takes the coins of `coins` out of the inventory. */
  function Withdraw(inv: Inventory, coins: seq<Coin>): (r: Inventory)
    requires Covers(inv, coins)
    ensures forall c :: Count(r, c) + multiset(coins)[c] == Count(inv, c)
  {
    map c | c in inv :: inv[c] - multiset(coins)[c]
  }

  /** The per-denomination counts of a sequence of coins. */
  function Tally(coins: seq<Coin>): (r: Inventory)
    ensures forall c :: Count(r, c) == multiset(coins)[c]
  {
    Deposit(map[], coins)
  }

  /** Total value of the coins an inventory holds (the face values of `Value`,
      written as literals so that the sum stays linear). */
  function Worth(inv: Inventory): nat
  {
    25 * Count(inv, Quarter) + 10 * Count(inv, Dime) + 5 * Count(inv, Nickel) + Count(inv, Penny)
  }

  /** Number of coins an inventory holds. */
  function Size(inv: Inventory): nat
  {
    Count(inv, Quarter) + Count(inv, Dime) + Count(inv, Nickel) + Count(inv, Penny)
  }

  /** Adding one coin to an inventory adds its face value to the worth. */
  lemma WorthAddOne(before: Inventory, after: Inventory, c: Coin)
    requires Count(after, c) == Count(before, c) + 1
    requires forall d :: d != c ==> Count(after, d) == Count(before, d)
    ensures Worth(after) == Worth(before) + Value(c)
    ensures Size(after) == Size(before) + 1
  {
    match c
    case Penny =>
    case Nickel =>
    case Dime =>
    case Quarter =>
  }

  /** Counting a sequence coin by coin and by denomination agree, in value and in number. */
  lemma {:induction false} TallyTotals(coins: seq<Coin>)
    ensures Worth(Tally(coins)) == Total(coins)
    ensures Size(Tally(coins)) == |coins|
  {
    if |coins| > 0 {
      var c0, rest := coins[0], coins[1..];
      TallyTotals(rest);
      assert coins == [c0] + rest;
      assert multiset(coins) == multiset{c0} + multiset(rest);
      WorthAddOne(Tally(rest), Tally(coins), c0);
    }
  }

  /** Depositing coins raises the inventory's worth by exactly their value. */
  lemma DepositWorth(inv: Inventory, coins: seq<Coin>)
    ensures Worth(Deposit(inv, coins)) == Worth(inv) + Total(coins)
    ensures Size(Deposit(inv, coins)) == Size(inv) + |coins|
  {
    TallyTotals(coins);
  }

  /** Withdrawing coins lowers the worth by exactly their value, which therefore
      never exceeds what the inventory held. */
  lemma WithdrawWorth(inv: Inventory, coins: seq<Coin>)
    requires Covers(inv, coins)
    ensures Total(coins) <= Worth(inv)
    ensures Worth(Withdraw(inv, coins)) + Total(coins) == Worth(inv)
  {
    TallyTotals(coins);
  }

  /** Withdrawing no coins leaves the inventory as it was. */
  lemma WithdrawNothing(inv: Inventory)
    ensures Withdraw(inv, []) == inv
  {
    var none: seq<Coin> := [];
    assert forall c :: multiset(none)[c] == 0;
  }

  /** Withdrawing what was just deposited restores every count. */
  lemma WithdrawUndoesDeposit(inv: Inventory, coins: seq<Coin>)
    ensures Covers(Deposit(inv, coins), coins)
    ensures forall c :: Count(Withdraw(Deposit(inv, coins), coins), c) == Count(inv, c)
  {
  }
}
