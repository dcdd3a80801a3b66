/**
 The coin-return scenarios of the machine's test suite, each stated over the
 pure model: the machine is built by the same calls, the expected hardware
 signals become the expected event trace, and where a scenario is one
 instance of a general rule the rule is proved for every input.
 */
module CoinReturnScenarios {
  import opened Coins
  import opened Change
  import opened VendingMachine

  /** The canonical change for one coin's value is that coin. */
  lemma CanonicalSingle(c: Coin)
    ensures CanonicalChange(Value(c)) == [c]
  {
    match c
    case Penny => assert CanonicalChange(1) == [] + ([] + ([] + (Repeat(Penny, 1) + [])));
    case Nickel => assert CanonicalChange(5) == [] + ([] + (Repeat(Nickel, 1) + ([] + [])));
    case Dime => assert CanonicalChange(10) == [] + (Repeat(Dime, 1) + ([] + ([] + [])));
    case Quarter => assert CanonicalChange(25) == Repeat(Quarter, 1) + ([] + ([] + ([] + [])));
  }

  /** One coin of a denomination is all the stock the change for its value needs. */
  lemma SingleCoinStocked(c: Coin, inv: Inventory)
    requires 1 <= Count(inv, c)
    ensures Stocked(Value(c), inv)
  {
    match c
    case Penny =>
    case Nickel =>
    case Dime =>
    case Quarter =>
  }

  /** Inserting a coin into a new machine and asking for the credit back
      ejects that very coin, clears the credit and empties the float again. */
  lemma MachineReturnsCoin(c: Coin)
    ensures ReturnCoins(InsertCoin(Create(), c)).events == [ReturnCoin(c)]
    ensures ReturnCoins(InsertCoin(Create(), c)).machine.credit == 0
    ensures forall d :: Count(ReturnCoins(InsertCoin(Create(), c)).machine.inventory, d) == 0
  {
    var m := InsertCoin(Create(), c);
    SingleCoinStocked(c, m.inventory);
    MakeChangeCanonical(Value(c), m.inventory);
    CanonicalSingle(c);
    ReturnCoinsEmitsChange(m, [c]);
    assert multiset([c])[c] == 1;
  }

  /** Without credit nothing is ejected and nothing changes. */
  lemma ReturnCoinsWithoutCredit(m: Machine)
    requires m.credit == 0
    ensures ReturnCoins(m) == Step(m, [])
  {
    var r := ReturnCoins(m);
    assert r.events == [];
  }

  /** A machine nobody has paid ejects no coins when asked for the credit. */
  lemma MachineReturnsNoCoinsIfNoneAreInserted()
    ensures ReturnCoins(Create()) == Step(Create(), [])
  {
    ReturnCoinsWithoutCredit(Create());
  }

  /** After the inserted penny is returned the credit reads zero. */
  lemma MachineDeductsReturnedCoinFromCredit()
    ensures ReadCredit(ReturnCoins(InsertCoin(Create(), Penny)).machine) == 0
  {
    MachineReturnsCoin(Penny);
  }

  /** Inserting `n` pennies credits `n` cents and adds `n` pennies to the float. */
  lemma InsertPennies(m: Machine, n: nat)
    ensures InsertCoins(m, Repeat(Penny, n)).credit == m.credit + n
    ensures Count(InsertCoins(m, Repeat(Penny, n)).inventory, Penny) == Count(m.inventory, Penny) + n
    ensures forall c :: c != Penny ==> Count(InsertCoins(m, Repeat(Penny, n)).inventory, c) == Count(m.inventory, c)
  {
    RepeatTotal(Penny, n, 1);
    RepeatCounts(Penny, n);
  }

  /** A new machine with a quarter, a dime and a nickel loaded as float. */
  function LoadedFloat(): (m: Machine)
    ensures m.credit == 0
    ensures Count(m.inventory, Quarter) == 1 && Count(m.inventory, Dime) == 1
    ensures Count(m.inventory, Nickel) == 1 && Count(m.inventory, Penny) == 0
  {
    assert [Quarter, Dime, Nickel] == [Quarter] + [Dime] + [Nickel];
    LoadChange(Create(), [Quarter, Dime, Nickel])
  }

  /** The machine of the efficient-change scenario: the float loaded, then `n` pennies inserted. */
  function LoadedThenPennies(n: nat): (m: Machine)
    ensures m.credit == n
    ensures Count(m.inventory, Quarter) == 1 && Count(m.inventory, Dime) == 1
    ensures Count(m.inventory, Nickel) == 1 && Count(m.inventory, Penny) == n
  {
    InsertPennies(LoadedFloat(), n);
    InsertCoins(LoadedFloat(), Repeat(Penny, n))
  }

  /** A quarter, a dime, a nickel and `n` pennies never cap the greedy picks for `n`. */
  lemma FloatStocked(n: nat, inv: Inventory)
    requires n < 50 && n % 25 < 20
    requires Count(inv, Quarter) == 1 && Count(inv, Dime) == 1
    requires Count(inv, Nickel) == 1 && Count(inv, Penny) == n
    ensures Stocked(n, inv)
  {
    assert n % 25 % 10 < 10;
  }

  /** With a quarter, a dime and a nickel as float, a credit of `n` pennies
      that the float never caps comes back as the canonical change. */
  lemma LoadedReturnsCanonical(n: nat)
    requires 0 < n < 50 && n % 25 < 20
    ensures ReturnCoins(LoadedThenPennies(n)).events == Emit(CanonicalChange(n))
    ensures ReturnCoins(LoadedThenPennies(n)).machine.credit == 0
  {
    var m := LoadedThenPennies(n);
    FloatStocked(n, m.inventory);
    MakeChangeCanonical(n, m.inventory);
    ReturnCoinsEmitsChange(m, CanonicalChange(n));
  }

  /** Seventeen cents in pennies, with a quarter, a dime and a nickel as float,
      come back as a dime, a nickel and two pennies: the quarter is skipped
      because it is worth more than what is owed, and no way of paying
      seventeen cents uses fewer coins. */
  lemma MachineReturnsEfficientChange()
    ensures ReturnCoins(LoadedThenPennies(17)).events
         == [ReturnCoin(Dime), ReturnCoin(Nickel), ReturnCoin(Penny), ReturnCoin(Penny)]
    ensures ReturnCoins(LoadedThenPennies(17)).machine.credit == 0
    ensures forall coins :: Total(coins) == 17 ==> 4 <= |coins|
  {
    LoadedReturnsCanonical(17);
    SeventeenCents(17);
    EmitSeventeen();
    FewestCoinsForSeventeen();
  }

  lemma EmitSeventeen()
    ensures Emit([Dime, Nickel, Penny, Penny])
         == [ReturnCoin(Dime), ReturnCoin(Nickel), ReturnCoin(Penny), ReturnCoin(Penny)]
  {
  }

  /** No way of paying seventeen cents uses fewer than four coins. */
  lemma FewestCoinsForSeventeen()
    ensures forall coins :: Total(coins) == 17 ==> 4 <= |coins|
  {
    forall coins | Total(coins) == 17
      ensures 4 <= |coins|
    {
      CanonicalChangeMinimal(17, coins);
      SeventeenCents(17);
    }
  }

  /** The canonical change for seventeen cents. The amount is a parameter fixed
      by the precondition, so that the verifier does not unfold
      `CanonicalChange` on the literal eagerly. */
  lemma SeventeenCents(n: nat)
    requires n == 17
    ensures CanonicalChange(n) == [Dime, Nickel, Penny, Penny]
  {
    assert CanonicalChange(n) == [] + (Repeat(Dime, 1) + (Repeat(Nickel, 1) + (Repeat(Penny, 2) + [])));
  }

  /** A new machine after `n` pennies have been inserted. */
  function PenniesMachine(n: nat): (m: Machine)
    ensures m.credit == n
    ensures Count(m.inventory, Penny) == n
    ensures Count(m.inventory, Quarter) == 0 && Count(m.inventory, Dime) == 0 && Count(m.inventory, Nickel) == 0
  {
    InsertPennies(Create(), n);
    InsertCoins(Create(), Repeat(Penny, n))
  }

  /** Paid in pennies only, the machine gives the same pennies back: the coins
      the customer inserted are the float the change is made from. */
  lemma MachineReturnsAvailableChange(n: nat)
    ensures ReturnCoins(PenniesMachine(n)).events == Emit(Repeat(Penny, n))
    ensures ReturnCoins(PenniesMachine(n)).machine.credit == 0
    ensures forall c :: Count(ReturnCoins(PenniesMachine(n)).machine.inventory, c) == 0
  {
    var m := PenniesMachine(n);
    MakeChangePenniesOnly(n, m.inventory);
    ReturnedEmit(Repeat(Penny, n));
    RepeatCounts(Penny, n);
  }

  /** A new machine after `k` quarters have been inserted. */
  function QuartersMachine(k: nat): (m: Machine)
    ensures m.credit == 25 * k
    ensures Count(m.inventory, Quarter) == k && QuartersOnly(m.inventory)
  {
    RepeatTotal(Quarter, k, 25);
    RepeatCounts(Quarter, k);
    InsertCoins(Create(), Repeat(Quarter, k))
  }

  /** A machine holding quarters only keeps a credit that is not a whole
      number of quarters: no exact change for it exists, nothing is ejected and
      nothing changes. */
  lemma QuartersOnlyRetainCredit(m: Machine)
    requires QuartersOnly(m.inventory) && m.credit % 25 != 0
    ensures ReturnCoins(m) == Step(m, [])
    ensures forall coins :: !IsChange(coins, ReadCredit(m), m.inventory)
  {
    MakeChangeQuartersOnly(m.credit, m.inventory);
    forall coins | IsChange(coins, ReadCredit(m), m.inventory)
      ensures false
    {
      QuarterChange(coins, ReadCredit(m), m.inventory);
    }
  }

  /** Quarters buy the product, which is vended; when the rest of the credit
      is not a whole number of quarters, the quarters held cannot pay it
      exactly, so no coin is ejected and the rest of the credit is kept in
      full. The scenario of the test suite is `k == 4`, a credit of 100. */
  lemma MachineRetainsCreditIfItCannotMakeChange(k: nat, price: nat)
    requires 0 < price <= 25 * k && (25 * k - price) % 25 != 0
    ensures Purchase(QuartersMachine(k), ChocolateSaltyBalls(price)).Vended?
    ensures Purchase(QuartersMachine(k), ChocolateSaltyBalls(price)).step.events == [Dispense(ChocolateSaltyBalls(price))]
    ensures var after := Purchase(QuartersMachine(k), ChocolateSaltyBalls(price)).step.machine;
            && ReturnCoins(after) == Step(after, [])
            && ReadCredit(ReturnCoins(after).machine) == 25 * k - price
            && forall coins :: !IsChange(coins, ReadCredit(after), after.inventory)
  {
    var after := Purchase(QuartersMachine(k), ChocolateSaltyBalls(price)).step.machine;
    QuartersOnlyRetainCredit(after);
  }
}
