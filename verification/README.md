# Vending machine coin return, modelled in Dafny

This project models the coin accounting and change making of the `VendingMachine` in
`co.freeside.demo.vending`. The machine keeps two pieces of state:

- the customer's **credit**, in cents;
- a **coin inventory**, the float from which change is paid.

The machine supports five operations:

- `insertCoin` credits the coin's value, and the coin joins the float.
- `loadChange` stocks the float and leaves the credit alone.
- `purchase` vends a product and takes its price from the credit.
- `readCredit` reports the credit.
- `returnCoins` asks a change maker for exact change for the whole credit.
  - On success it ejects those coins one by one, removes them from the float and clears the credit.
  - When the change maker finds no exact change, it ejects nothing and changes nothing. The credit is retained.

The model is written as pure transitions. The hardware device the machine drives becomes an
event trace: `ReturnCoin(c)` for an ejected coin and `Dispense(p)` for a vended product. The
six scenarios of `CoinReturnTest` are stated as lemmas over that trace. Where a scenario is one
instance of a general rule, the rule is proved for all inputs.

Modules:

- `Coins` (`coins.dfy`): the four coins and their face values.
  - Penny = 1, Nickel = 5, Dime = 10, Quarter = 25.
  - Sequences of coins and their value.
  - Inventories as maps from coin to count, with deposit and withdrawal and their effect on worth.
- `Change` (`change.dfy`): the change maker, a pure query.
  - Greedy, largest denomination first.
  - At each denomination it pays out as many coins as are held and as fit in what remains.
  - It fails when a remainder is left.
  - `Greedy` takes one coin at a time. `GreedyPicksMin` proves this equals taking `min(held, remaining / value)` per denomination. `ComputeChange` is the same rule as a loop over the denominations.
  - It is proved sound, and optimal whenever the stock never caps a pick.
  - Two counterexamples show that over a limited stock greedy is neither complete nor minimal.
- `VendingMachine` (`vending_machine.dfy`): the machine, its operations and the events they emit.
  - Conservation of value over any run of requests.
  - The invariant that credit never exceeds the worth of the float.
- `CoinReturnScenarios` (`coin_return_scenarios.dfy`): the test suite's scenarios.

Only `CoinReturnTest.java` fixes the behaviour; the hardware device is abstracted as an event
trace. What the tests leave open is listed under Left out: the face values, the price, purchase
without enough credit, and the order of the ejected coins. The test `machineReturnsEfficientChange`
asks for change in as few coins as possible. That holds whenever the stock does not cap a greedy pick; when it does, greedy may use
more coins than the float needs:

- `Change.MakeChangeMinimalWhenStocked` proves the fewest-coins property when no pick is capped.
- `Change.GreedyNotMinimal` shows a stock that caps a pick and where greedy uses six coins although three from the same float would do.

## Model

| member | source | states |
|---|---|---|
| `VendingMachine.ReadCreditBalance` | src/test/java/co/freeside/demo/vending/CoinReturnTest.java:52-55 | the credit read rises by the face value of every inserted coin; a return lowers it by exactly the value it ejects, and it reads zero afterwards exactly when there was no credit or coins were ejected |
| `VendingMachine.Create` | src/test/java/co/freeside/demo/vending/CoinReturnTest.java:17 | a new machine has no credit and holds no coin of any denomination |
| `VendingMachine.InsertCoin` | src/test/java/co/freeside/demo/vending/CoinReturnTest.java:23 | inserting a coin raises the credit by its face value, adds one coin of that denomination to the float and leaves the other counts alone |
| `VendingMachine.InsertCoins` | src/test/java/co/freeside/demo/vending/CoinReturnTest.java:70 | inserting coins one after another raises the credit by their total value and each count by the number of coins of that denomination inserted |
| `VendingMachine.LoadChange` | src/test/java/co/freeside/demo/vending/CoinReturnTest.java:62 | loading change leaves the credit unchanged and adds each loaded coin to the float |
| `VendingMachine.Purchase` | src/test/java/co/freeside/demo/vending/CoinReturnTest.java:102 | a purchase is vended exactly when the credit covers the price; it then emits one dispense event for the product, lowers the credit by the price and leaves the float alone |
| `VendingMachine.ReturnCoins` | src/test/java/co/freeside/demo/vending/CoinReturnTest.java:96-106 | a return emits events exactly when there is credit and the greedy change maker finds exact change for it (exact change may exist that greedy misses, see `Change.GreedyMissesExistingChange`), and otherwise leaves the machine unchanged; it emits only coin returns, the returned coins are exactly the coins the change maker picked, which are exact change for the old credit drawn from the float, the credit becomes zero, and each count falls by the coins returned |
| `VendingMachine.ReturnedEmit` | src/test/java/co/freeside/demo/vending/CoinReturnTest.java:64-67 | the coins read back from a return trace are the coins it was made from |
| `VendingMachine.EmitReturned` | src/test/java/co/freeside/demo/vending/CoinReturnTest.java:64-67 | a trace of coin returns only is the emission of the coins it returns |
| `VendingMachine.ReturnCoinsIdempotent` | src/test/java/co/freeside/demo/vending/CoinReturnTest.java:34-38 | asking for the credit a second time emits nothing and changes nothing |
| `VendingMachine.ReturnCoinsConservesValue` | src/test/java/co/freeside/demo/vending/CoinReturnTest.java:52-55 | the value ejected equals both what the credit loses and what the float's worth loses |
| `VendingMachine.Serve` | src/test/java/co/freeside/demo/vending/CoinReturnTest.java:101-103 | insertions and loads emit nothing; an order emits a dispense exactly when the credit covers the price, and a refused order leaves the machine as it was |
| `VendingMachine.ServeKeepsBacked` | src/test/java/co/freeside/demo/vending/CoinReturnTest.java:101-103 | every request keeps the credit at most the worth of the float |
| `VendingMachine.RunKeepsBacked` | src/test/java/co/freeside/demo/vending/CoinReturnTest.java:101-103 | over any sequence of requests the credit stays at most the worth of the float |
| `VendingMachine.ServeConservesValue` | src/test/java/co/freeside/demo/vending/CoinReturnTest.java:101-106 | one request's credit and float change by what it inserts, loads, spends and ejects |
| `VendingMachine.RunConservesValue` | src/test/java/co/freeside/demo/vending/CoinReturnTest.java:101-106 | over any run, credit plus insertions equals final credit plus prices of vended products plus value ejected, and the float changes by insertions and loads minus value ejected |
| `Change.MakeChange` | src/test/java/co/freeside/demo/vending/CoinReturnTest.java:62-71 | whatever the change maker returns is worth exactly the target and never uses more coins of a denomination than the inventory holds |
| `Change.GreedyTotal` | src/test/java/co/freeside/demo/vending/CoinReturnTest.java:52-55 | greedy change over any stock is worth exactly the target |
| `Change.GreedyDrawsFromStock` | src/test/java/co/freeside/demo/vending/CoinReturnTest.java:81-86 | greedy change never uses more coins of a denomination than the stock offers |
| `Change.GreedyCovers` | src/test/java/co/freeside/demo/vending/CoinReturnTest.java:81-86 | greedy change over the machine's stock is covered by the inventory |
| `Change.StockOfHeld` | src/test/java/co/freeside/demo/vending/CoinReturnTest.java:62 | the stock the change maker sees offers exactly the inventory's count of each denomination |
| `Change.GreedyRun` | src/test/java/co/freeside/demo/vending/CoinReturnTest.java:64-67 | greedy pays out a run of coins of the first denomination while they are held and fit |
| `Change.GreedyTakesMost` | src/test/java/co/freeside/demo/vending/CoinReturnTest.java:64-67 | greedy leaves a denomination once its stock is used up or its coin no longer fits, and continues with the next one |
| `Change.GreedyTakes` | src/test/java/co/freeside/demo/vending/CoinReturnTest.java:64-67 | the same step with the rest of the change known: the result is the run followed by the rest |
| `Change.GreedyTakesThenFails` | src/test/java/co/freeside/demo/vending/CoinReturnTest.java:96-103 | the same step when the rest fails: the whole query fails |
| `Change.GreedyPicksMin` | src/test/java/co/freeside/demo/vending/CoinReturnTest.java:62-71 | at each denomination greedy pays out min(held, remaining / value) coins and moves on |
| `Change.ComputeChange` | src/test/java/co/freeside/demo/vending/CoinReturnTest.java:62-71 | the loop over denominations returns the same result as the change maker, so on success exact change the inventory covers |
| `Change.MakeChangeFailsBeyondWorth` | src/test/java/co/freeside/demo/vending/CoinReturnTest.java:96-103 | no change is made for a target above the worth of the inventory |
| `Change.GreedySucceedsWithPennies` | src/test/java/co/freeside/demo/vending/CoinReturnTest.java:81-86 | with enough pennies last in the stock greedy always succeeds |
| `Change.MakeChangeSucceedsWithPennies` | src/test/java/co/freeside/demo/vending/CoinReturnTest.java:81-86 | an inventory holding at least `target` pennies always makes change for `target` |
| `Change.MakeChangePenniesOnly` | src/test/java/co/freeside/demo/vending/CoinReturnTest.java:81-86 | from pennies only, change for `target` is `target` pennies |
| `Change.CanonicalChangeTotal` | src/test/java/co/freeside/demo/vending/CoinReturnTest.java:64-67 | quarters, then dimes, nickels and pennies as many as fit, are worth the target |
| `Change.MakeChangeCanonical` | src/test/java/co/freeside/demo/vending/CoinReturnTest.java:62-71 | when the stock never caps a pick, greedy returns the canonical change |
| `Change.CanonicalChangeSize` | src/test/java/co/freeside/demo/vending/CoinReturnTest.java:64-67 | the canonical change has as many coins as its per-denomination counts add up to |
| `Change.CanonicalCountsMinimal` | src/test/java/co/freeside/demo/vending/CoinReturnTest.java:64-67 | no split of a value into quarters, dimes, nickels and pennies uses fewer coins than the canonical one |
| `Change.CanonicalChangeMinimal` | src/test/java/co/freeside/demo/vending/CoinReturnTest.java:64-67 | no sequence of coins of the same value is shorter than the canonical change |
| `Change.MakeChangeMinimalWhenStocked` | src/test/java/co/freeside/demo/vending/CoinReturnTest.java:59-71 | when the stock never caps a pick, greedy succeeds with the fewest coins of any way to pay the target |
| `Change.QuarterChange` | src/test/java/co/freeside/demo/vending/CoinReturnTest.java:101-106 | exact change from quarters alone exists only for a multiple of 25 that the quarters held reach |
| `Change.MakeChangeQuartersOnly` | src/test/java/co/freeside/demo/vending/CoinReturnTest.java:101-106 | over quarters only, greedy succeeds if and only if the target is such a multiple of 25 |
| `Change.GreedyMissesExistingChange` | src/test/java/co/freeside/demo/vending/CoinReturnTest.java:96-103 | from one quarter and three dimes greedy fails on 30 although three dimes are exact change, so that credit would be retained |
| `Change.GreedyNotMinimal` | src/test/java/co/freeside/demo/vending/CoinReturnTest.java:59-71 | from one quarter, three dimes and five pennies greedy pays 30 as a quarter and five pennies although three dimes are exact change |
| `Coins.Value` | src/test/java/co/freeside/demo/vending/CoinReturnTest.java:62-71 | every coin has a positive face value of at most 25 cents (a quarter); the values 1, 5, 10 and 25 are those under which seventeen pennies come back as a dime, a nickel and two pennies |
| `Coins.ValueInNickels` | src/test/java/co/freeside/demo/vending/CoinReturnTest.java:62-71 | every coin other than the penny is worth a whole number of nickels, and the penny is not |
| `Coins.TotalAppend` | src/test/java/co/freeside/demo/vending/CoinReturnTest.java:64-67 | the value of two coin sequences together is the sum of their values |
| `Coins.RepeatTotal` | src/test/java/co/freeside/demo/vending/CoinReturnTest.java:70 | k coins of one denomination are worth k times its face value |
| `Coins.RepeatCounts` | src/test/java/co/freeside/demo/vending/CoinReturnTest.java:70 | k coins of one denomination count k of it and none of any other |
| `Coins.Deposit` | src/test/java/co/freeside/demo/vending/CoinReturnTest.java:62 | depositing coins adds to each count the number of coins of that denomination |
| `Coins.Withdraw` | src/test/java/co/freeside/demo/vending/CoinReturnTest.java:64-67 | withdrawing covered coins takes from each count the number of coins of that denomination |
| `Coins.Tally` | src/test/java/co/freeside/demo/vending/CoinReturnTest.java:64-67 | the tally of a sequence counts each denomination as often as it occurs |
| `Coins.TallyTotals` | src/test/java/co/freeside/demo/vending/CoinReturnTest.java:64-67 | counting coin by coin and by denomination agree in value and in number |
| `Coins.DepositWorth` | src/test/java/co/freeside/demo/vending/CoinReturnTest.java:62 | depositing coins raises the worth of an inventory by their value and its size by their number |
| `Coins.WithdrawWorth` | src/test/java/co/freeside/demo/vending/CoinReturnTest.java:52-55 | withdrawing covered coins lowers the worth by their value, which never exceeds the worth |
| `Coins.WithdrawUndoesDeposit` | src/test/java/co/freeside/demo/vending/CoinReturnTest.java:81-86 | withdrawing the coins just deposited restores every count |
| `CoinReturnScenarios.MachineReturnsCoin` | src/test/java/co/freeside/demo/vending/CoinReturnTest.java:19-24 | a coin of any denomination inserted into a new machine comes back as exactly that coin; the credit is then zero and the float empty |
| `CoinReturnScenarios.ReturnCoinsWithoutCredit` | src/test/java/co/freeside/demo/vending/CoinReturnTest.java:34-38 | any machine without credit ejects nothing when asked and stays as it was |
| `CoinReturnScenarios.MachineReturnsNoCoinsIfNoneAreInserted` | src/test/java/co/freeside/demo/vending/CoinReturnTest.java:34-38 | a new machine ejects nothing when asked for its credit and stays new |
| `CoinReturnScenarios.MachineDeductsReturnedCoinFromCredit` | src/test/java/co/freeside/demo/vending/CoinReturnTest.java:52-55 | after the inserted penny is returned the credit reads zero |
| `CoinReturnScenarios.LoadedThenPennies` | src/test/java/co/freeside/demo/vending/CoinReturnTest.java:62-70 | loading a quarter, a dime and a nickel and inserting n pennies gives credit n and counts 1, 1, 1 and n |
| `CoinReturnScenarios.LoadedReturnsCanonical` | src/test/java/co/freeside/demo/vending/CoinReturnTest.java:62-71 | with that float, every credit below 50 whose remainder after quarters is below 20 comes back as the canonical change, leaving no credit |
| `CoinReturnScenarios.MachineReturnsEfficientChange` | src/test/java/co/freeside/demo/vending/CoinReturnTest.java:62-71 | seventeen cents come back as a dime, a nickel and two pennies, the credit becomes zero, and no way of paying seventeen cents uses fewer than four coins |
| `CoinReturnScenarios.FewestCoinsForSeventeen` | src/test/java/co/freeside/demo/vending/CoinReturnTest.java:64-67 | every sequence of coins worth seventeen cents has at least four coins |
| `CoinReturnScenarios.PenniesMachine` | src/test/java/co/freeside/demo/vending/CoinReturnTest.java:85 | a new machine after n pennies holds credit n and n pennies and nothing else |
| `CoinReturnScenarios.MachineReturnsAvailableChange` | src/test/java/co/freeside/demo/vending/CoinReturnTest.java:81-86 | n inserted pennies come back as n pennies, leaving no credit and an empty float |
| `CoinReturnScenarios.QuartersMachine` | src/test/java/co/freeside/demo/vending/CoinReturnTest.java:101 | a new machine after k quarters holds credit 25k and k quarters only |
| `CoinReturnScenarios.QuartersOnlyRetainCredit` | src/test/java/co/freeside/demo/vending/CoinReturnTest.java:96-103 | a machine holding quarters only, with credit not a multiple of 25, has no exact change for it, ejects nothing and keeps its state |
| `CoinReturnScenarios.MachineRetainsCreditIfItCannotMakeChange` | src/test/java/co/freeside/demo/vending/CoinReturnTest.java:96-106 | after k quarters and a purchase whose price leaves a remainder that is not a multiple of 25, the product is dispensed, no coin is ejected, the credit stays 25k minus the price, and no exact change for it exists |

## Left out

- The hardware device and the mock framework of the tests are left out. Calls to `returnCoin` and `dispense` are the `Event` trace a transition returns. Hardware failure is outside the model.
- `CoinReturnTest` does not fix the coins' face values; they are taken as 1, 5, 10 and 25 cents. Four quarters making 100 and seventeen cents coming back as a dime, a nickel and two pennies agree with this.
- `CoinReturnTest` does not fix the product's price. `ChocolateSaltyBalls` carries a positive price as a parameter, and the retention scenario is proved for every price it admits.
- CoinReturnScenarios.MachineRetainsCreditIfItCannotMakeChange: the test inserts four quarters. The lemma is stated for any number `k` of quarters, so the test is the case `k == 4` with credit `100 - price`. The four-quarter instance is not restated separately.
- VendingMachine.Purchase: when the credit does not cover the price it returns `InsufficientCredit` and changes nothing. This refusal is a design decision of the model: no test exercises this path.
- VendingMachine.InsertCoin: credit and counts are unbounded integers. Overflow of a 32-bit Java `int` is not modelled.
- VendingMachine.ReturnCoins: the tests' expectations do not fix the order of the ejected coins. The model ejects them in the order the change maker picks them, largest denomination first.
- Concurrency and persistence are not modelled. The machine is used by one caller at a time.
