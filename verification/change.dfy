/**
 The change-making engine: a pure query that, given a target value and the
 machine's inventory, picks coins greedily from the largest denomination to
 the smallest, taking at each denomination as many coins as are held and as
 fit in what remains, and reports failure when the remainder is not zero once
 every denomination has been tried. It changes nothing; the caller pays out
 the coins only when the query succeeds.
 */
module Change {
  import opened Coins

  datatype Option<T> = None | Some(value: T)

  /** `coins` is exact change for `target` that the inventory can pay out. */
  predicate IsChange(coins: seq<Coin>, target: nat, inv: Inventory) {
    Total(coins) == target && Covers(inv, coins)
  }

  /** One denomination on offer to the change maker, with how many of its coins are held. */
  datatype Supply = Supply(coin: Coin, held: nat)

  /** The inventory as the change maker sees it: denominations largest first. */
  function StockOf(inv: Inventory): seq<Supply>
  {
    [Supply(Quarter, Count(inv, Quarter)), Supply(Dime, Count(inv, Dime)),
     Supply(Nickel, Count(inv, Nickel)), Supply(Penny, Count(inv, Penny))]
  }

  /** How many coins of denomination `c` a stock offers in all. */
  function Held(stock: seq<Supply>, c: Coin): nat
  {
    if |stock| == 0 then 0
    else (if stock[0].coin == c then stock[0].held else 0) + Held(stock[1..], c)
  }

  lemma StockOfHeld(inv: Inventory, c: Coin)
    ensures Held(StockOf(inv), c) == Count(inv, c)
  {
    var s := StockOf(inv);
    assert s[1..][1..][1..][1..] == [];
    assert Held(s[1..][1..][1..], c) == if c == Penny then Count(inv, Penny) else 0;
    assert Held(s[1..][1..], c) == Held(s[1..][1..][1..], c) + if c == Nickel then Count(inv, Nickel) else 0;
    assert Held(s[1..], c) == Held(s[1..][1..], c) + if c == Dime then Count(inv, Dime) else 0;
  }

  /** Greedy over the machine's stock pays out only coins the inventory holds. */
  lemma GreedyCovers(target: nat, inv: Inventory)
    ensures Greedy(target, StockOf(inv)).Some? ==> Covers(inv, Greedy(target, StockOf(inv)).value)
  {
    if Greedy(target, StockOf(inv)).Some? {
      var coins := Greedy(target, StockOf(inv)).value;
      forall c ensures multiset(coins)[c] <= Count(inv, c) {
        GreedyDrawsFromStock(target, StockOf(inv), c);
        StockOfHeld(inv, c);
      }
    }
  }

  /** `head` followed by the coins of a successful query; failure stays failure. */
  function Prepend(head: seq<Coin>, r: Option<seq<Coin>>): Option<seq<Coin>>
  {
    match r
    case None => None
    case Some(rest) => Some(head + rest)
  }

  /** Greedy change for `target` from `stock`, tried in order: while a coin of
      the first denomination is held and fits in what remains, pay it out;
      otherwise move on to the next denomination. The query fails when the
      stock runs out before the target is met. */
  function Greedy(target: nat, stock: seq<Supply>): Option<seq<Coin>>
    decreases |stock|, target
  {
    if |stock| == 0 then
      if target == 0 then Some([]) else None
    else
      var s := stock[0];
      if 0 < s.held && Value(s.coin) <= target then
        Prepend([s.coin], Greedy(target - Value(s.coin), [Supply(s.coin, s.held - 1)] + stock[1..]))
      else
        Greedy(target, stock[1..])
  }

  /** The change-making query over the machine's four denominations. */
  function MakeChange(target: nat, inv: Inventory): (r: Option<seq<Coin>>)
    ensures r.Some? ==> IsChange(r.value, target, inv)
  {
    GreedyTotal(target, StockOf(inv));
    GreedyCovers(target, inv);
    Greedy(target, StockOf(inv))
  }

  /** Whatever greedy pays out is worth exactly the target. */
  lemma {:induction false} GreedyTotal(target: nat, stock: seq<Supply>)
    ensures Greedy(target, stock).Some? ==> Total(Greedy(target, stock).value) == target
    decreases |stock|, target
  {
    if |stock| > 0 {
      var s := stock[0];
      if 0 < s.held && Value(s.coin) <= target {
        var stock' := [Supply(s.coin, s.held - 1)] + stock[1..];
        GreedyTotal(target - Value(s.coin), stock');
        match Greedy(target - Value(s.coin), stock')
        case None =>
        case Some(rest) => assert ([s.coin] + rest)[1..] == rest;
      } else {
        GreedyTotal(target, stock[1..]);
      }
    }
  }

  /** Greedy never pays out more coins of a denomination than the stock offers. */
  lemma {:induction false} GreedyDrawsFromStock(target: nat, stock: seq<Supply>, c: Coin)
    ensures Greedy(target, stock).Some? ==> multiset(Greedy(target, stock).value)[c] <= Held(stock, c)
    decreases |stock|, target
  {
    if |stock| > 0 {
      var s := stock[0];
      if 0 < s.held && Value(s.coin) <= target {
        var stock' := [Supply(s.coin, s.held - 1)] + stock[1..];
        assert stock'[1..] == stock[1..];
        GreedyDrawsFromStock(target - Value(s.coin), stock', c);
        match Greedy(target - Value(s.coin), stock')
        case None =>
        case Some(rest) => assert multiset([s.coin] + rest) == multiset{s.coin} + multiset(rest);
      } else {
        GreedyDrawsFromStock(target, stock[1..], c);
      }
    }
  }

  function Min(a: nat, b: nat): (m: nat)
    ensures m <= a && m <= b && (m == a || m == b)
  {
    if a <= b then a else b
  }

  lemma TakeFits(target: nat, v: nat, k: nat)
    requires 0 < v && k <= target / v
    ensures k * v <= target
  {
    assert k * v <= (target / v) * v;
  }

  /** Greedy pays out `k` coins of the first denomination in a row, as long as
      that many are held and fit in the target. */
  lemma {:induction false} GreedyRun(target: nat, c: Coin, h: nat, rest: seq<Supply>, k: nat)
    requires k <= h && k * Value(c) <= target
    ensures Greedy(target, [Supply(c, h)] + rest)
         == Prepend(Repeat(c, k), Greedy(target - k * Value(c), [Supply(c, h - k)] + rest))
    decreases k
  {
    var v := Value(c);
    if k == 0 {
      match Greedy(target, [Supply(c, h)] + rest)
      case None =>
      case Some(x) => assert [] + x == x;
    } else {
      assert k * v == (k - 1) * v + v;
      assert ([Supply(c, h)] + rest)[1..] == rest;
      GreedyRun(target - v, c, h - 1, rest, k - 1);
      var tail := Greedy(target - k * v, [Supply(c, h - k)] + rest);
      assert Greedy(target, [Supply(c, h)] + rest) == Prepend([c], Prepend(Repeat(c, k - 1), tail));
      match tail
      case None =>
      case Some(x) => assert [c] + (Repeat(c, k - 1) + x) == Repeat(c, k) + x;
    }
  }

  /** Greedy stops paying out a denomination exactly when its stock is used up
      or its coin no longer fits, and then moves on to the next denomination.
      The face value `v` is passed so that it can be a literal at the call site. */
  lemma GreedyTakesMost(target: nat, c: Coin, h: nat, rest: seq<Supply>, v: nat, k: nat)
    requires v == Value(c)
    requires k <= h && k * v <= target
    requires k == h || target - k * v < v
    ensures Greedy(target, [Supply(c, h)] + rest) == Prepend(Repeat(c, k), Greedy(target - k * v, rest))
  {
    GreedyRun(target, c, h, rest, k);
    assert ([Supply(c, h - k)] + rest)[1..] == rest;
  }

  /** `GreedyTakesMost` for a stock given as a whole, with the rest of the change known. */
  lemma GreedyTakes(target: nat, stock: seq<Supply>, v: nat, k: nat, tail: seq<Coin>)
    requires |stock| > 0 && v == Value(stock[0].coin)
    requires k <= stock[0].held && k * v <= target
    requires k == stock[0].held || target - k * v < v
    requires Greedy(target - k * v, stock[1..]) == Some(tail)
    ensures Greedy(target, stock) == Some(Repeat(stock[0].coin, k) + tail)
  {
    assert stock == [stock[0]] + stock[1..];
    GreedyTakesMost(target, stock[0].coin, stock[0].held, stock[1..], v, k);
  }

  /** `GreedyTakesMost` for a stock given as a whole, when the rest of the change fails. */
  lemma GreedyTakesThenFails(target: nat, stock: seq<Supply>, v: nat, k: nat)
    requires |stock| > 0 && v == Value(stock[0].coin)
    requires k <= stock[0].held && k * v <= target
    requires k == stock[0].held || target - k * v < v
    requires Greedy(target - k * v, stock[1..]) == None
    ensures Greedy(target, stock) == None
  {
    assert stock == [stock[0]] + stock[1..];
    GreedyTakesMost(target, stock[0].coin, stock[0].held, stock[1..], v, k);
  }

  /** At each denomination greedy pays out `min(held, remaining / value)` coins
      and then moves on to the next one. */
  lemma GreedyPicksMin(target: nat, stock: seq<Supply>)
    requires |stock| > 0
    ensures var v := Value(stock[0].coin);
            var k := Min(stock[0].held, target / v);
            && k * v <= target
            && Greedy(target, stock) == Prepend(Repeat(stock[0].coin, k), Greedy(target - k * v, stock[1..]))
  {
    var s := stock[0];
    var v := Value(s.coin);
    var k := Min(s.held, target / v);
    TakeFits(target, v, k);
    if k < s.held {
      assert k == target / v;
      assert target - k * v == target % v;
    }
    assert stock == [s] + stock[1..];
    GreedyTakesMost(target, s.coin, s.held, stock[1..], v, k);
  }

  lemma PrependNothing(r: Option<seq<Coin>>)
    ensures Prepend([], r) == r
  {
    match r
    case None =>
    case Some(x) => assert [] + x == x;
  }

  /** Prepending in two steps is prepending the concatenation. */
  lemma PrependPrepend(a: seq<Coin>, b: seq<Coin>, r: Option<seq<Coin>>)
    ensures Prepend(a, Prepend(b, r)) == Prepend(a + b, r)
  {
    match r
    case None =>
    case Some(x) => assert a + (b + x) == (a + b) + x;
  }

  /** The change maker as a loop over the denominations, largest first: at each
      one it pays out as many coins as are held and fit in what remains, and it
      succeeds when nothing remains at the end. It agrees with `MakeChange` on
      every input. */
  method ComputeChange(target: nat, inv: Inventory) returns (r: Option<seq<Coin>>)
    ensures r == MakeChange(target, inv)
    ensures r.Some? ==> IsChange(r.value, target, inv)
  {
    var stock := StockOf(inv);
    var remaining := target;
    var picked: seq<Coin> := [];
    var i := 0;
    PrependNothing(Greedy(target, stock));
    assert stock[0..] == stock;
    while i < |stock|
      invariant i <= |stock|
      invariant Prepend(picked, Greedy(remaining, stock[i..])) == Greedy(target, stock)
    {
      var s := stock[i];
      var v := Value(s.coin);
      var k := Min(s.held, remaining / v);
      GreedyPicksMin(remaining, stock[i..]);
      assert stock[i..][1..] == stock[i + 1..];
      PrependPrepend(picked, Repeat(s.coin, k), Greedy(remaining - k * v, stock[i + 1..]));
      picked := picked + Repeat(s.coin, k);
      remaining := remaining - k * v;
      i := i + 1;
    }
    if remaining == 0 {
      assert picked + [] == picked;
      r := Some(picked);
    } else {
      r := None;
    }
  }

  /** Change must fail: a target above the worth of the inventory is never met. */
  lemma MakeChangeFailsBeyondWorth(target: nat, inv: Inventory)
    requires target > Worth(inv)
    ensures MakeChange(target, inv) == None
  {
    var r := MakeChange(target, inv);
    if r.Some? {
      WithdrawWorth(inv, r.value);
    }
  }

  /** Enough pennies at the end of the stock guarantee success whatever else is held. */
  lemma {:induction false} GreedySucceedsWithPennies(target: nat, stock: seq<Supply>)
    requires |stock| > 0 && stock[|stock| - 1].coin == Penny
    requires target <= stock[|stock| - 1].held
    ensures Greedy(target, stock).Some?
    decreases |stock|
  {
    GreedyPicksMin(target, stock);
    var v := Value(stock[0].coin);
    var k := Min(stock[0].held, target / v);
    if |stock| == 1 {
      assert k == target;
      assert Greedy(0, stock[1..]) == Some([]);
    } else {
      GreedySucceedsWithPennies(target - k * v, stock[1..]);
    }
  }

  lemma MakeChangeSucceedsWithPennies(target: nat, inv: Inventory)
    requires target <= Count(inv, Penny)
    ensures MakeChange(target, inv).Some?
  {
    GreedySucceedsWithPennies(target, StockOf(inv));
  }

  /** The coins the greedy rule picks for `target` when the stock never limits
      it: as many quarters as fit, then dimes, then nickels, then pennies.
      The trailing `+ []` is the empty rest of the last denomination's run, so
      that every stage has the run-then-rest shape `GreedyTakes` produces. */
  function CanonicalChange(target: nat): seq<Coin>
  {
    var q, r1 := target / 25, target % 25;
    var d, r2 := r1 / 10, r1 % 10;
    var n, p := r2 / 5, r2 % 5;
    Repeat(Quarter, q) + (Repeat(Dime, d) + (Repeat(Nickel, n) + (Repeat(Penny, p) + [])))
  }

  /** The canonical change is change: its value is the target. */
  lemma CanonicalChangeTotal(target: nat)
    ensures Total(CanonicalChange(target)) == target
  {
    var q, r1 := target / 25, target % 25;
    var d, r2 := r1 / 10, r1 % 10;
    var n, p := r2 / 5, r2 % 5;
    var sp := Repeat(Penny, p) + [];
    var sn := Repeat(Nickel, n) + sp;
    var sd := Repeat(Dime, d) + sn;
    RepeatTotal(Penny, p, 1);
    TotalAppend(Repeat(Penny, p), []);
    assert Total(sp) == p;
    RepeatTotal(Nickel, n, 5);
    TotalAppend(Repeat(Nickel, n), sp);
    assert Total(sn) == 5 * n + p;
    RepeatTotal(Dime, d, 10);
    TotalAppend(Repeat(Dime, d), sn);
    assert Total(sd) == 10 * d + 5 * n + p;
    RepeatTotal(Quarter, q, 25);
    TotalAppend(Repeat(Quarter, q), sd);
    assert Total(CanonicalChange(target)) == 25 * q + 10 * d + 5 * n + p;
  }

  /** The stock never caps a greedy pick for `target`. */
  predicate Stocked(target: nat, inv: Inventory) {
    && target / 25 <= Count(inv, Quarter)
    && target % 25 / 10 <= Count(inv, Dime)
    && target % 25 % 10 / 5 <= Count(inv, Nickel)
    && target % 25 % 10 % 5 <= Count(inv, Penny)
  }

  /** With the stock never in the way, greedy returns the canonical change. */
  lemma MakeChangeCanonical(target: nat, inv: Inventory)
    requires Stocked(target, inv)
    ensures MakeChange(target, inv) == Some(CanonicalChange(target))
  {
    var q, r1 := target / 25, target % 25;
    CanonicalBelowQuarter(r1, inv);
    GreedyTakes(target, StockOf(inv), 25, q, Repeat(Dime, r1 / 10) + (Repeat(Nickel, r1 % 10 / 5) + (Repeat(Penny, r1 % 10 % 5) + [])));
  }

  /** The dimes, nickels and pennies of the canonical change, paid from the stock after the quarters. */
  lemma CanonicalBelowQuarter(r1: nat, inv: Inventory)
    requires r1 < 25 && r1 / 10 <= Count(inv, Dime)
    requires r1 % 10 / 5 <= Count(inv, Nickel) && r1 % 10 % 5 <= Count(inv, Penny)
    ensures Greedy(r1, StockOf(inv)[1..]) == Some(Repeat(Dime, r1 / 10) + (Repeat(Nickel, r1 % 10 / 5) + (Repeat(Penny, r1 % 10 % 5) + [])))
  {
    var r2 := r1 % 10;
    CanonicalBelowDime(r2, inv);
    GreedyTakes(r1, StockOf(inv)[1..], 10, r1 / 10, Repeat(Nickel, r2 / 5) + (Repeat(Penny, r2 % 5) + []));
  }

  /** The nickels and pennies of the canonical change, paid from the stock after the dimes. */
  lemma CanonicalBelowDime(r2: nat, inv: Inventory)
    requires r2 < 10 && r2 / 5 <= Count(inv, Nickel) && r2 % 5 <= Count(inv, Penny)
    ensures Greedy(r2, StockOf(inv)[2..]) == Some(Repeat(Nickel, r2 / 5) + (Repeat(Penny, r2 % 5) + []))
  {
    var p := r2 % 5;
    assert Greedy(0, StockOf(inv)[4..]) == Some([]);
    GreedyTakes(p, StockOf(inv)[3..], 1, p, []);
    GreedyTakes(r2, StockOf(inv)[2..], 5, r2 / 5, Repeat(Penny, p) + []);
  }

  /** How many coins the canonical change for `target` has. */
  function CanonicalSize(target: nat): nat
  {
    var q, r1 := target / 25, target % 25;
    var d, r2 := r1 / 10, r1 % 10;
    var n, p := r2 / 5, r2 % 5;
    q + d + n + p
  }

  lemma CanonicalChangeSize(target: nat)
    ensures |CanonicalChange(target)| == CanonicalSize(target)
  {
  }

  /** No way of paying `target` as `q` quarters, `d` dimes, `n` nickels and `p`
      pennies uses fewer coins than the canonical change: any other choice can
      be improved by an exchange (five pennies for a nickel, two nickels for a
      dime, three dimes for a quarter and a nickel, two dimes and a nickel for a
      quarter) until it is the canonical one. */
  lemma {:induction false} CanonicalCountsMinimal(target: nat, q: nat, d: nat, n: nat, p: nat)
    requires target == 25 * q + 10 * d + 5 * n + p
    ensures CanonicalSize(target) <= q + d + n + p
    decreases q + d + n + p
  {
    if p >= 5 {
      CanonicalCountsMinimal(target, q, d, n + 1, p - 5);
    } else if n >= 2 {
      CanonicalCountsMinimal(target, q, d + 1, n - 2, p);
    } else if d >= 3 {
      CanonicalCountsMinimal(target, q + 1, d - 3, n + 1, p);
    } else if d == 2 && n == 1 {
      CanonicalCountsMinimal(target, q + 1, 0, 0, p);
    } else {
      var rest := 10 * d + 5 * n + p;
      assert rest < 25;
      assert target / 25 == q && target % 25 == rest;
      assert rest / 10 == d && rest % 10 == 5 * n + p;
      assert (5 * n + p) / 5 == n && (5 * n + p) % 5 == p;
    }
  }

  /** The canonical change uses the fewest coins of any way to make the value. */
  lemma CanonicalChangeMinimal(target: nat, coins: seq<Coin>)
    requires Total(coins) == target
    ensures |CanonicalChange(target)| <= |coins|
  {
    TallyTotals(coins);
    var t := Tally(coins);
    CanonicalCountsMinimal(target, Count(t, Quarter), Count(t, Dime), Count(t, Nickel), Count(t, Penny));
    CanonicalChangeSize(target);
  }

  /** When the stock never caps a pick, greedy change is optimal: it succeeds
      and no coin sequence of the same value is shorter. */
  lemma MakeChangeMinimalWhenStocked(target: nat, inv: Inventory, coins: seq<Coin>)
    requires Stocked(target, inv)
    requires Total(coins) == target
    ensures MakeChange(target, inv).Some?
    ensures |MakeChange(target, inv).value| <= |coins|
  {
    MakeChangeCanonical(target, inv);
    CanonicalChangeMinimal(target, coins);
  }

  /** Only quarters are held. */
  predicate QuartersOnly(inv: Inventory) {
    Count(inv, Penny) == 0 && Count(inv, Nickel) == 0 && Count(inv, Dime) == 0
  }

  /** From quarters alone, exact change exists only for whole multiples of 25
      that the stock of quarters reaches. */
  lemma QuarterChange(coins: seq<Coin>, target: nat, inv: Inventory)
    requires QuartersOnly(inv) && IsChange(coins, target, inv)
    ensures target % 25 == 0 && target / 25 <= Count(inv, Quarter)
  {
    TallyTotals(coins);
    var t := Tally(coins);
    assert Count(t, Penny) == 0 && Count(t, Nickel) == 0 && Count(t, Dime) == 0;
    assert target == 25 * Count(t, Quarter);
  }

  /** Over quarters only, greedy succeeds exactly when some exact change exists. */
  lemma MakeChangeQuartersOnly(target: nat, inv: Inventory)
    requires QuartersOnly(inv)
    ensures MakeChange(target, inv).Some? <==> target % 25 == 0 && target / 25 <= Count(inv, Quarter)
  {
    var r := MakeChange(target, inv);
    if r.Some? {
      QuarterChange(r.value, target, inv);
    }
    if target % 25 == 0 && target / 25 <= Count(inv, Quarter) {
      MakeChangeCanonical(target, inv);
    }
  }

  /** Greedy passes over denominations it holds none of, or whose coin is worth
      more than the target, without paying anything out. */
  lemma {:induction false} GreedySkips(target: nat, stock: seq<Supply>, j: nat)
    requires j <= |stock|
    requires forall i :: 0 <= i < j ==> stock[i].held == 0 || target < Value(stock[i].coin)
    ensures Greedy(target, stock) == Greedy(target, stock[j..])
    decreases j
  {
    if j > 0 {
      assert stock[0].held == 0 || target < Value(stock[0].coin);
      assert Greedy(target, stock) == Greedy(target, stock[1..]);
      GreedySkips(target, stock[1..], j - 1);
      assert stock[1..][j - 1..] == stock[j..];
    } else {
      assert stock[0..] == stock;
    }
  }

  /** A last entry of pennies pays any target it holds enough pennies for. */
  lemma {:induction false} GreedyLastPennies(target: nat, stock: seq<Supply>)
    requires |stock| == 1 && stock[0].coin == Penny && target <= stock[0].held
    ensures Greedy(target, stock) == Some(Repeat(Penny, target))
  {
    assert Greedy(0, stock[1..]) == Some([]);
    GreedyTakes(target, stock, 1, target, []);
    assert Repeat(Penny, target) + [] == Repeat(Penny, target);
  }

  /** With no coins but pennies, change for `target` is `target` pennies. */
  lemma MakeChangePenniesOnly(target: nat, inv: Inventory)
    requires Count(inv, Quarter) == 0 && Count(inv, Dime) == 0 && Count(inv, Nickel) == 0
    requires target <= Count(inv, Penny)
    ensures MakeChange(target, inv) == Some(Repeat(Penny, target))
  {
    var stock := StockOf(inv);
    GreedySkips(target, stock, 3);
    GreedyLastPennies(target, stock[3..]);
  }

  /** Greedy is not complete over a limited stock: from one quarter and three
      dimes it fails on 30 although three dimes are exact change. */
  lemma GreedyMissesExistingChange()
    ensures IsChange([Dime, Dime, Dime], 30, map[Quarter := 1, Dime := 3])
    ensures MakeChange(30, map[Quarter := 1, Dime := 3]) == None
  {
    var stock := StockOf(map[Quarter := 1, Dime := 3]);
    assert multiset([Dime, Dime, Dime])[Dime] == 3;
    GreedySkips(5, stock[1..], 3);
    assert stock[1..][3..] == [];
    GreedyTakesThenFails(30, stock, 25, 1);
  }

  /** Greedy is not minimal over a limited stock: from one quarter, three dimes
      and five pennies it pays 30 with six coins although three dimes would do. */
  lemma GreedyNotMinimal()
    ensures MakeChange(30, map[Quarter := 1, Dime := 3, Penny := 5]) == Some([Quarter] + Repeat(Penny, 5))
    ensures IsChange([Dime, Dime, Dime], 30, map[Quarter := 1, Dime := 3, Penny := 5])
  {
    var stock := StockOf(map[Quarter := 1, Dime := 3, Penny := 5]);
    assert multiset([Dime, Dime, Dime])[Dime] == 3;
    GreedySkips(5, stock[1..], 2);
    assert stock[1..][2..] == stock[3..];
    GreedyLastPennies(5, stock[3..]);
    GreedyTakes(30, stock, 25, 1, Repeat(Penny, 5));
  }
}
