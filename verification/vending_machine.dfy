/**
 The vending machine's coin accounting: a credit ledger for the current
 customer and an inventory of coins that serves as the float for change.
 Every operation is a pure transition that returns the next machine together
 with the signals it sends to the hardware, so that the hardware device is an
 event trace rather than a collaborator.
 */
module VendingMachine {
  import opened Coins
  import opened Change

  /** A price in cents; every product costs something. */
  type Price = p: nat | 0 < p witness 1

  /** The product catalogue; the price is carried by the product. */
  datatype Product = ChocolateSaltyBalls(price: Price)

  /** A signal to the hardware: eject one coin, or vend one product. */
  datatype Event = ReturnCoin(coin: Coin) | Dispense(product: Product)

  /** Credit owed to the current customer, and the coins held for change. */
  datatype Machine = Machine(credit: nat, inventory: Inventory)

  /** The machine after an operation, and the hardware signals it sent, in order. */
  datatype Step = Step(machine: Machine, events: seq<Event>)

  /** The outcome of a purchase request. */
  datatype Sale = Vended(step: Step) | InsufficientCredit

  /** A new machine: no credit and no coins. */
  function Create(): (m: Machine)
    ensures m.credit == 0
    ensures forall c :: Count(m.inventory, c) == 0
  {
    Machine(0, map[])
  }

  /** The credit currently held for the customer. */
  function ReadCredit(m: Machine): nat
  {
    m.credit
  }

  /** A customer inserts a coin: its value is credited and the coin joins the float. */
  function InsertCoin(m: Machine, c: Coin): (r: Machine)
    ensures r.credit == m.credit + Value(c)
    ensures Count(r.inventory, c) == Count(m.inventory, c) + 1
    ensures forall d :: d != c ==> Count(r.inventory, d) == Count(m.inventory, d)
  {
    Machine(m.credit + Value(c), m.inventory[c := Count(m.inventory, c) + 1])
  }

  /** A customer inserts several coins, one after another. */
  function InsertCoins(m: Machine, coins: seq<Coin>): (r: Machine)
    ensures r.credit == m.credit + Total(coins)
    ensures forall c :: Count(r.inventory, c) == Count(m.inventory, c) + multiset(coins)[c]
    decreases |coins|
  {
    if |coins| == 0 then m
    else
      assert coins == [coins[0]] + coins[1..];
      InsertCoins(InsertCoin(m, coins[0]), coins[1..])
  }

  /** The operator stocks the float; the customer's credit does not change. */
  function LoadChange(m: Machine, coins: seq<Coin>): (r: Machine)
    ensures r.credit == m.credit
    ensures forall c :: Count(r.inventory, c) == Count(m.inventory, c) + multiset(coins)[c]
  {
    Machine(m.credit, Deposit(m.inventory, coins))
  }

  /** A customer buys a product: with enough credit the product is vended and
      its price taken from the credit; otherwise nothing happens. */
  function Purchase(m: Machine, p: Product): (r: Sale)
    ensures r.Vended? <==> p.price <= m.credit
    ensures r.Vended? ==> r.step.events == [Dispense(p)]
    ensures r.Vended? ==> r.step.machine.credit + p.price == m.credit
    ensures r.Vended? ==> r.step.machine.inventory == m.inventory
  {
    if p.price <= m.credit then Vended(Step(Machine(m.credit - p.price, m.inventory), [Dispense(p)]))
    else InsufficientCredit
  }

  /** One return signal per coin, in order. */
  function Emit(coins: seq<Coin>): (es: seq<Event>)
    ensures |es| == |coins|
    ensures forall i :: 0 <= i < |coins| ==> es[i] == ReturnCoin(coins[i])
  {
    if |coins| == 0 then [] else [ReturnCoin(coins[0])] + Emit(coins[1..])
  }

  /** The coins a trace ejects, in order; other signals are skipped. */
  function Returned(events: seq<Event>): seq<Coin>
  {
    if |events| == 0 then []
    else (if events[0].ReturnCoin? then [events[0].coin] else []) + Returned(events[1..])
  }

  /** Reading back the coins of a return trace gives the coins it was made from. */
  lemma {:induction false} ReturnedEmit(coins: seq<Coin>)
    ensures Returned(Emit(coins)) == coins
  {
    if |coins| > 0 {
      assert Emit(coins)[1..] == Emit(coins[1..]);
      ReturnedEmit(coins[1..]);
    }
  }

  /** A trace of return signals only is the emission of the coins it returns. */
  lemma {:induction false} EmitReturned(events: seq<Event>)
    requires forall i :: 0 <= i < |events| ==> events[i].ReturnCoin?
    ensures Emit(Returned(events)) == events
  {
    if |events| > 0 {
      EmitReturned(events[1..]);
      assert Returned(events) == [events[0].coin] + Returned(events[1..]);
      assert Emit(Returned(events))[1..] == Emit(Returned(events[1..]));
    }
  }

  /** The customer asks for the credit back. The change maker is asked for
      exact change for the whole credit from the float; on success the coins
      are ejected one by one, removed from the float, and the credit is
      cleared. When the change maker finds no exact change, the machine keeps
      the credit and sends no signal. Exact change may still exist; see
      `Change.GreedyMissesExistingChange`. */
  function ReturnCoins(m: Machine): (r: Step)
    ensures r.events == [] <==> r.machine == m
    ensures r.events != [] <==> 0 < m.credit && MakeChange(m.credit, m.inventory).Some?
    ensures forall i :: 0 <= i < |r.events| ==> r.events[i].ReturnCoin?
    ensures r.events != [] ==> IsChange(Returned(r.events), m.credit, m.inventory)
    ensures r.events != [] ==> Returned(r.events) == MakeChange(m.credit, m.inventory).value
    ensures r.events != [] ==> r.machine.credit == 0
    ensures forall c :: Count(r.machine.inventory, c) + multiset(Returned(r.events))[c] == Count(m.inventory, c)
  {
    match MakeChange(m.credit, m.inventory)
    case None => Step(m, [])
    case Some(coins) =>
      ReturnedEmit(coins);
      WithdrawNothing(m.inventory);
      TotalZero(coins);
      assert coins == [] <==> m.credit == 0;
      Step(Machine(0, Withdraw(m.inventory, coins)), Emit(coins))
  }

  /** A successful return ejects the change maker's coins, in the order it picked them. */
  lemma ReturnCoinsEmitsChange(m: Machine, coins: seq<Coin>)
    requires 0 < m.credit && MakeChange(m.credit, m.inventory) == Some(coins)
    ensures ReturnCoins(m).events == Emit(coins)
    ensures ReturnCoins(m).machine == Machine(0, Withdraw(m.inventory, coins))
  {
  }

  /** Calling for the credit twice in a row: the second call has nothing left to do. */
  lemma ReturnCoinsIdempotent(m: Machine)
    ensures ReturnCoins(ReturnCoins(m).machine) == Step(ReturnCoins(m).machine, [])
  {
    var r := ReturnCoins(m);
    if r.events == [] {
      assert r.machine == m;
    } else {
      assert r.machine.credit == 0;
    }
  }

  /** A return moves value out of the float and off the credit in equal
      amounts: what is ejected is exactly what the credit and the float lose. */
  lemma ReturnCoinsConservesValue(m: Machine)
    ensures var r := ReturnCoins(m);
            && Worth(r.machine.inventory) + Total(Returned(r.events)) == Worth(m.inventory)
            && r.machine.credit + Total(Returned(r.events)) == m.credit
  {
    match MakeChange(m.credit, m.inventory)
    case None =>
    case Some(coins) =>
      ReturnedEmit(coins);
      WithdrawWorth(m.inventory, coins);
  }

  /** What the customer reads as credit: every inserted coin adds its face
      value, and a return takes off exactly the value it ejects (all of it
      when anything is ejected, nothing otherwise). */
  lemma ReadCreditBalance(m: Machine, coins: seq<Coin>)
    ensures ReadCredit(InsertCoins(m, coins)) == ReadCredit(m) + Total(coins)
    ensures var r := ReturnCoins(m);
            && ReadCredit(r.machine) + Total(Returned(r.events)) == ReadCredit(m)
            && (ReadCredit(r.machine) == 0 <==> m.credit == 0 || r.events != [])
  {
    ReturnCoinsConservesValue(m);
  }

  /** The float is worth at least the credit owed, though it may lack exact change for it. */
  predicate Backed(m: Machine) {
    m.credit <= Worth(m.inventory)
  }

  /** A request a customer or the operator makes of the machine. */
  datatype Request = Insert(coin: Coin) | Load(coins: seq<Coin>) | Order(product: Product) | CoinReturn

  /** Serves one request; a refused purchase leaves the machine as it was. */
  function Serve(m: Machine, q: Request): (r: Step)
    ensures q.Insert? || q.Load? ==> r.events == []
    ensures q.Order? ==> (r.events == [Dispense(q.product)] <==> q.product.price <= m.credit)
    ensures q.Order? && m.credit < q.product.price ==> r == Step(m, [])
  {
    match q
    case Insert(c) => Step(InsertCoin(m, c), [])
    case Load(coins) => Step(LoadChange(m, coins), [])
    case Order(p) =>
      (match Purchase(m, p)
       case Vended(step) => step
       case InsufficientCredit => Step(m, []))
    case CoinReturn => ReturnCoins(m)
  }

  /** Serves requests one after another, collecting the hardware signals. */
  function Run(m: Machine, qs: seq<Request>): (r: Step)
    decreases |qs|
  {
    if |qs| == 0 then Step(m, [])
    else
      var first := Serve(m, qs[0]);
      var rest := Run(first.machine, qs[1..]);
      Step(rest.machine, first.events + rest.events)
  }

  /** Every single request keeps the credit backed by the float. */
  lemma ServeKeepsBacked(m: Machine, q: Request)
    requires Backed(m)
    ensures Backed(Serve(m, q).machine)
  {
    match q
    case Insert(c) =>
      WorthAddOne(m.inventory, InsertCoin(m, c).inventory, c);
    case Load(coins) =>
      DepositWorth(m.inventory, coins);
    case Order(p) =>
    case CoinReturn =>
      ReturnCoinsConservesValue(m);
  }

  /** The credit stays backed by the float over any sequence of requests, so a
      return is never refused for lack of value alone. */
  lemma {:induction false} RunKeepsBacked(m: Machine, qs: seq<Request>)
    requires Backed(m)
    ensures Backed(Run(m, qs).machine)
    decreases |qs|
  {
    if |qs| > 0 {
      ServeKeepsBacked(m, qs[0]);
      RunKeepsBacked(Serve(m, qs[0]).machine, qs[1..]);
    }
  }

  /** Money is never created or lost: over any run, what was inserted equals
      what is still credited, what was spent on vended products and what was
      ejected, and the float changes by what was inserted or loaded minus what
      was ejected. */
  lemma {:induction false} RunConservesValue(m: Machine, qs: seq<Request>)
    ensures var r := Run(m, qs);
            && m.credit + Inserted(qs) == r.machine.credit + Spent(r.events) + Total(Returned(r.events))
            && Worth(m.inventory) + Inserted(qs) + Loaded(qs) == Worth(r.machine.inventory) + Total(Returned(r.events))
    decreases |qs|
  {
    if |qs| > 0 {
      var first := Serve(m, qs[0]);
      var rest := Run(first.machine, qs[1..]);
      RunConservesValue(first.machine, qs[1..]);
      ServeConservesValue(m, qs[0]);
      ReturnedAppend(first.events, rest.events);
      SpentAppend(first.events, rest.events);
      TotalAppend(Returned(first.events), Returned(rest.events));
    }
  }

  /** One request's share of `RunConservesValue`. */
  lemma ServeConservesValue(m: Machine, q: Request)
    ensures var r := Serve(m, q);
            && m.credit + Inserted([q]) == r.machine.credit + Spent(r.events) + Total(Returned(r.events))
            && Worth(m.inventory) + Inserted([q]) + Loaded([q]) == Worth(r.machine.inventory) + Total(Returned(r.events))
  {
    var r := Serve(m, q);
    assert [q][1..] == [];
    match q
    case Insert(c) =>
      WorthAddOne(m.inventory, r.machine.inventory, c);
    case Load(coins) =>
      DepositWorth(m.inventory, coins);
    case Order(p) =>
      if p.price <= m.credit {
        assert r.events == [Dispense(p)];
        assert r.events[1..] == [];
      }
    case CoinReturn =>
      ReturnCoinsConservesValue(m);
      ReturnCoinsSpendsNothing(r.events);
  }

  /** The value customers inserted over a sequence of requests. */
  function Inserted(qs: seq<Request>): nat
  {
    if |qs| == 0 then 0 else (if qs[0].Insert? then Value(qs[0].coin) else 0) + Inserted(qs[1..])
  }

  /** The value the operator loaded over a sequence of requests. */
  function Loaded(qs: seq<Request>): nat
  {
    if |qs| == 0 then 0 else (if qs[0].Load? then Total(qs[0].coins) else 0) + Loaded(qs[1..])
  }

  /** The prices of the products a trace vends. */
  function Spent(events: seq<Event>): nat
  {
    if |events| == 0 then 0
    else (if events[0].Dispense? then events[0].product.price else 0) + Spent(events[1..])
  }

  lemma {:induction false} ReturnCoinsSpendsNothing(events: seq<Event>)
    requires forall i :: 0 <= i < |events| ==> events[i].ReturnCoin?
    ensures Spent(events) == 0
  {
    if |events| > 0 {
      ReturnCoinsSpendsNothing(events[1..]);
    }
  }

  lemma {:induction false} ReturnedAppend(a: seq<Event>, b: seq<Event>)
    ensures Returned(a + b) == Returned(a) + Returned(b)
  {
    if |a| == 0 {
      assert a + b == b;
    } else {
      var head := if a[0].ReturnCoin? then [a[0].coin] else [];
      assert (a + b)[1..] == a[1..] + b;
      assert Returned(a + b) == head + Returned(a[1..] + b);
      ReturnedAppend(a[1..], b);
      assert head + (Returned(a[1..]) + Returned(b)) == (head + Returned(a[1..])) + Returned(b);
    }
  }

  lemma {:induction false} SpentAppend(a: seq<Event>, b: seq<Event>)
    ensures Spent(a + b) == Spent(a) + Spent(b)
  {
    if |a| == 0 {
      assert a + b == b;
    } else {
      assert (a + b)[1..] == a[1..] + b;
      SpentAppend(a[1..], b);
    }
  }
}
