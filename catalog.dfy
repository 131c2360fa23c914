/**
 * The product aggregate of the catalog and its stock value object. Stock is an immutable
 * value (available units, restock threshold, maximum); the product owns one and changes it
 * only by debiting or replenishing, each of which either succeeds and records exactly one
 * domain event or fails and changes nothing.
 */
module Catalog {
  import opened Wrappers

  type ProductId = int

  /** `Stock.Create(available, restockThreshold, maxStockThreshold)`, in that order. */
  datatype Stock = Stock(available: int, restockThreshold: int, maxStockThreshold: int)

  /** What a stock value promises: nothing negative, nothing above the maximum. */
  predicate ValidStock(s: Stock)
  {
    0 <= s.available <= s.maxStockThreshold && 0 <= s.restockThreshold <= s.maxStockThreshold
  }

  datatype StockError =
    | InvalidStock              // the three numbers do not form a stock
    | InvalidQuantity           // a debit or replenishment of zero or fewer units
    | InsufficientStock         // InsufficientStockException
    | MaxStockThresholdReached  // MaxStockThresholdReachedException

  function CreateStock(available: int, restockThreshold: int, maxStockThreshold: int)
    : (r: Result<Stock, StockError>)
    ensures r.Ok? <==> ValidStock(Stock(available, restockThreshold, maxStockThreshold))
    ensures r.Ok? ==> (r.value.available == available && r.value.restockThreshold == restockThreshold
                       && r.value.maxStockThreshold == maxStockThreshold)
    ensures r.Err? ==> r.error == InvalidStock
  {
    var s := Stock(available, restockThreshold, maxStockThreshold);
    if ValidStock(s) then Ok(s) else Err(InvalidStock)
  }

  /** Taking `quantity` units out of stock. */
  function Debit(s: Stock, quantity: int): (r: Result<Stock, StockError>)
    ensures quantity <= 0 ==> r == Err(InvalidQuantity)
    ensures 0 < quantity <= s.available <==> r.Ok?
    ensures quantity > 0 && quantity > s.available ==> r == Err(InsufficientStock)
    ensures r.Ok? ==> r.value.available == s.available - quantity >= 0
    ensures r.Ok? ==> r.value.(available := s.available) == s
    ensures ValidStock(s) && r.Ok? ==> ValidStock(r.value)
  {
    if quantity <= 0 then Err(InvalidQuantity)
    else if quantity > s.available then Err(InsufficientStock)
    else Ok(s.(available := s.available - quantity))
  }

  /** Putting `quantity` units back, never above the maximum. */
  function Replenish(s: Stock, quantity: int): (r: Result<Stock, StockError>)
    ensures quantity <= 0 ==> r == Err(InvalidQuantity)
    ensures 0 < quantity && s.available + quantity <= s.maxStockThreshold <==> r.Ok?
    ensures quantity > 0 && s.available + quantity > s.maxStockThreshold ==> r == Err(MaxStockThresholdReached)
    ensures r.Ok? ==> r.value.available == s.available + quantity <= s.maxStockThreshold
    ensures r.Ok? ==> r.value.(available := s.available) == s
    ensures ValidStock(s) && r.Ok? ==> ValidStock(r.value)
  {
    if quantity <= 0 then Err(InvalidQuantity)
    else if s.available + quantity > s.maxStockThreshold then Err(MaxStockThresholdReached)
    else Ok(s.(available := s.available + quantity))
  }

  /** At or below the restock threshold, replenishment is due. */
  predicate NeedsRestock(s: Stock)
  {
    s.available <= s.restockThreshold
  }

  /** Replenishing what was just debited always succeeds and gives the stock back. */
  lemma DebitThenReplenish(s: Stock, quantity: int)
    requires ValidStock(s) && Debit(s, quantity).Ok?
    ensures Replenish(Debit(s, quantity).value, quantity) == Ok(s)
  {
    var d := Debit(s, quantity).value;
    assert d.available + quantity == s.available <= s.maxStockThreshold;
  }

  /** Debiting what was just replenished always succeeds and gives the stock back. */
  lemma ReplenishThenDebit(s: Stock, quantity: int)
    requires ValidStock(s) && Replenish(s, quantity).Ok?
    ensures Debit(Replenish(s, quantity).value, quantity) == Ok(s)
  {
  }

  datatype ProductStatus = Available | Discontinued

  datatype ProductEvent =
    | ProductCreated(productId: ProductId, name: string, stock: Stock)
    | ProductStockDebited(productId: ProductId, quantity: int, newAvailable: int)
    | ProductStockReplenished(productId: ProductId, quantity: int, newAvailable: int)

  /** ProductDomainException, with its message. */
  datatype ProductError = ProductDomainError(message: string)

  class Product {
    const id: ProductId
    var name: string
    var stock: Stock
    var status: ProductStatus
    /** The domain events recorded since the last clear. */
    var events: seq<ProductEvent>

    ghost predicate Valid()
      reads this
    {
      ValidStock(stock)
    }

    constructor Init(id: ProductId, name: string, stock: Stock, status: ProductStatus)
      requires ValidStock(stock)
      ensures Valid()
      ensures this.id == id && this.name == name && this.stock == stock && this.status == status
      ensures events == [ProductCreated(id, name, stock)]
    {
      this.id := id;
      this.name := name;
      this.stock := stock;
      this.status := status;
      events := [ProductCreated(id, name, stock)];
    }

    /**
     * `DebitStock`: on success the stock drops by `quantity` and one `ProductStockDebited`
     * event is appended; on failure neither the stock nor the events change.
     */
    method DebitStock(quantity: int) returns (r: Outcome<StockError>)
      requires Valid()
      modifies this
      ensures Valid()
      ensures name == old(name) && status == old(status)
      ensures r.Pass? <==> Debit(old(stock), quantity).Ok?
      ensures r.Fail? ==> r.error == Debit(old(stock), quantity).error
      ensures r.Pass? ==> (stock == Debit(old(stock), quantity).value
                           && events == old(events) + [ProductStockDebited(id, quantity, stock.available)])
      ensures r.Fail? ==> stock == old(stock) && events == old(events)
    {
      match Debit(stock, quantity)
      case Ok(s) =>
        stock := s;
        events := events + [ProductStockDebited(id, quantity, s.available)];
        r := Pass;
      case Err(e) =>
        r := Fail(e);
    }

    /**
     * `ReplenishStock`: on success the stock rises by `quantity` and one
     * `ProductStockReplenished` event is appended; beyond the maximum it fails unchanged.
     */
    method ReplenishStock(quantity: int) returns (r: Outcome<StockError>)
      requires Valid()
      modifies this
      ensures Valid()
      ensures name == old(name) && status == old(status)
      ensures r.Pass? <==> Replenish(old(stock), quantity).Ok?
      ensures r.Fail? ==> r.error == Replenish(old(stock), quantity).error
      ensures r.Pass? ==> (stock == Replenish(old(stock), quantity).value
                           && events == old(events) + [ProductStockReplenished(id, quantity, stock.available)])
      ensures r.Fail? ==> stock == old(stock) && events == old(events)
    {
      match Replenish(stock, quantity)
      case Ok(s) =>
        stock := s;
        events := events + [ProductStockReplenished(id, quantity, s.available)];
        r := Pass;
      case Err(e) =>
        r := Fail(e);
    }

    /** `GetUncommittedDomainEvents`. */
    function UncommittedEvents(): seq<ProductEvent>
      reads this
    {
      events
    }

    /** `ClearDomainEvents`: the events have been handed to the publisher. */
    method ClearEvents()
      modifies this`events
      ensures events == []
    {
      events := [];
    }
  }

  /** `Product.Create`: a missing id is rejected with "id can not be null". */
  method CreateProduct(id: Option<ProductId>, name: string, stock: Stock, status: ProductStatus)
    returns (r: Result<Product, ProductError>)
    requires ValidStock(stock)
    ensures r.Ok? <==> id.Some?
    ensures r.Err? ==> r.error == ProductDomainError("id can not be null")
    ensures r.Ok? ==> (fresh(r.value) && r.value.Valid() && r.value.id == id.value
                       && r.value.stock == stock && r.value.events == [ProductCreated(id.value, name, stock)])
  {
    if id.None? {
      return Err(ProductDomainError("id can not be null"));
    }
    var p := new Product.Init(id.value, name, stock, status);
    return Ok(p);
  }

  /** The scenarios of the aggregate's unit tests, replayed against the model. */
  method ProductTestScenarios()
  {
    // a valid product keeps its stock and records its creation
    var created := CreateProduct(Some(1), "Test Product", Stock(10, 5, 20), Available);
    assert created.Ok? && created.value.stock.available == 10;
    assert created.value.events[0].ProductCreated?;

    // a null id is refused
    var refused := CreateProduct(None, "Test", Stock(10, 5, 20), Available);
    assert refused == Err(ProductDomainError("id can not be null"));

    // 10 - 5 = 5 and 10 - 10 = 0, each with a debit event
    var p := new Product.Init(1, "Test Product", Stock(10, 5, 100), Available);
    var r := p.DebitStock(5);
    assert r.Pass? && p.stock.available == 5 && p.events[|p.events| - 1].ProductStockDebited?;
    var q := new Product.Init(1, "Test Product", Stock(10, 5, 100), Available);
    r := q.DebitStock(10);
    assert r.Pass? && q.stock.available == 0;

    // debiting 10 from 5 is refused
    var low := new Product.Init(1, "Test Product", Stock(5, 5, 100), Available);
    r := low.DebitStock(10);
    assert r == Fail(InsufficientStock) && low.stock.available == 5;

    // 15 + 10 > 20 is refused
    var full := new Product.Init(1, "Test Product", Stock(15, 5, 20), Available);
    r := full.ReplenishStock(10);
    assert r == Fail(MaxStockThresholdReached) && full.stock.available == 15;
  }
}
