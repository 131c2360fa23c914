/**
 * The inventory service: stock reservation and release against the catalog's product
 * rows, with an in-memory reservation cache keyed by product. The model is sequential:
 * the catalog table and the static cache are two maps, updated one call at a time.
 */
module Inventory {
  import opened Numerics

  type ProductId = Int64

  /** The two columns of a catalog product row that the service reads and writes. */
  datatype ProductRecord = ProductRecord(availableStock: Int32, maxStockThreshold: Int32)

  /** The row after `AvailableStock += delta` in unchecked 32-bit arithmetic. */
  function AddStock(p: ProductRecord, delta: int): (r: ProductRecord)
    ensures r.maxStockThreshold == p.maxStockThreshold
    ensures (r.availableStock - (p.availableStock + delta)) % 0x1_0000_0000 == 0
  {
    p.(availableStock := Wrap32(p.availableStock + delta))
  }

  /**
   * The cache after `UpdateReservationCache(productId, delta)`: an existing entry grows by
   * `delta` (wrapping), an absent one is created holding `delta`; no other entry changes.
   */
  function CacheAfterUpdate(cache: map<ProductId, Int32>, productId: ProductId, delta: Int32)
    : (c: map<ProductId, Int32>)
    ensures c.Keys == cache.Keys + {productId}
    ensures productId !in cache ==> c[productId] == delta
    ensures productId in cache ==> c[productId] == Wrap32(cache[productId] + delta)
    ensures forall p :: p in cache && p != productId ==> c[p] == cache[p]
  {
    cache[productId := if productId in cache then Wrap32(cache[productId] + delta) else delta]
  }

  /** Debiting and then crediting the same quantity restores the stock exactly, wrap-around included. */
  lemma StockRoundTrip(p: ProductRecord, quantity: Int32)
    ensures AddStock(AddStock(p, -(quantity as int)), quantity) == p
  {
    Wrap32Sum(p.availableStock - quantity, quantity);
  }

  /**
   * A cache update by `quantity` followed by one by `-quantity` (C#'s unchecked negation)
   * gives back the entry it started from, or an entry of 0 where there was none.
   */
  lemma CacheRoundTrip(cache: map<ProductId, Int32>, productId: ProductId, quantity: Int32)
    ensures CacheAfterUpdate(CacheAfterUpdate(cache, productId, quantity), productId, Wrap32(-(quantity as int)))
         == if productId in cache then cache else cache[productId := 0]
  {
    var back := Wrap32(-(quantity as int));
    var once := CacheAfterUpdate(cache, productId, quantity);
    var entry := if productId in cache then cache[productId] else 0;
    WrapCancel(entry, quantity);
    assert once[productId] == Wrap32(entry + quantity);
    assert CacheAfterUpdate(once, productId, back) == cache[productId := entry];
  }

  /** Adding a quantity and then its wrapped negation gives back the Int32 one started from. */
  lemma WrapCancel(a: Int32, quantity: Int32)
    ensures Wrap32(Wrap32(a + quantity) + Wrap32(-(quantity as int))) == a
  {
    Wrap32Sum(a + quantity, -(quantity as int));
  }

  class InventoryService {
    /** The catalog's product rows, by id. */
    var products: map<ProductId, ProductRecord>
    /** The static reservation cache: product id to a signed reserved count. */
    var reservationCache: map<ProductId, Int32>

    constructor (products: map<ProductId, ProductRecord>)
      ensures this.products == products && reservationCache == map[]
    {
      this.products := products;
      reservationCache := map[];
    }

    /** `GetAvailableStockAsync`: the row's stock, or 0 for an unknown product. */
    function GetAvailableStock(productId: ProductId): (n: Int32)
      reads this
      ensures productId in products ==> n == products[productId].availableStock
      ensures productId !in products ==> n == 0
    {
      if productId in products then products[productId].availableStock else 0
    }

    /** `CheckStockAvailabilityAsync`: advisory; a missing product has stock 0. */
    function CheckStockAvailability(productId: ProductId, requestedQuantity: Int32): (ok: bool)
      reads this
      ensures ok <==> GetAvailableStock(productId) >= requestedQuantity
      ensures productId !in products ==> (ok <==> requestedQuantity <= 0)
    {
      GetAvailableStock(productId) >= requestedQuantity
    }

    /**
     * `GetTotalReservedStockAsync`: the cached count when there is one; otherwise the
     * database fallback `MaxStockThreshold - AvailableStock` summed over the (at most one)
     * matching row, which is 0 for an unknown product.
     */
    function GetTotalReservedStock(productId: ProductId): (n: Int32)
      reads this
      ensures productId in reservationCache ==> n == reservationCache[productId]
      ensures productId !in reservationCache && productId !in products ==> n == 0
      ensures productId !in reservationCache && productId in products ==>
        (n - (products[productId].maxStockThreshold - products[productId].availableStock)) % 0x1_0000_0000 == 0
    {
      if productId in reservationCache then reservationCache[productId]
      else if productId in products then
        Wrap32(products[productId].maxStockThreshold - products[productId].availableStock)
      else 0
    }

    /** `UpdateReservationCache`. */
    method UpdateReservationCache(productId: ProductId, quantityDelta: Int32)
      modifies this`reservationCache
      ensures reservationCache == CacheAfterUpdate(old(reservationCache), productId, quantityDelta)
    {
      if productId in reservationCache {
        reservationCache := reservationCache[productId := Wrap32(reservationCache[productId] + quantityDelta)];
      } else {
        reservationCache := reservationCache[productId := quantityDelta];
      }
    }

    /**
     * `ReserveStockAsync`: succeeds exactly when the product exists and its stock covers the
     * quantity (no sign check on the quantity); then the stock is debited and the cache
     * entry bumped, otherwise nothing changes.
     */
    method ReserveStock(productId: ProductId, quantity: Int32) returns (ok: bool)
      modifies this
      ensures ok <==> productId in old(products) && old(CheckStockAvailability(productId, quantity))
      ensures ok ==> products == old(products)[productId := AddStock(old(products[productId]), -(quantity as int))]
      ensures ok ==> reservationCache == CacheAfterUpdate(old(reservationCache), productId, quantity)
      ensures !ok ==> products == old(products) && reservationCache == old(reservationCache)
      ensures ok && quantity >= 0 ==>
        0 <= products[productId].availableStock == old(products[productId].availableStock) - quantity
    {
      if productId !in products {
        return false;
      }
      var product := products[productId];
      if product.availableStock >= quantity {
        product := product.(availableStock := Wrap32(product.availableStock - quantity));
        products := products[productId := product];
        UpdateReservationCache(productId, quantity);
        return true;
      }
      return false;
    }

    /**
     * `ReleaseStockAsync`: for a known product, always succeeds; the stock is credited with
     * no check against `MaxStockThreshold`, and the cache entry is lowered, created
     * negative when absent.
     */
    method ReleaseStock(productId: ProductId, quantity: Int32) returns (ok: bool)
      modifies this
      ensures ok <==> productId in old(products)
      ensures ok ==> products == old(products)[productId := AddStock(old(products[productId]), quantity)]
      ensures ok ==> reservationCache == CacheAfterUpdate(old(reservationCache), productId, Wrap32(-(quantity as int)))
      ensures !ok ==> products == old(products) && reservationCache == old(reservationCache)
    {
      if productId !in products {
        return false;
      }
      var product := products[productId];
      product := product.(availableStock := Wrap32(product.availableStock + quantity));
      products := products[productId := product];
      UpdateReservationCache(productId, Wrap32(-(quantity as int)));
      return true;
    }
  }

  /**
   * A reservation followed by the release of the same quantity leaves the product rows as
   * they were and the cache entry at its earlier value, or at 0 if there was none.
   */
  method ReserveThenRelease(inventory: InventoryService, productId: ProductId, quantity: Int32)
    returns (reserved: bool)
    modifies inventory
    ensures reserved ==> inventory.products == old(inventory.products)
    ensures reserved ==> (inventory.reservationCache ==
      if productId in old(inventory.reservationCache) then old(inventory.reservationCache)
      else old(inventory.reservationCache)[productId := 0])
    ensures !reserved ==>
      inventory.products == old(inventory.products) && inventory.reservationCache == old(inventory.reservationCache)
  {
    reserved := inventory.ReserveStock(productId, quantity);
    if reserved {
      var released := inventory.ReleaseStock(productId, quantity);
      StockRoundTrip(old(inventory.products[productId]), quantity);
      CacheRoundTrip(old(inventory.reservationCache), productId, quantity);
      assert released;
    }
  }

  /**
   * Before any reservation the fallback reports `MaxStockThreshold - AvailableStock` as
   * reserved (90 for a row 10/100); after reserving 5 the cache answers 5.
   */
  method ReservedCountFallback()
  {
    var inventory := new InventoryService(map[7 := ProductRecord(10, 100)]);
    assert inventory.GetTotalReservedStock(7) == 90;
    var ok := inventory.ReserveStock(7, 5);
    assert ok && inventory.GetAvailableStock(7) == 5;
    assert inventory.GetTotalReservedStock(7) == 5;
  }
}
