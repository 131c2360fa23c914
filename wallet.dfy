/**
 * Customer wallets: one balance per customer, seeded with three wallets; deposits, withdrawals
 * and transfers change balances in place, and a prorated refund is computed from days of use.
 */
module Wallet {
  import opened Numerics

  type CustomerId = Int64

  /** One key of a non-empty map, chosen once so that every use agrees. */
  ghost function PickKey(m: map<CustomerId, real>): (k: CustomerId)
    requires m != map[]
    ensures k in m
  {
    var k :| k in m; k
  }

  /** The sum of all balances. */
  ghost function Total(m: map<CustomerId, real>): real
    decreases |m.Keys|
  {
    if m == map[] then 0.0
    else
      var k := PickKey(m);
      assert |(m - {k}).Keys| < |m.Keys| by { assert m.Keys == (m - {k}).Keys + {k}; }
      m[k] + Total(m - {k})
  }

  /** Any balance can be split off the sum, not just the one `Total` picks. */
  lemma {:induction false} TotalRemove(m: map<CustomerId, real>, j: CustomerId)
    requires j in m
    ensures Total(m) == m[j] + Total(m - {j})
    decreases |m.Keys|
  {
    var k := PickKey(m);
    if k != j {
      assert m.Keys == (m - {k}).Keys + {k};
      assert m.Keys == (m - {j}).Keys + {j};
      TotalRemove(m - {k}, j);
      TotalRemove(m - {j}, k);
      assert m - {k} - {j} == m - {j} - {k};
    }
  }

  /** Changing one balance changes the sum by the same amount. */
  lemma TotalUpdate(m: map<CustomerId, real>, j: CustomerId, v: real)
    requires j in m
    ensures Total(m[j := v]) == Total(m) - m[j] + v
  {
    TotalRemove(m, j);
    TotalRemove(m[j := v], j);
    assert m[j := v] - {j} == m - {j};
  }

  /**
   * `CalculateRefundAsync`, as written: the unused share `(totalDays - daysUsed) / totalDays` is
   * an `int` division, so it truncates to a whole number of "full refunds".
   */
  function CalculateRefund(originalAmount: real, daysUsed: Int32, totalDays: Int32): (r: real)
    ensures totalDays <= 0 ==> r == 0.0
    ensures 0 < totalDays ==>
      r == originalAmount * TruncDiv(Wrap32(totalDays as int - daysUsed as int), totalDays) as real
  {
    if totalDays <= 0 then 0.0
    else
      var unusedDays := Wrap32(totalDays as int - daysUsed as int);
      var share := TruncDiv(unusedDays, totalDays);
      originalAmount * share as real
  }

  /** Within the period the source refunds all or nothing: any day of use forfeits the refund. */
  lemma RefundAllOrNothing(originalAmount: real, daysUsed: Int32, totalDays: Int32)
    requires 0 <= daysUsed <= totalDays && 0 < totalDays
    ensures CalculateRefund(originalAmount, daysUsed, totalDays) == if daysUsed == 0 then originalAmount else 0.0
  {
    var unusedDays := totalDays as int - daysUsed as int;
    assert Wrap32(unusedDays) == unusedDays;
    TruncDivOfNatural(unusedDays, totalDays);
  }

  /** 10 of 30 days used on 300000 refunds 0 instead of 200000. */
  lemma RefundTruncatesToZero()
    ensures CalculateRefund(300000.0, 10, 30) == 0.0
    ensures ProratedRefund(300000.0, 10, 30) == 200000.0
  {
    RefundAllOrNothing(300000.0, 10, 30);
  }

  /** The refund as evidently intended: the unused fraction of the amount, in `decimal`. */
  function ProratedRefund(originalAmount: real, daysUsed: int, totalDays: int): (r: real)
    ensures totalDays <= 0 ==> r == 0.0
    ensures 0 < totalDays ==> r * totalDays as real == originalAmount * (totalDays - daysUsed) as real
  {
    if totalDays <= 0 then 0.0
    else originalAmount * (totalDays - daysUsed) as real / totalDays as real
  }

  lemma DivideKeepsOrder(x: real, y: real, t: real)
    requires x <= y && t > 0.0
    ensures x / t <= y / t
  {
    assert x / t * t == x && y / t * t == y;
  }

  lemma ScaleKeepsOrder(k: real, x: real, y: real)
    requires k >= 0.0 && x <= y
    ensures k * x <= k * y
  {
    assert k * y == k * x + k * (y - x);
    assert k * (y - x) >= 0.0;
  }

  /** Within the period, the corrected refund lies between nothing and everything and falls with use. */
  lemma ProratedRefundBounds(originalAmount: real, d1: int, d2: int, totalDays: int)
    requires originalAmount >= 0.0 && 0 <= d1 <= d2 <= totalDays && 0 < totalDays
    ensures 0.0 <= ProratedRefund(originalAmount, d2, totalDays) <= ProratedRefund(originalAmount, d1, totalDays) <= originalAmount
    ensures ProratedRefund(originalAmount, 0, totalDays) == originalAmount
    ensures ProratedRefund(originalAmount, totalDays, totalDays) == 0.0
  {
    FractionBounds(originalAmount, (totalDays - d1) as real, (totalDays - d2) as real, totalDays as real);
    CancelFactor(originalAmount, totalDays as real);
  }

  /** Shares u2 <= u1 of t, taken of a non-negative amount, lie in order between 0 and the amount. */
  lemma FractionBounds(amount: real, u1: real, u2: real, t: real)
    requires amount >= 0.0 && 0.0 <= u2 <= u1 <= t && t > 0.0
    ensures 0.0 <= amount * u2 / t <= amount * u1 / t <= amount
  {
    ScaleKeepsOrder(amount, 0.0, u2);
    ScaleKeepsOrder(amount, u2, u1);
    ScaleKeepsOrder(amount, u1, t);
    DivideKeepsOrder(0.0, amount * u2, t);
    DivideKeepsOrder(amount * u2, amount * u1, t);
    DivideKeepsOrder(amount * u1, amount * t, t);
    CancelFactor(amount, t);
  }

  lemma CancelFactor(k: real, t: real)
    requires t > 0.0
    ensures k * t / t == k
  {
  }

  /** The source agrees with the corrected refund only at the ends of the period. */
  lemma RefundAgreesAtEnds(originalAmount: real, totalDays: Int32)
    requires 0 < totalDays
    ensures CalculateRefund(originalAmount, 0, totalDays) == ProratedRefund(originalAmount, 0, totalDays)
    ensures CalculateRefund(originalAmount, totalDays, totalDays) == ProratedRefund(originalAmount, totalDays as int, totalDays as int)
  {
    RefundAllOrNothing(originalAmount, 0, totalDays);
    RefundAllOrNothing(originalAmount, totalDays, totalDays);
  }

  class CustomerWalletService {
    /** The static `_wallets`, reduced to each customer's balance. */
    var wallets: map<CustomerId, real>

    constructor ()
      ensures wallets == map[1 := 1000000.0, 2 := 500000.0, 3 := 2500000.0]
    {
      wallets := map[1 := 1000000.0, 2 := 500000.0, 3 := 2500000.0];
    }

    /** `GetBalanceAsync`: a customer without a wallet has balance 0. */
    function GetBalance(customerId: CustomerId): (r: real)
      reads this
      ensures customerId in wallets ==> r == wallets[customerId]
      ensures customerId !in wallets ==> r == 0.0
    {
      if customerId in wallets then wallets[customerId] else 0.0
    }

    /** `DepositAsync`: no wallet, no change; otherwise the balance rises by `amount`, whatever its sign. */
    method Deposit(customerId: CustomerId, amount: real) returns (ok: bool)
      modifies this
      ensures ok <==> customerId in old(wallets)
      ensures ok ==> wallets == old(wallets)[customerId := old(wallets)[customerId] + amount]
      ensures !ok ==> wallets == old(wallets)
      ensures Total(wallets) == Total(old(wallets)) + (if ok then amount else 0.0)
    {
      if customerId !in wallets {
        return false;
      }
      TotalUpdate(wallets, customerId, wallets[customerId] + amount);
      wallets := wallets[customerId := wallets[customerId] + amount];
      return true;
    }

    /** `WithdrawAsync`: refused without a wallet or with too small a balance; otherwise the balance drops by `amount`. */
    method Withdraw(customerId: CustomerId, amount: real) returns (ok: bool)
      modifies this
      ensures ok <==> customerId in old(wallets) && old(wallets)[customerId] >= amount
      ensures ok ==> wallets == old(wallets)[customerId := old(wallets)[customerId] - amount]
      ensures ok ==> wallets[customerId] >= 0.0
      ensures !ok ==> wallets == old(wallets)
      ensures Total(wallets) == Total(old(wallets)) - (if ok then amount else 0.0)
    {
      if customerId !in wallets {
        return false;
      }
      if wallets[customerId] < amount {
        return false;
      }
      TotalUpdate(wallets, customerId, wallets[customerId] - amount);
      wallets := wallets[customerId := wallets[customerId] - amount];
      return true;
    }

    /**
     * `TransferAsync`: refused when either wallet is missing or the source holds less than
     * `amount`; otherwise the source is debited and then the destination credited, so a
     * transfer to oneself changes nothing. The sum of all balances never changes.
     */
    method Transfer(fromId: CustomerId, toId: CustomerId, amount: real) returns (ok: bool)
      modifies this
      ensures ok <==> fromId in old(wallets) && toId in old(wallets) && old(wallets)[fromId] >= amount
      ensures ok ==> var debited := old(wallets)[fromId := old(wallets)[fromId] - amount];
                     wallets == debited[toId := debited[toId] + amount]
      ensures ok && fromId != toId ==>
        wallets[fromId] == old(wallets)[fromId] - amount && wallets[toId] == old(wallets)[toId] + amount
      ensures !ok ==> wallets == old(wallets)
      ensures fromId == toId ==> wallets == old(wallets)
      ensures Total(wallets) == Total(old(wallets))
    {
      if fromId !in wallets || toId !in wallets {
        return false;
      }
      if wallets[fromId] < amount {
        return false;
      }
      TotalUpdate(wallets, fromId, wallets[fromId] - amount);
      wallets := wallets[fromId := wallets[fromId] - amount];
      TotalUpdate(wallets, toId, wallets[toId] + amount);
      wallets := wallets[toId := wallets[toId] + amount];
      return true;
    }
  }
}
