/**
 * Coupons: a fixed list of percentage coupons, each with a usage limit, and a usage counter per
 * code. Lookup ignores case, but the counters are keyed by the code exactly as the caller wrote
 * it, so differently-cased spellings of one coupon are counted apart.
 */
module Coupons {
  import opened Wrappers
  import opened Numerics
  import opened Text
  import Pricing

  datatype Coupon = Coupon(id: int, code: string, discountPercentage: real, maxUsage: Int32, isActive: bool)

  /** The sample coupons the service is seeded with; all active. */
  const SampleCoupons: seq<Coupon> := [
    Coupon(1, "SAVE10", 10.0, 100, true),
    Coupon(2, "SAVE20", 20.0, 50, true),
    Coupon(3, "HALFOFF", 50.0, 25, true),
    Coupon(4, "SUPER75", 75.0, 10, true),
    Coupon(5, "MEGA100", 100.0, 5, true),
    Coupon(6, "EXTREME150", 150.0, 2, true)
  ]

  datatype CouponError =
    | NotFound           // "Coupon '…' not found."
    | Inactive           // "Coupon '…' is no longer active."
    | UsageLimitReached  // "Coupon '…' has reached its usage limit."

  /** `FirstOrDefault` over the list, comparing codes with OrdinalIgnoreCase. */
  function FindCoupon(coupons: seq<Coupon>, code: string): (r: Option<Coupon>)
    ensures r.None? <==> forall i :: 0 <= i < |coupons| ==> !EqualsIgnoreCase(coupons[i].code, code)
    ensures r.Some? ==> r.value in coupons && EqualsIgnoreCase(r.value.code, code)
  {
    if coupons == [] then None
    else if EqualsIgnoreCase(coupons[0].code, code) then Some(coupons[0])
    else
      var rest := FindCoupon(coupons[1..], code);
      assert forall i :: 1 <= i < |coupons| ==> coupons[i] == coupons[1..][i - 1];
      rest
  }

  /** `FirstOrDefault` returns the first coupon whose code matches. */
  lemma {:induction false} FindFirstMatch(coupons: seq<Coupon>, code: string, k: nat)
    requires k < |coupons| && EqualsIgnoreCase(coupons[k].code, code)
    requires forall i :: 0 <= i < k ==> !EqualsIgnoreCase(coupons[i].code, code)
    ensures FindCoupon(coupons, code) == Some(coupons[k])
    decreases k
  {
    if k > 0 {
      assert forall i :: 0 <= i < k - 1 ==> coupons[1..][i] == coupons[i + 1];
      FindFirstMatch(coupons[1..], code, k - 1);
    }
  }

  /** The number of times `code`, spelled exactly so, has been applied (`GetValueOrDefault`). */
  function UsageOf(usage: map<string, Int32>, code: string): Int32
  {
    if code in usage then usage[code] else 0
  }

  /** What `ApplyCouponAsync` returns, or the exception it throws. */
  function ApplyOutcome(coupons: seq<Coupon>, usage: map<string, Int32>, code: string, total: real)
    : (r: Result<real, CouponError>)
    ensures FindCoupon(coupons, code).None? ==> r == Err(NotFound)
    ensures FindCoupon(coupons, code).Some? && !FindCoupon(coupons, code).value.isActive ==> r == Err(Inactive)
    ensures r.Ok? <==> (FindCoupon(coupons, code).Some? && FindCoupon(coupons, code).value.isActive
                        && UsageOf(usage, code) < FindCoupon(coupons, code).value.maxUsage)
    ensures r.Ok? ==> r.value == Pricing.ApplyDiscount(total, FindCoupon(coupons, code).value.discountPercentage)
  {
    match FindCoupon(coupons, code)
    case None => Err(NotFound)
    case Some(c) =>
      if !c.isActive then Err(Inactive)
      else if UsageOf(usage, code) >= c.maxUsage then Err(UsageLimitReached)
      else Ok(Pricing.ApplyDiscount(total, c.discountPercentage))
  }

  /**
   * The usage counters after `ApplyCouponAsync`: untouched for an unknown or inactive coupon;
   * otherwise the exact code gets an entry (0 if it had none) and, below the limit, one more use.
   */
  function UsageAfter(coupons: seq<Coupon>, usage: map<string, Int32>, code: string): (r: map<string, Int32>)
    ensures FindCoupon(coupons, code).None? || !FindCoupon(coupons, code).value.isActive ==> r == usage
    ensures r.Keys <= usage.Keys + {code}
    ensures forall other :: other != code ==> UsageOf(r, other) == UsageOf(usage, other)
    ensures UsageOf(r, code) == if ApplyOutcome(coupons, usage, code, 0.0).Ok?
                                then UsageOf(usage, code) + 1 else UsageOf(usage, code)
  {
    match FindCoupon(coupons, code)
    case None => usage
    case Some(c) =>
      if !c.isActive then usage
      else
        var seeded := if code in usage then usage else usage[code := 0];
        if seeded[code] >= c.maxUsage then seeded
        else seeded[code := seeded[code] + 1]
  }

  /** Every counter belongs to a coupon and stays between 0 and that coupon's limit. */
  ghost predicate UsageWithinLimits(coupons: seq<Coupon>, usage: map<string, Int32>)
  {
    forall code :: code in usage ==>
      FindCoupon(coupons, code).Some? && 0 <= usage[code]
      && (usage[code] <= FindCoupon(coupons, code).value.maxUsage || usage[code] == 0)
  }

  /** Applying a coupon, successfully or not, keeps every counter within its limit. */
  lemma ApplyKeepsLimits(coupons: seq<Coupon>, usage: map<string, Int32>, code: string)
    requires UsageWithinLimits(coupons, usage)
    ensures UsageWithinLimits(coupons, UsageAfter(coupons, usage, code))
  {
    var r := UsageAfter(coupons, usage, code);
    forall k | k in r
      ensures FindCoupon(coupons, k).Some? && 0 <= r[k]
              && (r[k] <= FindCoupon(coupons, k).value.maxUsage || r[k] == 0)
    {
      if k != code {
        assert UsageOf(r, k) == UsageOf(usage, k);
      }
    }
  }

  /** Validation predicts application: it is true exactly when applying would succeed. */
  function IsApplicable(coupons: seq<Coupon>, usage: map<string, Int32>, code: string): (r: bool)
    ensures forall total :: r <==> ApplyOutcome(coupons, usage, code, total).Ok?
  {
    match FindCoupon(coupons, code)
    case None => false
    case Some(c) => c.isActive && UsageOf(usage, code) < c.maxUsage
  }

  /** Codes applied left to right; failures are skipped and leave the running total alone. */
  function UsageAfterAll(coupons: seq<Coupon>, usage: map<string, Int32>, codes: seq<string>): map<string, Int32>
  {
    if codes == [] then usage
    else UsageAfter(coupons, UsageAfterAll(coupons, usage, codes[..|codes| - 1]), codes[|codes| - 1])
  }

  function TotalAfterAll(coupons: seq<Coupon>, usage: map<string, Int32>, codes: seq<string>, total: real): real
  {
    if codes == [] then total
    else
      var init := codes[..|codes| - 1];
      var running := TotalAfterAll(coupons, usage, init, total);
      match ApplyOutcome(coupons, UsageAfterAll(coupons, usage, init), codes[|codes| - 1], running)
      case Ok(t) => t
      case Err(_) => running
  }

  /** Stacking keeps every counter within its limit. */
  lemma {:induction false} StackingKeepsLimits(coupons: seq<Coupon>, usage: map<string, Int32>, codes: seq<string>)
    requires UsageWithinLimits(coupons, usage)
    ensures UsageWithinLimits(coupons, UsageAfterAll(coupons, usage, codes))
    decreases |codes|
  {
    if codes != [] {
      StackingKeepsLimits(coupons, usage, codes[..|codes| - 1]);
      ApplyKeepsLimits(coupons, UsageAfterAll(coupons, usage, codes[..|codes| - 1]), codes[|codes| - 1]);
    }
  }

  /** With coupons of at most 100 % off, stacking never raises a total nor takes it below 0. */
  lemma {:induction false} StackingBounded(coupons: seq<Coupon>, usage: map<string, Int32>, codes: seq<string>, total: real)
    requires forall i :: 0 <= i < |coupons| ==> 0.0 <= coupons[i].discountPercentage <= 100.0
    requires total >= 0.0
    ensures 0.0 <= TotalAfterAll(coupons, usage, codes, total) <= total
    decreases |codes|
  {
    if codes != [] {
      var init := codes[..|codes| - 1];
      StackingBounded(coupons, usage, init, total);
      var running := TotalAfterAll(coupons, usage, init, total);
      var found := FindCoupon(coupons, codes[|codes| - 1]);
      if found.Some? {
        assert 0.0 <= found.value.discountPercentage <= 100.0;
      }
    }
  }

  /** EXTREME150 is the last sample coupon; no other code has its length. */
  lemma FindExtreme150()
    ensures FindCoupon(SampleCoupons, "EXTREME150") == Some(SampleCoupons[5])
  {
    assert EqualsIgnoreCase(SampleCoupons[5].code, "EXTREME150");
    forall i | 0 <= i < 5
      ensures !EqualsIgnoreCase(SampleCoupons[i].code, "EXTREME150")
    {
      assert |Upper(SampleCoupons[i].code)| != |Upper("EXTREME150")|;
    }
    FindFirstMatch(SampleCoupons, "EXTREME150", 5);
  }

  /** The sample list breaks that bound: EXTREME150 takes a positive total below zero. */
  lemma ExtremeCouponGoesNegative(usage: map<string, Int32>, total: real)
    requires total > 0.0 && UsageOf(usage, "EXTREME150") < 2
    ensures ApplyOutcome(SampleCoupons, usage, "EXTREME150", total) == Ok(-total / 2.0)
  {
    FindExtreme150();
  }

  /** "save10" finds SAVE10 but is counted apart from "SAVE10". */
  lemma SpellingsCountedApart(usage: map<string, Int32>)
    requires UsageOf(usage, "save10") < 100
    ensures UsageOf(UsageAfter(SampleCoupons, usage, "save10"), "save10") == UsageOf(usage, "save10") + 1
    ensures UsageOf(UsageAfter(SampleCoupons, usage, "save10"), "SAVE10") == UsageOf(usage, "SAVE10")
  {
    assert EqualsIgnoreCase(SampleCoupons[0].code, "save10") by {
      assert Upper("save10") == "SAVE10";
    }
  }

  class CouponService {
    const coupons: seq<Coupon>
    /** The static `_couponUsageCount`. */
    var usage: map<string, Int32>

    ghost predicate Valid()
      reads this
    {
      UsageWithinLimits(coupons, usage)
    }

    constructor ()
      ensures Valid() && coupons == SampleCoupons && usage == map[]
    {
      coupons := SampleCoupons;
      usage := map[];
    }

    /** `ApplyCouponAsync`: the discounted total, or the exception, and the counters after it. */
    method ApplyCoupon(code: string, total: real) returns (r: Result<real, CouponError>)
      requires Valid()
      modifies this`usage
      ensures Valid()
      ensures r == ApplyOutcome(coupons, old(usage), code, total)
      ensures usage == UsageAfter(coupons, old(usage), code)
    {
      ApplyKeepsLimits(coupons, usage, code);
      var found := FindCoupon(coupons, code);
      if found.None? {
        return Err(NotFound);
      }
      var c := found.value;
      if !c.isActive {
        return Err(Inactive);
      }
      var seeded := if code in usage then usage else usage[code := 0];
      if seeded[code] >= c.maxUsage {
        usage := seeded;
        return Err(UsageLimitReached);
      }
      usage := seeded[code := seeded[code] + 1];
      r := Ok(Pricing.ApplyDiscount(total, c.discountPercentage));
    }

    /** `ApplyMultipleCouponsAsync`: each code in turn against the running total, skipping failures. */
    method ApplyMultipleCoupons(codes: seq<string>, total: real) returns (r: real)
      requires Valid()
      modifies this`usage
      ensures Valid()
      ensures r == TotalAfterAll(coupons, old(usage), codes, total)
      ensures usage == UsageAfterAll(coupons, old(usage), codes)
    {
      if |codes| == 0 {
        return total;
      }
      r := total;
      var i := 0;
      while i < |codes|
        invariant 0 <= i <= |codes|
        invariant Valid()
        invariant r == TotalAfterAll(coupons, old(usage), codes[..i], total)
        invariant usage == UsageAfterAll(coupons, old(usage), codes[..i])
      {
        assert codes[..i + 1][..i] == codes[..i];
        var outcome := ApplyCoupon(codes[i], r);
        if outcome.Ok? {
          r := outcome.value;
        }
        i := i + 1;
      }
      assert codes[..i] == codes;
    }

    /** `ValidateCouponAsync`: true exactly when applying the code now would succeed. */
    function ValidateCoupon(code: string): (r: bool)
      reads this
      ensures forall total :: r <==> ApplyOutcome(coupons, usage, code, total).Ok?
    {
      IsApplicable(coupons, usage, code)
    }
  }

  lemma FindSave10()
    ensures FindCoupon(SampleCoupons, "SAVE10") == Some(SampleCoupons[0])
  {
    assert EqualsIgnoreCase(SampleCoupons[0].code, "SAVE10");
    FindFirstMatch(SampleCoupons, "SAVE10", 0);
  }

  lemma FindMega100()
    ensures FindCoupon(SampleCoupons, "MEGA100") == Some(SampleCoupons[4])
  {
    assert EqualsIgnoreCase(SampleCoupons[4].code, "MEGA100") by {
      assert Upper("MEGA100") == "MEGA100";
    }
    assert Upper(SampleCoupons[0].code)[0] != Upper("MEGA100")[0];
    assert Upper(SampleCoupons[1].code)[0] != Upper("MEGA100")[0];
    assert Upper(SampleCoupons[2].code)[0] != Upper("MEGA100")[0];
    assert Upper(SampleCoupons[3].code)[1] != Upper("MEGA100")[1];
    FindFirstMatch(SampleCoupons, "MEGA100", 4);
  }

  /** The first SAVE10 on fresh counters takes 10 % off and records one use. */
  lemma StackOneSave10(total: real)
    ensures UsageAfterAll(SampleCoupons, map[], ["SAVE10"]) == map["SAVE10" := 1]
    ensures TotalAfterAll(SampleCoupons, map[], ["SAVE10"], total) == total * 0.9
  {
    FindSave10();
    assert ["SAVE10"][..0] == [];
  }

  /** The second SAVE10 takes 10 % off what is left, and MEGA100 is still unused. */
  lemma StackTwoSave10(total: real)
    ensures UsageOf(UsageAfterAll(SampleCoupons, map[], ["SAVE10", "SAVE10"]), "MEGA100") == 0
    ensures TotalAfterAll(SampleCoupons, map[], ["SAVE10", "SAVE10"], total) == total * 0.81
  {
    StackOneSave10(total);
    FindSave10();
    assert ["SAVE10", "SAVE10"][..1] == ["SAVE10"];
  }

  /** On fresh counters, SAVE10 twice takes 19 % off any total, and MEGA100 after that leaves nothing. */
  lemma StackingExample(twice: seq<string>, total: real)
    requires twice == ["SAVE10", "SAVE10"]
    ensures TotalAfterAll(SampleCoupons, map[], twice, total) == total * 0.81
    ensures TotalAfterAll(SampleCoupons, map[], twice + ["MEGA100"], total) == 0.0
  {
    StackTwoSave10(total);
    MegaAfter(twice, total);
  }

  /** MEGA100 after any codes that left it below its limit clears the running total. */
  lemma MegaAfter(codes: seq<string>, total: real)
    requires UsageOf(UsageAfterAll(SampleCoupons, map[], codes), "MEGA100") < 5
    ensures TotalAfterAll(SampleCoupons, map[], codes + ["MEGA100"], total) == 0.0
  {
    MegaClears(UsageAfterAll(SampleCoupons, map[], codes), TotalAfterAll(SampleCoupons, map[], codes, total));
    TotalAfterOneMore(SampleCoupons, map[], codes, "MEGA100", total);
  }

  /** MEGA100, while below its limit of five uses, takes any total to nothing. */
  lemma MegaClears(usage: map<string, Int32>, total: real)
    requires UsageOf(usage, "MEGA100") < 5
    ensures ApplyOutcome(SampleCoupons, usage, "MEGA100", total) == Ok(0.0)
  {
    FindMega100();
  }

  /** Stacking one more code applies it to the running total and the counters so far. */
  lemma TotalAfterOneMore(coupons: seq<Coupon>, usage: map<string, Int32>, codes: seq<string>, code: string, total: real)
    ensures var running := TotalAfterAll(coupons, usage, codes, total);
            TotalAfterAll(coupons, usage, codes + [code], total)
            == match ApplyOutcome(coupons, UsageAfterAll(coupons, usage, codes), code, running)
               case Ok(t) => t
               case Err(_) => running
  {
    assert (codes + [code])[..|codes|] == codes;
  }

  /** The same stacking, run against the service. */
  method StackingScenario() returns (cleared: real)
    ensures cleared == 0.0
  {
    var service := new CouponService();
    var twice := ["SAVE10", "SAVE10"];
    cleared := service.ApplyMultipleCoupons(twice + ["MEGA100"], 100000.0);
    StackingExample(twice, 100000.0);
  }
}
