/**
 * The products-view query: its defaults, its validator, and the handler's pipeline of sorting the
 * view by product name, skipping to the page, taking a page and copying each row into a DTO.
 */
module ProductsView {
  import opened Numerics
  import Sequences

  /** A row of the products view, with the columns the handler reads. */
  datatype ProductView = ProductView(productId: int, productName: string, categoryName: string, supplierName: string)

  datatype ProductViewDto = ProductViewDto(productId: int, productName: string, categoryName: string, supplierName: string)

  /** `GetProductsView`. */
  datatype GetProductsView = GetProductsView(page: Int32, pageSize: Int32)

  /** The query as constructed when neither property is set. */
  function DefaultQuery(): (q: GetProductsView)
    ensures q.page == 1 && q.pageSize == 20
    ensures Validate(q) == []
  {
    GetProductsView(1, 20)
  }

  const PAGE_MESSAGE: string := "Page should at least greater than or equal to 1."
  const PAGE_SIZE_MESSAGE: string := "PageSize should at least greater than or equal to 1."

  /**
   * `GetProductsViewValidator`. `CascadeMode.Stop` set on the validator stops at the first rule
   * that fails, so the page-size rule is reported only for a valid page.
   */
  function Validate(q: GetProductsView): (errors: seq<string>)
    ensures errors == [] <==> q.page >= 1 && q.pageSize >= 1
    ensures PAGE_MESSAGE in errors <==> q.page < 1
    ensures PAGE_SIZE_MESSAGE in errors <==> q.page >= 1 && q.pageSize < 1
    ensures |errors| <= 1
  {
    if q.page < 1 then [PAGE_MESSAGE]
    else if q.pageSize < 1 then [PAGE_SIZE_MESSAGE]
    else []
  }

  /** Ordinal lexicographic order on strings, a prefix first. */
  predicate LexLe(a: string, b: string)
  {
    a == [] || (b != [] && (a[0] < b[0] || (a[0] == b[0] && LexLe(a[1..], b[1..]))))
  }

  lemma {:induction false} LexTotal(a: string, b: string)
    ensures LexLe(a, b) || LexLe(b, a)
  {
    if a != [] && b != [] && a[0] == b[0] {
      LexTotal(a[1..], b[1..]);
    }
  }

  lemma {:induction false} LexTransitive(a: string, b: string, c: string)
    requires LexLe(a, b) && LexLe(b, c)
    ensures LexLe(a, c)
  {
    if a != [] && b != [] && c != [] && a[0] == b[0] == c[0] {
      LexTransitive(a[1..], b[1..], c[1..]);
    }
  }

  lemma {:induction false} LexAntisymmetric(a: string, b: string)
    requires LexLe(a, b) && LexLe(b, a)
    ensures a == b
  {
    if a != [] && b != [] {
      LexAntisymmetric(a[1..], b[1..]);
      assert a == [a[0]] + a[1..] && b == [b[0]] + b[1..];
    }
  }

  /** `OrderBy(x => x.ProductName)`. */
  predicate ByName(x: ProductView, y: ProductView)
  {
    LexLe(x.productName, y.productName)
  }

  lemma ByNameIsOrdering()
    ensures Sequences.Total(ByName) && Sequences.Transitive(ByName)
  {
    forall x: ProductView, y: ProductView
      ensures ByName(x, y) || ByName(y, x)
    {
      LexTotal(x.productName, y.productName);
    }
    forall x: ProductView, y: ProductView, z: ProductView | ByName(x, y) && ByName(y, z)
      ensures ByName(x, z)
    {
      LexTransitive(x.productName, y.productName, z.productName);
    }
  }

  /** The rows skipped: `(Page - 1) * PageSize` in wrapping 32-bit arithmetic. */
  function PageOffset(q: GetProductsView): (skip: Int32)
    ensures INT32_MIN <= (q.page - 1) * q.pageSize <= INT32_MAX ==> skip == (q.page - 1) * q.pageSize
  {
    Wrap32(Wrap32(q.page as int - 1) * q.pageSize)
  }

  /** The mapping of a view row to its DTO. */
  function ToDto(x: ProductView): (d: ProductViewDto)
    ensures d.productId == x.productId && d.productName == x.productName
    ensures d.categoryName == x.categoryName && d.supplierName == x.supplierName
  {
    ProductViewDto(x.productId, x.productName, x.categoryName, x.supplierName)
  }

  /** `results.Select(ToDto)`: one DTO per row, in the same order. */
  function MapToDtos(rows: seq<ProductView>): (r: seq<ProductViewDto>)
    ensures |r| == |rows|
    ensures forall i :: 0 <= i < |rows| ==> r[i] == ToDto(rows[i])
  {
    seq(|rows|, i requires 0 <= i < |rows| => ToDto(rows[i]))
  }

  /** The rows of the page before they are mapped. */
  function PageRows(view: seq<ProductView>, q: GetProductsView): seq<ProductView>
  {
    Sequences.Take(Sequences.Skip(Sequences.SortBy(view, ByName), PageOffset(q)), q.pageSize)
  }

  /** The handler's response. */
  function Handle(view: seq<ProductView>, q: GetProductsView): seq<ProductViewDto>
  {
    MapToDtos(PageRows(view, q))
  }

  /**
   * The response is in product-name order, holds at most `PageSize` entries, and each entry is the
   * DTO of a distinct row of the view.
   */
  lemma HandleProperties(view: seq<ProductView>, q: GetProductsView)
    ensures var rows := PageRows(view, q);
            var r := Handle(view, q);
            |r| <= |view| && (q.pageSize >= 0 ==> |r| <= q.pageSize)
            && multiset(rows) <= multiset(view)
            && (forall i, j :: 0 <= i < j < |r| ==> LexLe(r[i].productName, r[j].productName))
            && (forall i :: 0 <= i < |r| ==> r[i] == ToDto(rows[i]))
  {
    var sorted := Sequences.SortBy(view, ByName);
    ByNameIsOrdering();
    Sequences.SortBySorted(view, ByName);
    Sequences.PageOfSorted(sorted, PageOffset(q), q.pageSize, ByName);
    var rows := PageRows(view, q);
    forall i, j | 0 <= i < j < |rows|
      ensures LexLe(rows[i].productName, rows[j].productName)
    {
      assert ByName(rows[i], rows[j]);
    }
  }

  /**
   * For a valid query whose offset fits in an int, the page is exactly the slice of the sorted
   * view starting at `(Page - 1) * PageSize`.
   */
  lemma ValidPageIsSlice(view: seq<ProductView>, q: GetProductsView)
    requires Validate(q) == [] && (q.page - 1) * q.pageSize <= INT32_MAX
    ensures 0 <= PageOffset(q) == (q.page - 1) * q.pageSize
    ensures var sorted := Sequences.SortBy(view, ByName);
            var from := PageOffset(q);
            from < |sorted| ==> PageRows(view, q) == sorted[from..Min(from + q.pageSize, |sorted|)]
  {
    var from := ValidOffset(q);
    var sorted := Sequences.SortBy(view, ByName);
    if from < |sorted| {
      SliceOfSkipTake(sorted, from, q.pageSize);
      assert PageRows(view, q) == Sequences.Take(Sequences.Skip(sorted, from), q.pageSize);
    }
  }

  lemma SliceOfSkipTake<T>(s: seq<T>, from: int, size: int)
    requires 0 <= from < |s| && 0 <= size
    ensures Sequences.Take(Sequences.Skip(s, from), size) == s[from..Min(from + size, |s|)]
  {
  }

  lemma ValidOffset(q: GetProductsView) returns (from: int)
    requires Validate(q) == [] && (q.page - 1) * q.pageSize <= INT32_MAX
    ensures from == (q.page - 1) * q.pageSize == PageOffset(q) && 0 <= from
  {
    var p: int, n: int := q.page - 1, q.pageSize;
    assert 0 <= p && 1 <= n;
    from := p * n;
    MulNonNegative(p, n);
    assert Wrap32(p) == p;
    WrapInRange(from);
  }

  lemma MulNonNegative(a: int, b: int)
    requires 0 <= a && 0 <= b
    ensures 0 <= a * b
  {
  }

  lemma WrapInRange(x: int)
    requires 0 <= x <= INT32_MAX
    ensures Wrap32(x) == x
  {
  }

  function Min(a: int, b: int): int
  {
    if a <= b then a else b
  }

  /** Walking the pages 1, 2, ... one after the other reads the sorted view from the start. */
  lemma FirstPagesCoverPrefix(view: seq<ProductView>, pageSize: Int32)
    requires 1 <= pageSize && 2 * pageSize <= INT32_MAX
    ensures PageRows(view, GetProductsView(1, pageSize)) + PageRows(view, GetProductsView(2, pageSize))
         == Sequences.Take(Sequences.SortBy(view, ByName), 2 * pageSize)
  {
    var sorted := Sequences.SortBy(view, ByName);
    assert Wrap32(1 - 1) == 0 && Wrap32(2 - 1) == 1;
    assert PageOffset(GetProductsView(1, pageSize)) == 0 by {
      assert Wrap32(0 * pageSize) == 0;
    }
    assert PageOffset(GetProductsView(2, pageSize)) == pageSize by {
      assert Wrap32(1 * pageSize) == pageSize;
    }
    Sequences.ConsecutivePages(sorted, 0, pageSize);
    assert Sequences.Skip(sorted, 0) == sorted;
  }
}
