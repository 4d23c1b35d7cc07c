/**
 * The two store tables behind the dashboard (`products` and `loans`) and the store calls the
 * dashboard makes on them: the barcode lookup and the paired writes of a checkout and a return.
 * The hosted store is modelled as in-memory sequences; each call's success is an input.
 */
module Inventory {
  import opened Wrappers

  type Id = nat

  /** A row of `products`. */
  datatype Product = Product(id: Id, name: string, barcode: string, available: bool)

  /** A row of `loans`; `returnDate` is `None` while the loan is open. */
  datatype Loan = Loan(id: Id, userId: string, productId: Id, loanDate: int, returnDate: Option<int>, returned: bool)

  /** The contents of the two tables. */
  datatype Store = Store(products: seq<Product>, loans: seq<Loan>)

  /**
   * What one scan takes from outside the model: the clock, the id the store gives a new loan row,
   * and whether the lookup, the loan write and the product write each succeeded.
   */
  datatype Env = Env(now: int, newLoanId: Id, lookupOk: bool, loanWriteOk: bool, productWriteOk: bool)

  /** How many rows a barcode query returns: none, exactly one (with its row), or more. */
  datatype Hits = NoHits | OneHit(product: Product) | ManyHits

  /** Row `i` is the one and only product carrying `code`. */
  ghost predicate OnlyWithBarcodeAt(ps: seq<Product>, code: string, i: int)
  {
    0 <= i < |ps| && ps[i].barcode == code && forall j :: 0 <= j < |ps| && ps[j].barcode == code ==> j == i
  }

  /** Classifies the rows matching `.eq("barcode", code)` by their number. */
  function BarcodeHits(ps: seq<Product>, code: string): (h: Hits)
    ensures h.NoHits? <==> forall i :: 0 <= i < |ps| ==> ps[i].barcode != code
    ensures h.OneHit? <==> exists i :: OnlyWithBarcodeAt(ps, code, i)
    ensures h.OneHit? ==> exists i :: OnlyWithBarcodeAt(ps, code, i) && ps[i] == h.product
    decreases |ps|
  {
    if ps == [] then NoHits
    else
      var rest := BarcodeHits(ps[1..], code);
      assert forall i :: 0 < i < |ps| ==> ps[i] == ps[1..][i - 1];
      assert forall i :: 0 <= i < |ps| - 1 ==> ps[1..][i] == ps[i + 1];
      if ps[0].barcode == code then
        if rest.NoHits? then
          assert OnlyWithBarcodeAt(ps, code, 0);
          OneHit(ps[0])
        else
          var k :| 0 <= k < |ps| - 1 && ps[1..][k].barcode == code;
          assert forall i :: OnlyWithBarcodeAt(ps, code, i) ==> i == 0 && i == k + 1;
          ManyHits
      else
        assert forall i :: OnlyWithBarcodeAt(ps, code, i) ==> OnlyWithBarcodeAt(ps[1..], code, i - 1);
        assert forall i :: OnlyWithBarcodeAt(ps[1..], code, i) ==> OnlyWithBarcodeAt(ps, code, i + 1);
        rest
  }

  /**
   * `findProductByBarcode`: `.eq("barcode", code).single()`. The query errors unless exactly one
   * row matches, and an error (as well as an unreachable store) yields no product.
   */
  function FindProductByBarcode(ps: seq<Product>, code: string, reachable: bool): (r: Option<Product>)
    ensures r.Some? <==> reachable && exists i :: OnlyWithBarcodeAt(ps, code, i)
    ensures r.Some? ==> exists i :: OnlyWithBarcodeAt(ps, code, i) && ps[i] == r.value
  {
    if !reachable then None
    else
      match BarcodeHits(ps, code)
      case OneHit(p) => Some(p)
      case _ => None
  }

  /** `.update({ available: v }).eq("id", productId)` on `products`. */
  function SetAvailable(ps: seq<Product>, productId: Id, v: bool): (r: seq<Product>)
    ensures |r| == |ps|
    ensures forall i :: 0 <= i < |ps| && ps[i].id != productId ==> r[i] == ps[i]
    ensures forall i :: 0 <= i < |ps| && ps[i].id == productId ==> r[i] == ps[i].(available := v)
  {
    seq(|ps|, i requires 0 <= i < |ps| => if ps[i].id == productId then ps[i].(available := v) else ps[i])
  }

  /** `.update({ returned: true, return_date: now }).eq("id", loanId)` on `loans`. */
  function CloseLoan(ls: seq<Loan>, loanId: Id, now: int): (r: seq<Loan>)
    ensures |r| == |ls|
    ensures forall i :: 0 <= i < |ls| && ls[i].id != loanId ==> r[i] == ls[i]
    ensures forall i :: 0 <= i < |ls| && ls[i].id == loanId ==> r[i] == ls[i].(returned := true, returnDate := Some(now))
  {
    seq(|ls|, i requires 0 <= i < |ls| =>
      if ls[i].id == loanId then ls[i].(returned := true, returnDate := Some(now)) else ls[i])
  }

  /** The open loan row a checkout inserts. */
  function OpenLoan(id: Id, userId: string, productId: Id, now: int): (l: Loan)
    ensures !l.returned && l.returnDate.None? && l.productId == productId && l.loanDate == now
  {
    Loan(id, userId, productId, now, None, false)
  }

  /**
   * `createLoan`: insert an open loan; only if the insert succeeded, mark the product unavailable.
   * The product write's own failure is not checked.
   */
  function CreateLoan(st: Store, userId: string, productId: Id, env: Env): (r: Store)
    ensures !env.loanWriteOk ==> r == st
    ensures env.loanWriteOk ==> r.loans == st.loans + [OpenLoan(env.newLoanId, userId, productId, env.now)]
    ensures env.loanWriteOk && env.productWriteOk ==> r.products == SetAvailable(st.products, productId, false)
    ensures !env.productWriteOk ==> r.products == st.products
  {
    if !env.loanWriteOk then st
    else
      var loans := st.loans + [OpenLoan(env.newLoanId, userId, productId, env.now)];
      var products := if env.productWriteOk then SetAvailable(st.products, productId, false) else st.products;
      Store(products, loans)
  }

  /**
   * `returnLoan`: close the loan row; only if that update succeeded, mark the product available.
   * The product write's own failure is not checked.
   */
  function ReturnLoan(st: Store, loanId: Id, productId: Id, env: Env): (r: Store)
    ensures !env.loanWriteOk ==> r == st
    ensures env.loanWriteOk ==> r.loans == CloseLoan(st.loans, loanId, env.now)
    ensures env.loanWriteOk && env.productWriteOk ==> r.products == SetAvailable(st.products, productId, true)
    ensures !env.productWriteOk ==> r.products == st.products
  {
    if !env.loanWriteOk then st
    else
      var loans := CloseLoan(st.loans, loanId, env.now);
      var products := if env.productWriteOk then SetAvailable(st.products, productId, true) else st.products;
      Store(products, loans)
  }
}
