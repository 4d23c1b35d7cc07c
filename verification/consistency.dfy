/**
 * The invariant tying the two tables together: a product is unavailable exactly when one open
 * loan references it. Scans preserve it as long as the store's writes succeed and the open-loans
 * snapshot is reloaded after each scan.
 */
module Consistency {
  import opened Wrappers
  import opened Text
  import opened Inventory
  import opened LoanList
  import opened Scanning

  /** The number of open loans referencing a product. */
  function OpenCount(loans: seq<Loan>, productId: Id): (n: nat)
    ensures n <= |loans|
    ensures n > 0 <==> exists l :: l in loans && !l.returned && l.productId == productId
    decreases |loans|
  {
    if loans == [] then 0
    else
      assert loans == [loans[0]] + loans[1..];
      (if !loans[0].returned && loans[0].productId == productId then 1 else 0) + OpenCount(loans[1..], productId)
  }

  /** Contribution of a single row to `OpenCount`. */
  function Opens(l: Loan, productId: Id): nat
  {
    if !l.returned && l.productId == productId then 1 else 0
  }

  ghost predicate UniqueProductIds(ps: seq<Product>)
  {
    forall i, j :: 0 <= i < j < |ps| ==> ps[i].id != ps[j].id
  }

  ghost predicate UniqueLoanIds(ls: seq<Loan>)
  {
    forall i, j :: 0 <= i < j < |ls| ==> ls[i].id != ls[j].id
  }

  /** No loan row uses `id` yet: the store hands out fresh ids. */
  ghost predicate LoanIdFree(ls: seq<Loan>, id: Id)
  {
    forall l :: l in ls ==> l.id != id
  }

  /** Every product is unavailable exactly when one open loan references it, and none otherwise. */
  ghost predicate Consistent(st: Store)
  {
    && UniqueProductIds(st.products)
    && UniqueLoanIds(st.loans)
    && forall p :: p in st.products ==> OpenCount(st.loans, p.id) == if p.available then 0 else 1
  }

  /** The open-loans snapshot is what a reload of the current table returns. */
  ghost predicate Synced(d: Dashboard)
  {
    d.loans == LoadLoans(d.store.loans)
  }

  /** Appending a row adds its own contribution to the count. */
  lemma {:induction false} OpenCountAppend(ls: seq<Loan>, x: Loan, productId: Id)
    ensures OpenCount(ls + [x], productId) == OpenCount(ls, productId) + Opens(x, productId)
    decreases |ls|
  {
    if ls != [] {
      assert (ls + [x])[1..] == ls[1..] + [x];
      OpenCountAppend(ls[1..], x, productId);
    }
  }

  /** Replacing one row changes the count by the difference of the two rows' contributions. */
  lemma {:induction false} OpenCountUpdate(ls: seq<Loan>, k: int, y: Loan, productId: Id)
    requires 0 <= k < |ls|
    ensures OpenCount(ls[k := y], productId) == OpenCount(ls, productId) - Opens(ls[k], productId) + Opens(y, productId)
    decreases |ls|
  {
    if k > 0 {
      assert ls[k := y][1..] == ls[1..][k - 1 := y];
      OpenCountUpdate(ls[1..], k - 1, y, productId);
    } else {
      assert ls[k := y][1..] == ls[1..];
    }
  }

  /** With unique loan ids, closing by id changes exactly the one row carrying that id. */
  lemma CloseLoanIsUpdate(ls: seq<Loan>, k: int, now: int)
    requires UniqueLoanIds(ls) && 0 <= k < |ls|
    ensures CloseLoan(ls, ls[k].id, now) == ls[k := ls[k].(returned := true, returnDate := Some(now))]
  {
    var r := CloseLoan(ls, ls[k].id, now);
    forall i | 0 <= i < |ls| && i != k ensures r[i] == ls[i] {
      assert ls[i].id != ls[k].id;
    }
  }

  /** A checkout's writes keep the tables consistent when both succeed. */
  lemma CheckoutKeepsConsistent(st: Store, p: Product, env: Env)
    requires Consistent(st) && p in st.products && p.available
    requires env.loanWriteOk && env.productWriteOk && LoanIdFree(st.loans, env.newLoanId)
    ensures Consistent(CreateLoan(st, NilUser, p.id, env))
  {
    var r := CreateLoan(st, NilUser, p.id, env);
    var nl := OpenLoan(env.newLoanId, NilUser, p.id, env.now);
    forall q | q in r.products ensures OpenCount(r.loans, q.id) == if q.available then 0 else 1 {
      var i :| 0 <= i < |r.products| && r.products[i] == q;
      OpenCountAppend(st.loans, nl, q.id);
      assert st.products[i] in st.products;
    }
    forall i, j | 0 <= i < j < |r.loans| ensures r.loans[i].id != r.loans[j].id {
      if j == |st.loans| {
        assert r.loans[i] in st.loans;
      }
    }
  }

  /** Closing an open loan row and marking its product available keeps the tables consistent when both writes succeed. */
  lemma CloseOpenLoanKeepsConsistent(st: Store, l: Loan, env: Env)
    requires Consistent(st) && l in st.loans && !l.returned
    requires env.loanWriteOk && env.productWriteOk
    ensures Consistent(ReturnLoan(st, l.id, l.productId, env))
  {
    var r := ReturnLoan(st, l.id, l.productId, env);
    var k :| 0 <= k < |st.loans| && st.loans[k] == l;
    var closed := l.(returned := true, returnDate := Some(env.now));
    CloseLoanIsUpdate(st.loans, k, env.now);
    forall q | q in r.products ensures OpenCount(r.loans, q.id) == if q.available then 0 else 1 {
      var i :| 0 <= i < |r.products| && r.products[i] == q;
      OpenCountUpdate(st.loans, k, closed, q.id);
      assert st.products[i] in st.products;
    }
    forall i, j | 0 <= i < j < |r.loans| ensures r.loans[i].id != r.loans[j].id {
      assert r.loans[i].id == st.loans[i].id && r.loans[j].id == st.loans[j].id;
    }
  }

  /** A return's writes keep the tables consistent when both succeed and the loan is an open row for the product. */
  lemma ReturnKeepsConsistent(st: Store, p: Product, l: Loan, env: Env)
    requires Consistent(st) && p in st.products && !p.available
    requires l in st.loans && !l.returned && l.productId == p.id
    requires env.loanWriteOk && env.productWriteOk
    ensures Consistent(ReturnLoan(st, l.id, p.id, env))
  {
    CloseOpenLoanKeepsConsistent(st, l, env);
  }

  /** A product found by the lookup is a row of the table. */
  lemma FoundProductInTable(ps: seq<Product>, code: string, ok: bool)
    requires FindProductByBarcode(ps, code, ok).Some?
    ensures FindProductByBarcode(ps, code, ok).value in ps
  {
    var i :| OnlyWithBarcodeAt(ps, code, i) && ps[i] == FindProductByBarcode(ps, code, ok).value;
  }

  /** With a consistent store and a fresh snapshot, an unavailable product always has its loan listed. */
  lemma SyncedFindsActiveLoan(d: Dashboard, lookupOk: bool)
    requires Consistent(d.store) && Synced(d)
    ensures !Classify(d, lookupOk).NoActiveLoan?
  {
    var o := Classify(d, lookupOk);
    if o.Checkout? || o.Return? || o.NoActiveLoan? {
      FoundProductInTable(d.store.products, Trim(d.scanValue), lookupOk);
      if !o.product.available {
        assert OpenCount(d.store.loans, o.product.id) > 0;
        var l :| l in d.store.loans && !l.returned && l.productId == o.product.id;
        assert l in d.loans;
      }
    }
  }

  /** One scan keeps the tables consistent, provided the snapshot is fresh, the product write succeeds and the new loan id is unused. */
  lemma ExecuteKeepsConsistent(d: Dashboard, env: Env)
    requires Consistent(d.store) && Synced(d)
    requires env.productWriteOk && LoanIdFree(d.store.loans, env.newLoanId)
    ensures Consistent(Execute(d, env).store)
  {
    var o := Classify(d, env.lookupOk);
    if o.Checkout? || o.Return? {
      FoundProductInTable(d.store.products, Trim(d.scanValue), env.lookupOk);
    }
    if o.Checkout? && env.loanWriteOk {
      CheckoutKeepsConsistent(d.store, o.product, env);
    } else if o.Return? && env.loanWriteOk {
      assert o.loan in d.loans;
      ReturnKeepsConsistent(d.store, o.product, o.loan, env);
    }
  }

  /** The per-row return button keeps the tables consistent, provided the snapshot is fresh and the product write succeeds. */
  lemma ReturnListedKeepsConsistent(d: Dashboard, l: Loan, env: Env)
    requires Consistent(d.store) && Synced(d) && l in d.loans
    requires env.productWriteOk
    ensures Consistent(ReturnListed(d, l, env).store)
  {
    if env.loanWriteOk {
      assert l in d.store.loans && !l.returned;
      CloseOpenLoanKeepsConsistent(d.store, l, env);
    }
  }

  /** A scan as the user performs it: type the code, execute, and let the reload finish. */
  datatype Scan = Scan(value: string, env: Env)

  function Step(d: Dashboard, s: Scan): (r: Dashboard)
    ensures Synced(r)
  {
    Refresh(Execute(Input(d, s.value), s.env), true)
  }

  function Run(d: Dashboard, scans: seq<Scan>): Dashboard
    decreases |scans|
  {
    if scans == [] then d else Run(Step(d, scans[0]), scans[1..])
  }

  /** Every scan of the run has a succeeding product write and gets an unused loan id. */
  ghost predicate Admissible(d: Dashboard, scans: seq<Scan>)
    decreases |scans|
  {
    scans == [] ||
    (scans[0].env.productWriteOk && LoanIdFree(d.store.loans, scans[0].env.newLoanId) && Admissible(Step(d, scans[0]), scans[1..]))
  }

  /** After any run of scans every product has at most one open loan, and exactly one when it is unavailable. */
  lemma {:induction false} RunKeepsConsistent(d: Dashboard, scans: seq<Scan>)
    requires Consistent(d.store) && Synced(d) && Admissible(d, scans)
    ensures Consistent(Run(d, scans).store)
    ensures forall p :: p in Run(d, scans).store.products ==> OpenCount(Run(d, scans).store.loans, p.id) <= 1
    decreases |scans|
  {
    if scans != [] {
      ExecuteKeepsConsistent(Input(d, scans[0].value), scans[0].env);
      RunKeepsConsistent(Step(d, scans[0]), scans[1..]);
    }
  }

  /** Writing a product's availability does not change which row the lookup finds, only its flag. */
  lemma FindAfterSetAvailable(ps: seq<Product>, code: string, p: Product, v: bool)
    requires UniqueProductIds(ps) && FindProductByBarcode(ps, code, true) == Some(p)
    ensures FindProductByBarcode(SetAvailable(ps, p.id, v), code, true) == Some(p.(available := v))
  {
    var ps' := SetAvailable(ps, p.id, v);
    var i :| OnlyWithBarcodeAt(ps, code, i) && ps[i] == p;
    assert forall j :: 0 <= j < |ps| ==> ps'[j].barcode == ps[j].barcode;
    assert OnlyWithBarcodeAt(ps', code, i);
    var r := FindProductByBarcode(ps', code, true);
    var i' :| OnlyWithBarcodeAt(ps', code, i') && ps'[i'] == r.value;
    assert i' == i;
  }

  /**
   * Scanning the same product code twice, with the reload in between, alternates: a checkout is
   * followed by a return and a return by a checkout, never two checkouts in a row.
   */
  lemma ScanTwiceAlternates(d: Dashboard, code: string, env1: Env, env2: Env)
    requires Consistent(d.store) && Synced(d)
    requires env1.lookupOk && env1.loanWriteOk && env1.productWriteOk && LoanIdFree(d.store.loans, env1.newLoanId)
    requires env2.lookupOk
    requires Trim(code) != [] && FindProductByBarcode(d.store.products, Trim(code), true).Some?
    ensures Classify(Input(d, code), true).Checkout? || Classify(Input(d, code), true).Return?
    ensures Classify(Input(d, code), true).Checkout? ==>
              && Classify(Input(Step(d, Scan(code, env1)), code), env2.lookupOk).Return?
              && Classify(Input(Step(d, Scan(code, env1)), code), env2.lookupOk).product.id == Classify(Input(d, code), true).product.id
    ensures Classify(Input(d, code), true).Return? ==>
              && Classify(Input(Step(d, Scan(code, env1)), code), env2.lookupOk).Checkout?
              && Classify(Input(Step(d, Scan(code, env1)), code), env2.lookupOk).product.id == Classify(Input(d, code), true).product.id
  {
    var d0 := Input(d, code);
    var o1 := Classify(d0, true);
    SyncedFindsActiveLoan(d0, true);
    var p := o1.product;
    var d1 := Step(d, Scan(code, env1));
    var e := Execute(d0, env1);
    var d2 := Input(d1, code);
    assert Classify(d2, env2.lookupOk) == Classify(d2, true);
    FindAfterSetAvailable(d.store.products, Trim(code), p, !p.available);
    if o1.Checkout? {
      var nl := OpenLoan(env1.newLoanId, NilUser, p.id, env1.now);
      assert nl in e.store.loans;
      assert nl in d2.loans;
    }
  }

  /** The two writes are not atomic: when the product write fails after the loan insert succeeded, consistency is lost. */
  lemma ProductWriteFailureBreaksConsistency()
    ensures
      var d := Dashboard(Store([Product(1, "Drill", "A1", true)], []), [], Newest, "A1", Blank);
      var env := Env(5, 7, true, true, false);
      Consistent(d.store) && Synced(d) && !Consistent(Execute(d, env).store)
  {
    var d := Dashboard(Store([Product(1, "Drill", "A1", true)], []), [], Newest, "A1", Blank);
    var env := Env(5, 7, true, true, false);
    assert Trim("A1") == "A1" by {
      assert !IsWhitespace('A') && !IsWhitespace('1');
    }
    assert OnlyWithBarcodeAt(d.store.products, "A1", 0);
    var r := Execute(d, env);
    assert r.store.products[0] == Product(1, "Drill", "A1", true);
    assert OpenCount(r.store.loans, 1) == 1;
  }
}
