/**
 * The dashboard's scan handler (`handleExecute`): a scanned code is trimmed and classified as
 * empty, a product barcode, a user badge or nothing, and a product scan toggles that product
 * between checked out and returned.
 */
module Scanning {
  import opened Wrappers
  import opened Text
  import opened Inventory
  import opened LoanList
  import opened Seqs

  /** The borrower every checkout is recorded for: the nil UUID. */
  const NilUser: string := "00000000-0000-0000-0000-000000000000"

  /** The status line under the scan field. */
  datatype Message = Blank | NoCode | LentOut(name: string) | ReturnedMsg(name: string)
                   | UserScanned(code: string) | NoHit(code: string)

  /** The text each message shows. */
  function MessageText(m: Message): (t: string)
    ensures t == [] <==> m.Blank?
  {
    match m
    case Blank => ""
    case NoCode => "Ingen strekkode oppgitt."
    case LentOut(name) => "Produkt " + name + " utlånt!"
    case ReturnedMsg(name) => "Produkt " + name + " returnert."
    case UserScanned(code) => "Bruker skannet: " + code + " (du kan utvide denne logikken)"
    case NoHit(code) => "Ingen treff for kode: " + code
  }

  /**
   * The dashboard's state: the store itself, the last fetched open-loans snapshot (`loans`),
   * the sort toggle, the scan field and the message.
   */
  datatype Dashboard = Dashboard(store: Store, loans: seq<Loan>, sortOrder: SortOrder,
                                 scanValue: string, message: Message)

  /** What a scan turned out to be, in the order the handler tests for it. */
  datatype Outcome =
    | EmptyCode
    | Checkout(product: Product)
    | Return(product: Product, loan: Loan)
    | NoActiveLoan(product: Product)
    | UserBadge(code: string)
    | NoMatch(code: string)

  /** `code.toUpperCase().startsWith("U")`. */
  predicate IsBadgeCode(code: string)
  {
    StartsWith(Upper(code), "U")
  }

  /** A badge code is one whose first character is `U` or `u`. */
  lemma BadgeCodeFirstChar(code: string)
    ensures IsBadgeCode(code) <==> |code| > 0 && (code[0] == 'U' || code[0] == 'u')
  {
    if |code| > 0 {
      assert Upper(code)[0] == UpperChar(code[0]);
      assert "U" <= Upper(code) <==> Upper(code)[0] == 'U';
    }
  }

  /** `loans.find((l) => l.product_id === product.id)`: the first snapshot entry for the product. */
  function FindLoanFor(loans: seq<Loan>, productId: Id): (r: Option<Loan>)
    ensures r.None? <==> forall l :: l in loans ==> l.productId != productId
    ensures r.Some? ==> exists i :: 0 <= i < |loans| && loans[i] == r.value && r.value.productId == productId
                                    && forall j :: 0 <= j < i ==> loans[j].productId != productId
    decreases |loans|
  {
    if loans == [] then None
    else if loans[0].productId == productId then Some(loans[0])
    else
      var r := FindLoanFor(loans[1..], productId);
      assert loans == [loans[0]] + loans[1..];
      assert forall j :: 0 < j < |loans| ==> loans[j] == loans[1..][j - 1];
      r
  }

  /** Decides what a scan of the current field value is, without changing anything. */
  function Classify(d: Dashboard, lookupOk: bool): (o: Outcome)
    ensures o.EmptyCode? <==> Trim(d.scanValue) == []
    ensures o.Checkout? || o.Return? || o.NoActiveLoan? <==>
              Trim(d.scanValue) != [] && FindProductByBarcode(d.store.products, Trim(d.scanValue), lookupOk).Some?
    ensures o.Checkout? || o.Return? || o.NoActiveLoan? ==>
              FindProductByBarcode(d.store.products, Trim(d.scanValue), lookupOk) == Some(o.product)
    ensures o.Checkout? ==> o.product.available
    ensures o.Return? ==> !o.product.available && FindLoanFor(d.loans, o.product.id) == Some(o.loan)
    ensures o.NoActiveLoan? ==> !o.product.available && forall l :: l in d.loans ==> l.productId != o.product.id
    ensures o.UserBadge? <==> Trim(d.scanValue) != [] && FindProductByBarcode(d.store.products, Trim(d.scanValue), lookupOk).None?
                              && IsBadgeCode(Trim(d.scanValue))
    ensures o.NoMatch? <==> Trim(d.scanValue) != [] && FindProductByBarcode(d.store.products, Trim(d.scanValue), lookupOk).None?
                            && !IsBadgeCode(Trim(d.scanValue))
    ensures o.UserBadge? || o.NoMatch? ==> o.code == Trim(d.scanValue)
  {
    var code := Trim(d.scanValue);
    if code == [] then EmptyCode
    else
      var found := FindProductByBarcode(d.store.products, code, lookupOk);
      if found.Some? then
        var p := found.value;
        if p.available then Checkout(p)
        else
          var active := FindLoanFor(d.loans, p.id);
          if active.Some? then Return(p, active.value) else NoActiveLoan(p)
      else if IsBadgeCode(code) then UserBadge(code)
      else NoMatch(code)
  }

  /** Applies a classified scan: the store writes it causes and the message and field it sets. */
  function Apply(d: Dashboard, o: Outcome, env: Env): (r: Dashboard)
  {
    match o
    case EmptyCode => d.(message := NoCode)
    case Checkout(p) =>
      d.(store := CreateLoan(d.store, NilUser, p.id, env), message := LentOut(p.name), scanValue := "")
    case Return(p, l) =>
      d.(store := ReturnLoan(d.store, l.id, p.id, env), message := ReturnedMsg(p.name), scanValue := "")
    case NoActiveLoan(_) => d.(scanValue := "")
    case UserBadge(code) => d.(message := UserScanned(code), scanValue := "")
    case NoMatch(code) => d.(message := NoHit(code), scanValue := "")
  }

  /**
   * `handleExecute`. The reloads it starts are not awaited, so the snapshot is left as it was;
   * `Refresh` models their completion.
   */
  function Execute(d: Dashboard, env: Env): (r: Dashboard)
    ensures r.loans == d.loans && r.sortOrder == d.sortOrder
    // empty input: a message, no lookup, no write, the field kept
    ensures Trim(d.scanValue) == [] ==> r == d.(message := NoCode)
    // a checkout inserts one open loan for the product, then marks it unavailable
    ensures Classify(d, env.lookupOk).Checkout? ==>
              var p := Classify(d, env.lookupOk).product;
              && r.message == LentOut(p.name) && r.scanValue == ""
              && (env.loanWriteOk ==> r.store.loans == d.store.loans + [OpenLoan(env.newLoanId, NilUser, p.id, env.now)])
              && (env.loanWriteOk && env.productWriteOk ==> r.store.products == SetAvailable(d.store.products, p.id, false))
              && (!env.loanWriteOk || !env.productWriteOk ==> r.store.products == d.store.products)
              && (!env.loanWriteOk ==> r.store == d.store)
    // a return closes the snapshot's loan row, then marks the product available
    ensures Classify(d, env.lookupOk).Return? ==>
              var p := Classify(d, env.lookupOk).product;
              var l := Classify(d, env.lookupOk).loan;
              && r.message == ReturnedMsg(p.name) && r.scanValue == ""
              && (env.loanWriteOk ==> r.store.loans == CloseLoan(d.store.loans, l.id, env.now))
              && (env.loanWriteOk && env.productWriteOk ==> r.store.products == SetAvailable(d.store.products, p.id, true))
              && (!env.loanWriteOk || !env.productWriteOk ==> r.store.products == d.store.products)
              && (!env.loanWriteOk ==> r.store == d.store)
    // an unavailable product without a snapshot loan: no write and no message
    ensures Classify(d, env.lookupOk).NoActiveLoan? ==> r == d.(scanValue := "")
    // no product: a badge or a miss, reported, no write
    ensures Classify(d, env.lookupOk).UserBadge? ==> r == d.(message := UserScanned(Trim(d.scanValue)), scanValue := "")
    ensures Classify(d, env.lookupOk).NoMatch? ==> r == d.(message := NoHit(Trim(d.scanValue)), scanValue := "")
  {
    Apply(d, Classify(d, env.lookupOk), env)
  }

  /** `handleScan`: typing into the field replaces its value and clears the message. */
  function Input(d: Dashboard, value: string): (r: Dashboard)
    ensures r.store == d.store && r.loans == d.loans && r.sortOrder == d.sortOrder
    ensures r.scanValue == value && r.message == Blank
  {
    d.(scanValue := value, message := Blank)
  }

  /** A completed `loadLoans`: on success the snapshot becomes the store's open loans; on error it is kept. */
  function Refresh(d: Dashboard, ok: bool): (r: Dashboard)
    ensures r.store == d.store && r.sortOrder == d.sortOrder && r.scanValue == d.scanValue && r.message == d.message
    ensures ok ==> forall l :: l in r.loans <==> l in d.store.loans && !l.returned
    ensures ok ==> multiset(r.loans) == multiset(Filter(d.store.loans, IsOpen)) && Sorted(Newest, r.loans)
    ensures !ok ==> r == d
  {
    if ok then d.(loans := LoadLoans(d.store.loans)) else d
  }

  /** The per-row "Returner" button: `returnLoan(l.id, l.product_id)` for a listed loan. */
  function ReturnListed(d: Dashboard, l: Loan, env: Env): (r: Dashboard)
    requires l in d.loans
    ensures r.loans == d.loans && r.message == d.message && r.scanValue == d.scanValue && r.sortOrder == d.sortOrder
    ensures env.loanWriteOk ==> r.store.loans == CloseLoan(d.store.loans, l.id, env.now)
    ensures env.loanWriteOk && env.productWriteOk ==> r.store.products == SetAvailable(d.store.products, l.productId, true)
    ensures !env.loanWriteOk || !env.productWriteOk ==> r.store.products == d.store.products
    ensures !env.loanWriteOk ==> r.store == d.store
  {
    d.(store := ReturnLoan(d.store, l.id, l.productId, env))
  }

  /** `sortedLoans`: the snapshot re-sorted in the toggle's direction. */
  function SortedLoans(d: Dashboard): (r: seq<Loan>)
    ensures Sorted(d.sortOrder, r)
    ensures multiset(r) == multiset(d.loans)
  {
    SortLoans(d.loans, d.sortOrder)
  }
}
