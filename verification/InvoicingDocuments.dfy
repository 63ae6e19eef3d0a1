/** What each operation of src/modules/invoicing/invoicing.service.ts leaves in the books and when it succeeds, said
    without the functions that compute it. */
module InvoicingDocuments {
  import opened Wrappers
  import opened Invoicing

  /** The number of the next document of a type; a range not used before begins at 1. */
  function NextOf(books: Books, t: NcfType): nat { if t in books.sequences then books.sequences[t].current else 1 }

  /** The range of the type is active and has numbers left, and no invoice holds the next one. */
  ghost predicate HasNumber(books: Books, t: NcfType) {
    && (t in books.sequences ==> books.sequences[t].active && books.sequences[t].current <= books.sequences[t].end)
    && forall id :: id in books.invoices ==> books.invoices[id].ncf != Some(Ncf(t, NextOf(books, t)))
  }

  /** Under `id` a document of the type was issued with the next number of its range, and that range went on by one;
      no other invoice and no other range changed. */
  ghost predicate IssuedUnder(books: Books, after: Books, id: nat, doc: Invoice, t: NcfType) {
    && after.invoices.Keys == books.invoices.Keys + {id}
    && after.invoices[id] == doc.(status := ISSUED, ncf := Some(Ncf(t, NextOf(books, t))))
    && (forall j :: j in books.invoices && j != id ==> after.invoices[j] == books.invoices[j])
    && after.sequences.Keys == books.sequences.Keys + {t}
    && after.sequences[t] ==
         (if t in books.sequences then books.sequences[t].(current := books.sequences[t].current + 1)
          else Sequence(1, 2, 500000, true))
    && (forall u :: u in books.sequences && u != t ==> after.sequences[u] == books.sequences[u])
    && after.nextId == if id < books.nextId then books.nextId else id + 1
  }

  /** Issuing succeeds if and only if no step fails and the range has a number, and otherwise changes nothing. */
  lemma IssueExactly(books: Books, id: nat, doc: Invoice, t: NcfType, fault: Fault)
    ensures var (after, r) := Issue(books, id, doc, t, fault);
      && (r.Ok? <==> fault == NoFault && HasNumber(books, t))
      && (if r.Ok? then r.value == id && IssuedUnder(books, after, id, doc, t) else after == books)
  {
    var n := NextOf(books, t);
    if t !in books.sequences || (books.sequences[t].active && books.sequences[t].current <= books.sequences[t].end) {
      assert NextNumber(books, t) == Ok(Ncf(t, n));
      assert NumberUsed(books, Ncf(t, n)) <==> !HasNumber(books, t);
    }
  }

  /** 18 % of an amount to the nearest cent, half up. */
  predicate ItbisOf(tax: int, subtotal: int) { -50 < 100 * tax - 18 * subtotal <= 50 }

  /** A direct emission issues a new invoice of the type asked for, over the amount, the tax given or else 18 % of the
      amount, and the sum of both. */
  lemma EmittedExactly(books: Books, clientExists: bool, t: NcfType, subtotal: int, itbis: Option<int>, fault: Fault)
    ensures var (after, r) := EmittedDirect(books, clientExists, t, subtotal, itbis, fault);
      && (r == Err(NotFound) <==> !clientExists)
      && (r == Err(BadAmount) <==> clientExists && subtotal <= 0)
      && (r.Ok? <==> clientExists && subtotal > 0 && fault == NoFault && HasNumber(books, t))
      && (r.Err? ==> after == books)
      && (r.Ok? ==>
            && r.value == books.nextId && r.value in after.invoices
            && var a := after.invoices[r.value].amounts;
               && a.subtotal == subtotal && a.cdt == 0 && a.isc == 0 && a.grandTotal == subtotal + a.itbis
               && (if itbis.Some? then a.itbis == itbis.value else ItbisOf(a.itbis, subtotal))
               && IssuedUnder(books, after, r.value, Invoice(PENDING_PAYMENT, None, a, None, None), t))
  {
    hide Issue, HasNumber, IssuedUnder;
    if clientExists && subtotal > 0 {
      var doc := Invoice(PENDING_PAYMENT, None, DirectAmounts(subtotal, itbis), None, None);
      IssueExactly(books, books.nextId, doc, t, fault);
      IssueErrors(books, books.nextId, doc, t, fault);
      DocumentOf(books, EmittedDirect(books, clientExists, t, subtotal, itbis, fault).0, books.nextId, doc, t);
    }
  }

  lemma IssueErrors(books: Books, id: nat, doc: Invoice, t: NcfType, fault: Fault)
    ensures Issue(books, id, doc, t, fault).1.Err? ==>
      Issue(books, id, doc, t, fault).1.error in {StepFailed, SequenceInactive, RangeExhausted, DuplicateNumber}
  {
    hide NumberUsed;
  }

  lemma DocumentOf(books: Books, after: Books, id: nat, doc: Invoice, t: NcfType)
    ensures IssuedUnder(books, after, id, doc, t) ==>
      id in after.invoices && after.invoices[id].amounts == doc.amounts
  {}

  /** The type a settlement issues: the one asked for, otherwise the electronic type the invoice had, otherwise E32. */
  function SettledType(asked: Option<NcfType>, before: Option<Ncf>): NcfType {
    if asked.Some? then asked.value
    else if before.Some? && before.value.ncfType in {E31, E32, E33, E34, E44, E45} then before.value.ncfType
    else E32
  }

  /** A settlement issues exactly an open invoice, under its own identifier, with its own amounts and a number of that
      type. */
  lemma SettledExactly(books: Books, id: nat, asked: Option<NcfType>, fault: Fault)
    ensures var (after, r) := Settled(books, id, asked, fault);
      && (r == Err(NotFound) <==> id !in books.invoices)
      && (r == Err(NotOpen) <==>
            id in books.invoices && books.invoices[id].status !in {PENDING_PAYMENT, EN_GRACIA, VENCIDA})
      && (r.Ok? <==>
            && id in books.invoices && books.invoices[id].status in {PENDING_PAYMENT, EN_GRACIA, VENCIDA}
            && fault == NoFault && HasNumber(books, SettledType(asked, books.invoices[id].ncf)))
      && (r.Err? ==> after == books)
      && (r.Ok? ==>
            r.value == id
            && IssuedUnder(books, after, id, books.invoices[id], SettledType(asked, books.invoices[id].ncf)))
  {
    hide Issue, HasNumber, IssuedUnder;
    if id in books.invoices && IsOpen(books.invoices[id].status) {
      var t := SettledType(asked, books.invoices[id].ncf);
      IssueExactly(books, id, books.invoices[id], t, fault);
      IssueErrors(books, id, books.invoices[id], t, fault);
    }
  }

  /** A credit note is issued exactly for an issued invoice that is no credit note and has none, if allowed: a new E34
      with the amounts of the original, which it names together with its number. */
  lemma CreditedExactly(books: Books, id: nat, allowed: bool, fault: Fault)
    ensures var (after, r) := Credited(books, id, allowed, fault);
      && (r.Ok? <==>
            && id in books.invoices && books.invoices[id].status == ISSUED
            && !(books.invoices[id].ncf.Some? && books.invoices[id].ncf.value.ncfType == E34)
            && (forall c :: c in books.invoices ==> books.invoices[c].original != Some(id))
            && allowed && fault == NoFault && HasNumber(books, E34))
      && (r.Err? ==> after == books)
      && (r.Ok? ==>
            r.value == books.nextId
            && IssuedUnder(books, after, r.value,
                           Invoice(ISSUED, None, books.invoices[id].amounts, Some(id), books.invoices[id].ncf), E34))
  {
    hide Issue, HasNumber;
    if id in books.invoices {
      var original := books.invoices[id];
      var note := Invoice(PENDING_PAYMENT, None, original.amounts, Some(id), original.ncf);
      IssueExactly(books, books.nextId, note, E34, fault);
      IssueErrors(books, books.nextId, note, E34, fault);
    }
  }

  /** Which refusal a credit note meets, first to last. */
  lemma CreditRefusals(books: Books, id: nat, allowed: bool, fault: Fault)
    ensures var r := Credited(books, id, allowed, fault).1;
      if id !in books.invoices then r == Err(NotFound)
      else if books.invoices[id].ncf.Some? && books.invoices[id].ncf.value.ncfType == E34 then r == Err(IsCreditNote)
      else if books.invoices[id].status != ISSUED then r == Err(NotIssued)
      else if exists c :: c in books.invoices && books.invoices[c].original == Some(id) then r == Err(AlreadyCredited)
      else if !allowed then r == Err(Forbidden)
      else r.Ok? || r.error in {StepFailed, SequenceInactive, RangeExhausted, DuplicateNumber}
  {
    hide Issue;
    if id in books.invoices {
      var original := books.invoices[id];
      IssueErrors(books, books.nextId, Invoice(PENDING_PAYMENT, None, original.amounts, Some(id), original.ncf), E34,
                  fault);
    }
  }

  /** Voiding leaves exactly an open invoice VOIDED, and nothing else changed. */
  lemma VoidedExactly(books: Books, id: nat)
    ensures var (after, r) := Voided(books, id);
      && (r == Err(NotFound) <==> id !in books.invoices)
      && (r.Ok? <==> id in books.invoices && books.invoices[id].status in {PENDING_PAYMENT, EN_GRACIA, VENCIDA})
      && (r.Err? ==> after == books)
      && (r.Ok? ==>
            r.value == id && after == books.(invoices := books.invoices[id := books.invoices[id].(status := VOIDED)]))
  {}

  /** An edit is accepted exactly when the current number stays inside the range it leads to, and sets the fields given
      and no other. */
  lemma EditedExactly(books: Books, t: NcfType, e: Edit)
    ensures var (after, r) := SequenceEdited(books, t, e);
      && (r == Err(NotFound) <==> t !in books.sequences)
      && (r.Err? ==> after == books)
      && (t in books.sequences ==>
            var s := books.sequences[t];
            var start := if e.start.Some? then e.start.value else s.start;
            var current := if e.current.Some? then e.current.value else s.current;
            var end := if e.end.Some? then e.end.value else s.end;
            && (r.Ok? <==> start <= current <= end)
            && (r.Ok? ==>
                  && r.value.start == start && r.value.current == current && r.value.end == end
                  && r.value.active == (if e.active.Some? then e.active.value else s.active)
                  && after == books.(sequences := books.sequences[t := r.value])))
  {}
}
