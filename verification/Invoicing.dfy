/** Models the fiscal number allocator and the invoice life cycle of
    src/modules/invoicing/invoicing.service.ts. Amounts are whole cents. Sales,
    the XML, the signature and the tax authority only decide whether a step fails. Of an invoice the
    columns of its number, its amounts, its status and the document it reverses are kept. */
module Invoicing {
  import opened Wrappers
  import opened Text

  datatype NcfType = E31 | E32 | E33 | E34 | E44 | E45 | B01 | B02

  datatype Status = PENDING_PAYMENT | EN_GRACIA | VENCIDA | ISSUED | VOIDED

  predicate IsOpen(s: Status) { s == PENDING_PAYMENT || s == EN_GRACIA || s == VENCIDA }

  datatype Ncf = Ncf(ncfType: NcfType, number: nat)

  datatype Amounts = Amounts(subtotal: int, itbis: int, cdt: int, isc: int, grandTotal: int)

  /** `original` and `modified` are filled on credit notes only. */
  datatype Invoice = Invoice(
    status: Status, ncf: Option<Ncf>, amounts: Amounts, original: Option<nat>, modified: Option<Ncf>)

  datatype Sequence = Sequence(start: nat, current: nat, end: int, active: bool)

  /** The invoices and the number sequences, with the next unused invoice id. */
  datatype Books = Books(invoices: map<nat, Invoice>, sequences: map<NcfType, Sequence>, nextId: nat)

  datatype Error =
    | NotFound | BadAmount | SequenceInactive | RangeExhausted | DuplicateNumber
    | NotOpen | NotIssued | IsCreditNote | AlreadyCredited | Forbidden | StepFailed | BadRange

  /** The step at which a transaction is made to fail, if any. */
  datatype Fault = NoFault | SaleFails | SubmissionFails | SaveFails | CommitFails

  // --- The printed number --------------------------------------------------------

  function TypeName(t: NcfType): string {
    match t
    case E31 => "E31" case E32 => "E32" case E33 => "E33" case E34 => "E34"
    case E44 => "E44" case E45 => "E45" case B01 => "B01" case B02 => "B02"
  }

  function NcfText(n: Ncf): string {
    TypeName(n.ncfType) + PadStart(Digits(n.number), if TypeName(n.ncfType)[0] == 'E' then 10 else 8)
  }

  /** A printed number determines its type and its place in the sequence. */
  lemma NcfTextInjective(a: Ncf, b: Ncf)
    requires NcfText(a) == NcfText(b)
    ensures a == b
  {
    assert NcfText(a)[..3] == TypeName(a.ncfType) && NcfText(b)[..3] == TypeName(b.ncfType);
    var width := if TypeName(a.ncfType)[0] == 'E' then 10 else 8;
    assert NcfText(a)[3..] == PadStart(Digits(a.number), width) && NcfText(b)[3..] == PadStart(Digits(b.number), width);
    PaddedInjective(a.number, b.number, width);
  }

  /** A printed number is the three characters of its type and the number, padded with zeros to ten digits for the
      electronic types and to eight for the others. */
  lemma NcfTextShape(n: Ncf)
    ensures var text := NcfText(n);
      && |text| >= 3 && AllDigits(text[3..]) && Value(text[3..]) == n.number
      && text[0] == (if n.ncfType in {B01, B02} then 'B' else 'E')
      && (n.ncfType in {B01, B02} && n.number < 1_0000_0000 ==> |text| == 3 + 8)
      && (n.ncfType !in {B01, B02} && n.number < 100_0000_0000 ==> |text| == 3 + 10)
  {
    var width := if TypeName(n.ncfType)[0] == 'E' then 10 else 8;
    assert NcfText(n)[3..] == PadStart(Digits(n.number), width);
    DigitsValue(n.number);
    PadStartValue(Digits(n.number), width);
    DigitsFit(n.number, width);
    PowersOfTen();
  }

  lemma PowersOfTen()
    ensures Pow10(8) == 1_0000_0000 && Pow10(10) == 100_0000_0000
  {
    assert Pow10(4) == 10 * Pow10(3) == 100 * Pow10(2) == 1000 * Pow10(1) == 10000;
    assert Pow10(8) == 10 * Pow10(7) == 100 * Pow10(6) == 1000 * Pow10(5) == 10000 * Pow10(4);
    assert Pow10(10) == 10 * Pow10(9) == 100 * Pow10(8);
  }

  // --- The operations on the books ----------------------------------------------------

  const DEFAULT_SEQUENCE := Sequence(1, 1, 500000, true)

  function SequenceOf(books: Books, t: NcfType): Sequence {
    if t in books.sequences then books.sequences[t] else DEFAULT_SEQUENCE
  }

  /** The number the next document of a type would get. */
  function NextNumber(books: Books, t: NcfType): Result<Ncf, Error> {
    var s := SequenceOf(books, t);
    if !s.active then Err(SequenceInactive)
    else if s.current > s.end then Err(RangeExhausted)
    else Ok(Ncf(t, s.current))
  }

  function Consumed(books: Books, t: NcfType): Books {
    var s := SequenceOf(books, t);
    books.(sequences := books.sequences[t := s.(current := s.current + 1)])
  }

  ghost predicate NumberUsed(books: Books, n: Ncf) {
    exists id :: id in books.invoices && books.invoices[id].ncf == Some(n)
  }

  /** The outcome of issuing a document that will hold `doc` under `id` once numbered. */
  ghost function Issue(books: Books, id: nat, doc: Invoice, t: NcfType, fault: Fault): (Books, Result<nat, Error>) {
    if fault == SaleFails then (books, Err(StepFailed))
    else
      match NextNumber(books, t)
      case Err(e) => (books, Err(e))
      case Ok(ncf) =>
        if fault == SubmissionFails || fault == SaveFails then (books, Err(StepFailed))
        else if NumberUsed(books, ncf) then (books, Err(DuplicateNumber))
        else if fault == CommitFails then (books, Err(StepFailed))
        else
          var after := Consumed(books, t);
          (after.(invoices := books.invoices[id := doc.(status := ISSUED, ncf := Some(ncf))],
                  nextId := if id < books.nextId then books.nextId else id + 1), Ok(id))
  }

  /** 18 % of an amount in cents, rounded half up. */
  function Itbis(subtotal: nat): nat { (subtotal * 18 + 50) / 100 }

  function DirectAmounts(subtotal: nat, itbis: Option<int>): Amounts {
    var tax := if itbis.Some? then itbis.value else Itbis(subtotal);
    Amounts(subtotal, tax, 0, 0, subtotal + tax)
  }

  ghost function EmittedDirect(books: Books, clientExists: bool, t: NcfType, subtotal: int, itbis: Option<int>,
                               fault: Fault)
    : (Books, Result<nat, Error>)
  {
    if !clientExists then (books, Err(NotFound))
    else if subtotal <= 0 then (books, Err(BadAmount))
    else Issue(books, books.nextId, Invoice(PENDING_PAYMENT, None, DirectAmounts(subtotal, itbis), None, None), t,
               fault)
  }

  ghost function Settled(books: Books, id: nat, t: Option<NcfType>, fault: Fault): (Books, Result<nat, Error>) {
    if id !in books.invoices then (books, Err(NotFound))
    else if !IsOpen(books.invoices[id].status) then (books, Err(NotOpen))
    else
      var previous := books.invoices[id].ncf;
      var chosen := if t.Some? then t.value
                    else if previous.Some? && TypeName(previous.value.ncfType)[0] == 'E' then previous.value.ncfType
                    else E32;
      Issue(books, id, books.invoices[id], chosen, fault)
  }

  ghost predicate HasCreditNote(books: Books, id: nat) {
    exists c :: c in books.invoices && books.invoices[c].original == Some(id)
  }

  ghost function Credited(books: Books, id: nat, allowed: bool, fault: Fault): (Books, Result<nat, Error>) {
    if id !in books.invoices then (books, Err(NotFound))
    else
      var original := books.invoices[id];
      if original.ncf.Some? && original.ncf.value.ncfType == E34 then (books, Err(IsCreditNote))
      else if original.status != ISSUED then (books, Err(NotIssued))
      else if HasCreditNote(books, id) then (books, Err(AlreadyCredited))
      else if !allowed then (books, Err(Forbidden))
      else Issue(books, books.nextId, Invoice(PENDING_PAYMENT, None, original.amounts, Some(id), original.ncf), E34,
                 fault)
  }

  function Voided(books: Books, id: nat): (Books, Result<nat, Error>) {
    if id !in books.invoices then (books, Err(NotFound))
    else if !IsOpen(books.invoices[id].status) then (books, Err(NotOpen))
    else (books.(invoices := books.invoices[id := books.invoices[id].(status := VOIDED)]), Ok(id))
  }

  /** An edit of a sequence: the fields given. All are refused when the bounds they lead to do not hold. */
  datatype Edit = Edit(start: Option<nat>, current: Option<nat>, end: Option<int>, active: Option<bool>)

  function Edited(s: Sequence, e: Edit): Result<Sequence, Error> {
    var start := if e.start.Some? then e.start.value else s.start;
    var current := if e.current.Some? then e.current.value else s.current;
    var end := if e.end.Some? then e.end.value else s.end;
    if start > end || current < start || current > end then Err(BadRange)
    else Ok(Sequence(start, current, end, if e.active.Some? then e.active.value else s.active))
  }

  function SequenceEdited(books: Books, t: NcfType, e: Edit): (Books, Result<Sequence, Error>) {
    if t !in books.sequences then (books, Err(NotFound))
    else
      match Edited(books.sequences[t], e)
      case Err(error) => (books, Err(error))
      case Ok(s) => (books.(sequences := books.sequences[t := s]), Ok(s))
  }

  // --- The service ----------------------------------------------------------------------

  /** A database transaction: its own view of the books until it commits. */
  class Transaction {
    var books: Books

    constructor (books: Books)
      ensures this.books == books
    {
      this.books := books;
    }

    method GetNextNcfSequence(t: NcfType) returns (r: Result<Ncf, Error>)
      modifies this
      ensures r == NextNumber(old(books), t)
      ensures books == if r.Ok? then Consumed(old(books), t)
        else old(books).(sequences := old(books).sequences[t := SequenceOf(old(books), t)])
    {
      if t !in books.sequences {
        books := books.(sequences := books.sequences[t := DEFAULT_SEQUENCE]);
      }
      var sequence := books.sequences[t];
      if !sequence.active { return Err(SequenceInactive); }
      var current := sequence.current;
      if current > sequence.end { return Err(RangeExhausted); }
      var ncf := Ncf(t, current);
      books := books.(sequences := books.sequences[t := sequence.(current := current + 1)]);
      r := Ok(ncf);
    }

    /** Inserts or updates an invoice under the unique index on its number. */
    method SaveInvoice(id: nat, invoice: Invoice) returns (ok: bool)
      requires invoice.ncf.Some?
      modifies this
      ensures ok <==> !NumberUsed(old(books), invoice.ncf.value)
      ensures books == if ok
        then old(books).(invoices := old(books).invoices[id := invoice],
                         nextId := if id < old(books).nextId then old(books).nextId else id + 1)
        else old(books)
    {
      if other :| other in books.invoices && books.invoices[other].ncf == Some(invoice.ncf.value) {
        return false;
      }
      books := books.(invoices := books.invoices[id := invoice],
                      nextId := if id < books.nextId then books.nextId else id + 1);
      ok := true;
    }
  }

  class InvoicingService {
    /** The committed books. */
    var books: Books

    constructor (books: Books)
      ensures this.books == books
    {
      this.books := books;
    }

    /** The part the three issuing operations share: a transaction that numbers, submits and
        saves the document, commits, and is rolled back when any step fails. */
    method IssueInTransaction(id: nat, doc: Invoice, t: NcfType, fault: Fault) returns (r: Result<nat, Error>)
      modifies this
      ensures (books, r) == Issue(old(books), id, doc, t, fault)
    {
      var tx := new Transaction(books);
      if fault == SaleFails { return Err(StepFailed); }
      var next := tx.GetNextNcfSequence(t);
      if next.Err? { return Err(next.error); }
      if fault == SubmissionFails || fault == SaveFails { return Err(StepFailed); }
      var saved := tx.SaveInvoice(id, doc.(status := ISSUED, ncf := Some(next.value)));
      if !saved { return Err(DuplicateNumber); }
      if fault == CommitFails { return Err(StepFailed); }
      books := tx.books;
      r := Ok(id);
    }

    method EmitDirect(clientExists: bool, t: NcfType, subtotal: int, itbisAmount: Option<int>, fault: Fault)
      returns (r: Result<nat, Error>)
      modifies this
      ensures (books, r) == EmittedDirect(old(books), clientExists, t, subtotal, itbisAmount, fault)
    {
      if !clientExists { return Err(NotFound); }
      if subtotal <= 0 { return Err(BadAmount); }
      var itbisTotal := if itbisAmount.Some? then itbisAmount.value else (subtotal * 18 + 50) / 100;
      var amounts := Amounts(subtotal, itbisTotal, 0, 0, subtotal + itbisTotal);
      r := IssueInTransaction(books.nextId, Invoice(PENDING_PAYMENT, None, amounts, None, None), t, fault);
    }

    method SettlePendingInvoice(id: nat, t: Option<NcfType>, fault: Fault) returns (r: Result<nat, Error>)
      modifies this
      ensures (books, r) == Settled(old(books), id, t, fault)
    {
      if id !in books.invoices { return Err(NotFound); }
      var invoice := books.invoices[id];
      if !IsOpen(invoice.status) { return Err(NotOpen); }
      var chosen := E32;
      if t.Some? {
        chosen := t.value;
      } else if invoice.ncf.Some? && TypeName(invoice.ncf.value.ncfType)[0] == 'E' {
        chosen := invoice.ncf.value.ncfType;
      }
      r := IssueInTransaction(id, invoice, chosen, fault);
    }

    /** `allowed` is the outcome of the role, owner and time-window rules. */
    method CreateCreditNote(id: nat, allowed: bool, fault: Fault) returns (r: Result<nat, Error>)
      modifies this
      ensures (books, r) == Credited(old(books), id, allowed, fault)
    {
      if id !in books.invoices { return Err(NotFound); }
      var original := books.invoices[id];
      if original.ncf.Some? && original.ncf.value.ncfType == E34 { return Err(IsCreditNote); }
      if original.status != ISSUED { return Err(NotIssued); }
      if c :| c in books.invoices && books.invoices[c].original == Some(id) {
        return Err(AlreadyCredited);
      }
      if !allowed { return Err(Forbidden); }
      r := IssueInTransaction(books.nextId, Invoice(PENDING_PAYMENT, None, original.amounts, Some(id), original.ncf),
                              E34, fault);
    }

    method VoidInvoice(id: nat) returns (r: Result<nat, Error>)
      modifies this
      ensures (books, r) == Voided(old(books), id)
    {
      if id !in books.invoices { return Err(NotFound); }
      var invoice := books.invoices[id];
      if !IsOpen(invoice.status) { return Err(NotOpen); }
      books := books.(invoices := books.invoices[id := invoice.(status := VOIDED)]);
      r := Ok(id);
    }

    method UpdateSequence(t: NcfType, e: Edit) returns (r: Result<Sequence, Error>)
      modifies this
      ensures (books, r) == SequenceEdited(old(books), t, e)
    {
      if t !in books.sequences { return Err(NotFound); }
      var sequence := books.sequences[t];
      var newStart := if e.start.Some? then e.start.value else sequence.start;
      var newEnd := if e.end.Some? then e.end.value else sequence.end;
      var newCurrent := if e.current.Some? then e.current.value else sequence.current;
      if newStart > newEnd { return Err(BadRange); }
      if newCurrent < newStart || newCurrent > newEnd { return Err(BadRange); }
      if e.current.Some? { sequence := sequence.(current := newCurrent); }
      if e.start.Some? { sequence := sequence.(start := newStart); }
      if e.end.Some? { sequence := sequence.(end := newEnd); }
      if e.active.Some? { sequence := sequence.(active := e.active.value); }
      books := books.(sequences := books.sequences[t := sequence]);
      r := Ok(sequence);
    }
  }

  // --- Runs --------------------------------------------------------------------------------

  /** What can happen to the books. Direct emission and settlement only offer E31, E32, B01 and B02. */
  datatype Event =
    | EmitDirect(clientExists: bool, t: NcfType, subtotal: int, itbis: Option<int>, fault: Fault)
    | Settle(id: nat, chosen: Option<NcfType>, fault: Fault)
    | CreditNote(id: nat, allowed: bool, fault: Fault)
    | Void(id: nat)
    | AddPending(amounts: Amounts)
    | Age(id: nat, status: Status)
    | EditRange(t: NcfType, edit: Edit)
  {
    predicate Offered() {
      match this
      case EmitDirect(_, t, _, _, _) => t in {E31, E32, B01, B02}
      case Settle(_, chosen, _) => chosen.None? || chosen.value in {E31, E32, B01, B02}
      case _ => true
    }
  }

  ghost function Step(books: Books, e: Event): Books {
    match e
    case EmitDirect(c, t, subtotal, itbis, fault) => EmittedDirect(books, c, t, subtotal, itbis, fault).0
    case Settle(id, chosen, fault) => Settled(books, id, chosen, fault).0
    case CreditNote(id, allowed, fault) => Credited(books, id, allowed, fault).0
    case Void(id) => Voided(books, id).0
    case AddPending(amounts) =>
      books.(invoices := books.invoices[books.nextId := Invoice(PENDING_PAYMENT, None, amounts, None, None)],
             nextId := books.nextId + 1)
    case Age(id, status) =>
      if id in books.invoices && IsOpen(books.invoices[id].status) && IsOpen(status)
      then books.(invoices := books.invoices[id := books.invoices[id].(status := status)]) else books
    case EditRange(t, edit) => SequenceEdited(books, t, edit).0
  }

  ghost function Run(books: Books, events: seq<Event>): Books {
    if events == [] then books else Step(Run(books, events[..|events| - 1]), events[|events| - 1])
  }

  // --- What every run keeps ------------------------------------------------------------------

  ghost predicate IssuedAs(books: Books, id: nat, t: NcfType, n: int) {
    id in books.invoices && books.invoices[id].status == ISSUED && books.invoices[id].ncf.Some?
    && books.invoices[id].ncf.value.ncfType == t && books.invoices[id].ncf.value.number == n
  }

  ghost predicate Taken(books: Books, t: NcfType, n: int) { exists id :: IssuedAs(books, id, t, n) }

  /** The issued numbers of a type are exactly those its sequence has handed out. */
  ghost predicate Covered(books: Books, t: NcfType) {
    var s := SequenceOf(books, t);
    && s.start <= s.current
    && (forall n :: Taken(books, t, n) <==> s.start <= n < s.current)
  }

  ghost predicate Numbered(books: Books) {
    && (forall id :: id in books.invoices ==> (books.invoices[id].ncf.Some? <==> books.invoices[id].status == ISSUED))
    && (forall i, j :: i in books.invoices && j in books.invoices && i != j && books.invoices[i].ncf.Some? ==>
          books.invoices[i].ncf != books.invoices[j].ncf)
    && (forall id :: id in books.invoices ==> id < books.nextId)
  }

  /** A credit note reverses an issued invoice that is not itself one, to the cent, and alone. */
  ghost predicate Reversed(books: Books) {
    && (forall id :: id in books.invoices && books.invoices[id].original.Some? ==>
          var o := books.invoices[id].original.value;
          && o in books.invoices && books.invoices[o].status == ISSUED && books.invoices[o].original.None?
          && books.invoices[id].status == ISSUED
          && books.invoices[id].ncf.Some? && books.invoices[id].ncf.value.ncfType == E34
          && books.invoices[id].amounts == books.invoices[o].amounts
          && books.invoices[id].modified == books.invoices[o].ncf)
    && (forall id ::
          id in books.invoices && books.invoices[id].ncf.Some? && books.invoices[id].ncf.value.ncfType == E34 ==>
          books.invoices[id].original.Some?)
    && (forall i, j ::
          i in books.invoices && j in books.invoices && i != j && books.invoices[i].original.Some? ==>
          books.invoices[i].original != books.invoices[j].original)
  }

  ghost predicate Inv(books: Books) {
    Numbered(books) && Reversed(books) && forall t :: Covered(books, t)
  }

  /** What the three issuing operations hand to a transaction. */
  ghost predicate Issuable(books: Books, id: nat, doc: Invoice, t: NcfType) {
    && doc.ncf.None? && id <= books.nextId
    && (id in books.invoices ==> doc == books.invoices[id] && IsOpen(doc.status))
    && (doc.original.None? ==> t != E34)
    && (doc.original.Some? ==>
          && t == E34 && id !in books.invoices && !HasCreditNote(books, doc.original.value)
          && doc.original.value in books.invoices
          && var o := books.invoices[doc.original.value];
             o.status == ISSUED && o.original.None? && doc.amounts == o.amounts && doc.modified == o.ncf)
  }

  lemma NextNumberUnused(books: Books, t: NcfType)
    requires Inv(books) && NextNumber(books, t).Ok?
    ensures !NumberUsed(books, NextNumber(books, t).value)
  {
    var n := NextNumber(books, t).value;
    assert Covered(books, t) && !Taken(books, t, n.number);
    forall id | id in books.invoices ensures books.invoices[id].ncf != Some(n) {
      assert !IssuedAs(books, id, t, n.number);
    }
  }

  /** While the issued numbers match the ranges, the unique index never refuses a number: issuing succeeds if and
      only if the range is active and not exhausted and no step fails. */
  lemma IssueSucceedsExactly(books: Books, id: nat, doc: Invoice, t: NcfType, fault: Fault)
    requires Inv(books)
    ensures Issue(books, id, doc, t, fault).1.Ok? <==> fault == NoFault && NextNumber(books, t).Ok?
  {
    hide Inv, NumberUsed;
    if NextNumber(books, t).Ok? { NextNumberUnused(books, t); }
  }

  lemma IssueKeepsNumbered(books: Books, id: nat, doc: Invoice, t: NcfType, fault: Fault)
    requires Numbered(books) && id <= books.nextId
    ensures Numbered(Issue(books, id, doc, t, fault).0)
  {
    hide SequenceOf;
  }

  lemma IssueKeepsReversed(books: Books, id: nat, doc: Invoice, t: NcfType, fault: Fault)
    requires Inv(books) && Issuable(books, id, doc, t)
    ensures Reversed(Issue(books, id, doc, t, fault).0)
  {
    hide Covered, NumberUsed;
  }

  /** Coverage survives when the sequence and the issued documents of a type stay. */
  lemma CoveredUnchanged(books: Books, after: Books, t: NcfType)
    requires Covered(books, t)
    requires SequenceOf(after, t).start == SequenceOf(books, t).start
    requires SequenceOf(after, t).current == SequenceOf(books, t).current
    requires forall i, n :: IssuedAs(after, i, t, n) <==> IssuedAs(books, i, t, n)
    ensures Covered(after, t)
  {
    hide IssuedAs;
    forall n ensures Taken(after, t, n) <==> Taken(books, t, n) {}
  }

  /** Coverage survives when the next number is handed out to one new issued document. */
  lemma CoveredExtended(books: Books, after: Books, t: NcfType, id: nat)
    requires Covered(books, t)
    requires SequenceOf(after, t).start == SequenceOf(books, t).start
    requires SequenceOf(after, t).current == SequenceOf(books, t).current + 1
    requires forall n :: IssuedAs(after, id, t, n) <==> n == SequenceOf(books, t).current
    requires forall i, n :: i != id ==> (IssuedAs(after, i, t, n) <==> IssuedAs(books, i, t, n))
    requires forall n :: !IssuedAs(books, id, t, n)
    ensures Covered(after, t)
  {
    hide IssuedAs;
    assert IssuedAs(after, id, t, SequenceOf(books, t).current);
    forall n ensures Taken(after, t, n) <==> Taken(books, t, n) || n == SequenceOf(books, t).current {}
  }

  lemma IssueKeepsCovered(books: Books, id: nat, doc: Invoice, t: NcfType, fault: Fault, u: NcfType)
    requires Inv(books) && Issuable(books, id, doc, t)
    ensures Covered(Issue(books, id, doc, t, fault).0, u)
  {
    hide Reversed, NumberUsed;
    var (after, r) := Issue(books, id, doc, t, fault);
    assert Covered(books, u);
    if r.Ok? {
      forall n ensures !IssuedAs(books, id, u, n) {}
      if t == u { CoveredExtended(books, after, t, id); } else { CoveredUnchanged(books, after, u); }
    }
  }

  lemma IssueKeepsInv(books: Books, id: nat, doc: Invoice, t: NcfType, fault: Fault)
    requires Inv(books) && Issuable(books, id, doc, t)
    ensures Inv(Issue(books, id, doc, t, fault).0)
  {
    hide Issue;
    IssueKeepsNumbered(books, id, doc, t, fault);
    IssueKeepsReversed(books, id, doc, t, fault);
    hide Inv, Issuable, Numbered, Reversed, Covered;
    forall u ensures Covered(Issue(books, id, doc, t, fault).0, u) {
      IssueKeepsCovered(books, id, doc, t, fault, u);
    }
    InvParts(Issue(books, id, doc, t, fault).0);
  }

  lemma InvParts(books: Books)
    requires Numbered(books) && Reversed(books) && forall t :: Covered(books, t)
    ensures Inv(books)
  {}

  function Put(books: Books, id: nat, doc: Invoice): Books {
    books.(invoices := books.invoices[id := doc], nextId := if id < books.nextId then books.nextId else id + 1)
  }

  ghost predicate Unissued(books: Books, id: nat, doc: Invoice) {
    && (id in books.invoices ==> books.invoices[id].status != ISSUED)
    && doc.status != ISSUED && doc.ncf.None? && doc.original.None?
  }

  lemma PutKeepsDocuments(books: Books, id: nat, doc: Invoice)
    requires Numbered(books) && Reversed(books) && Unissued(books, id, doc)
    ensures Numbered(Put(books, id, doc)) && Reversed(Put(books, id, doc))
  {}

  /** Replacing an open or absent invoice by an open or voided one issues nothing. */
  lemma UnissuedKeepsInv(books: Books, id: nat, doc: Invoice)
    requires Inv(books) && Unissued(books, id, doc)
    ensures Inv(Put(books, id, doc))
  {
    hide Reversed, Numbered, NumberUsed;
    PutKeepsDocuments(books, id, doc);
    forall t ensures Covered(Put(books, id, doc), t) {
      assert Covered(books, t);
      CoveredUnchanged(books, Put(books, id, doc), t);
    }
  }

  /** An edit of a range that is refused, or keeps the interval handed out, or finds and leaves it empty. */
  predicate Harmless(books: Books, t: NcfType, e: Edit) {
    match SequenceEdited(books, t, e).1
    case Err(error) => true
    case Ok(after) =>
      var s := SequenceOf(books, t);
      (after.start == s.start && after.current == s.current) || (s.start == s.current && after.start == after.current)
  }

  lemma EditKeepsInvExactly(books: Books, t: NcfType, e: Edit)
    requires Inv(books)
    ensures Inv(SequenceEdited(books, t, e).0) <==> Harmless(books, t, e)
  {
    var (after, r) := SequenceEdited(books, t, e);
    if r.Ok? {
      EditKeepsCoverageExactly(books, t, e);
      assert Numbered(after) && Reversed(after) by { hide Covered; }
      hide Numbered, Reversed;
      forall u | u != t ensures Covered(after, u) {
        assert Covered(books, u);
        CoveredUnchanged(books, after, u);
      }
    }
  }

  lemma InvStep(books: Books, e: Event)
    requires Inv(books) && e.Offered() && (e.EditRange? ==> Harmless(books, e.t, e.edit))
    ensures Inv(Step(books, e))
  {
    hide Issue, Covered, Edited;
    assert Numbered(books) && Reversed(books);
    match e
    case EditRange(t, edit) => EditKeepsInvExactly(books, t, edit);
    case EmitDirect(c, t, subtotal, itbis, fault) =>
      if c && subtotal > 0 {
        IssueKeepsInv(books, books.nextId, Invoice(PENDING_PAYMENT, None, DirectAmounts(subtotal, itbis), None, None),
                      t, fault);
      }
    case Settle(id, chosen, fault) =>
      if id in books.invoices && IsOpen(books.invoices[id].status) {
        assert books.invoices[id].ncf.None? && books.invoices[id].original.None?;
        IssueKeepsInv(books, id, books.invoices[id], if chosen.Some? then chosen.value else E32, fault);
      }
    case CreditNote(id, allowed, fault) =>
      if id in books.invoices && books.invoices[id].status == ISSUED && !HasCreditNote(books, id) {
        var o := books.invoices[id];
        if o.ncf.value.ncfType != E34 {
          IssueKeepsInv(books, books.nextId, Invoice(PENDING_PAYMENT, None, o.amounts, Some(id), o.ncf), E34, fault);
        }
      }
    case Void(id) =>
      if id in books.invoices && IsOpen(books.invoices[id].status) {
        UnissuedKeepsInv(books, id, books.invoices[id].(status := VOIDED));
      }
    case AddPending(amounts) =>
      UnissuedKeepsInv(books, books.nextId, Invoice(PENDING_PAYMENT, None, amounts, None, None));
    case Age(id, status) =>
      if id in books.invoices && IsOpen(books.invoices[id].status) && IsOpen(status) {
        UnissuedKeepsInv(books, id, books.invoices[id].(status := status));
      }
  }

  /** Books without documents whose sequences stand at their start. */
  ghost predicate Fresh(books: Books) {
    books.invoices == map[]
    && forall t :: t in books.sequences ==> books.sequences[t].current == books.sequences[t].start
  }

  ghost predicate EditsHarmless(books: Books, events: seq<Event>) {
    forall k :: 0 <= k < |events| && events[k].EditRange? ==>
      Harmless(Run(books, events[..k]), events[k].t, events[k].edit)
  }

  lemma PrefixHarmless(books: Books, events: seq<Event>, n: nat)
    requires n <= |events| && EditsHarmless(books, events)
    ensures EditsHarmless(books, events[..n])
  {
    hide Harmless, Run;
    forall k | 0 <= k < n && events[..n][k].EditRange?
      ensures Harmless(Run(books, events[..n][..k]), events[..n][k].t, events[..n][k].edit)
    {
      assert events[..n][..k] == events[..k] && events[..n][k] == events[k];
    }
  }

  /** Over every run, with any step of any transaction failing and any harmless edits of the ranges, the
      issued numbers of each type are exactly those handed out, each on one invoice, and credit notes stay
      exact reversals. */
  lemma {:induction false} EveryRunKeepsNumbers(books: Books, events: seq<Event>)
    requires Fresh(books) && EditsHarmless(books, events) && forall k :: 0 <= k < |events| ==> events[k].Offered()
    ensures Inv(Run(books, events))
  {
    hide Inv, Step, Harmless;
    if events == [] {
      FreshIsOk(books);
    } else {
      var front, e := events[..|events| - 1], events[|events| - 1];
      PrefixHarmless(books, events, |front|);
      EveryRunKeepsNumbers(books, front);
      assert e.EditRange? ==> Harmless(Run(books, front), e.t, e.edit);
      InvStep(Run(books, front), e);
    }
  }

  lemma FreshIsOk(books: Books)
    requires Fresh(books)
    ensures Inv(books)
  {}

  /** The claim holds all along a run if and only if every edit in it is harmless. */
  lemma NumbersKeptExactly(books: Books, events: seq<Event>)
    requires Fresh(books) && forall k :: 0 <= k < |events| ==> events[k].Offered()
    ensures (forall n: nat :: n <= |events| ==> Inv(Run(books, events[..n]))) <==> EditsHarmless(books, events)
  {
    hide Inv, Step, Harmless, Fresh;
    if EditsHarmless(books, events) {
      forall n: nat | n <= |events| ensures Inv(Run(books, events[..n])) {
        PrefixHarmless(books, events, n);
        EveryRunKeepsNumbers(books, events[..n]);
      }
    }
    if forall n: nat :: n <= |events| ==> Inv(Run(books, events[..n])) {
      forall k | 0 <= k < |events| && events[k].EditRange?
        ensures Harmless(Run(books, events[..k]), events[k].t, events[k].edit)
      {
        var before := Run(books, events[..k]);
        assert events[..k + 1][..k] == events[..k];
        assert Inv(before) && Inv(Run(books, events[..k + 1]));
        StepOfEdit(before, events[k]);
        EditKeepsInvExactly(before, events[k].t, events[k].edit);
      }
    }
  }

  lemma StepOfEdit(books: Books, e: Event)
    requires e.EditRange?
    ensures Step(books, e) == SequenceEdited(books, e.t, e.edit).0
  {}

  ghost predicate Final(s: Status) { s == ISSUED || s == VOIDED }

  lemma FinalStep(books: Books, e: Event, id: nat)
    requires Numbered(books) && id in books.invoices && Final(books.invoices[id].status)
    ensures id in Step(books, e).invoices && Step(books, e).invoices[id] == books.invoices[id]
  {}

  lemma NumberedStep(books: Books, e: Event)
    requires Numbered(books)
    ensures Numbered(Step(books, e))
  {
    hide Issue, Edited;
    match e
    case EmitDirect(c, t, subtotal, itbis, fault) =>
      var amounts := DirectAmounts(if subtotal > 0 then subtotal else 0, itbis);
      IssueKeepsNumbered(books, books.nextId, Invoice(PENDING_PAYMENT, None, amounts, None, None), t, fault);
    case Settle(id, chosen, fault) =>
      if id in books.invoices && IsOpen(books.invoices[id].status) {
        IssueKeepsNumbered(books, id, books.invoices[id], if chosen.Some? then chosen.value else E32, fault);
      }
    case CreditNote(id, allowed, fault) =>
      if id in books.invoices {
        var o := books.invoices[id];
        IssueKeepsNumbered(books, books.nextId, Invoice(PENDING_PAYMENT, None, o.amounts, Some(id), o.ncf), E34, fault);
      }
    case _ =>
  }

  /** An issued or voided invoice is never changed again in any way, whatever happens to the ranges. */
  lemma {:induction false} FinalForever(books: Books, events: seq<Event>, id: nat)
    requires Numbered(books) && id in books.invoices && Final(books.invoices[id].status)
    ensures Numbered(Run(books, events))
    ensures id in Run(books, events).invoices && Run(books, events).invoices[id] == books.invoices[id]
  {
    hide Numbered, Step;
    if events != [] {
      FinalForever(books, events[..|events| - 1], id);
      var before := Run(books, events[..|events| - 1]);
      NumberedStep(before, events[|events| - 1]);
      FinalStep(before, events[|events| - 1], id);
    }
  }

  /** A failed operation leaves the books as they were. */
  lemma FailureChangesNothing(books: Books, c: bool, t: NcfType, subtotal: int, itbis: Option<int>, id: nat,
                              chosen: Option<NcfType>, allowed: bool, fault: Fault)
    ensures EmittedDirect(books, c, t, subtotal, itbis, fault).1.Err? ==>
      EmittedDirect(books, c, t, subtotal, itbis, fault).0 == books
    ensures Settled(books, id, chosen, fault).1.Err? ==> Settled(books, id, chosen, fault).0 == books
    ensures Credited(books, id, allowed, fault).1.Err? ==> Credited(books, id, allowed, fault).0 == books
    ensures fault != NoFault ==>
      EmittedDirect(books, c, t, subtotal, itbis, fault).1.Err? && Settled(books, id, chosen, fault).1.Err?
                                 && Credited(books, id, allowed, fault).1.Err?
  {}

  // --- Counting ---------------------------------------------------------------------------------

  function IssuedOf(books: Books, t: NcfType): set<nat> {
    set id | id in books.invoices && books.invoices[id].status == ISSUED && books.invoices[id].ncf.Some?
             && books.invoices[id].ncf.value.ncfType == t
  }

  function IssuedBelow(books: Books, t: NcfType, top: int): set<nat> {
    set id | id in IssuedOf(books, t) && books.invoices[id].ncf.value.number < top
  }

  /** There are as many issued documents of a type as numbers handed out. */
  lemma IssuedCount(books: Books, t: NcfType)
    requires Inv(books)
    ensures |IssuedOf(books, t)| == SequenceOf(books, t).current - SequenceOf(books, t).start
  {
    var s := SequenceOf(books, t);
    assert Covered(books, t);
    forall id | id in IssuedOf(books, t) ensures id in IssuedBelow(books, t, s.current) {
      assert IssuedAs(books, id, t, books.invoices[id].ncf.value.number);
      assert Taken(books, t, books.invoices[id].ncf.value.number);
    }
    assert IssuedBelow(books, t, s.current) == IssuedOf(books, t);
    CountBelow(books, t, s.current);
  }

  lemma {:induction false} CountBelow(books: Books, t: NcfType, top: nat)
    requires Numbered(books) && Covered(books, t) && SequenceOf(books, t).start <= top <= SequenceOf(books, t).current
    ensures |IssuedBelow(books, t, top)| == top - SequenceOf(books, t).start
    decreases top
  {
    hide Covered, SequenceOf;
    if top == SequenceOf(books, t).start {
      NothingBelowStart(books, t);
    } else {
      var id := OneAt(books, t, top - 1);
      CountBelow(books, t, top - 1);
    }
  }

  lemma NothingBelowStart(books: Books, t: NcfType)
    requires Covered(books, t)
    ensures IssuedBelow(books, t, SequenceOf(books, t).start) == {}
  {
    forall id | id in IssuedOf(books, t) ensures books.invoices[id].ncf.value.number >= SequenceOf(books, t).start {
      assert IssuedAs(books, id, t, books.invoices[id].ncf.value.number);
      assert Taken(books, t, books.invoices[id].ncf.value.number);
    }
  }

  lemma OneAt(books: Books, t: NcfType, n: nat) returns (id: nat)
    requires Numbered(books) && Covered(books, t) && SequenceOf(books, t).start <= n < SequenceOf(books, t).current
    ensures id !in IssuedBelow(books, t, n)
    ensures IssuedBelow(books, t, n + 1) == IssuedBelow(books, t, n) + {id}
  {
    assert Taken(books, t, n);
    id :| IssuedAs(books, id, t, n);
  }

  // --- Editing a range ------------------------------------------------------------------------------

  /** An accepted edit keeps the issued numbers exactly covered if and only if it moves neither
      end of the interval handed out, or that interval is and stays empty. */
  lemma EditKeepsCoverageExactly(books: Books, t: NcfType, e: Edit)
    requires Inv(books) && SequenceEdited(books, t, e).1.Ok?
    ensures var (after, r) := SequenceEdited(books, t, e);
      var s := books.sequences[t];
      Covered(after, t) <==> (r.value.start == s.start && r.value.current == s.current)
                             || (s.start == s.current && r.value.start == r.value.current)
  {
    hide Reversed, Numbered;
    var (after, r) := SequenceEdited(books, t, e);
    var s, s' := books.sequences[t], r.value;
    assert Covered(books, t);
    assert forall i, n :: IssuedAs(after, i, t, n) <==> IssuedAs(books, i, t, n);
    if Covered(after, t) {
      forall n ensures Taken(after, t, n) <==> Taken(books, t, n) { hide IssuedAs, Covered; }
      SameInterval(books, after, t);
    } else {
      if s'.start == s.start && s'.current == s.current { CoveredUnchanged(books, after, t); }
      if s.start == s.current && s'.start == s'.current {
        forall n ensures !Taken(after, t, n) { assert !Taken(books, t, n); }
      }
    }
  }

  /** A range that ran out, its current number one past its end, refuses every edit that moves neither of
      them. A bare activation or deactivation is accepted exactly while numbers are left. */
  lemma ExhaustedRangeIsFrozen(books: Books, t: NcfType, e: Edit, active: bool)
    requires Inv(books) && t in books.sequences
    ensures var s := books.sequences[t];
      s.current > s.end && e.current.None? && e.end.None? ==> SequenceEdited(books, t, e) == (books, Err(BadRange))
    ensures var s := books.sequences[t];
      SequenceEdited(books, t, Edit(None, None, None, Some(active))).1
        == if s.current <= s.end then Ok(s.(active := active)) else Err(BadRange)
  {
    assert Covered(books, t);
  }

  /** Two sequences over the same documents hand out the same interval, unless both are empty. */
  lemma SameInterval(a: Books, b: Books, t: NcfType)
    requires Covered(a, t) && Covered(b, t) && forall n :: Taken(b, t, n) <==> Taken(a, t, n)
    ensures var s, s' := SequenceOf(a, t), SequenceOf(b, t);
      (s.start == s'.start && s.current == s'.current) || (s.start == s.current && s'.start == s'.current)
  {
    hide Taken;
    var s, s' := SequenceOf(a, t), SequenceOf(b, t);
    assert Taken(a, t, s.start) <==> s.start < s.current;
    assert Taken(b, t, s.start) <==> s'.start <= s.start < s'.current;
    assert Taken(b, t, s.current - 1) <==> s'.start <= s.current - 1 < s'.current;
    assert Taken(a, t, s'.start) <==> s.start <= s'.start < s.current;
    assert Taken(a, t, s'.current - 1) <==> s.start <= s'.current - 1 < s.current;
  }

  /** The next number of a type is on an invoice already. */
  ghost predicate Stuck(books: Books, t: NcfType) {
    Numbered(books) && NumberUsed(books, Ncf(t, SequenceOf(books, t).current))
  }

  /** The unique index refuses the number, and the rollback restores it. */
  lemma StuckIssue(books: Books, id: nat, doc: Invoice, t: NcfType, u: NcfType, fault: Fault)
    requires Stuck(books, t)
    ensures var (after, r) := Issue(books, id, doc, u, fault);
      (u == t ==> after == books && r.Err?)
      && SequenceOf(after, t) == SequenceOf(books, t)
      && forall i, n :: i != id ==> (IssuedAs(after, i, t, n) <==> IssuedAs(books, i, t, n))
    ensures u != t && Issue(books, id, doc, u, fault).1.Ok? ==>
      forall n :: !IssuedAs(Issue(books, id, doc, u, fault).0, id, t, n)
  {
    hide Numbered;
  }

  ghost predicate SameOfType(books: Books, after: Books, t: NcfType) {
    SequenceOf(after, t).current == SequenceOf(books, t).current
    && forall i, n :: IssuedAs(after, i, t, n) <==> IssuedAs(books, i, t, n)
  }

  lemma StuckIssueKeeps(books: Books, id: nat, doc: Invoice, t: NcfType, u: NcfType, fault: Fault)
    requires Stuck(books, t) && (id in books.invoices ==> books.invoices[id].status != ISSUED)
    ensures SameOfType(books, Issue(books, id, doc, u, fault).0, t)
  {
    hide NumberUsed, NextNumber, Consumed, SequenceOf;
    StuckIssue(books, id, doc, t, u, fault);
    forall n ensures !IssuedAs(books, id, t, n) {}
  }

  lemma StuckStep(books: Books, e: Event, t: NcfType)
    requires Stuck(books, t) && !(e.EditRange? && e.t == t)
    ensures SameOfType(books, Step(books, e), t)
  {
    hide Issue, Edited, SequenceOf, IssuedAs, NumberUsed, HasCreditNote;
    match e
    case EmitDirect(c, u, subtotal, itbis, fault) =>
      var amounts := DirectAmounts(if subtotal > 0 then subtotal else 0, itbis);
      StuckIssueKeeps(books, books.nextId, Invoice(PENDING_PAYMENT, None, amounts, None, None), t, u, fault);
    case Settle(id, chosen, fault) =>
      if id in books.invoices && IsOpen(books.invoices[id].status) {
        StuckIssueKeeps(books, id, books.invoices[id], t, if chosen.Some? then chosen.value else E32, fault);
      }
    case CreditNote(id, allowed, fault) =>
      if id in books.invoices {
        var o := books.invoices[id];
        StuckIssueKeeps(books, books.nextId, Invoice(PENDING_PAYMENT, None, o.amounts, Some(id), o.ncf), t, E34, fault);
      }
    case _ => QuietStep(books, e, t);
  }

  lemma QuietStep(books: Books, e: Event, t: NcfType)
    requires Numbered(books) && !(e.EditRange? && e.t == t)
    requires !e.EmitDirect? && !e.Settle? && !e.CreditNote?
    ensures SameOfType(books, Step(books, e), t)
  {}

  lemma StuckStays(books: Books, after: Books, t: NcfType)
    requires Stuck(books, t) && Numbered(after) && SameOfType(books, after, t)
    ensures Stuck(after, t)
  {
    hide SequenceOf;
    var n := SequenceOf(books, t).current;
    var id :| id in books.invoices && books.invoices[id].ncf == Some(Ncf(t, n));
    assert IssuedAs(books, id, t, n);
    assert IssuedAs(after, id, t, n);
  }

  /** A range set back to a number in use is lost: until it is edited again, no run ever issues a document of
      that type or moves its current number, and every attempt to issue one fails. */
  lemma {:induction false} RewoundSequenceIsStuck(books: Books, events: seq<Event>, t: NcfType)
    requires Stuck(books, t) && forall k :: 0 <= k < |events| && events[k].EditRange? ==> events[k].t != t
    ensures SameOfType(books, Run(books, events), t) && Stuck(Run(books, events), t)
    ensures forall id, doc, fault :: Issue(Run(books, events), id, doc, t, fault).1.Err?
  {
    hide Stuck, SameOfType, Step, Issue;
    if events != [] {
      var front, e := events[..|events| - 1], events[|events| - 1];
      RewoundSequenceIsStuck(books, front, t);
      var before := Run(books, front);
      StuckStep(before, e, t);
      NumberedNow(before, t);
      NumberedStep(before, e);
      StuckStays(before, Step(before, e), t);
      SameTwice(books, before, Step(before, e), t);
    } else {
      SameTwice(books, books, books, t);
    }
    forall id, doc, fault ensures Issue(Run(books, events), id, doc, t, fault).1.Err? {
      StuckIssue(Run(books, events), id, doc, t, t, fault);
    }
  }

  lemma NumberedNow(books: Books, t: NcfType)
    requires Stuck(books, t)
    ensures Numbered(books)
  {}

  lemma SameTwice(a: Books, b: Books, c: Books, t: NcfType)
    requires a == b || SameOfType(a, b, t)
    requires b == c || SameOfType(b, c, t)
    ensures SameOfType(a, c, t)
  {
    hide SequenceOf, IssuedAs;
  }

  /** Setting a range back below a number handed out does that, from any reachable books. */
  lemma RewindingSticks(books: Books, t: NcfType, e: Edit)
    requires Inv(books) && SequenceEdited(books, t, e).1.Ok?
    ensures Stuck(SequenceEdited(books, t, e).0, t) <==>
      books.sequences[t].start <= SequenceEdited(books, t, e).1.value.current < books.sequences[t].current
  {
    hide Reversed;
    var (after, r) := SequenceEdited(books, t, e);
    assert Covered(books, t);
    var n := r.value.current;
    assert Taken(books, t, n) <==> books.sequences[t].start <= n < books.sequences[t].current;
    if Taken(books, t, n) {
      var id :| IssuedAs(books, id, t, n);
      assert after.invoices[id].ncf == Some(Ncf(t, n));
    }
    if NumberUsed(after, Ncf(t, n)) {
      var id :| id in after.invoices && after.invoices[id].ncf == Some(Ncf(t, n));
      assert IssuedAs(books, id, t, n);
    }
  }
}
