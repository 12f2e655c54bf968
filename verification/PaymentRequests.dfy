/** Payment links: creation, views, cancellation and payments, one request handler at a time. */
module PaymentRequests {
  import opened Base
  import opened Slug
  import opened Strings

  /** What the language supplies: lower-casing, and the addition of two numbers. */
  datatype Host = Host(lower: string -> string, add: (real, real) -> real)

  datatype Status = Pending | Partial | Paid | Expired | Cancelled

  datatype Payment = Payment(txSignature: string, amount: real, paidAt: int)

  datatype Request = Request(
    creator: string,
    username: string,
    slug: string,
    amount: real,
    openAmount: bool,
    expiresAt: Option<int>,
    maxPayments: int,
    status: Status,
    payments: seq<Payment>,
    views: nat
  )

  datatype Draft = Draft(
    creator: string,
    username: string,
    title: string,
    amount: real,
    openAmount: bool,
    expiresAt: Option<int>,
    maxPayments: Option<int>
  )

  type Rows = map<string, Request>

  datatype Operation =
    | Create(id: string, draft: Draft)
    | View(id: string, recordView: bool)
    | ViewSlug(username: string, slug: string, recordView: bool)
    | ListByCreator(creator: string, filter: Option<Status>)
    | Cancel(id: string, creator: string)
    | Pay(id: string, txSignature: string, amount: real)

  datatype Reply = Shown(request: Request) | Listed(requests: Rows) | Refused(code: nat)

  datatype Answer = Answer(rows: Rows, reply: Reply)

  // ---- One request ----------------------------------------------------------------------------------

  function TotalPaid(host: Host, payments: seq<Payment>): real {
    if payments == [] then 0.0 else host.add(TotalPaid(host, payments[..|payments| - 1]), payments[|payments| - 1].amount)
  }

  /** resolveStatus: only a pending request expires. */
  function Resolved(r: Request, now: int): Request {
    if r.status.Cancelled? || r.status.Paid? then r
    else if r.expiresAt.Some? && r.expiresAt.value != 0 && now > r.expiresAt.value && r.status.Pending? then
      r.(status := Expired)
    else r
  }

  /** The status a new payment leads to, computed after it was appended. */
  function StatusAfterPayment(host: Host, r: Request): Status {
    var total := TotalPaid(host, r.payments);
    if r.openAmount then
      if |r.payments| >= r.maxPayments then Paid
      else if total > 0.0 then Partial else r.status
    else
      var s := if total >= r.amount then Paid else if total > 0.0 then Partial else r.status;
      if |r.payments| >= r.maxPayments && s != Paid then Paid else s
  }

  function WithPayment(host: Host, r: Request, p: Payment): Request {
    var paid := r.(payments := r.payments + [p]);
    paid.(status := StatusAfterPayment(host, paid))
  }

  function Viewed(r: Request, now: int, recordView: bool): Request {
    var shown := Resolved(r, now);
    if recordView then shown.(views := shown.views + 1) else shown
  }

  function TitleOf(draft: Draft): string {
    if Trim(draft.title) == "" then "Payment link" else Trim(draft.title)
  }

  function NewRequest(host: Host, draft: Draft): Request {
    Request(
      draft.creator,
      draft.username,
      ToSlug(host.lower, TitleOf(draft)),
      if draft.openAmount then 0.0 else draft.amount,
      draft.openAmount,
      if draft.expiresAt == Some(0) then None else draft.expiresAt,
      if draft.maxPayments.None? || draft.maxPayments.value == 0 then 1 else draft.maxPayments.value,
      Pending,
      [],
      0)
  }

  // ---- The table ---------------------------------------------------------------------------------------

  predicate SlugTaken(rows: Rows, username: string, slug: string) {
    exists id | id in rows :: rows[id].username == username && rows[id].slug == slug
  }

  function CreateAnswer(host: Host, rows: Rows, id: string, draft: Draft): Answer {
    if draft.creator == "" || draft.username == "" then Answer(rows, Refused(400))
    else if draft.amount < 0.0 || (!draft.openAmount && draft.amount <= 0.0) then Answer(rows, Refused(400))
    else
      var row := NewRequest(host, draft);
      if SlugTaken(rows, row.username, row.slug) then Answer(rows, Refused(409))
      else if id in rows then Answer(rows, Refused(500))
      else Answer(rows[id := row], Shown(row))
  }

  function ViewAnswer(rows: Rows, id: string, recordView: bool, now: int): Answer {
    if id !in rows then Answer(rows, Refused(404))
    else
      var r := Viewed(rows[id], now, recordView);
      Answer(rows[id := r], Shown(r))
  }

  predicate Matches(r: Request, creator: string, filter: Option<Status>) {
    r.creator == creator && (filter.Some? ==> r.status == filter.value)
  }

  function ListAnswer(rows: Rows, creator: string, filter: Option<Status>, now: int): Answer {
    var found := map id | id in rows && Matches(rows[id], creator, filter) :: Resolved(rows[id], now);
    Answer(rows + found, Listed(found))
  }

  function CancelAnswer(rows: Rows, id: string, creator: string): Answer {
    if id !in rows then Answer(rows, Refused(404))
    else if rows[id].creator != creator then Answer(rows, Refused(403))
    else if !rows[id].status.Pending? && !rows[id].status.Partial? then Answer(rows, Refused(400))
    else
      var r := rows[id].(status := Cancelled);
      Answer(rows[id := r], Shown(r))
  }

  function PayAnswer(host: Host, rows: Rows, id: string, p: Payment, now: int): Answer {
    if id !in rows then Answer(rows, Refused(404))
    else
      var current := Resolved(rows[id], now);
      if current.status.Expired? || current.status.Cancelled? then Answer(rows[id := current], Refused(400))
      else
        var r := WithPayment(host, current, p);
        Answer(rows[id := r], Shown(r))
  }

  /** Lookup through the unique (username, slug) index. */
  ghost function ViewSlugAnswer(rows: Rows, username: string, slug: string, recordView: bool, now: int): Answer {
    if !SlugTaken(rows, username, slug) then Answer(rows, Refused(404))
    else
      var id :| id in rows && rows[id].username == username && rows[id].slug == slug;
      ViewAnswer(rows, id, recordView, now)
  }

  ghost function Step(host: Host, rows: Rows, op: Operation, now: int): Answer {
    match op
    case Create(id, draft) => CreateAnswer(host, rows, id, draft)
    case View(id, recordView) => ViewAnswer(rows, id, recordView, now)
    case ViewSlug(username, slug, recordView) => ViewSlugAnswer(rows, username, slug, recordView, now)
    case ListByCreator(creator, filter) => ListAnswer(rows, creator, filter, now)
    case Cancel(id, creator) => CancelAnswer(rows, id, creator)
    case Pay(id, txSignature, amount) => PayAnswer(host, rows, id, Payment(txSignature, amount, now), now)
  }

  datatype Event = Event(op: Operation, now: int)

  /** The table after a run of handlers. */
  ghost function Run(host: Host, events: seq<Event>): Rows {
    if events == [] then map[]
    else
      var last := events[|events| - 1];
      Step(host, Run(host, events[..|events| - 1]), last.op, last.now).rows
  }

  lemma RunSnoc(host: Host, events: seq<Event>, e: Event)
    ensures Run(host, events + [e]) == Step(host, Run(host, events), e.op, e.now).rows
  {
    assert (events + [e])[..|events|] == events;
  }

  // ---- Invariants of every run -------------------------------------------------------------------------

  predicate Reached(host: Host, r: Request) {
    r.payments != [] && (|r.payments| >= r.maxPayments || (!r.openAmount && TotalPaid(host, r.payments) >= r.amount))
  }

  predicate NonNegativePayments(payments: seq<Payment>) {
    forall i :: 0 <= i < |payments| ==> payments[i].amount >= 0.0
  }

  predicate RowOk(host: Host, r: Request) {
    && IsSlug(r.slug) && NonNegativePayments(r.payments) && TotalPaid(host, r.payments) >= 0.0
    && (!r.openAmount ==> r.amount > 0.0)
    && (r.status.Pending? || r.status.Expired? ==> TotalPaid(host, r.payments) == 0.0)
    && (r.status.Partial? ==>
          && 0.0 < TotalPaid(host, r.payments) && |r.payments| < r.maxPayments
          && (!r.openAmount ==> TotalPaid(host, r.payments) < r.amount))
    && (!r.status.Expired? && !r.status.Cancelled? ==> (r.status.Paid? <==> Reached(host, r)))
  }

  /** What rounding keeps of addition: nothing that is paid makes a total smaller. */
  ghost predicate NeverLoses(host: Host) {
    forall total: real, paid: real :: total >= 0.0 && paid >= 0.0 ==> host.add(total, paid) >= total
  }

  predicate SameLink(a: Request, b: Request) {
    a.username == b.username && a.slug == b.slug
  }

  ghost predicate SlugsUnique(rows: Rows) {
    forall a, b :: a in rows && b in rows && SameLink(rows[a], rows[b]) ==> a == b
  }

  ghost predicate TableOk(host: Host, rows: Rows) {
    SlugsUnique(rows) && forall id :: id in rows ==> RowOk(host, rows[id])
  }

  predicate NonNegative(op: Operation) {
    op.Pay? ==> op.amount >= 0.0
  }

  lemma TotalAfter(host: Host, payments: seq<Payment>, p: Payment)
    ensures TotalPaid(host, payments + [p]) == host.add(TotalPaid(host, payments), p.amount)
  {
    assert (payments + [p])[..|payments|] == payments;
  }

  lemma PaymentKeepsRow(host: Host, r: Request, p: Payment)
    requires NeverLoses(host) && RowOk(host, r) && p.amount >= 0.0 && !r.status.Expired? && !r.status.Cancelled?
    ensures RowOk(host, WithPayment(host, r, p)) && (r.status.Paid? ==> WithPayment(host, r, p).status.Paid?)
    ensures r.status.Partial? ==> !WithPayment(host, r, p).status.Pending?
  {
    TotalAfter(host, r.payments, p);
  }

  lemma ResolvingKeepsRow(host: Host, r: Request, now: int)
    requires RowOk(host, r)
    ensures RowOk(host, Resolved(r, now)) && Evolves(r, Resolved(r, now))
  {
  }

  lemma NewRowOk(host: Host, draft: Draft)
    requires draft.openAmount || draft.amount > 0.0
    ensures RowOk(host, NewRequest(host, draft))
  {
    SlugShape(host.lower, TitleOf(draft));
  }

  // ---- How a request may change --------------------------------------------------------------------------

  predicate StatusMoves(a: Status, b: Status) {
    match a
    case Pending => true
    case Partial => b.Partial? || b.Paid? || b.Cancelled?
    case Paid => b.Paid?
    case Expired => b.Expired?
    case Cancelled => b.Cancelled?
  }

  /** Payments only grow, final states are final, and what the creator fixed stays fixed. */
  predicate Evolves(a: Request, b: Request) {
    && a.payments <= b.payments && a.views <= b.views && StatusMoves(a.status, b.status)
    && (a.status.Expired? || a.status.Cancelled? ==> b.payments == a.payments)
    && b == a.(status := b.status, payments := b.payments, views := b.views)
  }

  lemma EvolvesTransitively(a: Request, b: Request, c: Request)
    requires Evolves(a, b) && Evolves(b, c)
    ensures Evolves(a, c)
  {
  }

  ghost predicate TableEvolves(rows: Rows, later: Rows) {
    forall id :: id in rows ==> id in later && Evolves(rows[id], later[id])
  }

  lemma EvolvesToItself(rows: Rows)
    ensures TableEvolves(rows, rows)
  {
  }

  /** Replacing one row by one it may evolve to keeps the table in order. */
  lemma UpdateKeepsTable(host: Host, rows: Rows, id: string, r: Request)
    requires TableOk(host, rows) && id in rows && RowOk(host, r) && Evolves(rows[id], r)
    ensures TableOk(host, rows[id := r]) && TableEvolves(rows, rows[id := r])
  {
    var after := rows[id := r];
    forall a, b | a in after && b in after && SameLink(after[a], after[b]) ensures a == b {
      assert SameLink(rows[a], rows[b]);
    }
  }

  lemma InsertKeepsTable(host: Host, rows: Rows, id: string, r: Request)
    requires TableOk(host, rows) && id !in rows && RowOk(host, r) && !SlugTaken(rows, r.username, r.slug)
    ensures TableOk(host, rows[id := r]) && TableEvolves(rows, rows[id := r])
  {
    var after := rows[id := r];
    forall a, b | a in after && b in after && SameLink(after[a], after[b]) ensures a == b {
      assert a != id && b != id ==> SameLink(rows[a], rows[b]);
    }
  }

  lemma PaymentEvolves(host: Host, r: Request, p: Payment)
    requires NeverLoses(host) && RowOk(host, r) && p.amount >= 0.0 && !r.status.Expired? && !r.status.Cancelled?
    ensures Evolves(r, WithPayment(host, r, p))
  {
    PaymentKeepsRow(host, r, p);
  }

  lemma PayKeepsTable(host: Host, rows: Rows, id: string, p: Payment, now: int)
    requires NeverLoses(host) && TableOk(host, rows) && p.amount >= 0.0
    ensures var after := PayAnswer(host, rows, id, p, now).rows; TableOk(host, after) && TableEvolves(rows, after)
  {
    if id in rows {
      var current := Resolved(rows[id], now);
      ResolvingKeepsRow(host, rows[id], now);
      if current.status.Expired? || current.status.Cancelled? {
        UpdateKeepsTable(host, rows, id, current);
      } else {
        PaymentKeepsRow(host, current, p);
        PaymentEvolves(host, current, p);
        EvolvesTransitively(rows[id], current, WithPayment(host, current, p));
        UpdateKeepsTable(host, rows, id, WithPayment(host, current, p));
      }
    }
  }

  lemma ViewKeepsTable(host: Host, rows: Rows, id: string, recordView: bool, now: int)
    requires TableOk(host, rows)
    ensures var after := ViewAnswer(rows, id, recordView, now).rows; TableOk(host, after) && TableEvolves(rows, after)
  {
    if id in rows {
      ResolvingKeepsRow(host, rows[id], now);
      UpdateKeepsTable(host, rows, id, Viewed(rows[id], now, recordView));
    }
  }

  lemma CancellingKeepsRow(host: Host, r: Request)
    requires RowOk(host, r) && (r.status.Pending? || r.status.Partial?)
    ensures RowOk(host, r.(status := Cancelled)) && Evolves(r, r.(status := Cancelled))
  {
  }

  lemma CancelKeepsTable(host: Host, rows: Rows, id: string, creator: string)
    requires TableOk(host, rows)
    ensures var after := CancelAnswer(rows, id, creator).rows; TableOk(host, after) && TableEvolves(rows, after)
  {
    EvolvesToItself(rows);
    if id in rows && (rows[id].status.Pending? || rows[id].status.Partial?) {
      CancellingKeepsRow(host, rows[id]);
      UpdateKeepsTable(host, rows, id, rows[id].(status := Cancelled));
    }
  }

  /** Rows that evolved in place, with none added or removed. */
  lemma AdvanceKeepsTable(host: Host, rows: Rows, after: Rows)
    requires TableOk(host, rows) && after.Keys == rows.Keys
    requires forall id :: id in rows ==> RowOk(host, after[id]) && Evolves(rows[id], after[id])
    ensures TableOk(host, after) && TableEvolves(rows, after)
  {
    forall a, b | a in after && b in after && SameLink(after[a], after[b]) ensures a == b {
      assert Evolves(rows[a], after[a]) && Evolves(rows[b], after[b]);
      assert SameLink(rows[a], rows[b]);
    }
  }

  lemma ListKeepsTable(host: Host, rows: Rows, creator: string, filter: Option<Status>, now: int)
    requires TableOk(host, rows)
    ensures var after := ListAnswer(rows, creator, filter, now).rows; TableOk(host, after) && TableEvolves(rows, after)
  {
    var after := ListAnswer(rows, creator, filter, now).rows;
    forall id | id in rows ensures RowOk(host, after[id]) && Evolves(rows[id], after[id]) {
      ResolvingKeepsRow(host, rows[id], now);
    }
    AdvanceKeepsTable(host, rows, after);
  }

  lemma CreateKeepsTable(host: Host, rows: Rows, id: string, draft: Draft)
    requires TableOk(host, rows)
    ensures var after := CreateAnswer(host, rows, id, draft).rows; TableOk(host, after) && TableEvolves(rows, after)
  {
    EvolvesToItself(rows);
    var row := NewRequest(host, draft);
    if CreateAnswer(host, rows, id, draft).reply.Shown? {
      NewRowOk(host, draft);
      InsertKeepsTable(host, rows, id, row);
    }
  }

  /** Every handler keeps the invariant, and moves every request only forward. */
  lemma StepKeepsTable(host: Host, rows: Rows, op: Operation, now: int)
    requires NeverLoses(host) && TableOk(host, rows) && NonNegative(op)
    ensures var after := Step(host, rows, op, now).rows; TableOk(host, after) && TableEvolves(rows, after)
  {
    match op
    case Create(id, draft) => CreateKeepsTable(host, rows, id, draft);
    case View(id, recordView) => ViewKeepsTable(host, rows, id, recordView, now);
    case ViewSlug(username, slug, recordView) =>
      if SlugTaken(rows, username, slug) {
        var id :| id in rows && ViewSlugAnswer(rows, username, slug, recordView, now) == ViewAnswer(rows, id, recordView, now);
        ViewKeepsTable(host, rows, id, recordView, now);
      }
    case ListByCreator(creator, filter) => ListKeepsTable(host, rows, creator, filter, now);
    case Cancel(id, creator) => CancelKeepsTable(host, rows, id, creator);
    case Pay(id, txSignature, amount) => PayKeepsTable(host, rows, id, Payment(txSignature, amount, now), now);
  }

  ghost predicate NonNegativeRun(events: seq<Event>) {
    forall i :: 0 <= i < |events| ==> NonNegative(events[i].op)
  }

  /** After any run of handlers without negative payments: a pending or expired request was paid
      nothing, a partial one something but not enough, and a live one is paid exactly when its
      amount or its number of payments is reached; no two requests share a link. */
  lemma {:induction false} RunKeepsTable(host: Host, events: seq<Event>)
    requires NeverLoses(host) && NonNegativeRun(events)
    ensures TableOk(host, Run(host, events))
  {
    if events != [] {
      var front, last := events[..|events| - 1], events[|events| - 1];
      RunKeepsTable(host, front);
      StepKeepsTable(host, Run(host, front), last.op, last.now);
    }
  }

  lemma TableEvolvesTransitively(a: Rows, b: Rows, c: Rows)
    requires TableEvolves(a, b) && TableEvolves(b, c)
    ensures TableEvolves(a, c)
  {
    forall id | id in a ensures id in c && Evolves(a[id], c[id]) {
      EvolvesTransitively(a[id], b[id], c[id]);
    }
  }

  /** However a run goes on: paid, cancelled and expired are final, payment lists only grow, and those
      of cancelled and expired requests are frozen. */
  lemma {:induction false} RunMovesForward(host: Host, events: seq<Event>, more: seq<Event>)
    requires NeverLoses(host) && NonNegativeRun(events) && NonNegativeRun(more)
    ensures TableEvolves(Run(host, events), Run(host, events + more))
  {
    if more == [] {
      assert events + more == events;
    } else {
      var front, last := more[..|more| - 1], more[|more| - 1];
      RunSnoc(host, events + front, last);
      assert events + more == events + front + [last];
      RunMovesForward(host, events, front);
      RunKeepsTable(host, events + front);
      StepMovesOn(host, Run(host, events), Run(host, events + front), last);
    }
  }

  lemma StepMovesOn(host: Host, start: Rows, rows: Rows, e: Event)
    requires NeverLoses(host) && TableOk(host, rows) && NonNegative(e.op) && TableEvolves(start, rows)
    ensures TableEvolves(start, Step(host, rows, e.op, e.now).rows)
  {
    StepKeepsTable(host, rows, e.op, e.now);
    TableEvolvesTransitively(start, rows, Step(host, rows, e.op, e.now).rows);
  }

  // ---- Payments of any sign ----------------------------------------------------------------------------

  predicate StatusMovesAnyhow(a: Status, b: Status) {
    match a
    case Pending => true
    case Partial => b.Partial? || b.Paid? || b.Cancelled?
    case Paid => b.Partial? || b.Paid? || b.Cancelled?
    case Expired => b.Expired?
    case Cancelled => b.Cancelled?
  }

  /** As Evolves, but a paid request may become partial again. */
  predicate EvolvesAnyhow(a: Request, b: Request) {
    && a.payments <= b.payments && a.views <= b.views && StatusMovesAnyhow(a.status, b.status)
    && (a.status.Expired? || a.status.Cancelled? ==> b.payments == a.payments)
    && b == a.(status := b.status, payments := b.payments, views := b.views)
  }

  lemma EvolvesAnyhowTransitively(a: Request, b: Request, c: Request)
    requires EvolvesAnyhow(a, b) && EvolvesAnyhow(b, c)
    ensures EvolvesAnyhow(a, c)
  {
  }

  ghost predicate TableEvolvesAnyhow(rows: Rows, later: Rows) {
    forall id :: id in rows ==> id in later && EvolvesAnyhow(rows[id], later[id])
  }

  lemma AdvanceAnyhow(rows: Rows, after: Rows)
    requires SlugsUnique(rows) && after.Keys == rows.Keys
    requires forall id :: id in rows ==> EvolvesAnyhow(rows[id], after[id])
    ensures SlugsUnique(after) && TableEvolvesAnyhow(rows, after)
  {
    forall a, b | a in after && b in after && SameLink(after[a], after[b]) ensures a == b {
      assert EvolvesAnyhow(rows[a], after[a]) && EvolvesAnyhow(rows[b], after[b]);
      assert SameLink(rows[a], rows[b]);
    }
  }

  lemma UpdateAnyhow(rows: Rows, id: string, r: Request)
    requires SlugsUnique(rows) && id in rows && EvolvesAnyhow(rows[id], r)
    ensures SlugsUnique(rows[id := r]) && TableEvolvesAnyhow(rows, rows[id := r])
  {
    AdvanceAnyhow(rows, rows[id := r]);
  }

  lemma ViewAnyhow(rows: Rows, id: string, recordView: bool, now: int)
    requires SlugsUnique(rows)
    ensures var after := ViewAnswer(rows, id, recordView, now).rows; SlugsUnique(after) && TableEvolvesAnyhow(rows, after)
  {
    if id in rows { UpdateAnyhow(rows, id, Viewed(rows[id], now, recordView)); }
  }

  lemma PaymentAnyhow(host: Host, r: Request, p: Payment, now: int)
    requires !Resolved(r, now).status.Expired? && !Resolved(r, now).status.Cancelled?
    ensures EvolvesAnyhow(r, WithPayment(host, Resolved(r, now), p))
  {
  }

  lemma PayAnyhow(host: Host, rows: Rows, id: string, p: Payment, now: int)
    requires SlugsUnique(rows)
    ensures var after := PayAnswer(host, rows, id, p, now).rows; SlugsUnique(after) && TableEvolvesAnyhow(rows, after)
  {
    if id in rows {
      var current := Resolved(rows[id], now);
      if current.status.Expired? || current.status.Cancelled? {
        UpdateAnyhow(rows, id, current);
      } else {
        PaymentAnyhow(host, rows[id], p, now);
        UpdateAnyhow(rows, id, WithPayment(host, current, p));
      }
    }
  }

  lemma CancelAnyhow(rows: Rows, id: string, creator: string)
    requires SlugsUnique(rows)
    ensures var after := CancelAnswer(rows, id, creator).rows; SlugsUnique(after) && TableEvolvesAnyhow(rows, after)
  {
    if id in rows && (rows[id].status.Pending? || rows[id].status.Partial?) {
      UpdateAnyhow(rows, id, rows[id].(status := Cancelled));
    }
  }

  lemma InsertAnyhow(rows: Rows, id: string, r: Request)
    requires SlugsUnique(rows) && id !in rows && !SlugTaken(rows, r.username, r.slug)
    ensures SlugsUnique(rows[id := r]) && TableEvolvesAnyhow(rows, rows[id := r])
  {
    var after := rows[id := r];
    forall a, b | a in after && b in after && SameLink(after[a], after[b]) ensures a == b {
      assert a != id && b != id ==> SameLink(rows[a], rows[b]);
    }
  }

  lemma CreateAnyhow(host: Host, rows: Rows, id: string, draft: Draft)
    requires SlugsUnique(rows)
    ensures var after := CreateAnswer(host, rows, id, draft).rows; SlugsUnique(after) && TableEvolvesAnyhow(rows, after)
  {
    if CreateAnswer(host, rows, id, draft).reply.Shown? {
      InsertAnyhow(rows, id, NewRequest(host, draft));
    } else {
      AdvanceAnyhow(rows, rows);
    }
  }

  lemma StepAnyhow(host: Host, rows: Rows, op: Operation, now: int)
    requires SlugsUnique(rows)
    ensures var after := Step(host, rows, op, now).rows; SlugsUnique(after) && TableEvolvesAnyhow(rows, after)
  {
    match op
    case Create(id, draft) => CreateAnyhow(host, rows, id, draft);
    case View(id, recordView) => ViewAnyhow(rows, id, recordView, now);
    case ViewSlug(username, slug, recordView) =>
      if SlugTaken(rows, username, slug) {
        var id :| id in rows && ViewSlugAnswer(rows, username, slug, recordView, now) == ViewAnswer(rows, id, recordView, now);
        ViewAnyhow(rows, id, recordView, now);
      }
    case ListByCreator(creator, filter) => AdvanceAnyhow(rows, ListAnswer(rows, creator, filter, now).rows);
    case Cancel(id, creator) => CancelAnyhow(rows, id, creator);
    case Pay(id, txSignature, amount) => PayAnyhow(host, rows, id, Payment(txSignature, amount, now), now);
  }

  lemma {:induction false} RunIsUnique(host: Host, events: seq<Event>)
    ensures SlugsUnique(Run(host, events))
  {
    if events != [] {
      var front, last := events[..|events| - 1], events[|events| - 1];
      RunIsUnique(host, front);
      StepAnyhow(host, Run(host, front), last.op, last.now);
    }
  }

  lemma EvolvesAnyhowOn(a: Rows, b: Rows, c: Rows)
    requires TableEvolvesAnyhow(a, b) && TableEvolvesAnyhow(b, c)
    ensures TableEvolvesAnyhow(a, c)
  {
    forall id | id in a ensures id in c && EvolvesAnyhow(a[id], c[id]) {
      EvolvesAnyhowTransitively(a[id], b[id], c[id]);
    }
  }

  /** Whatever the signs of the payments: lists only grow, cancelled and expired requests are final
      and frozen, a request once paid in part or in full is never pending or expired again, and
      what the creator fixed stays fixed. */
  lemma {:induction false} RunMovesAnyhow(host: Host, events: seq<Event>, more: seq<Event>)
    ensures TableEvolvesAnyhow(Run(host, events), Run(host, events + more))
  {
    if more == [] {
      assert events + more == events;
    } else {
      var front, last := more[..|more| - 1], more[|more| - 1];
      RunSnoc(host, events + front, last);
      assert events + more == events + front + [last];
      RunMovesAnyhow(host, events, front);
      RunIsUnique(host, events + front);
      StepAnyhow(host, Run(host, events + front), last.op, last.now);
      EvolvesAnyhowOn(Run(host, events), Run(host, events + front), Run(host, events + more));
    }
  }

  // ---- Negative payments ------------------------------------------------------------------------------

  /** The number of payments is reached, nothing is left of the total, or it covers the amount. */
  predicate StaysPaid(r: Request, total: real) {
    |r.payments| + 1 >= r.maxPayments || total <= 0.0 || (!r.openAmount && total >= r.amount)
  }

  /** Exactly when a further payment, of either sign, leaves a paid request paid. */
  lemma PaidSurvivesIff(host: Host, r: Request, p: Payment)
    requires r.status.Paid?
    ensures WithPayment(host, r, p).status.Paid? <==> StaysPaid(r, host.add(TotalPaid(host, r.payments), p.amount))
  {
    TotalAfter(host, r.payments, p);
  }

  lemma PayAlone(host: Host, events: seq<Event>, id: string, row: Request, p: Payment)
    requires Run(host, events) == map[id := row] && row.expiresAt.None? && (row.status.Pending? || row.status.Paid?)
    ensures Run(host, events + [Event(Pay(id, p.txSignature, p.amount), p.paidAt)]) == map[id := WithPayment(host, row, p)]
  {
    RunSnoc(host, events, Event(Pay(id, p.txSignature, p.amount), p.paidAt));
    assert Resolved(row, p.paidAt) == row;
  }

  lemma CreateAlone(host: Host, id: string, draft: Draft)
    requires draft.creator != "" && draft.username != "" && draft.amount > 0.0
    ensures Run(host, [Event(Create(id, draft), 0)]) == map[id := NewRequest(host, draft)]
  {
    RunSnoc(host, [], Event(Create(id, draft), 0));
    assert [] + [Event(Create(id, draft), 0)] == [Event(Create(id, draft), 0)];
  }

  lemma WholeThenRefund(host: Host, row: Request, whole: Payment, refund: Payment)
    requires row.status.Pending? && row.payments == [] && row.amount == 10.0 && !row.openAmount && row.maxPayments == 5
    requires host.add(0.0, whole.amount) == 10.0 && host.add(10.0, refund.amount) == 5.0
    ensures var full := WithPayment(host, row, whole);
      full.status.Paid? && full.expiresAt == row.expiresAt && WithPayment(host, full, refund).status.Partial?
  {
    TotalAfter(host, [], whole);
    TotalAfter(host, [whole], refund);
  }

  /** The event turns a paid request, alone in the table, into a partial one. */
  ghost predicate Reverts(host: Host, id: string, events: seq<Event>, e: Event, before: Request, after: Request) {
    && Run(host, events) == map[id := before] && before.status.Paid?
    && Run(host, events + [e]) == map[id := after] && after.status.Partial?
  }

  lemma RefundReverts(host: Host, id: string, draft: Draft)
    requires host.add(0.0, 10.0) == 10.0 && host.add(10.0, -5.0) == 5.0
    requires draft.creator != "" && draft.username != "" && draft.amount == 10.0 && !draft.openAmount
    requires draft.expiresAt.None? && draft.maxPayments == Some(5)
    ensures exists events, e, before, after :: Reverts(host, id, events, e, before, after)
  {
    var row := NewRequest(host, draft);
    var whole, refund := Payment("s", 10.0, 1), Payment("t", -5.0, 2);
    CreateAlone(host, id, draft);
    WholeThenRefund(host, row, whole, refund);
    hide Run, WithPayment, StatusAfterPayment, TotalPaid, NewRequest;
    var created, paid, refunded := Event(Create(id, draft), 0), Event(Pay(id, "s", 10.0), 1), Event(Pay(id, "t", -5.0), 2);
    PayAlone(host, [created], id, row, whole);
    var full := WithPayment(host, row, whole);
    PayAlone(host, [created] + [paid], id, full, refund);
    assert Reverts(host, id, [created] + [paid], refunded, full, WithPayment(host, full, refund));
  }

  /** The handlers accept a negative amount, and with it a paid request becomes partial. */
  lemma PaidCanRevert(host: Host, id: string)
    requires host.add(0.0, 10.0) == 10.0 && host.add(10.0, -5.0) == 5.0
    ensures exists events, e, before, after :: Reverts(host, id, events, e, before, after)
  {
    RefundReverts(host, id, Draft("c", "u", "t", 10.0, false, None, Some(5)));
  }

  // ---- The routes --------------------------------------------------------------------------------------------

  /** The request table behind the route handlers. */
  class RequestStore {
    const host: Host
    var rows: Rows

    constructor (host: Host)
      ensures rows == map[] && this.host == host
    {
      this.host := host;
      rows := map[];
    }

    method Create(id: string, draft: Draft) returns (reply: Reply)
      modifies this
      ensures Answer(rows, reply) == Step(host, old(rows), Operation.Create(id, draft), 0)
    {
      if draft.creator == "" || draft.username == "" { return Refused(400); }
      if draft.amount < 0.0 { return Refused(400); }
      if !draft.openAmount && draft.amount <= 0.0 { return Refused(400); }
      var row := NewRequest(host, draft);
      if SlugTaken(rows, row.username, row.slug) { return Refused(409); }
      if id in rows { return Refused(500); }
      rows := rows[id := row];
      return Shown(row);
    }

    method ResolveStatus(id: string, now: int)
      requires id in rows
      modifies this
      ensures rows == old(rows)[id := Resolved(old(rows)[id], now)]
    {
      var req := rows[id];
      if req.status.Cancelled? || req.status.Paid? { return; }
      var newStatus := req.status;
      if req.expiresAt.Some? && req.expiresAt.value != 0 && now > req.expiresAt.value && req.status.Pending? {
        newStatus := Expired;
      }
      if newStatus != req.status {
        rows := rows[id := req.(status := newStatus)];
      }
    }

    method Get(id: string, recordView: bool, now: int) returns (reply: Reply)
      modifies this
      ensures Answer(rows, reply) == Step(host, old(rows), View(id, recordView), now)
    {
      if id !in rows { return Refused(404); }
      ResolveStatus(id, now);
      if recordView {
        rows := rows[id := rows[id].(views := rows[id].views + 1)];
      }
      return Shown(rows[id]);
    }

    method GetBySlug(username: string, slug: string, recordView: bool, now: int) returns (reply: Reply)
      requires SlugsUnique(rows)
      modifies this
      ensures Answer(rows, reply) == Step(host, old(rows), ViewSlug(username, slug, recordView), now)
    {
      if !SlugTaken(rows, username, slug) { return Refused(404); }
      var id :| id in rows && rows[id].username == username && rows[id].slug == slug;
      reply := Get(id, recordView, now);
    }

    method ListBy(creator: string, filter: Option<Status>, now: int) returns (reply: Reply)
      modifies this
      ensures Answer(rows, reply) == Step(host, old(rows), ListByCreator(creator, filter), now)
    {
      var found := map id | id in rows && Matches(rows[id], creator, filter) :: Resolved(rows[id], now);
      rows := rows + found;
      return Listed(found);
    }

    method CancelRequest(id: string, creator: string) returns (reply: Reply)
      modifies this
      ensures Answer(rows, reply) == Step(host, old(rows), Cancel(id, creator), 0)
    {
      if id !in rows { return Refused(404); }
      if rows[id].creator != creator { return Refused(403); }
      if rows[id].status != Pending && rows[id].status != Partial { return Refused(400); }
      rows := rows[id := rows[id].(status := Cancelled)];
      return Shown(rows[id]);
    }

    method RecordPayment(id: string, txSignature: string, amount: real, now: int) returns (reply: Reply)
      modifies this
      ensures Answer(rows, reply) == Step(host, old(rows), Pay(id, txSignature, amount), now)
    {
      if id !in rows { return Refused(404); }
      ResolveStatus(id, now);
      if rows[id].status == Expired || rows[id].status == Cancelled { return Refused(400); }
      rows := rows[id := rows[id].(payments := rows[id].payments + [Payment(txSignature, amount, now)])];
      var updated := rows[id];
      var newStatus := StatusOf(host, updated);
      rows := rows[id := updated.(status := newStatus)];
      return Shown(rows[id]);
    }

    static method StatusOf(host: Host, updated: Request) returns (newStatus: Status)
      ensures newStatus == StatusAfterPayment(host, updated)
    {
      var totalPaid := SumPayments(host, updated.payments);
      newStatus := updated.status;
      if updated.openAmount {
        if |updated.payments| >= updated.maxPayments {
          newStatus := Paid;
        } else if totalPaid > 0.0 {
          newStatus := Partial;
        }
      } else {
        if totalPaid >= updated.amount {
          newStatus := Paid;
        } else if totalPaid > 0.0 {
          newStatus := Partial;
        }
        if |updated.payments| >= updated.maxPayments && newStatus != Paid {
          newStatus := Paid;
        }
      }
    }

    static method SumPayments(host: Host, payments: seq<Payment>) returns (total: real)
      ensures total == TotalPaid(host, payments)
    {
      total := 0.0;
      for i := 0 to |payments|
        invariant total == TotalPaid(host, payments[..i])
      {
        total := host.add(total, payments[i].amount);
        assert payments[..i + 1][..i] == payments[..i];
      }
      assert payments[..|payments|] == payments;
    }
  }
}
