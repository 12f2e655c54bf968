/** What a run of the request handlers did to each request, told by the events alone. */
module RequestHistory {
  import opened Base
  import opened PaymentRequests
  import opened Slug
  import opened Strings

  // ---- When a handler concerns a request --------------------------------------------------------------

  /** A handler that resolves the status of the request. */
  predicate Touches(r: Request, id: string, op: Operation) {
    match op
    case View(i, _) => i == id
    case ViewSlug(username, slug, _) => r.username == username && r.slug == slug
    case ListByCreator(creator, filter) => r.creator == creator && (filter.None? || filter.value == r.status)
    case Pay(i, _, _) => i == id
    case _ => false
  }

  predicate CountsView(r: Request, id: string, op: Operation) {
    match op
    case View(i, recordView) => i == id && recordView
    case ViewSlug(username, slug, recordView) => r.username == username && r.slug == slug && recordView
    case _ => false
  }

  /** Pending, and past its expiry. */
  predicate Lapsed(r: Request, now: int) {
    r.status.Pending? && r.expiresAt.Some? && r.expiresAt.value != 0 && now > r.expiresAt.value
  }

  predicate Accepts(r: Request, now: int) {
    !r.status.Cancelled? && !r.status.Expired? && !Lapsed(r, now)
  }

  predicate Cancels(r: Request, id: string, op: Operation) {
    op == Operation.Cancel(id, r.creator) && (r.status.Pending? || r.status.Partial?)
  }

  /** Whether the draft can become the request `id`. */
  predicate Creates(host: Host, rows: Rows, id: string, draft: Draft) {
    && draft.creator != "" && draft.username != ""
    && draft.amount >= 0.0 && (draft.openAmount || draft.amount > 0.0)
    && id !in rows && !LinkTaken(host, rows, draft)
  }

  function Title(draft: Draft): string {
    if Trim(draft.title) == "" then "Payment link" else Trim(draft.title)
  }

  predicate LinkTaken(host: Host, rows: Rows, draft: Draft) {
    exists i | i in rows :: rows[i].username == draft.username && rows[i].slug == ToSlug(host.lower, Title(draft))
  }

  /** The request a draft becomes: nothing paid, nobody has looked. */
  predicate MadeFrom(host: Host, r: Request, draft: Draft) {
    && r.creator == draft.creator && r.username == draft.username && r.slug == ToSlug(host.lower, Title(draft))
    && r.openAmount == draft.openAmount && r.amount == (if draft.openAmount then 0.0 else draft.amount)
    && r.expiresAt == (if draft.expiresAt == Some(0) then None else draft.expiresAt)
    && r.maxPayments == (match draft.maxPayments case None => 1 case Some(n) => if n == 0 then 1 else n)
  }

  // ---- One handler ------------------------------------------------------------------------------------------

  /** What a handler does to a request: who created it and for what stays; an accepted payment is
      appended, a counted view counted, and it ends only as said. */
  predicate RowMoves(before: Request, after: Request, id: string, e: Event) {
    && after == before.(status := after.status, payments := after.payments, views := after.views)
    && after.payments == (if e.op.Pay? && e.op.id == id && Accepts(before, e.now)
                          then before.payments + [Payment(e.op.txSignature, e.op.amount, e.now)] else before.payments)
    && after.views == before.views + (if CountsView(before, id, e.op) then 1 else 0)
    && (after.status.Cancelled? <==> before.status.Cancelled? || Cancels(before, id, e.op))
    && (after.status.Expired? <==> before.status.Expired? || (Touches(before, id, e.op) && Lapsed(before, e.now)))
  }

  lemma PayMoves(host: Host, rows: Rows, e: Event, id: string)
    requires e.op.Pay? && id in rows
    ensures var after := Step(host, rows, e.op, e.now).rows; id in after && RowMoves(rows[id], after[id], id, e)
  {
    if e.op.id == id && Accepts(rows[id], e.now) {
      PaymentLeaves(host, Resolved(rows[id], e.now), Payment(e.op.txSignature, e.op.amount, e.now));
    }
  }

  lemma PaymentLeaves(host: Host, r: Request, p: Payment)
    requires !r.status.Cancelled? && !r.status.Expired?
    ensures var after := WithPayment(host, r, p);
      && after == r.(status := after.status, payments := r.payments + [p])
      && !after.status.Cancelled? && !after.status.Expired?
  {
  }

  lemma ViewMoves(host: Host, rows: Rows, e: Event, id: string)
    requires e.op.View? && id in rows
    ensures var after := Step(host, rows, e.op, e.now).rows; id in after && RowMoves(rows[id], after[id], id, e)
  {
  }

  lemma ViewSlugMoves(host: Host, rows: Rows, e: Event, id: string)
    requires e.op.ViewSlug? && SlugsUnique(rows) && id in rows
    ensures var after := Step(host, rows, e.op, e.now).rows; id in after && RowMoves(rows[id], after[id], id, e)
  {
    if SlugTaken(rows, e.op.username, e.op.slug) {
      var i :| i in rows && rows[i].username == e.op.username && rows[i].slug == e.op.slug
        && ViewSlugAnswer(rows, e.op.username, e.op.slug, e.op.recordView, e.now) == ViewAnswer(rows, i, e.op.recordView, e.now);
      assert i != id ==> !SameLink(rows[i], rows[id]);
    }
  }

  lemma ListMoves(host: Host, rows: Rows, e: Event, id: string)
    requires e.op.ListByCreator? && id in rows
    ensures var after := Step(host, rows, e.op, e.now).rows; id in after && RowMoves(rows[id], after[id], id, e)
  {
  }

  lemma CreateMoves(host: Host, rows: Rows, e: Event, id: string)
    requires e.op.Create? && id in rows
    ensures var after := Step(host, rows, e.op, e.now).rows; id in after && RowMoves(rows[id], after[id], id, e)
  {
  }

  lemma CancelMoves(host: Host, rows: Rows, e: Event, id: string)
    requires e.op.Cancel? && id in rows
    ensures var after := Step(host, rows, e.op, e.now).rows; id in after && RowMoves(rows[id], after[id], id, e)
  {
  }

  /** What any handler does to a request there is. */
  lemma StepRow(host: Host, rows: Rows, e: Event, id: string)
    requires SlugsUnique(rows) && id in rows
    ensures var after := Step(host, rows, e.op, e.now).rows; id in after && RowMoves(rows[id], after[id], id, e)
  {
    hide Step, RowMoves, SlugsUnique;
    match e.op
    case Pay(_, _, _) => PayMoves(host, rows, e, id);
    case View(_, _) => ViewMoves(host, rows, e, id);
    case ViewSlug(_, _, _) => ViewSlugMoves(host, rows, e, id);
    case ListByCreator(_, _) => ListMoves(host, rows, e, id);
    case Create(_, _) => CreateMoves(host, rows, e, id);
    case Cancel(_, _) => CancelMoves(host, rows, e, id);
  }

  /** When a handler makes a request, and which. */
  lemma StepNew(host: Host, rows: Rows, e: Event, id: string)
    requires id !in rows
    ensures var after := Step(host, rows, e.op, e.now).rows;
      && (id in after <==> e.op.Create? && e.op.id == id && Creates(host, rows, id, e.op.draft))
      && (id in after ==> MadeFrom(host, after[id], e.op.draft) && after[id].status.Pending?
                          && after[id].payments == [] && after[id].views == 0)
  {
    if e.op.Create? {
      var row := NewRequest(host, e.op.draft);
      assert SlugTaken(rows, row.username, row.slug) <==> LinkTaken(host, rows, e.op.draft);
    } else if e.op.ViewSlug? && SlugTaken(rows, e.op.username, e.op.slug) {
      var i :| i in rows
        && ViewSlugAnswer(rows, e.op.username, e.op.slug, e.op.recordView, e.now) == ViewAnswer(rows, i, e.op.recordView, e.now);
    }
  }

  /** What the handlers that can refuse answer. A refusal leaves the table as it is, but for a
      payment that finds its request lapsed. */
  lemma Refusals(host: Host, rows: Rows, e: Event)
    ensures var answer := Step(host, rows, e.op, e.now);
      match e.op
      case Create(id, draft) =>
        if draft.creator == "" || draft.username == "" || draft.amount < 0.0 || (!draft.openAmount && draft.amount <= 0.0)
        then answer == Answer(rows, Refused(400))
        else if LinkTaken(host, rows, draft) then answer == Answer(rows, Refused(409))
        else if id in rows then answer == Answer(rows, Refused(500))
        else id in answer.rows && answer.reply == Shown(answer.rows[id])
      case View(id, _) =>
        if id !in rows then answer == Answer(rows, Refused(404)) else id in answer.rows && answer.reply == Shown(answer.rows[id])
      case Cancel(id, creator) =>
        if id !in rows then answer == Answer(rows, Refused(404))
        else if creator != rows[id].creator then answer == Answer(rows, Refused(403))
        else if !rows[id].status.Pending? && !rows[id].status.Partial? then answer == Answer(rows, Refused(400))
        else id in answer.rows && answer.reply == Shown(answer.rows[id])
      case Pay(id, _, _) =>
        if id !in rows then answer == Answer(rows, Refused(404))
        else id in answer.rows && answer.reply == if Accepts(rows[id], e.now) then Shown(answer.rows[id]) else Refused(400)
      case ListByCreator(creator, filter) =>
        && answer.reply.Listed?
        && (forall id :: id in answer.reply.requests <==>
              id in rows && rows[id].creator == creator && (filter.None? || filter.value == rows[id].status))
        && (forall id :: id in answer.reply.requests ==> id in answer.rows && answer.reply.requests[id] == answer.rows[id])
      case ViewSlug(username, slug, _) =>
        if forall id :: id in rows ==> rows[id].username != username || rows[id].slug != slug
        then answer == Answer(rows, Refused(404))
        else exists id :: id in rows && rows[id].username == username && rows[id].slug == slug
                          && id in answer.rows && answer.reply == Shown(answer.rows[id])
  {
    match e.op
    case Create(id, draft) =>
      var row := NewRequest(host, draft);
      assert SlugTaken(rows, row.username, row.slug) <==> LinkTaken(host, rows, draft);
    case ViewSlug(username, slug, recordView) =>
      if SlugTaken(rows, username, slug) {
        var i :| i in rows && rows[i].username == username && rows[i].slug == slug
          && ViewSlugAnswer(rows, username, slug, recordView, e.now) == ViewAnswer(rows, i, recordView, e.now);
      }
    case _ =>
  }

  // ---- Whole runs ------------------------------------------------------------------------------------------

  lemma LastOf(events: seq<Event>)
    requires events != []
    ensures events == events[..|events| - 1] + [events[|events| - 1]]
  {
  }

  /** The request is cancelled by event `k`: its own creator asks for it while it is pending or partial. */
  ghost predicate CancelledBy(host: Host, events: seq<Event>, id: string, k: nat) {
    && k < |events|
    && var rows := Run(host, events[..k]);
       id in rows && Cancels(rows[id], id, events[k].op)
  }

  ghost predicate ExpiredBy(host: Host, events: seq<Event>, id: string, k: nat) {
    && k < |events|
    && var rows := Run(host, events[..k]);
       id in rows && Touches(rows[id], id, events[k].op) && Lapsed(rows[id], events[k].now)
  }

  lemma EarlierCancelled(host: Host, events: seq<Event>, id: string, k: nat)
    requires events != [] && k < |events| - 1
    ensures CancelledBy(host, events, id, k) <==> CancelledBy(host, events[..|events| - 1], id, k)
    ensures ExpiredBy(host, events, id, k) <==> ExpiredBy(host, events[..|events| - 1], id, k)
  {
    assert events[..|events| - 1][..k] == events[..k] && events[..|events| - 1][k] == events[k];
  }

  ghost predicate EverCancelled(host: Host, events: seq<Event>, id: string) {
    exists k :: CancelledBy(host, events, id, k)
  }

  ghost predicate EverExpired(host: Host, events: seq<Event>, id: string) {
    exists k :: ExpiredBy(host, events, id, k)
  }

  lemma CancelledIsEvent(host: Host, events: seq<Event>, id: string, k: nat)
    requires CancelledBy(host, events, id, k)
    ensures k < |events|
  {
  }

  lemma ExpiredIsEvent(host: Host, events: seq<Event>, id: string, k: nat)
    requires ExpiredBy(host, events, id, k)
    ensures k < |events|
  {
  }

  /** What the last event adds to what earlier ones did. */
  lemma LastCancels(host: Host, events: seq<Event>, id: string)
    requires events != []
    ensures var last := |events| - 1;
      EverCancelled(host, events, id) <==> EverCancelled(host, events[..last], id) || CancelledBy(host, events, id, last)
  {
    hide Run;
    var last := |events| - 1;
    forall k: nat | CancelledBy(host, events, id, k) ensures k == last || CancelledBy(host, events[..last], id, k) {
      if k != last { EarlierCancelled(host, events, id, k); }
    }
    forall k: nat | CancelledBy(host, events[..last], id, k) ensures CancelledBy(host, events, id, k) {
      EarlierCancelled(host, events, id, k);
    }
  }

  lemma LastExpires(host: Host, events: seq<Event>, id: string)
    requires events != []
    ensures var last := |events| - 1;
      EverExpired(host, events, id) <==> EverExpired(host, events[..last], id) || ExpiredBy(host, events, id, last)
  {
    hide Run;
    var last := |events| - 1;
    forall k: nat | ExpiredBy(host, events, id, k) ensures k == last || ExpiredBy(host, events[..last], id, k) {
      if k != last { EarlierCancelled(host, events, id, k); }
    }
    forall k: nat | ExpiredBy(host, events[..last], id, k) ensures ExpiredBy(host, events, id, k) {
      EarlierCancelled(host, events, id, k);
    }
  }

  /** A request that is not there was never there, so it never ended. */
  lemma NeverEnded(host: Host, events: seq<Event>, id: string)
    requires id !in Run(host, events)
    ensures !EverCancelled(host, events, id) && !EverExpired(host, events, id)
  {
    forall k: nat ensures !CancelledBy(host, events, id, k) && !ExpiredBy(host, events, id, k) {
      if k < |events| {
        assert events[..k] + events[k..] == events;
        RunMovesAnyhow(host, events[..k], events[k..]);
      }
    }
  }

  lemma LastIs(host: Host, events: seq<Event>, id: string)
    requires events != []
    ensures var last := |events| - 1; var rows, e := Run(host, events[..last]), events[last];
      && (CancelledBy(host, events, id, last) <==> id in rows && Cancels(rows[id], id, e.op))
      && (ExpiredBy(host, events, id, last) <==> id in rows && Touches(rows[id], id, e.op) && Lapsed(rows[id], e.now))
      && Run(host, events) == Step(host, rows, e.op, e.now).rows
  {
  }

  /** After any run a request is cancelled exactly when, at some moment, its own creator cancelled it
      while it was pending or partial; and expired exactly when some handler looked at it while it
      was pending and past its expiry. */
  lemma {:induction false} EndedIff(host: Host, events: seq<Event>, id: string)
    requires id in Run(host, events)
    ensures Run(host, events)[id].status.Cancelled? <==> EverCancelled(host, events, id)
    ensures Run(host, events)[id].status.Expired? <==> EverExpired(host, events, id)
  {
    assert events != [];
    hide Run, Step, EverCancelled, EverExpired, CancelledBy, ExpiredBy, Cancels, Touches, Lapsed, Accepts, CountsView;
    var last := |events| - 1;
    var front := events[..last];
    LastIs(host, events, id);
    LastCancels(host, events, id);
    LastExpires(host, events, id);
    if id in Run(host, front) {
      EndedIff(host, front, id);
      RunIsUnique(host, front);
      StepRow(host, Run(host, front), events[last], id);
    } else {
      NeverEnded(host, front, id);
      StepNew(host, Run(host, front), events[last], id);
    }
  }

  /** The payments the request accepted, in order. */
  ghost function PaymentsOf(host: Host, events: seq<Event>, id: string): seq<Payment> {
    if events == [] then []
    else
      var last := |events| - 1;
      var before, rows, e := PaymentsOf(host, events[..last], id), Run(host, events[..last]), events[last];
      if e.op.Pay? && e.op.id == id && id in rows && Accepts(rows[id], e.now)
      then before + [Payment(e.op.txSignature, e.op.amount, e.now)] else before
  }

  ghost function ViewsOf(host: Host, events: seq<Event>, id: string): nat {
    if events == [] then 0
    else
      var last := |events| - 1;
      var before, rows := ViewsOf(host, events[..last], id), Run(host, events[..last]);
      before + if id in rows && CountsView(rows[id], id, events[last].op) then 1 else 0
  }

  /** After any run a request holds exactly the payments it accepted and as many views as were counted. */
  lemma {:induction false} HistoryIs(host: Host, events: seq<Event>, id: string)
    ensures if id in Run(host, events)
      then Run(host, events)[id].payments == PaymentsOf(host, events, id) && Run(host, events)[id].views == ViewsOf(host, events, id)
      else PaymentsOf(host, events, id) == [] && ViewsOf(host, events, id) == 0
  {
    if events != [] {
      var last := |events| - 1;
      var front := events[..last];
      HistoryIs(host, front, id);
      if id in Run(host, front) {
        RunIsUnique(host, front);
        StepRow(host, Run(host, front), events[last], id);
      } else {
        StepNew(host, Run(host, front), events[last], id);
      }
    }
  }

  /** Event `k` makes the request. */
  ghost predicate CreatedBy(host: Host, events: seq<Event>, id: string, k: nat) {
    && k < |events| && events[k].op.Create? && events[k].op.id == id
    && Creates(host, Run(host, events[..k]), id, events[k].op.draft)
  }

  lemma LastCreates(host: Host, events: seq<Event>, id: string, k: nat)
    requires events != [] && k < |events| - 1
    ensures CreatedBy(host, events, id, k) <==> CreatedBy(host, events[..|events| - 1], id, k)
  {
    assert events[..|events| - 1][..k] == events[..k] && events[..|events| - 1][k] == events[k];
  }

  /** After any run there is a request exactly when some event made it. */
  lemma {:induction false} CreatedIff(host: Host, events: seq<Event>, id: string)
    ensures id in Run(host, events) <==> exists k :: CreatedBy(host, events, id, k)
  {
    if events != [] {
      var last := |events| - 1;
      var front := events[..last];
      CreatedIff(host, front, id);
      if id in Run(host, front) {
        var k :| CreatedBy(host, front, id, k);
        LastCreates(host, events, id, k);
        RunIsUnique(host, front);
        StepRow(host, Run(host, front), events[last], id);
      } else {
        StepNew(host, Run(host, front), events[last], id);
        assert CreatedBy(host, events, id, last) <==> id in Run(host, events);
        forall k: nat | CreatedBy(host, events, id, k) ensures k == last {
          if k < last { LastCreates(host, events, id, k); }
        }
      }
    }
  }

  /** ... and what its creator fixed is what that event's draft says, whatever came after. */
  lemma CreatedAsDrafted(host: Host, events: seq<Event>, id: string, k: nat)
    requires CreatedBy(host, events, id, k)
    ensures id in Run(host, events) && MadeFrom(host, Run(host, events)[id], events[k].op.draft)
  {
    var upTo := events[..k + 1];
    assert upTo[..k] == events[..k] && events == upTo + events[k + 1..];
    StepNew(host, Run(host, events[..k]), events[k], id);
    RunMovesAnyhow(host, upTo, events[k + 1..]);
  }
}
