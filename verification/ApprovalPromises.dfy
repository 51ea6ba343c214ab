/**
 What each call on the store does, field by field: which record is written, what
 every field of it holds afterwards, what is answered and what is reported.
 Fields are listed in the order of ApprovalValue.
 */
module ApprovalPromises {
  import opened Wrappers
  import opened ApprovalModel

  /** The record under id becomes a, and nothing else happens but this reply and this one report. */
  ghost predicate Records(items: Items, e: Effect, id: string, a: ApprovalValue) {
    && id in items
    && e.reply == Found(a)
    && e.items == items[id := Rec(a, items[id].createdAt)]
    && e.fired == multiset{a}
  }

  lemma Live(maxSize: int, items: Items, id: string)
    requires Inv(maxSize, items) && id in items
    ensures WellKept(id, items[id].approval)
  {
  }

  /** Approve: status, decider, time, and the grant if one is given; the reason stays. */
  lemma ApproveIsRecorded(maxSize: int, items: Items, now: int, id: string, decider: string, grant: Option<GrantValue>, at: int)
    requires Inv(maxSize, items)
    ensures var e := Apply(maxSize, items, now, Approve(id, decider, grant, at));
            e.reply.Found? ==>
              id in items &&
              var was := items[id].approval;
              Records(items, e, id, ApprovalValue(Approved, id, 0, was.interval, was.request,
                                                  if grant == None then was.grant else grant,
                                                  decider, Some(at), was.reasonUser))
  {
    if id in items {
      Live(maxSize, items, id);
    }
  }

  /** Deny: status, decider, time, and the reason if it is not empty; the grant stays. */
  lemma DenyIsRecorded(maxSize: int, items: Items, now: int, id: string, decider: string,
                       reason: Option<map<string, string>>, at: int)
    requires Inv(maxSize, items)
    ensures var e := Apply(maxSize, items, now, Deny(id, decider, reason, at));
            e.reply.Found? ==>
              id in items &&
              var was := items[id].approval;
              Records(items, e, id, ApprovalValue(Denied, id, 0, was.interval, was.request, was.grant,
                                                  decider, Some(at),
                                                  if reason == None || reason == Some(map[]) then was.reasonUser else reason))
  {
    if id in items {
      Live(maxSize, items, id);
    }
  }

  /** Cancel: status and time; the decider, the grant and the reason stay. */
  lemma CancelIsRecorded(maxSize: int, items: Items, now: int, id: string, at: int)
    requires Inv(maxSize, items)
    ensures var e := Apply(maxSize, items, now, Cancel(id, at));
            e.reply.Found? ==>
              id in items &&
              var was := items[id].approval;
              Records(items, e, id, ApprovalValue(Canceled, id, 0, was.interval, was.request, was.grant,
                                                  was.decidedBy, Some(at), was.reasonUser))
  {
    if id in items {
      Live(maxSize, items, id);
    }
  }

  /** Pending, and its lifetime is over. */
  predicate Lapsed(r: Rec, now: int) {
    r.approval.status.Pending? && now >= Deadline(r.createdAt, r.approval.expiresIn)
  }

  /** Which answer a decision gets, and that the four cases are all there are. */
  lemma DecisionIsAnswered(maxSize: int, items: Items, now: int, op: Op)
    requires Inv(maxSize, items) && op.Decision()
    ensures var reply := Apply(maxSize, items, now, op).reply;
            && (reply == Failed(NotFound) <==> op.id !in items)
            && (reply == Failed(ErrExpired) <==>
                  op.id in items && (items[op.id].approval.status.Expired? || Lapsed(items[op.id], now)))
            && (reply == Failed(AlreadyResolved) <==>
                  op.id in items && items[op.id].approval.status in {Approved, Denied, Canceled})
            && (reply.Found? <==>
                  op.id in items && items[op.id].approval.status.Pending? && !Lapsed(items[op.id], now))
  {
    if op.id in items {
      Live(maxSize, items, op.id);
    }
  }

  /** A poll or a decision that meets a lapsed record expires it and reports that, changing no other field. */
  lemma LapseIsRecorded(maxSize: int, items: Items, now: int, op: Op)
    requires Inv(maxSize, items) && (op.Get? || op.Decision())
    requires op.id in items && Lapsed(items[op.id], now)
    ensures var e := Apply(maxSize, items, now, op);
            var was := items[op.id].approval;
            var a := ApprovalValue(Expired, op.id, 0, was.interval, was.request, was.grant,
                                   was.decidedBy, was.decidedAt, was.reasonUser);
            && e.reply == (if op.Get? then Found(a) else Failed(ErrExpired))
            && e.items == items[op.id := Rec(a, items[op.id].createdAt)]
            && e.fired == multiset{a}
  {
    Live(maxSize, items, op.id);
    if op.Decision() {
      DecideRefuses(items, now, op, ErrExpired);
    }
  }

  /** In every other case a poll, and a decision that is refused, changes and reports nothing. */
  lemma OtherwiseUnchanged(maxSize: int, items: Items, now: int, op: Op)
    requires Inv(maxSize, items) && (op.Get? || op.Decision())
    requires op.id in items ==> !Lapsed(items[op.id], now)
    ensures var e := Apply(maxSize, items, now, op);
            && (op.Get? ==> e.reply == if op.id in items then Found(items[op.id].approval) else Failed(NotFound))
            && (op.Get? || e.reply.Failed? ==> e.items == items && e.fired == multiset{})
  {
    if op.id in items {
      Live(maxSize, items, op.id);
      assert items[op.id := items[op.id]] == items;
    }
  }

  /** Create: entropy first, then the cap, then a pending record with a lifetime and interval as asked or by default. */
  lemma CreateIsRecorded(maxSize: int, items: Items, now: int, minted: Option<string>, req: ApprovalValue)
    ensures var e := Apply(maxSize, items, now, Create(minted, req));
            && e.fired == multiset{}
            && (e.reply == Failed(EntropyFailure) <==> minted == None)
            && (e.reply == Failed(StoreFull) <==> minted != None && 0 < maxSize <= |items|)
            && (e.reply.Failed? ==> e.items == items)
            && (minted != None && !(0 < maxSize <= |items|) ==>
                  var a := ApprovalValue(Pending, minted.value,
                                         if req.expiresIn > 0 then req.expiresIn else 300,
                                         if req.interval > 0 then req.interval else 5,
                                         req.request, req.grant, "", None, req.reasonUser);
                  e.reply == Found(a) && e.items == items[minted.value := Rec(a, now)])
  {
  }

  /** The approval of r, after its lifetime is over. */
  function AfterLapse(id: string, r: Rec): ApprovalValue {
    var was := r.approval;
    ApprovalValue(Expired, id, 0, was.interval, was.request, was.grant, was.decidedBy, was.decidedAt, was.reasonUser)
  }

  /** Sweep leaves the pending records that have not lapsed, and reports each that lapsed once, as expired. */
  lemma SweepIsRecorded(maxSize: int, items: Items, now: int, at: Instants)
    requires Inv(maxSize, items)
    ensures var e := Apply(maxSize, items, now, Sweep(at));
            && e.items.Keys == (set id | id in items && items[id].approval.status.Pending? && !Lapsed(items[id], at(id)))
            && (forall id | id in e.items :: e.items[id] == items[id])
            && e.fired == multiset(set id | id in items && Lapsed(items[id], at(id)) :: AfterLapse(id, items[id]))
  {
    forall id | id in items
      ensures Due(items[id], at(id)) <==> Lapsed(items[id], at(id))
      ensures Due(items[id], at(id)) ==> Expire(items[id], at(id)).approval == AfterLapse(id, items[id])
      ensures id in Swept(items, at) <==> !items[id].approval.status.Pending? || Lapsed(items[id], at(id))
    {
      Live(maxSize, items, id);
    }
    assert Expiries(items, at) == set id | id in items && Lapsed(items[id], at(id)) :: AfterLapse(id, items[id]);
  }

  /** Delete takes one record away, in whatever state, and Len counts them all. */
  lemma DeleteAndLen(maxSize: int, items: Items, now: int, id: string)
    ensures var e := Apply(maxSize, items, now, Delete(id));
            && (e.reply == Deleted(true) <==> id in items) && (e.reply == Deleted(false) <==> id !in items)
            && id !in e.items && e.fired == multiset{}
            && forall j :: j != id ==> (j in e.items <==> j in items) && (j in items ==> e.items[j] == items[j])
    ensures Apply(maxSize, items, now, Op.Len) == Effect(items, Count(|items.Keys|), multiset{})
  {
    assert |items| == |items.Keys|;
  }
}
