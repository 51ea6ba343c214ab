/**
 The lazily expiring store seen from outside: no caller can tell it from a
 store that expires every record at its deadline, by its own clock.
 */
module ApprovalEager {
  import opened Wrappers
  import opened ApprovalModel

  /** One call; now is the last instant it reads under the lock. */
  datatype Call = Call(op: Op, now: int)

  /** The clock never goes back, within a sweep or from one call to the next. */
  ghost predicate Monotone(calls: seq<Call>, from: int)
    decreases |calls|
  {
    calls == [] || (InOrder(calls[0].op, from, calls[0].now) && Monotone(calls[1..], calls[0].now))
  }

  ghost predicate InOrder(op: Op, from: int, now: int) {
    from <= now && (op.Sweep? ==> forall id :: from <= op.at(id) <= now)
  }

  /** Every record that is due becomes expired. */
  function ExpireAll(items: Items, now: int): Items {
    map id | id in items :: Expire(items[id], now)
  }

  /** Every record that is due when a sweep meets it becomes expired. */
  function ExpireEach(items: Items, at: Instants): Items {
    map id | id in items :: Expire(items[id], at(id))
  }

  /** A locked section without any expiry logic: it takes each status at face value. */
  function ApplyPlain(maxSize: int, items: Items, now: int, op: Op): (Items, Reply) {
    match op
    case Create(minted, req) =>
      if minted.None? then (items, Failed(EntropyFailure))
      else if maxSize > 0 && |items| >= maxSize then (items, Failed(StoreFull))
      else (items[minted.value := Rec(Prepared(req, minted.value), now)], Found(Prepared(req, minted.value)))
    case Get(id) =>
      (items, if id in items then Found(items[id].approval) else Failed(NotFound))
    case Delete(id) =>
      (items - {id}, Deleted(id in items))
    case Sweep(_) =>
      var gone := set id | id in items && items[id].approval.status.Terminal();
      (items - gone, Count(|gone|))
    case Len =>
      (items, Count(|items|))
    case _ =>
      if op.id !in items then (items, Failed(NotFound))
      else
        var r := items[op.id];
        var refused := Refusal(r.approval.status);
        if refused.Some? then (items, Failed(refused.value))
        else (items[op.id := r.(approval := Decided(r.approval, op))], Found(Decided(r.approval, op)))
  }

  /** The eager store: the clock expires records first, whoever calls. */
  function ApplyEager(maxSize: int, items: Items, now: int, op: Op): (Items, Reply) {
    ApplyPlain(maxSize, if op.Sweep? then ExpireEach(items, op.at) else ExpireAll(items, now), now, op)
  }

  function LazyReplies(maxSize: int, items: Items, calls: seq<Call>): seq<Reply>
    decreases |calls|
  {
    if |calls| == 0 then []
    else
      var e := Apply(maxSize, items, calls[0].now, calls[0].op);
      [e.reply] + LazyReplies(maxSize, e.items, calls[1..])
  }

  function EagerReplies(maxSize: int, items: Items, calls: seq<Call>): seq<Reply>
    decreases |calls|
  {
    if |calls| == 0 then []
    else
      var (items', reply) := ApplyEager(maxSize, items, calls[0].now, calls[0].op);
      [reply] + EagerReplies(maxSize, items', calls[1..])
  }

  /** The simulation relation: both stores agree once everything due at now is expired. */
  predicate Related(lazy: Items, eager: Items, now: int) {
    ExpireAll(lazy, now) == ExpireAll(eager, now)
  }

  lemma ExpireTwice(r: Rec, t: int, now: int)
    requires t <= now
    ensures Expire(Expire(r, t), now) == Expire(r, now)
  {
  }

  lemma ExpireAllTwice(items: Items, t: int, now: int)
    requires t <= now
    ensures ExpireAll(ExpireAll(items, t), now) == ExpireAll(items, now)
  {
    forall id | id in items
      ensures Expire(Expire(items[id], t), now) == Expire(items[id], now)
    {
      ExpireTwice(items[id], t, now);
    }
  }

  lemma RelatedLater(lazy: Items, eager: Items, t: int, now: int)
    requires Related(lazy, eager, t) && t <= now
    ensures Related(lazy, eager, now)
  {
    ExpireAllTwice(lazy, t, now);
    ExpireAllTwice(eager, t, now);
  }

  lemma ExpireAllKeys(items: Items, now: int)
    ensures ExpireAll(items, now).Keys == items.Keys
    ensures |ExpireAll(items, now)| == |items|
  {
    assert |items| == |items.Keys| && |ExpireAll(items, now)| == |ExpireAll(items, now).Keys|;
  }

  lemma RelatedUpdate(lazy: Items, eager: Items, now: int, id: string, r: Rec, r': Rec)
    requires Related(lazy, eager, now)
    requires Expire(r, now) == Expire(r', now)
    ensures Related(lazy[id := r], eager[id := r'], now)
  {
    assert ExpireAll(lazy[id := r], now) == ExpireAll(lazy, now)[id := Expire(r, now)];
    assert ExpireAll(eager[id := r'], now) == ExpireAll(eager, now)[id := Expire(r', now)];
  }

  lemma RelatedRemove(lazy: Items, eager: Items, now: int, gone: set<string>)
    requires Related(lazy, eager, now)
    ensures Related(lazy - gone, eager - gone, now)
  {
    assert ExpireAll(lazy - gone, now) == ExpireAll(lazy, now) - gone;
    assert ExpireAll(eager - gone, now) == ExpireAll(eager, now) - gone;
  }

  /** One call: same reply, and the stores stay related. */
  lemma {:induction false} CallSimulates(maxSize: int, lazy: Items, eager: Items, from: int, now: int, op: Op)
    requires Related(lazy, eager, from) && InOrder(op, from, now)
    ensures var e := Apply(maxSize, lazy, now, op);
            var (items', reply) := ApplyEager(maxSize, eager, now, op);
            e.reply == reply && Related(e.items, items', now)
  {
    if op.Sweep? {
      SweepSimulates(maxSize, lazy, eager, from, now, op.at);
    } else {
      RelatedLater(lazy, eager, from, now);
      LookupSimulates(maxSize, lazy, eager, now, op);
    }
  }

  lemma SweepSimulates(maxSize: int, lazy: Items, eager: Items, from: int, now: int, at: Instants)
    requires Related(lazy, eager, from) && InOrder(Sweep(at), from, now)
    ensures var e := Apply(maxSize, lazy, now, Sweep(at));
            var (items', reply) := ApplyEager(maxSize, eager, now, Sweep(at));
            e.reply == reply && Related(e.items, items', now)
  {
    var ready := ExpireEach(eager, at);
    SweptAlike(lazy, eager, from, now, at);
    SameSwept(lazy, ready, at);
    PlainSweep(maxSize, ready, now, at);
    RelatedRemove(lazy, ready, now, Swept(lazy, at));
  }

  lemma SweptAlike(lazy: Items, eager: Items, from: int, now: int, at: Instants)
    requires Related(lazy, eager, from) && InOrder(Sweep(at), from, now)
    ensures var ready := ExpireEach(eager, at);
            && lazy.Keys == ready.Keys && (forall id | id in lazy :: Expire(lazy[id], at(id)) == ready[id])
            && Related(lazy, ready, now)
  {
    var ready := ExpireEach(eager, at);
    assert lazy.Keys == ExpireAll(lazy, from).Keys == ExpireAll(eager, from).Keys == eager.Keys;
    forall id | id in lazy
      ensures Expire(lazy[id], at(id)) == ready[id] && Expire(lazy[id], now) == Expire(ready[id], now)
    {
      RecordSweeps(lazy, eager, from, now, at, id);
    }
  }

  lemma PlainSweep(maxSize: int, ready: Items, now: int, at: Instants)
    ensures var gone := set id | id in ready && ready[id].approval.status.Terminal();
            ApplyPlain(maxSize, ready, now, Sweep(at)) == (ready - gone, Count(|gone|))
  {
  }

  lemma SameSwept(lazy: Items, ready: Items, at: Instants)
    requires lazy.Keys == ready.Keys && forall id | id in lazy :: Expire(lazy[id], at(id)) == ready[id]
    ensures Swept(lazy, at) == set id | id in ready && ready[id].approval.status.Terminal()
  {
  }

  lemma RecordSweeps(lazy: Items, eager: Items, from: int, now: int, at: Instants, id: string)
    requires Related(lazy, eager, from) && from <= at(id) <= now && id in lazy && id in eager
    ensures Expire(lazy[id], at(id)) == Expire(eager[id], at(id))
    ensures Expire(lazy[id], now) == Expire(Expire(eager[id], at(id)), now)
  {
    assert ExpireAll(lazy, from)[id] == ExpireAll(eager, from)[id];
    ExpireTwice(lazy[id], from, at(id));
    ExpireTwice(eager[id], from, at(id));
    ExpireTwice(lazy[id], at(id), now);
  }

  lemma LookupSimulates(maxSize: int, lazy: Items, eager: Items, now: int, op: Op)
    requires Related(lazy, eager, now) && !op.Sweep?
    ensures var e := Apply(maxSize, lazy, now, op);
            var (items', reply) := ApplyEager(maxSize, eager, now, op);
            e.reply == reply && Related(e.items, items', now)
  {
    var ready := ExpireAll(eager, now);
    ExpireAllTwice(eager, now, now);
    ExpireAllKeys(lazy, now);
    ExpireAllKeys(eager, now);
    assert Related(lazy, ready, now) && lazy.Keys == ready.Keys && |lazy| == |ready|;
    if op.Get? || op.Decision() {
      if op.id in lazy {
        assert ExpireAll(lazy, now)[op.id] == ready[op.id];
        if op.Get? {
          GetSimulates(lazy, ready, now, op.id);
        } else {
          DecisionSimulates(lazy, ready, now, op);
        }
      }
    } else {
      StorageSimulates(maxSize, lazy, ready, now, op);
    }
  }

  lemma StorageSimulates(maxSize: int, lazy: Items, ready: Items, now: int, op: Op)
    requires Related(lazy, ready, now) && lazy.Keys == ready.Keys && |lazy| == |ready|
    requires op.Create? || op.Delete? || op.Len?
    ensures var e := Apply(maxSize, lazy, now, op);
            var (items', reply) := ApplyPlain(maxSize, ready, now, op);
            e.reply == reply && Related(e.items, items', now)
  {
    if op.Create? {
      CreateSimulates(maxSize, lazy, ready, now, op.minted, op.req);
    } else if op.Delete? {
      RelatedRemove(lazy, ready, now, {op.id});
    }
  }

  lemma CreateSimulates(maxSize: int, lazy: Items, ready: Items, now: int, minted: Option<string>, req: ApprovalValue)
    requires Related(lazy, ready, now) && |lazy| == |ready|
    ensures var e := Apply(maxSize, lazy, now, Create(minted, req));
            var (items', reply) := ApplyPlain(maxSize, ready, now, Create(minted, req));
            e.reply == reply && Related(e.items, items', now)
  {
    if minted.Some? {
      var r := Rec(Prepared(req, minted.value), now);
      RelatedUpdate(lazy, ready, now, minted.value, r, r);
    }
  }

  lemma GetSimulates(lazy: Items, ready: Items, now: int, id: string)
    requires Related(lazy, ready, now) && id in lazy && id in ready
    requires Expire(lazy[id], now) == ready[id]
    ensures Apply(0, lazy, now, Get(id)).reply == Found(ready[id].approval)
    ensures Related(Apply(0, lazy, now, Get(id)).items, ready, now)
  {
    ExpireTwice(lazy[id], now, now);
    RelatedUpdate(lazy, ready, now, id, Expire(lazy[id], now), ready[id]);
    assert ready[id := ready[id]] == ready;
  }

  lemma DecisionSimulates(lazy: Items, ready: Items, now: int, op: Op)
    requires op.Decision() && op.id in lazy && op.id in ready
    requires Related(lazy, ready, now)
    requires Expire(lazy[op.id], now) == ready[op.id]
    ensures Decide(lazy, now, op).reply == ApplyPlain(0, ready, now, op).1
    ensures Related(Decide(lazy, now, op).items, ApplyPlain(0, ready, now, op).0, now)
  {
    var r := ready[op.id];
    ExpireTwice(lazy[op.id], now, now);
    if Refusal(r.approval.status).Some? {
      RelatedUpdate(lazy, ready, now, op.id, r, r);
      assert ready[op.id := r] == ready;
    } else {
      var d := r.(approval := Decided(r.approval, op));
      RelatedUpdate(lazy, ready, now, op.id, d, d);
    }
  }

  /**
   Observational equality: from related stores, in every run under a clock that
   never goes back, both stores give the same replies.
   */
  lemma {:induction false} LazyIsEager(maxSize: int, lazy: Items, eager: Items, from: int, calls: seq<Call>)
    requires Related(lazy, eager, from) && Monotone(calls, from)
    ensures LazyReplies(maxSize, lazy, calls) == EagerReplies(maxSize, eager, calls)
    decreases |calls|
  {
    if calls != [] {
      var c := calls[0];
      CallSimulates(maxSize, lazy, eager, from, c.now, c.op);
      LazyIsEager(maxSize, Apply(maxSize, lazy, c.now, c.op).items,
                  ApplyEager(maxSize, eager, c.now, c.op).0, c.now, calls[1..]);
    }
  }

  /** A new store and a new eager store cannot be told apart. */
  lemma {:induction false} NewStoresAgree(maxSize: int, from: int, calls: seq<Call>)
    requires Monotone(calls, from)
    ensures LazyReplies(maxSize, map[], calls) == EagerReplies(maxSize, map[], calls)
  {
    LazyIsEager(maxSize, map[], map[], from, calls);
  }
}
