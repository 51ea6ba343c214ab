/**
 The approval lifecycle of approval/store.go and approval/approval.go on
 values: what each locked section does to the records, what it returns, and
 which resolutions it owes to the hook. Instants are nanoseconds.
 */
module ApprovalModel {
  import opened Wrappers

  const DEFAULT_EXPIRES_IN := 300
  const DEFAULT_INTERVAL := 5
  const SECOND := 1_000_000_000

  /** A status string; only the five named ones are known to the store. */
  datatype Status = Pending | Approved | Denied | Expired | Canceled | Unknown(text: string)
  {
    predicate Terminal() {
      Approved? || Denied? || Expired? || Canceled?
    }
  }

  datatype RequestRefValue = RequestRefValue(
    kind: string,
    identifier: string,
    locations: seq<string>,
    actions: seq<string>,
    datatypes: seq<string>,
    privileges: seq<string>)

  datatype ApproversValue = ApproversValue(operator: string, stage: int, stageCount: int)

  datatype GrantValue = GrantValue(expiresAt: Option<int>)

  /** The fields of an approval that its lifecycle never touches. */
  datatype RequestValue = RequestValue(
    pollURL: string,
    delivery: seq<string>,
    callbackURL: string,
    requestRef: Option<RequestRefValue>,
    approvers: Option<ApproversValue>)

  datatype ApprovalValue = ApprovalValue(
    status: Status,
    id: string,
    expiresIn: int,
    interval: int,
    request: RequestValue,
    grant: Option<GrantValue>,
    decidedBy: string,
    decidedAt: Option<int>,
    reasonUser: Option<map<string, string>>)

  const EMPTY_APPROVAL :=
    ApprovalValue(Unknown(""), "", 0, 0, RequestValue("", [], "", None, None), None, "", None, None)

  datatype Rec = Rec(approval: ApprovalValue, createdAt: int)

  type Items = map<string, Rec>

  // ---- expiry

  /** int64 arithmetic. */
  function WrapInt64(n: int): int {
    (n + 0x8000_0000_0000_0000) % 0x1_0000_0000_0000_0000 - 0x8000_0000_0000_0000
  }

  /** createdAt.Add(time.Duration(ExpiresIn) * time.Second). */
  function Deadline(createdAt: int, expiresIn: int): int {
    createdAt + WrapInt64(expiresIn * SECOND)
  }

  predicate Due(r: Rec, now: int) {
    && r.approval.status.Pending?
    && r.approval.expiresIn > 0
    && now >= Deadline(r.createdAt, r.approval.expiresIn)
  }

  /** expireLocked. */
  function Expire(r: Rec, now: int): Rec {
    if Due(r, now) then r.(approval := r.approval.(status := Expired, expiresIn := 0)) else r
  }

  // ---- operations

  /** The instant at which a sweep looks at each record: it reads the clock anew every time. */
  type Instants = string -> int

  datatype Op =
    | Create(minted: Option<string>, req: ApprovalValue)  // None when the entropy source fails
    | Get(id: string)
    | Approve(id: string, decider: string, grant: Option<GrantValue>, decidedAt: int)
    | Deny(id: string, decider: string, reason: Option<map<string, string>>, decidedAt: int)
    | Cancel(id: string, decidedAt: int)
    | Delete(id: string)
    | Sweep(at: Instants)
    | Len
  {
    predicate Decision() {
      Approve? || Deny? || Cancel?
    }
  }

  datatype Error = EntropyFailure | NotFound | AlreadyResolved | ErrExpired | StoreFull

  datatype Reply =
    | Found(approval: ApprovalValue)
    | Failed(error: Error)
    | Deleted(present: bool)
    | Count(n: int)

  /** The effect of one locked section: new records, reply, resolutions to report. */
  datatype Effect = Effect(items: Items, reply: Reply, fired: multiset<ApprovalValue>)

  /** What Create writes into the caller's request before it takes the lock. */
  function Prepared(req: ApprovalValue, id: string): ApprovalValue {
    req.(id := id,
         status := Pending,
         expiresIn := if req.expiresIn <= 0 then DEFAULT_EXPIRES_IN else req.expiresIn,
         interval := if req.interval <= 0 then DEFAULT_INTERVAL else req.interval,
         decidedBy := "",
         decidedAt := None)
  }

  /** What a decision writes into a pending record. */
  function Decided(a: ApprovalValue, op: Op): ApprovalValue
    requires op.Decision()
  {
    match op
    case Approve(_, decider, grant, at) =>
      a.(status := Approved, decidedBy := decider, decidedAt := Some(at), expiresIn := 0,
         grant := if grant.Some? then grant else a.grant)
    case Deny(_, decider, reason, at) =>
      a.(status := Denied, decidedBy := decider, decidedAt := Some(at), expiresIn := 0,
         reasonUser := if reason.Some? && |reason.value| > 0 then reason else a.reasonUser)
    case Cancel(_, at) =>
      a.(status := Canceled, decidedAt := Some(at), expiresIn := 0)
  }

  /** mutableLocked, on the record after lazy expiry. */
  function Refusal(status: Status): Option<Error> {
    if status.Expired? then Some(ErrExpired)
    else if status.Terminal() then Some(AlreadyResolved)
    else None
  }

  function Expiries(items: Items, at: Instants): set<ApprovalValue> {
    set id | id in items && Due(items[id], at(id)) :: Expire(items[id], at(id)).approval
  }

  function ExpiriesAmong(items: Items, at: Instants, ids: set<string>): set<ApprovalValue> {
    set id | id in items && id in ids && Due(items[id], at(id)) :: Expire(items[id], at(id)).approval
  }

  /** The ids Sweep removes. */
  function Swept(items: Items, at: Instants): set<string> {
    set id | id in items && Expire(items[id], at(id)).approval.status.Terminal()
  }

  function Apply(maxSize: int, items: Items, now: int, op: Op): Effect {
    match op
    case Create(minted, req) =>
      if minted.None? then Effect(items, Failed(EntropyFailure), multiset{})
      else if maxSize > 0 && |items| >= maxSize then Effect(items, Failed(StoreFull), multiset{})
      else
        var a := Prepared(req, minted.value);
        Effect(items[minted.value := Rec(a, now)], Found(a), multiset{})
    case Get(id) =>
      if id !in items then Effect(items, Failed(NotFound), multiset{})
      else
        var r := Expire(items[id], now);
        Effect(items[id := r], Found(r.approval), if Due(items[id], now) then multiset{r.approval} else multiset{})
    case Delete(id) =>
      Effect(items - {id}, Deleted(id in items), multiset{})
    case Sweep(at) =>
      var gone := Swept(items, at);
      Effect(items - gone, Count(|gone|), multiset(Expiries(items, at)))
    case Len =>
      Effect(items, Count(|items|), multiset{})
    case _ => Decide(items, now, op)
  }

  /** Approve, Deny and Cancel. */
  function Decide(items: Items, now: int, op: Op): Effect
    requires op.Decision()
  {
    if op.id !in items then Effect(items, Failed(NotFound), multiset{})
    else
      var r := Expire(items[op.id], now);
      var refused := Refusal(r.approval.status);
      if refused.Some? then
        Effect(items[op.id := r], Failed(refused.value),
               if Due(items[op.id], now) then multiset{r.approval} else multiset{})
      else
        var a := Decided(r.approval, op);
        Effect(items[op.id := r.(approval := a)], Found(a), multiset{a})
  }

  lemma DecideRefuses(items: Items, now: int, op: Op, err: Error)
    requires op.Decision()
    requires if op.id in items then Refusal(Expire(items[op.id], now).approval.status) == Some(err) else err == NotFound
    ensures Decide(items, now, op).reply == Failed(err)
    ensures Decide(items, now, op).items == if op.id in items then items[op.id := Expire(items[op.id], now)] else items
    ensures Decide(items, now, op).fired == if op.id in items && Due(items[op.id], now)
                                            then multiset{Expire(items[op.id], now).approval} else multiset{}
  {
  }

  lemma DecideAccepts(items: Items, now: int, op: Op)
    requires op.Decision() && op.id in items
    requires Refusal(Expire(items[op.id], now).approval.status).None?
    ensures var r := Expire(items[op.id], now);
            var a := Decided(r.approval, op);
            Decide(items, now, op) == Effect(items[op.id := r][op.id := r.(approval := a)], Found(a), multiset{a})
  {
    var r := Expire(items[op.id], now);
    var d := r.(approval := Decided(r.approval, op));
    assert items[op.id := r][op.id := d] == items[op.id := d];
  }

  /** The decision of approval.Response for a polled approval. */
  predicate Permits(a: ApprovalValue) {
    a.status.Approved?
  }

  // ---- deadline arithmetic

  /** For a positive expires_in the deadline is exact up to 9223372036 seconds and for no larger value. */
  lemma DeadlineIsExact(createdAt: int, expiresIn: int)
    requires expiresIn > 0
    ensures Deadline(createdAt, expiresIn) == createdAt + expiresIn * SECOND <==> expiresIn <= 9223372036
  {
    WrapInt64Range(expiresIn * SECOND);
  }

  /** One second more and the deadline lies in the past: the approval is due as soon as it is created. */
  lemma OneSecondTooLong()
    ensures Due(Rec(EMPTY_APPROVAL.(status := Pending, expiresIn := 9223372037), 0), 0)
    ensures !Due(Rec(EMPTY_APPROVAL.(status := Pending, expiresIn := 9223372036), 0), 0)
  {
  }

  lemma WrapInt64Range(n: int)
    ensures WrapInt64(n) == n <==> -0x8000_0000_0000_0000 <= n < 0x8000_0000_0000_0000
  {
  }

  // ---- invariants of every reachable store

  predicate WellKept(id: string, a: ApprovalValue) {
    && a.id == id
    && a.interval > 0
    && if a.status.Pending? then a.expiresIn > 0 else a.status.Terminal() && a.expiresIn == 0
  }

  predicate Inv(maxSize: int, items: Items) {
    && (forall id {:trigger WellKept(id, items[id].approval)} | id in items :: WellKept(id, items[id].approval))
    && (maxSize > 0 ==> |items| <= maxSize)
  }

  /** Every locked section keeps ids, lifetimes, intervals and the size cap in order. */
  lemma ApplyKeepsInv(maxSize: int, items: Items, now: int, op: Op)
    requires Inv(maxSize, items)
    ensures Inv(maxSize, Apply(maxSize, items, now, op).items)
  {
    forall id | id in Apply(maxSize, items, now, op).items
      ensures WellKept(id, Apply(maxSize, items, now, op).items[id].approval)
    {
      RecordsStayWellKept(maxSize, items, now, op, id);
    }
    SizeStaysCapped(maxSize, items, now, op);
  }

  lemma RecordsStayWellKept(maxSize: int, items: Items, now: int, op: Op, id: string)
    requires Inv(maxSize, items)
    requires id in Apply(maxSize, items, now, op).items
    ensures WellKept(id, Apply(maxSize, items, now, op).items[id].approval)
  {
    if id in items {
      assert WellKept(id, items[id].approval);
    }
    if op.Decision() {
      DecisionStaysWellKept(items, now, op, id);
    }
  }

  lemma DecisionStaysWellKept(items: Items, now: int, op: Op, id: string)
    requires op.Decision() && id in Decide(items, now, op).items
    requires id in items ==> WellKept(id, items[id].approval)
    ensures WellKept(id, Decide(items, now, op).items[id].approval)
  {
  }

  lemma SizeStaysCapped(maxSize: int, items: Items, now: int, op: Op)
    requires maxSize > 0 ==> |items| <= maxSize
    ensures maxSize > 0 ==> |Apply(maxSize, items, now, op).items| <= maxSize
  {
    var items' := Apply(maxSize, items, now, op).items;
    if items'.Keys <= items.Keys {
      SmallerMap(items', items);
    } else {
      assert op.Create? && op.minted.Some?;
      assert items'.Keys == items.Keys + {op.minted.value};
      assert |items'.Keys| == |items.Keys| + 1;
    }
  }

  lemma SmallerSet<T>(a: set<T>, b: set<T>)
    requires a <= b
    ensures |a| <= |b|
  {
    assert b == a + (b - a);
  }

  lemma SmallerMap(a: Items, b: Items)
    requires a.Keys <= b.Keys
    ensures |a| <= |b|
  {
    SmallerSet(a.Keys, b.Keys);
    assert |a| == |a.Keys| && |b| == |b.Keys|;
  }

  /**
   What a poll may answer: never a pending approval at or after its deadline,
   and a pending one with the lifetime it was created with.
   */
  lemma PollIsNeverStale(maxSize: int, items: Items, now: int, id: string)
    requires Inv(maxSize, items)
    ensures var reply := Apply(maxSize, items, now, Get(id)).reply;
            reply.Found? && reply.approval.status.Pending? ==>
              && now < Deadline(items[id].createdAt, reply.approval.expiresIn)
              && reply.approval == items[id].approval
  {
    if id in items {
      assert WellKept(id, items[id].approval);
    }
  }

  /** One record more, met in any order, adds itself to what a sweep removes. */
  lemma SweptGrows(items: Items, at: Instants, ids: set<string>, id: string)
    requires id in items && id !in ids
    ensures var gone := if Expire(items[id], at(id)).approval.status.Terminal() then {id} else {};
            && Swept(items, at) * (ids + {id}) == Swept(items, at) * ids + gone
            && |Swept(items, at) * (ids + {id})| == |Swept(items, at) * ids| + |gone|
  {
    var gone := if Expire(items[id], at(id)).approval.status.Terminal() then {id} else {};
    assert Swept(items, at) * (ids + {id}) == Swept(items, at) * ids + gone;
  }

  /** And its own report, if it is due: no other record has its id. */
  lemma ExpiriesGrow(items: Items, at: Instants, ids: set<string>, id: string)
    requires forall i | i in items :: items[i].approval.id == i
    requires id in items && id !in ids
    ensures multiset(ExpiriesAmong(items, at, ids + {id})) == multiset(ExpiriesAmong(items, at, ids))
              + (if Due(items[id], at(id)) then multiset{Expire(items[id], at(id)).approval} else multiset{})
  {
    var few, more := ExpiriesAmong(items, at, ids), ExpiriesAmong(items, at, ids + {id});
    var v := Expire(items[id], at(id)).approval;
    assert forall a | a in few :: a.id in ids;
    if Due(items[id], at(id)) {
      assert more == few + {v};
    } else {
      assert more == few;
    }
  }

  /** What a sweep has left, counted and to report so far. */
  datatype Tally = Tally(left: Items, removed: int, fired: seq<ApprovalValue>)

  /** The sweep meets one record more. */
  function Met(t: Tally, id: string, now: int): Tally
    requires id in t.left
  {
    var r := Expire(t.left[id], now);
    var gone := r.approval.status.Terminal();
    Tally(if gone then t.left - {id} else t.left, if gone then t.removed + 1 else t.removed,
          t.fired + (if Due(t.left[id], now) then [r.approval] else []))
  }

  /** The sweep meets these records, in this order. */
  function MetAll(start: Items, at: Instants, order: seq<string>): Tally {
    if order == [] then Tally(start, 0, [])
    else
      var t, id := MetAll(start, at, order[..|order| - 1]), order[|order| - 1];
      if id in t.left then Met(t, id, at(id)) else t
  }

  lemma MetOneMore(start: Items, at: Instants, order: seq<string>, id: string)
    requires id in MetAll(start, at, order).left
    ensures MetAll(start, at, order + [id]) == Met(MetAll(start, at, order), id, at(id))
    ensures MetAll(start, at, order).left.Keys - {id} <= MetAll(start, at, order + [id]).left.Keys
  {
    assert (order + [id])[..|order|] == order;
  }

  /** The order lists each of the ids once. */
  ghost predicate Enumerates(order: seq<string>, ids: set<string>) {
    if order == [] then ids == {}
    else order[|order| - 1] in ids && Enumerates(order[..|order| - 1], ids - {order[|order| - 1]})
  }

  lemma EnumeratesAppended(order: seq<string>, ids: set<string>, id: string)
    requires Enumerates(order, ids) && id !in ids
    ensures Enumerates(order + [id], ids + {id})
  {
    assert (order + [id])[..|order|] == order;
    assert ids + {id} - {id} == ids;
  }

  lemma EnumeratesOneMore(order: seq<string>, all: set<string>, todo: set<string>, id: string)
    requires Enumerates(order, all - todo) && id in todo && id in all
    ensures Enumerates(order + [id], all - (todo - {id}))
  {
    EnumeratesAppended(order, all - todo, id);
    Moved(all, todo, id);
  }

  lemma PutBack<T>(s: set<T>, x: T)
    requires x in s
    ensures s - {x} + {x} == s
  {
  }

  lemma Moved<T>(all: set<T>, todo: set<T>, x: T)
    requires x in all && x in todo
    ensures all - todo + {x} == all - (todo - {x})
  {
  }

  /** The tally is that of the records met, whatever their order. */
  ghost predicate SweptSoFar(start: Items, at: Instants, ids: set<string>, t: Tally) {
    && t.left == start - Swept(start, at) * ids
    && t.removed == |Swept(start, at) * ids|
    && multiset(t.fired) == multiset(ExpiriesAmong(start, at, ids))
  }

  lemma LeftShrinks(start: Items, gone: set<string>, id: string)
    requires id in start && id !in gone
    ensures start - gone - {id} == start - (gone + {id})
    ensures id in start - gone && (start - gone)[id] == start[id]
  {
  }

  lemma SweptOneMore(maxSize: int, start: Items, at: Instants, ids: set<string>, id: string, t: Tally)
    requires SweptSoFar(start, at, ids, t)
    requires Inv(maxSize, start) && id in start && id !in ids
    ensures id in t.left && SweptSoFar(start, at, ids + {id}, Met(t, id, at(id)))
  {
    SweptGrows(start, at, ids, id);
    LeftShrinks(start, Swept(start, at) * ids, id);
    assert forall i | i in start :: WellKept(i, start[i].approval);
    ExpiriesGrow(start, at, ids, id);
  }

  lemma SweptNone(start: Items, at: Instants)
    ensures SweptSoFar(start, at, {}, Tally(start, 0, []))
  {
  }

  lemma {:induction false} MetAllIsSwept(maxSize: int, start: Items, at: Instants, order: seq<string>, ids: set<string>)
    requires Inv(maxSize, start) && ids <= start.Keys && Enumerates(order, ids)
    ensures SweptSoFar(start, at, ids, MetAll(start, at, order))
    decreases |order|
  {
    if order == [] {
      SweptNone(start, at);
    } else {
      var front, id := order[..|order| - 1], order[|order| - 1];
      var t := MetAll(start, at, front);
      MetAllIsSwept(maxSize, start, at, front, ids - {id});
      SweptOneMore(maxSize, start, at, ids - {id}, id, t);
      PutBack(ids, id);
      assert MetAll(start, at, order) == Met(t, id, at(id));
    }
  }

  /** In whatever order a sweep meets the records, each once, it has the same effect. */
  lemma {:induction false} SweepIsOrderFree(maxSize: int, start: Items, now: int, at: Instants, order: seq<string>)
    requires Inv(maxSize, start) && Enumerates(order, start.Keys)
    ensures var t := MetAll(start, at, order);
            Apply(maxSize, start, now, Sweep(at)) == Effect(t.left, Count(t.removed), multiset(t.fired))
  {
    MetAllIsSwept(maxSize, start, at, order, start.Keys);
    assert Swept(start, at) * start.Keys == Swept(start, at);
    assert ExpiriesAmong(start, at, start.Keys) == Expiries(start, at);
  }

  lemma Suffixes<T>(a: seq<T>, b: seq<T>, c: seq<T>)
    requires a <= b <= c
    ensures multiset(c[|a|..]) == multiset(b[|a|..]) + multiset(c[|b|..])
  {
    assert c[|a|..] == b[|a|..] + c[|b|..];
  }

  /** A decision is accepted exactly for a pending record before its deadline, on the clock of the expiry check. */
  lemma DecidedOnlyBeforeDeadline(maxSize: int, items: Items, now: int, op: Op)
    requires Inv(maxSize, items) && op.Decision()
    ensures Apply(maxSize, items, now, op).reply.Found?
       <==> && op.id in items
            && items[op.id].approval.status.Pending?
            && now < Deadline(items[op.id].createdAt, items[op.id].approval.expiresIn)
  {
    if op.id in items {
      assert WellKept(op.id, items[op.id].approval);
    }
  }

  /** A sweep conserves records: what it counts plus what it leaves is what there was. */
  lemma SweepConserves(maxSize: int, items: Items, now: int, at: Instants)
    ensures var e := Apply(maxSize, items, now, Sweep(at));
            e.reply.Count? && e.reply.n + |e.items| == |items|
  {
    var left, gone := Apply(maxSize, items, now, Sweep(at)).items, Swept(items, at);
    assert items.Keys == left.Keys + gone && left.Keys !! gone;
    assert |items| == |items.Keys| && |left| == |left.Keys|;
  }

  /** A sweep leaves exactly the records still pending before their deadline when it meets them, untouched. */
  lemma SweepLeavesLiveRecords(maxSize: int, items: Items, now: int, at: Instants, id: string)
    requires Inv(maxSize, items) && id in items
    ensures var left := Apply(maxSize, items, now, Sweep(at)).items;
            && (id in left <==> items[id].approval.status.Pending?
                                && at(id) < Deadline(items[id].createdAt, items[id].approval.expiresIn))
            && (id in left ==> left[id] == items[id])
  {
    assert WellKept(id, items[id].approval);
  }

  /** A locked section never touches a terminal record except to remove it. */
  lemma TerminalIsImmutable(maxSize: int, items: Items, now: int, op: Op, id: string)
    requires id in items && items[id].approval.status.Terminal()
    requires op.Create? ==> op.minted != Some(id)
    ensures var items' := Apply(maxSize, items, now, op).items;
            id in items' ==> items'[id] == items[id]
  {
  }
}
