/**
 The store under concurrent callers. A locked section is one atomic step; the
 hook calls it owes are made later, one at a time, in any interleaving with the
 steps of other callers (and of the janitor, whose sweeps are calls like any
 other). Ids are fresh, as 256 random bits are taken to be.
 */
module ApprovalProtocol {
  import opened Wrappers
  import opened ApprovalModel

  /** A completed locked section. */
  datatype Event = Event(op: Op, now: int, reply: Reply)

  /**
   items: the records. used: every id ever minted. owed: hook arguments cloned
   under the lock and not yet delivered. delivered: hook calls made. history:
   the locked sections so far. last: for each id that left the pending state,
   the approval it left with, read off the records and not off the hook.
   */
  datatype State = State(
    items: Items,
    used: set<string>,
    owed: seq<ApprovalValue>,
    delivered: seq<ApprovalValue>,
    history: seq<Event>,
    last: map<string, ApprovalValue>,
    clock: int)

  /** order: the order in which a sweep met the records it expired. */
  datatype Step =
    | Locked(op: Op, now: int, order: seq<ApprovalValue>)
    | Fire(k: nat)

  function Start(clock: int): State {
    State(map[], {}, [], [], [], map[], clock)
  }

  predicate Enabled(maxSize: int, s: State, step: Step) {
    match step
    case Locked(op, now, order) =>
      && s.clock <= now
      && (op.Sweep? ==> forall id | id in s.items :: s.clock <= op.at(id) <= now)
      && (op.Create? && op.minted.Some? ==> op.minted.value !in s.used)
      && multiset(order) == Apply(maxSize, s.items, now, op).fired
    case Fire(k) => k < |s.owed|
  }

  /** The ids whose record left the pending state: decided, expired, or swept away expired. */
  function Left(before: Items, after: Items, op: Op): set<string> {
    set id | id in before && before[id].approval.status.Pending?
             && if id in after then after[id].approval.status.Terminal() else op.Sweep?
  }

  function LeftWith(before: Items, after: Items, id: string): ApprovalValue
    requires id in before
  {
    if id in after then after[id].approval else before[id].approval.(status := Expired, expiresIn := 0)
  }

  /** The approvals that left, by id. */
  function Departed(before: Items, after: Items, op: Op): map<string, ApprovalValue> {
    map id | id in Left(before, after, op) :: LeftWith(before, after, id)
  }

  function Next(maxSize: int, s: State, step: Step): State
    requires Enabled(maxSize, s, step)
  {
    match step
    case Locked(op, now, order) =>
      var e := Apply(maxSize, s.items, now, op);
      State(e.items,
            if op.Create? && op.minted.Some? then s.used + {op.minted.value} else s.used,
            s.owed + order,
            s.delivered,
            s.history + [Event(op, now, e.reply)],
            s.last + Departed(s.items, e.items, op),
            now)
    case Fire(k) =>
      s.(owed := s.owed[..k] + s.owed[k + 1..], delivered := s.delivered + [s.owed[k]])
  }

  ghost predicate IsRun(maxSize: int, s: State, steps: seq<Step>)
    decreases |steps|
  {
    steps == [] || (Enabled(maxSize, s, steps[0]) && IsRun(maxSize, Next(maxSize, s, steps[0]), steps[1..]))
  }

  ghost function After(maxSize: int, s: State, steps: seq<Step>): State
    requires IsRun(maxSize, s, steps)
    decreases |steps|
  {
    if steps == [] then s else After(maxSize, Next(maxSize, s, steps[0]), steps[1..])
  }

  // ---- exactly-once resolution

  function Values(m: map<string, ApprovalValue>): set<ApprovalValue> {
    set id | id in m :: m[id]
  }

  predicate Keyed(m: map<string, ApprovalValue>) {
    forall id | id in m :: m[id].id == id && m[id].status.Terminal()
  }

  ghost predicate Resolving(maxSize: int, s: State) {
    && Inv(maxSize, s.items)
    && s.items.Keys <= s.used && s.last.Keys <= s.used
    && Keyed(s.last)
    && (forall id | id in s.items :: MatchesLast(s.items, s.last, id))
    && multiset(s.owed) + multiset(s.delivered) == multiset(Values(s.last))
  }

  /** Disjointly keyed additions add their values. */
  lemma ValuesOfUnion(m: map<string, ApprovalValue>, n: map<string, ApprovalValue>)
    requires Keyed(m) && Keyed(n) && m.Keys !! n.Keys
    ensures Keyed(m + n)
    ensures multiset(Values(m + n)) == multiset(Values(m)) + multiset(Values(n))
  {
    assert Values(m + n) == Values(m) + Values(n) by {
      forall v | v in Values(m)
        ensures v in Values(m + n)
      {
        assert v.id in m && (m + n)[v.id] == v;
      }
      forall v | v in Values(n)
        ensures v in Values(m + n)
      {
        assert v.id in n && (m + n)[v.id] == v;
      }
    }
    assert Values(m) !! Values(n);
  }

  /** What a locked section reports is what its records say left the pending state. */
  lemma FiredAreTheOnesThatLeft(maxSize: int, items: Items, now: int, op: Op)
    requires Inv(maxSize, items)
    requires op.Create? && op.minted.Some? ==> op.minted.value !in items
    ensures var e := Apply(maxSize, items, now, op);
            var n := Departed(items, e.items, op);
            Keyed(n) && e.fired == multiset(Values(n))
  {
    if op.Sweep? {
      ExpiredLeave(maxSize, items, now, op.at);
    } else if (op.Get? || op.Decision()) && op.id in items {
      assert WellKept(op.id, items[op.id].approval);
      LookupFires(maxSize, items, now, op);
    } else {
      NoneLeaves(maxSize, items, now, op);
    }
  }

  lemma NoneLeaves(maxSize: int, items: Items, now: int, op: Op)
    requires !op.Sweep? && ((op.Get? || op.Decision()) ==> op.id !in items)
    requires op.Create? && op.minted.Some? ==> op.minted.value !in items
    ensures var e := Apply(maxSize, items, now, op);
            Departed(items, e.items, op) == map[] && e.fired == multiset{}
  {
    var items' := Apply(maxSize, items, now, op).items;
    forall id | id in items && id in items'
      ensures items'[id] == items[id]
    {
      OthersStay(maxSize, items, now, op, id);
    }
    assert Left(items, items', op) == {};
  }

  lemma OthersStay(maxSize: int, items: Items, now: int, op: Op, id: string)
    requires !op.Sweep? && ((op.Get? || op.Decision()) ==> op.id !in items)
    requires op.Create? && op.minted.Some? ==> op.minted.value !in items
    requires id in items && id in Apply(maxSize, items, now, op).items
    ensures Apply(maxSize, items, now, op).items[id] == items[id]
  {
  }

  lemma LookupFires(maxSize: int, items: Items, now: int, op: Op)
    requires (op.Get? || op.Decision()) && op.id in items
    requires WellKept(op.id, items[op.id].approval)
    ensures var e := Apply(maxSize, items, now, op);
            var n := Departed(items, e.items, op);
            Keyed(n) && e.fired == multiset(Values(n))
  {
    if op.Get? {
      OneLeaves(items, Expire(items[op.id], now), op);
    } else {
      var r := DecidedRecord(items[op.id], now, op);
      DecideTouchesOne(items, now, op);
      OneLeaves(items, r, op);
    }
  }

  function DecidedRecord(r: Rec, now: int, op: Op): Rec
    requires op.Decision()
  {
    var x := Expire(r, now);
    if Refusal(x.approval.status).Some? then x else x.(approval := Decided(x.approval, op))
  }

  lemma DecideTouchesOne(items: Items, now: int, op: Op)
    requires op.Decision() && op.id in items
    requires WellKept(op.id, items[op.id].approval)
    ensures var r := DecidedRecord(items[op.id], now, op);
            && WellKept(op.id, r.approval)
            && Decide(items, now, op).items == items[op.id := r]
            && Decide(items, now, op).fired == (if items[op.id].approval.status.Pending? then multiset{r.approval} else multiset{})
            && (items[op.id].approval.status.Pending? ==> r.approval.status.Terminal())
  {
    var x := Expire(items[op.id], now);
    var refused := Refusal(x.approval.status);
    if refused.Some? {
      DecideRefuses(items, now, op, refused.value);
    } else {
      DecideAccepts(items, now, op);
    }
  }

  lemma ExpiredLeave(maxSize: int, items: Items, now: int, at: Instants)
    requires Inv(maxSize, items)
    ensures var n := Departed(items, Apply(maxSize, items, now, Sweep(at)).items, Sweep(at));
            Keyed(n) && Values(n) == Expiries(items, at)
  {
    var n := Departed(items, Apply(maxSize, items, now, Sweep(at)).items, Sweep(at));
    SweptAwayExpired(maxSize, items, now, at);
    forall v | v in Expiries(items, at)
      ensures v in Values(n)
    {
      assert v.id in n && n[v.id] == v;
    }
  }

  lemma SweptAwayExpired(maxSize: int, items: Items, now: int, at: Instants)
    requires Inv(maxSize, items)
    ensures var n := Departed(items, Apply(maxSize, items, now, Sweep(at)).items, Sweep(at));
            && n.Keys == (set id | id in items && Due(items[id], at(id)))
            && (forall id | id in n :: n[id] == Expire(items[id], at(id)).approval && n[id].id == id)
  {
    assert forall id | id in items :: WellKept(id, items[id].approval);
  }

  /** A call about one record: it alone can leave. */
  lemma OneLeaves(items: Items, r: Rec, op: Op)
    requires (op.Get? || op.Decision()) && op.id in items
    requires WellKept(op.id, items[op.id].approval) && WellKept(op.id, r.approval)
    ensures var n := Departed(items, items[op.id := r], op);
            && Keyed(n)
            && Values(n) == if items[op.id].approval.status.Pending? && r.approval.status.Terminal() then {r.approval} else {}
  {
    var n := Departed(items, items[op.id := r], op);
    if items[op.id].approval.status.Pending? && r.approval.status.Terminal() {
      assert n == map[op.id := r.approval];
      assert n[op.id] in Values(n);
    } else {
      assert n == map[];
    }
  }

  lemma StartResolves(maxSize: int, clock: int)
    ensures Resolving(maxSize, Start(clock))
  {
    assert Values(map[]) == {};
  }

  lemma LockedKeepsResolving(maxSize: int, s: State, step: Step)
    requires Resolving(maxSize, s) && Enabled(maxSize, s, step) && step.Locked?
    ensures Resolving(maxSize, Next(maxSize, s, step))
  {
    ApplyKeepsInv(maxSize, s.items, step.now, step.op);
    LockedOwesWhatLeft(maxSize, s, step);
    var s' := Next(maxSize, s, step);
    forall id | id in s'.items
      ensures MatchesLast(s'.items, s'.last, id)
    {
      RecordMatchesLast(maxSize, s, step, id);
    }
  }

  lemma LockedOwesWhatLeft(maxSize: int, s: State, step: Step)
    requires Resolving(maxSize, s) && Enabled(maxSize, s, step) && step.Locked?
    ensures var s' := Next(maxSize, s, step);
            && s'.items.Keys <= s'.used && s'.last.Keys <= s'.used
            && Keyed(s'.last)
            && multiset(s'.owed) + multiset(s'.delivered) == multiset(Values(s'.last))
  {
    var e := Apply(maxSize, s.items, step.now, step.op);
    FiredAreTheOnesThatLeft(maxSize, s.items, step.now, step.op);
    ApplyKeys(maxSize, s.items, step.now, step.op);
    OwedAndDelivered(s, Departed(s.items, e.items, step.op), step.order);
  }

  lemma ApplyKeys(maxSize: int, items: Items, now: int, op: Op)
    ensures Apply(maxSize, items, now, op).items.Keys
         <= items.Keys + (if op.Create? && op.minted.Some? then {op.minted.value} else {})
  {
  }

  lemma OwedAndDelivered(s: State, n: map<string, ApprovalValue>, order: seq<ApprovalValue>)
    requires Keyed(s.last) && Keyed(n) && s.last.Keys !! n.Keys
    requires multiset(s.owed) + multiset(s.delivered) == multiset(Values(s.last))
    requires multiset(order) == multiset(Values(n))
    ensures Keyed(s.last + n)
    ensures multiset(s.owed + order) + multiset(s.delivered) == multiset(Values(s.last + n))
  {
    ValuesOfUnion(s.last, n);
  }

  lemma RecordMatchesLast(maxSize: int, s: State, step: Step, id: string)
    requires Resolving(maxSize, s) && Enabled(maxSize, s, step) && step.Locked?
    requires id in Next(maxSize, s, step).items
    ensures MatchesLast(Next(maxSize, s, step).items, Next(maxSize, s, step).last, id)
  {
    var items' := Apply(maxSize, s.items, step.now, step.op).items;
    RecordsStayWellKept(maxSize, s.items, step.now, step.op, id);
    if id in s.items {
      assert WellKept(id, s.items[id].approval);
      if s.items[id].approval.status.Terminal() {
        TerminalIsImmutable(maxSize, s.items, step.now, step.op, id);
      }
      LastFollows(s.items, items', s.last, step.op, id);
    } else {
      CreatedIsPending(maxSize, s.items, step.now, step.op, id);
    }
  }

  predicate MatchesLast(items: Items, last: map<string, ApprovalValue>, id: string)
    requires id in items
  {
    && (items[id].approval.status.Pending? <==> id !in last)
    && (id in last ==> items[id].approval == last[id])
  }

  lemma CreatedIsPending(maxSize: int, items: Items, now: int, op: Op, id: string)
    requires id !in items && id in Apply(maxSize, items, now, op).items
    ensures op.Create? && op.minted == Some(id)
    ensures Apply(maxSize, items, now, op).items[id].approval.status.Pending?
  {
  }

  lemma LastFollows(items: Items, items': Items, last: map<string, ApprovalValue>, op: Op, id: string)
    requires id in items && id in items' && MatchesLast(items, last, id)
    requires WellKept(id, items[id].approval) && WellKept(id, items'[id].approval)
    requires items[id].approval.status.Terminal() ==> items'[id] == items[id]
    ensures MatchesLast(items', last + Departed(items, items', op), id)
  {
    assert id in Departed(items, items', op) <==> items[id].approval.status.Pending? && items'[id].approval.status.Terminal();
  }

  lemma FireKeepsResolving(maxSize: int, s: State, step: Step)
    requires Resolving(maxSize, s) && Enabled(maxSize, s, step) && step.Fire?
    ensures Resolving(maxSize, Next(maxSize, s, step))
  {
    var k := step.k;
    assert s.owed == s.owed[..k] + [s.owed[k]] + s.owed[k + 1..];
    assert multiset(s.owed) == multiset(s.owed[..k]) + multiset{s.owed[k]} + multiset(s.owed[k + 1..]);
  }

  lemma {:induction false} RunKeepsResolving(maxSize: int, s: State, steps: seq<Step>)
    requires Resolving(maxSize, s) && IsRun(maxSize, s, steps)
    ensures Resolving(maxSize, After(maxSize, s, steps))
    decreases |steps|
  {
    if steps != [] {
      if steps[0].Locked? {
        LockedKeepsResolving(maxSize, s, steps[0]);
      } else {
        FireKeepsResolving(maxSize, s, steps[0]);
      }
      RunKeepsResolving(maxSize, Next(maxSize, s, steps[0]), steps[1..]);
    }
  }

  /** How many of the approvals are for id. */
  function CountFor(xs: seq<ApprovalValue>, id: string): nat {
    if xs == [] then 0 else (if xs[0].id == id then 1 else 0) + CountFor(xs[1..], id)
  }

  lemma MemberOfValues(m: map<string, ApprovalValue>, id: string)
    ensures id in m ==> m[id] in multiset(Values(m))
  {
  }

  lemma ValuesWithout(m: map<string, ApprovalValue>, v: ApprovalValue)
    requires Keyed(m) && v in Values(m)
    ensures Keyed(m - {v.id}) && Values(m - {v.id}) == Values(m) - {v}
  {
    var n := m - {v.id};
    forall w | w in Values(m) && w != v
      ensures w in Values(n)
    {
      assert w.id in n && n[w.id] == w;
    }
  }

  /** In a sequence without repeats and with distinct ids, an id counts once or not at all. */
  lemma {:induction false} CountInKeyed(xs: seq<ApprovalValue>, m: map<string, ApprovalValue>, id: string)
    requires Keyed(m) && multiset(xs) == multiset(Values(m))
    ensures CountFor(xs, id) == if id in m then 1 else 0
    decreases |xs|
  {
    MemberOfValues(m, id);
    if xs != [] {
      var v := xs[0];
      assert xs == [v] + xs[1..];
      assert v in multiset(xs);
      assert v in Values(m);
      var n := m - {v.id};
      ValuesWithout(m, v);
      assert multiset(xs[1..]) == multiset(xs) - multiset{v};
      CountInKeyed(xs[1..], n, id);
    }
  }

  lemma {:induction false} CountForAppend(xs: seq<ApprovalValue>, ys: seq<ApprovalValue>, id: string)
    ensures CountFor(xs + ys, id) == CountFor(xs, id) + CountFor(ys, id)
  {
    if xs == [] {
      assert xs + ys == ys;
    } else {
      assert (xs + ys)[1..] == xs[1..] + ys;
      CountForAppend(xs[1..], ys, id);
    }
  }

  /**
   In every reachable state, hook calls made plus hook calls owed for an id are
   one if its record ever left the pending state and none otherwise; each
   carries the final approval, which is also what the store still holds.
   */
  lemma {:induction false} ResolvedExactlyOnce(maxSize: int, clock: int, steps: seq<Step>, id: string)
    requires IsRun(maxSize, Start(clock), steps)
    ensures var s := After(maxSize, Start(clock), steps);
            && CountFor(s.owed, id) + CountFor(s.delivered, id) == (if id in s.last then 1 else 0)
            && (forall a | a in s.owed + s.delivered ::
                  a.status.Terminal() && a.id in s.last && s.last[a.id] == a
                  && (a.id in s.items ==> s.items[a.id].approval == a))
  {
    StartResolves(maxSize, clock);
    RunKeepsResolving(maxSize, Start(clock), steps);
    var s := After(maxSize, Start(clock), steps);
    var all := s.owed + s.delivered;
    CountInKeyed(all, s.last, id);
    CountForAppend(s.owed, s.delivered, id);
    forall a | a in all
      ensures a.status.Terminal() && a.id in s.last && s.last[a.id] == a
      ensures a.id in s.items ==> s.items[a.id].approval == a
    {
      assert a in multiset(all);
      assert a in Values(s.last);
    }
  }

  /** Once an id is gone, nothing more is owed or decided for it: deleting a pending record silences it. */
  lemma {:induction false} GoneStaysGone(maxSize: int, s: State, steps: seq<Step>, id: string)
    requires IsRun(maxSize, s, steps) && Resolving(maxSize, s)
    requires id in s.used && id !in s.items
    ensures var s' := After(maxSize, s, steps);
            && id !in s'.items
            && (id in s'.last <==> id in s.last)
            && CountFor(s'.owed, id) + CountFor(s'.delivered, id) == (if id in s.last then 1 else 0)
    decreases |steps|
  {
    if steps == [] {
      CountInKeyed(s.owed + s.delivered, s.last, id);
      CountForAppend(s.owed, s.delivered, id);
    } else {
      GoneStaysGoneOneStep(maxSize, s, steps[0], id);
      GoneStaysGone(maxSize, Next(maxSize, s, steps[0]), steps[1..], id);
    }
  }

  /**
   After a delete, and for good, the hook calls made and owed for the id are one if
   the record had left the pending state by then, and none if it was still
   pending, past its deadline or not: an expiry that no call has observed is lost.
   */
  lemma {:induction false} DeleteDecidesTheCount(maxSize: int, s: State, id: string, now: int, steps: seq<Step>)
    requires Resolving(maxSize, s) && id in s.items && s.clock <= now
    requires IsRun(maxSize, Next(maxSize, s, Locked(Delete(id), now, [])), steps)
    ensures var s' := After(maxSize, Next(maxSize, s, Locked(Delete(id), now, [])), steps);
            CountFor(s'.owed, id) + CountFor(s'.delivered, id) == if s.items[id].approval.status.Pending? then 0 else 1
  {
    var step := Locked(Delete(id), now, []);
    assert Enabled(maxSize, s, step);
    LockedKeepsResolving(maxSize, s, step);
    assert MatchesLast(s.items, s.last, id);
    assert id !in Left(s.items, s.items - {id}, step.op);
    GoneStaysGone(maxSize, Next(maxSize, s, step), steps, id);
  }

  /** The same in a run from a new store: what the documentation calls exactly once. */
  lemma {:induction false} ExactlyOnceUnlessDeletedPending(maxSize: int, clock: int, before: seq<Step>, id: string, now: int, after: seq<Step>)
    requires IsRun(maxSize, Start(clock), before)
    requires var s := After(maxSize, Start(clock), before);
             && id in s.items && s.clock <= now
             && IsRun(maxSize, Next(maxSize, s, Locked(Delete(id), now, [])), after)
    ensures var s := After(maxSize, Start(clock), before);
            var s' := After(maxSize, Next(maxSize, s, Locked(Delete(id), now, [])), after);
            CountFor(s'.owed, id) + CountFor(s'.delivered, id) == 1 <==> !s.items[id].approval.status.Pending?
  {
    StartResolves(maxSize, clock);
    RunKeepsResolving(maxSize, Start(clock), before);
    DeleteDecidesTheCount(maxSize, After(maxSize, Start(clock), before), id, now, after);
  }

  /** A run that creates an approval and deletes it while it is pending. */
  const CREATED := Locked(Create(Some("a"), EMPTY_APPROVAL), 0, [])
  const DELETED := Locked(Delete("a"), 0, [])

  lemma DeletedPendingExample(maxSize: int)
    ensures IsRun(maxSize, Start(0), [CREATED, DELETED])
    ensures var s := After(maxSize, Start(0), [CREATED, DELETED]);
            "a" !in s.items && CountFor(s.owed, "a") + CountFor(s.delivered, "a") == 0
  {
    var s := Next(maxSize, Start(0), CREATED);
    assert [CREATED, DELETED][1..] == [DELETED] && [DELETED][1..] == [];
    assert s.items == map["a" := Rec(Prepared(EMPTY_APPROVAL, "a"), 0)];
    StartResolves(maxSize, 0);
    LockedKeepsResolving(maxSize, Start(0), CREATED);
    DeleteDecidesTheCount(maxSize, s, "a", 0, []);
  }

  lemma GoneStaysGoneOneStep(maxSize: int, s: State, step: Step, id: string)
    requires Resolving(maxSize, s) && Enabled(maxSize, s, step)
    requires id in s.used && id !in s.items
    ensures var s' := Next(maxSize, s, step);
            && Resolving(maxSize, s')
            && id in s'.used && id !in s'.items
            && (id in s'.last <==> id in s.last)
  {
    if step.Locked? {
      LockedKeepsResolving(maxSize, s, step);
      ApplyKeys(maxSize, s.items, step.now, step.op);
      assert id !in Left(s.items, Apply(maxSize, s.items, step.now, step.op).items, step.op);
    } else {
      FireKeepsResolving(maxSize, s, step);
    }
  }
}
