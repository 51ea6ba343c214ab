/**
 Decisions and polls over whole runs: what the locked sections so far say about
 the one before us.
 */
module ApprovalHistory {
  import opened Wrappers
  import opened ApprovalModel
  import opened ApprovalProtocol

  /** The status a decision asks for. */
  predicate AsksFor(op: Op, k: Status) {
    (op.Approve? && k.Approved?) || (op.Deny? && k.Denied?) || (op.Cancel? && k.Canceled?)
  }

  predicate Succeeded(e: Event, id: string) {
    e.op.Decision() && e.op.id == id && e.reply.Found?
  }

  predicate SucceededAs(e: Event, id: string, k: Status) {
    Succeeded(e, id) && AsksFor(e.op, k)
  }

  predicate Polled(e: Event, id: string) {
    e.op.Get? && e.op.id == id && e.reply.Found?
  }

  ghost predicate SucceededBefore(h: seq<Event>, n: nat, id: string)
    requires n <= |h|
  {
    exists i :: 0 <= i < n && Succeeded(h[i], id)
  }

  /** A successful Approve, Deny or Cancel of id comes before the n-th event, for the status k. */
  ghost predicate DecidedBefore(h: seq<Event>, n: nat, id: string, k: Status)
    requires n <= |h|
  {
    exists i :: 0 <= i < n && SucceededAs(h[i], id, k)
  }

  /** And it was answered with this approval. */
  ghost predicate RepliedBefore(h: seq<Event>, n: nat, id: string, a: ApprovalValue)
    requires n <= |h|
  {
    exists i :: 0 <= i < n && Succeeded(h[i], id) && h[i].reply.approval == a
  }

  predicate ByDecision(k: Status) {
    k.Approved? || k.Denied? || k.Canceled?
  }

  /** The approval is decided exactly as some decision before was, and then it is what that one answered. */
  ghost predicate AsDecided(a: ApprovalValue, h: seq<Event>, n: nat, id: string)
    requires n <= |h|
  {
    && (a.status.Approved? <==> DecidedBefore(h, n, id, Approved))
    && (a.status.Denied? <==> DecidedBefore(h, n, id, Denied))
    && (a.status.Canceled? <==> DecidedBefore(h, n, id, Canceled))
    && (ByDecision(a.status) ==> RepliedBefore(h, n, id, a))
  }

  /** The history explains the records. */
  ghost predicate Explained(s: State) {
    forall id :: ExplainedFor(s, id)
  }

  ghost predicate ExplainedFor(s: State, id: string) {
    Explains(s.items, s.used, s.history, id)
  }

  ghost predicate Explains(items: Items, used: set<string>, h: seq<Event>, id: string) {
    && (id in items && items[id].approval.status.Pending? ==> !SucceededBefore(h, |h|, id))
    && (id in items ==> AsDecided(items[id].approval, h, |h|, id))
    && (id !in used ==> !SucceededBefore(h, |h|, id))
  }

  /** At most one decision on an id succeeds, and every poll shows what was decided before it. */
  ghost predicate Sound(h: seq<Event>) {
    && (forall j, id :: 0 <= j < |h| && Succeeded(h[j], id) ==> !SucceededBefore(h, j, id))
    && (forall j, id :: 0 <= j < |h| && Polled(h[j], id) ==> AsDecided(h[j].reply.approval, h, j, id))
  }

  lemma EventExtends(h: seq<Event>, e: Event, id: string)
    ensures SucceededBefore(h + [e], |h| + 1, id) <==> SucceededBefore(h, |h|, id) || Succeeded(e, id)
    ensures forall k :: DecidedBefore(h + [e], |h| + 1, id, k) <==> DecidedBefore(h, |h|, id, k) || SucceededAs(e, id, k)
    ensures forall a :: RepliedBefore(h + [e], |h| + 1, id, a)
                   <==> RepliedBefore(h, |h|, id, a) || (Succeeded(e, id) && e.reply.approval == a)
  {
    SucceededExtends(h, e, id);
    forall k
      ensures DecidedBefore(h + [e], |h| + 1, id, k) <==> DecidedBefore(h, |h|, id, k) || SucceededAs(e, id, k)
    {
      DecidedExtends(h, e, id, k);
    }
    forall a
      ensures RepliedBefore(h + [e], |h| + 1, id, a)
         <==> RepliedBefore(h, |h|, id, a) || (Succeeded(e, id) && e.reply.approval == a)
    {
      RepliedExtends(h, e, id, a);
    }
  }

  lemma SucceededExtends(h: seq<Event>, e: Event, id: string)
    ensures SucceededBefore(h + [e], |h| + 1, id) <==> SucceededBefore(h, |h|, id) || Succeeded(e, id)
  {
    var g := h + [e];
    if SucceededBefore(g, |h| + 1, id) {
      var i :| 0 <= i < |g| && Succeeded(g[i], id);
      assert i < |h| ==> h[i] == g[i];
      assert i == |h| ==> g[i] == e;
    }
    if SucceededBefore(h, |h|, id) {
      var i :| 0 <= i < |h| && Succeeded(h[i], id);
      assert Succeeded(g[i], id);
    }
    if Succeeded(e, id) {
      assert Succeeded(g[|h|], id);
    }
  }

  lemma DecidedExtends(h: seq<Event>, e: Event, id: string, k: Status)
    ensures DecidedBefore(h + [e], |h| + 1, id, k) <==> DecidedBefore(h, |h|, id, k) || SucceededAs(e, id, k)
  {
    var g := h + [e];
    if DecidedBefore(g, |h| + 1, id, k) {
      var i :| 0 <= i < |g| && SucceededAs(g[i], id, k);
      assert i < |h| ==> h[i] == g[i];
      assert i == |h| ==> g[i] == e;
    }
    if DecidedBefore(h, |h|, id, k) {
      var i :| 0 <= i < |h| && SucceededAs(h[i], id, k);
      assert SucceededAs(g[i], id, k);
    }
    if SucceededAs(e, id, k) {
      assert SucceededAs(g[|h|], id, k);
    }
  }

  lemma RepliedExtends(h: seq<Event>, e: Event, id: string, a: ApprovalValue)
    ensures RepliedBefore(h + [e], |h| + 1, id, a)
       <==> RepliedBefore(h, |h|, id, a) || (Succeeded(e, id) && e.reply.approval == a)
  {
    var g := h + [e];
    if RepliedBefore(g, |h| + 1, id, a) {
      var i :| 0 <= i < |g| && Succeeded(g[i], id) && g[i].reply.approval == a;
      assert i < |h| ==> h[i] == g[i];
      assert i == |h| ==> g[i] == e;
    }
    if RepliedBefore(h, |h|, id, a) {
      var i :| 0 <= i < |h| && Succeeded(h[i], id) && h[i].reply.approval == a;
      assert Succeeded(g[i], id) && g[i].reply.approval == a;
    }
    if Succeeded(e, id) && e.reply.approval == a {
      assert Succeeded(g[|h|], id) && g[|h|].reply.approval == a;
    }
  }

  lemma PrefixKeepsBefore(h: seq<Event>, e: Event, n: nat, id: string, a: ApprovalValue)
    requires n <= |h|
    ensures SucceededBefore(h + [e], n, id) <==> SucceededBefore(h, n, id)
    ensures AsDecided(a, h + [e], n, id) <==> AsDecided(a, h, n, id)
  {
    var g := h + [e];
    assert forall i {:trigger h[i]} {:trigger g[i]} :: 0 <= i < n ==> g[i] == h[i];
    assert forall k :: DecidedBefore(g, n, id, k) <==> DecidedBefore(h, n, id, k);
    assert RepliedBefore(g, n, id, a) <==> RepliedBefore(h, n, id, a);
  }

  /** What one event says about the record it was about, before and after. */
  predicate Matches(before: Items, after: Items, e: Event, id: string) {
    && (Succeeded(e, id) ==>
          && id in before && before[id].approval.status.Pending?
          && id in after && AsksFor(e.op, after[id].approval.status) && e.reply.approval == after[id].approval)
    && (Polled(e, id) ==> id in before && SameDecision(e.reply.approval, before[id].approval))
    && (id in before && id in after && !Succeeded(e, id) ==> SameDecision(after[id].approval, before[id].approval))
    && (id in before && id in after && after[id].approval.status.Pending? ==> before[id].approval.status.Pending?)
    && (id !in before && id in after ==> after[id].approval.status.Pending?)
  }

  /** One is decided when the other is, and then they are the same. */
  predicate SameDecision(a: ApprovalValue, b: ApprovalValue) {
    ByDecision(a.status) || ByDecision(b.status) ==> a == b
  }

  lemma ReplyMatchesRecord(maxSize: int, items: Items, now: int, op: Op, id: string)
    requires Inv(maxSize, items)
    requires op.Create? && op.minted.Some? ==> op.minted.value !in items
    ensures var e := Apply(maxSize, items, now, op);
            Matches(items, e.items, Event(op, now, e.reply), id)
  {
    if id in items {
      assert WellKept(id, items[id].approval);
    }
    if op.Decision() {
      DecisionMatchesRecord(items, now, op, id);
    }
  }

  lemma DecisionMatchesRecord(items: Items, now: int, op: Op, id: string)
    requires op.Decision() && (op.id in items ==> WellKept(op.id, items[op.id].approval))
    ensures var e := Decide(items, now, op);
            Matches(items, e.items, Event(op, now, e.reply), id)
  {
    if op.id in items {
      DecideTouchesOne(items, now, op);
    }
  }

  lemma LockedExplains(maxSize: int, s: State, step: Step, id: string)
    requires Resolving(maxSize, s) && ExplainedFor(s, id)
    requires Enabled(maxSize, s, step) && step.Locked?
    ensures ExplainedFor(Next(maxSize, s, step), id)
  {
    var e := Apply(maxSize, s.items, step.now, step.op);
    ReplyMatchesRecord(maxSize, s.items, step.now, step.op, id);
    ApplyKeys(maxSize, s.items, step.now, step.op);
    EventExplains(s.items, e.items, s.used, Next(maxSize, s, step).used, s.history, Event(step.op, step.now, e.reply), id);
  }

  lemma EventExplains(before: Items, after: Items, used: set<string>, used': set<string>, h: seq<Event>, e: Event,
                      id: string)
    requires Explains(before, used, h, id) && Matches(before, after, e, id)
    requires before.Keys <= used <= used' && (id in after && id !in before ==> id !in used)
    ensures Explains(after, used', h + [e], id)
  {
    EventExtends(h, e, id);
    DecidedWasSuccess(h, id);
  }

  lemma DecidedWasSuccess(h: seq<Event>, id: string)
    ensures forall k :: DecidedBefore(h, |h|, id, k) ==> SucceededBefore(h, |h|, id)
  {
  }

  lemma LockedKeepsSound(maxSize: int, s: State, step: Step)
    requires Resolving(maxSize, s) && Explained(s) && Sound(s.history)
    requires Enabled(maxSize, s, step) && step.Locked?
    ensures Explained(Next(maxSize, s, step)) && Sound(Next(maxSize, s, step).history)
  {
    forall id {
      LockedExplains(maxSize, s, step, id);
    }
    EventIsSound(maxSize, s, step.op, step.now);
  }

  lemma FireExplains(maxSize: int, s: State, step: Step, id: string)
    requires Explained(s) && Enabled(maxSize, s, step) && step.Fire?
    ensures ExplainedFor(Next(maxSize, s, step), id)
  {
    assert ExplainedFor(s, id);
  }

  lemma EventIsSound(maxSize: int, s: State, op: Op, now: int)
    requires Inv(maxSize, s.items) && Explained(s) && Sound(s.history)
    requires op.Create? && op.minted.Some? ==> op.minted.value !in s.items
    ensures Sound(s.history + [Event(op, now, Apply(maxSize, s.items, now, op).reply)])
  {
    var e := Event(op, now, Apply(maxSize, s.items, now, op).reply);
    var h := s.history + [e];
    forall j, id | 0 <= j < |h|
      ensures Succeeded(h[j], id) ==> !SucceededBefore(h, j, id)
      ensures Polled(h[j], id) ==> AsDecided(h[j].reply.approval, h, j, id)
    {
      assert j < |s.history| ==> h[j] == s.history[j];
      if h[j].reply.Found? {
        PrefixKeepsBefore(s.history, e, j, id, h[j].reply.approval);
      }
      if j == |s.history| {
        assert ExplainedFor(s, id);
        ReplyMatchesRecord(maxSize, s.items, now, op, id);
      }
    }
  }

  lemma {:induction false} RunKeepsSound(maxSize: int, s: State, steps: seq<Step>)
    requires Resolving(maxSize, s) && Explained(s) && Sound(s.history)
    requires IsRun(maxSize, s, steps)
    ensures Sound(After(maxSize, s, steps).history)
    decreases |steps|
  {
    if steps != [] {
      if steps[0].Locked? {
        LockedKeepsResolving(maxSize, s, steps[0]);
        LockedKeepsSound(maxSize, s, steps[0]);
      } else {
        FireKeepsResolving(maxSize, s, steps[0]);
        forall id {
          FireExplains(maxSize, s, steps[0], id);
        }
      }
      RunKeepsSound(maxSize, Next(maxSize, s, steps[0]), steps[1..]);
    }
  }

  /**
   Over every run: at most one Approve, Deny or Cancel of an id succeeds; a poll says
   approved, denied or canceled exactly when an Approve, a Deny or a Cancel succeeded
   before it, and then shows what that call answered; hence once a poll permits, every
   later poll does.
   */
  lemma {:induction false} DecisionsAreSafe(maxSize: int, clock: int, steps: seq<Step>)
    requires IsRun(maxSize, Start(clock), steps)
    ensures var h := After(maxSize, Start(clock), steps).history;
            && (forall i, j, id {:trigger Succeeded(h[i], id), Succeeded(h[j], id)} ::
                  0 <= i < j < |h| ==> !(Succeeded(h[i], id) && Succeeded(h[j], id)))
            && (forall j, id :: 0 <= j < |h| && Polled(h[j], id) ==> AsDecided(h[j].reply.approval, h, j, id))
            && (forall i, j, id {:trigger Polled(h[i], id), Polled(h[j], id)} ::
                  0 <= i < j < |h| && Polled(h[i], id) && Polled(h[j], id) && Permits(h[i].reply.approval) ==>
                    Permits(h[j].reply.approval))
  {
    StartResolves(maxSize, clock);
    RunKeepsSound(maxSize, Start(clock), steps);
    var h := After(maxSize, Start(clock), steps).history;
    forall i, j, id | 0 <= i < j < |h| && Polled(h[i], id) && Polled(h[j], id) && Permits(h[i].reply.approval)
      ensures Permits(h[j].reply.approval)
    {
      assert AsDecided(h[i].reply.approval, h, i, id) && AsDecided(h[j].reply.approval, h, j, id);
    }
  }
}
