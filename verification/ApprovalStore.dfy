/**
 The Store of approval/store.go on the heap. Each method does to the records
 exactly what Apply says, hands out only objects of its own making, and calls
 the hook with such objects after the records are settled.
 */
module ApprovalStore {
  import opened Wrappers
  import opened ApprovalModel
  import opened ApprovalObjects
  import opened References

  /**
   The OnResolve hook. It notes what it is called with and may then do anything
   to the approval it was given, or panic, which the store swallows.
   */
  class Resolver {
    ghost var calls: seq<ApprovalValue>

    constructor ()
      ensures calls == []
    {
      calls := [];
    }

    method OnResolve(a: Approval)
      requires a.Valid() && this !in a.Repr
      modifies this, a.Repr
      ensures calls == old(calls) + [old(a.Value)]
    {
      calls := calls + [a.Value];
      modify a.Repr;
    }
  }

  /** The store's bookkeeping for one approval. */
  datatype Record = Record(approval: Approval, createdAt: int)

  /** The record r is well formed, in objects among the given ones. */
  ghost predicate Sound(r: Record, objects: set<object>)
    reads objects
  {
    var a := r.approval;
    a in objects && a.Repr <= objects && a.Valid()
  }

  /**
   The approval of r is no part of s. Records may share anything else: the store
   writes into no grant, reason or request part that it was given.
   */
  ghost predicate Apart(r: Record, s: Record, objects: set<object>)
    reads objects
  {
    s.approval in objects && r.approval !in s.approval.Repr
  }

  /** What an approval points to, and never an approval or a party to the store. */
  ghost predicate IsPart(o: object) {
    !(o is Approval) && !(o is Store) && !(o is Resolver)
  }

  /** Repr holds the records' objects. */
  class Store {
    var items: map<string, Record>
    const maxSize: int
    const hook: Resolver?
    ghost var Repr: set<object>

    /** The records are well formed and separate, and the hook is no part of them. */
    ghost predicate Intact()
      reads this, Repr
    {
      && this !in Repr && (hook != null ==> hook !in Repr)
      && (forall id {:trigger Sound(items[id], Repr)} | id in items :: Sound(items[id], Repr))
      && (forall i, j {:trigger Apart(items[i], items[j], Repr)} | i in items && j in items && i != j ::
            Apart(items[i], items[j], Repr))
    }

    /** The values of the records. */
    ghost function State(): Items
      requires Intact()
      reads this, Repr
    {
      map id | id in items :: (assert Sound(items[id], Repr); Rec(items[id].approval.Value, items[id].createdAt))
    }

    /** What every operation relies on and keeps. */
    ghost predicate Valid()
      reads this, Repr
    {
      Intact() && Inv(maxSize, State())
    }

    constructor (maxSize: int, hook: Resolver?)
      ensures Valid() && State() == map[] && Repr == {}
      ensures this.maxSize == maxSize && this.hook == hook
    {
      this.items, this.maxSize, this.hook, this.Repr := map[], maxSize, hook, {};
    }

    /** An assignment to the approval under id, which may give it new parts, keeps the other records. */
    twostate lemma RecordChanged(id: string)
      requires old(Intact()) && id in items && items == old(items)
      requires var a := items[id].approval;
               && a.Valid() && Repr == old(Repr) + a.Repr
               && (forall o | o in a.Repr :: o in old(a.Repr) || fresh(o) || IsPart(o))
               && unchanged(old(Repr) - {a})
      ensures Intact()
      ensures State() == old(State())[id := Rec(items[id].approval.Value, items[id].createdAt)]
    {
      var a := items[id].approval;
      assert old(Sound(items[id], Repr));
      forall j | j in items && j != id
        ensures Sound(items[j], Repr) && items[j].approval.Repr == old(items[j].approval.Repr)
        ensures items[j].approval.Value == old(items[j].approval.Value)
      {
        assert old(Sound(items[j], Repr));
        assert old(Apart(items[id], items[j], Repr));
        assert unchanged(old(items[j].approval.Repr));
      }
      forall i, j | i in items && j in items && i != j
        ensures Apart(items[i], items[j], Repr)
      {
        assert old(Apart(items[i], items[j], Repr));
        assert old(Sound(items[i], Repr)) && Sound(items[j], Repr);
      }
    }

    // ---- the hook

    /** What the hook was called with since it had been called with before; nothing when there is none. */
    ghost predicate HookSaw(before: seq<ApprovalValue>, fired: multiset<ApprovalValue>)
      reads hook
    {
      hook != null ==> before <= hook.calls && multiset(hook.calls[|before|..]) == fired
    }

    ghost function Calls(): seq<ApprovalValue>
      reads hook
    {
      if hook == null then [] else hook.calls
    }

    /** What a locked section leaves to be reported to the hook, in objects of its own. */
    ghost predicate Owes(resolved: Approval?, fired: multiset<ApprovalValue>)
      reads resolved, if resolved == null then {} else resolved.Repr
    {
      if resolved == null then fired == multiset{}
      else resolved.Valid() && fired == multiset{resolved.Value}
    }

    /** fireResolve. */
    method FireResolve(a: Approval?, ghost fired: multiset<ApprovalValue>)
      requires Intact() && Owes(a, fired)
      requires a != null ==> a.Repr !! Repr + {this, hook}
      modifies hook, if a == null then {} else a.Repr
      ensures Intact() && HookSaw(old(Calls()), fired)
    {
      if a == null {
        return;
      }
      if hook == null {
        return;
      }
      hook.OnResolve(a);
    }

    // ---- locked sections

    /** expireLocked. */
    method ExpireLocked(id: string, now: int) returns (just: bool)
      requires Intact() && id in items
      modifies items[id].approval
      ensures Intact()
      ensures State() == old(State())[id := Expire(old(State())[id], now)]
      ensures just == Due(old(State())[id], now)
    {
      var a := items[id].approval;
      assert Sound(items[id], Repr);
      if a.status != Pending || a.expiresIn <= 0 {
        return false;
      }
      var deadline := items[id].createdAt + WrapInt64(a.expiresIn * SECOND);
      if now < deadline {
        return false;
      }
      MarkRecordExpired(id);
      return true;
    }

    method MarkRecordExpired(id: string)
      requires Intact() && id in items
      modifies items[id].approval
      ensures Intact()
      ensures State() == old(State())[id := old(State())[id].(approval :=
                             old(State())[id].approval.(status := Expired, expiresIn := 0))]
    {
      assert Sound(items[id], Repr);
      items[id].approval.MarkExpired();
      RecordChanged(id);
    }

    /** mutableLocked, for the decision op: what is refused, and what the decision is still to write. */
    method MutableLocked(id: string, now: int, ghost op: Op) returns (just: bool, err: Option<Error>)
      requires Intact() && op.Decision() && op.id == id
      modifies if id in items then {items[id].approval} else {}
      ensures Intact()
      ensures var e := Apply(maxSize, old(State()), now, op);
              if err.Some? then Settled(id, just, err, e)
              else
                && !just && id in items
                && var a := Decided(State()[id].approval, op);
                && e == Effect(State()[id := State()[id].(approval := a)], Found(a), multiset{a})
    {
      if id !in items {
        return false, Some(NotFound);
      }
      assert Sound(items[id], Repr);
      just := ExpireLocked(id, now);
      var a := items[id].approval;
      assert Sound(items[id], Repr);
      if a.status == Expired {
        err := Some(ErrExpired);
        DecideRefuses(old(State()), now, op, ErrExpired);
      } else if a.status.Terminal() {
        just, err := false, Some(AlreadyResolved);
        DecideRefuses(old(State()), now, op, AlreadyResolved);
      } else {
        just, err := false, None;
        DecideAccepts(old(State()), now, op);
      }
    }

    /** The records are as e says, and the reply and the report it asks for are those of the record under id. */
    ghost predicate Settled(id: string, owed: bool, err: Option<Error>, e: Effect)
      requires Intact()
      reads this, Repr
    {
      && State() == e.items
      && (if err.Some? then e.reply == Failed(err.value) else id in items && e.reply == Found(State()[id].approval))
      && (if owed then id in items && e.fired == multiset{State()[id].approval} else e.fired == multiset{})
    }

    /** Clones the approval under id. */
    method CloneRecord(id: string) returns (c: Approval)
      requires Intact() && id in items
      ensures c.Valid() && fresh(c.Repr) && c.Value == State()[id].approval
    {
      assert Sound(items[id], Repr);
      c := items[id].approval.Clone();
    }

    /** A reply is an error, or an approval. */
    ghost predicate Answers(out: Approval?, err: Option<Error>, reply: Reply)
      reads out, if out == null then {} else out.Repr
    {
      if err.Some? then out == null && reply == Failed(err.value)
      else out != null && out.Valid() && reply == Found(out.Value)
    }

    /** The clone for the caller, and the clone for the hook when a resolution is owed. */
    method Clones(id: string, owed: bool, err: Option<Error>, ghost e: Effect)
      returns (out: Approval?, resolved: Approval?)
      requires Intact() && Settled(id, owed, err, e)
      ensures Answers(out, err, e.reply) && Owes(resolved, e.fired)
      ensures out != null ==> fresh(out.Repr)
      ensures resolved != null ==> fresh(resolved.Repr)
      ensures out != null && resolved != null ==> out.Repr !! resolved.Repr
    {
      out, resolved := null, null;
      if err.None? {
        out := CloneRecord(id);
      }
      if owed {
        resolved := CloneRecord(id);
      }
    }

    /** How every call about one record ends: the clones, and then, the lock released, the hook. */
    method Conclude(id: string, owed: bool, err: Option<Error>, ghost e: Effect) returns (out: Approval?)
      requires Intact() && Settled(id, owed, err, e)
      modifies hook
      ensures Intact() && State() == e.items
      ensures Answers(out, err, e.reply) && HookSaw(old(Calls()), e.fired)
      ensures out != null ==> fresh(out.Repr) && out.Repr !! Repr + {this}
    {
      var resolved;
      out, resolved := Clones(id, owed, err, e);
      assert out != null ==> out.Repr !! Repr + {this};
      FireResolve(resolved, e.fired);
    }

    /** Whatever a caller does to what it was handed leaves the store as it is. */
    method CallerOverwrites(out: Approval)
      requires Valid() && out.Repr !! Repr + {this}
      modifies out.Repr
      ensures Valid() && State() == old(State())
    {
      modify out.Repr;
    }

    // ---- operations

    method Get(id: string, now: int) returns (out: Approval?, err: Option<Error>)
      requires Valid()
      modifies if id in items then {items[id].approval} else {}, hook
      ensures Valid()
      ensures var e := Apply(maxSize, old(State()), now, Op.Get(id));
              State() == e.items && Answers(out, err, e.reply) && HookSaw(old(Calls()), e.fired)
      ensures out != null ==> fresh(out.Repr) && out.Repr !! Repr + {this}
    {
      ghost var e := Apply(maxSize, State(), now, Op.Get(id));
      var just := false;
      err := Some(NotFound);
      if id in items {
        assert Sound(items[id], Repr);
        just := ExpireLocked(id, now);
        err := None;
      }
      out := Conclude(id, just, err, e);
      ApplyKeepsInv(maxSize, old(State()), now, Op.Get(id));
    }

    method Approve(id: string, decider: string, grant: Ref<Option<Grant>>, now: int, decidedAt: int)
      returns (out: Approval?, err: Option<Error>)
      requires Valid()
      modifies this`Repr, if id in items then {items[id].approval} else {}, hook
      ensures Valid() && fresh(Repr - old(Repr) - {grant} - old(GrantParts(grant.target)))
      ensures var e := Apply(maxSize, old(State()), now, Op.Approve(id, decider, old(GrantView(grant.target)), decidedAt));
              State() == e.items && Answers(out, err, e.reply) && HookSaw(old(Calls()), e.fired)
      ensures out != null ==> fresh(out.Repr) && out.Repr !! Repr + {this}
    {
      ghost var e := Apply(maxSize, State(), now, Op.Approve(id, decider, GrantView(grant.target), decidedAt));
      var owed;
      owed, err := ApproveLocked(id, decider, grant, now, decidedAt);
      out := Conclude(id, owed, err, e);
      ApplyKeepsInv(maxSize, old(State()), now, Op.Approve(id, decider, old(GrantView(grant.target)), decidedAt));
    }

    method ApproveLocked(id: string, decider: string, grant: Ref<Option<Grant>>, now: int, decidedAt: int)
      returns (owed: bool, err: Option<Error>)
      requires Intact()
      modifies this`Repr, if id in items then {items[id].approval} else {}
      ensures Intact() && fresh(Repr - old(Repr) - {grant} - old(GrantParts(grant.target)))
      ensures Settled(id, owed, err, Apply(maxSize, old(State()), now,
                                           Op.Approve(id, decider, old(GrantView(grant.target)), decidedAt)))
    {
      assert id in items ==> Sound(items[id], Repr);
      owed, err := MutableLocked(id, now, Op.Approve(id, decider, GrantView(grant.target), decidedAt));
      if err.None? {
        RecordApproved(id, decider, grant, decidedAt);
        owed := true;
      }
    }

    method RecordApproved(id: string, decider: string, grant: Ref<Option<Grant>>, now: int)
      requires Intact() && id in items
      modifies this`Repr, items[id].approval
      ensures Intact() && old(Repr) <= Repr && fresh(Repr - old(Repr) - {grant} - old(GrantParts(grant.target)))
      ensures State() == old(State())[id := old(State())[id].(approval :=
                             Decided(old(State())[id].approval, Op.Approve(id, decider, old(GrantView(grant.target)), now)))]
    {
      assert Sound(items[id], Repr);
      items[id].approval.MarkApproved(decider, grant, now);
      Repr := Repr + items[id].approval.Repr;
      RecordChanged(id);
    }

    method Deny(id: string, decider: string, reason: Reasons, now: int, decidedAt: int)
      returns (out: Approval?, err: Option<Error>)
      requires Valid()
      modifies this`Repr, if id in items then {items[id].approval} else {}, hook
      ensures Valid() && fresh(Repr - old(Repr) - {reason})
      ensures var e := Apply(maxSize, old(State()), now, Op.Deny(id, decider, old(reason.target), decidedAt));
              State() == e.items && Answers(out, err, e.reply) && HookSaw(old(Calls()), e.fired)
      ensures out != null ==> fresh(out.Repr) && out.Repr !! Repr + {this}
    {
      ghost var e := Apply(maxSize, State(), now, Op.Deny(id, decider, reason.target, decidedAt));
      var owed;
      owed, err := DenyLocked(id, decider, reason, now, decidedAt);
      out := Conclude(id, owed, err, e);
      ApplyKeepsInv(maxSize, old(State()), now, Op.Deny(id, decider, old(reason.target), decidedAt));
    }

    method DenyLocked(id: string, decider: string, reason: Reasons, now: int, decidedAt: int)
      returns (owed: bool, err: Option<Error>)
      requires Intact()
      modifies this`Repr, if id in items then {items[id].approval} else {}
      ensures Intact() && fresh(Repr - old(Repr) - {reason})
      ensures Settled(id, owed, err, Apply(maxSize, old(State()), now,
                                           Op.Deny(id, decider, old(reason.target), decidedAt)))
    {
      assert id in items ==> Sound(items[id], Repr);
      owed, err := MutableLocked(id, now, Op.Deny(id, decider, reason.target, decidedAt));
      if err.None? {
        RecordDenied(id, decider, reason, decidedAt);
        owed := true;
      }
    }

    method RecordDenied(id: string, decider: string, reason: Reasons, now: int)
      requires Intact() && id in items
      modifies this`Repr, items[id].approval
      ensures Intact() && old(Repr) <= Repr && fresh(Repr - old(Repr) - {reason})
      ensures State() == old(State())[id := old(State())[id].(approval :=
                             Decided(old(State())[id].approval, Op.Deny(id, decider, old(reason.target), now)))]
    {
      assert Sound(items[id], Repr);
      items[id].approval.MarkDenied(decider, reason, now);
      Repr := Repr + items[id].approval.Repr;
      RecordChanged(id);
    }

    method Cancel(id: string, now: int, decidedAt: int) returns (out: Approval?, err: Option<Error>)
      requires Valid()
      modifies this`Repr, if id in items then {items[id].approval} else {}, hook
      ensures Valid() && fresh(Repr - old(Repr))
      ensures var e := Apply(maxSize, old(State()), now, Op.Cancel(id, decidedAt));
              State() == e.items && Answers(out, err, e.reply) && HookSaw(old(Calls()), e.fired)
      ensures out != null ==> fresh(out.Repr) && out.Repr !! Repr + {this}
    {
      ghost var e := Apply(maxSize, State(), now, Op.Cancel(id, decidedAt));
      var owed;
      owed, err := CancelLocked(id, now, decidedAt);
      out := Conclude(id, owed, err, e);
      ApplyKeepsInv(maxSize, old(State()), now, Op.Cancel(id, decidedAt));
    }

    method CancelLocked(id: string, now: int, decidedAt: int) returns (owed: bool, err: Option<Error>)
      requires Intact()
      modifies this`Repr, if id in items then {items[id].approval} else {}
      ensures Intact() && fresh(Repr - old(Repr))
      ensures Settled(id, owed, err, Apply(maxSize, old(State()), now, Op.Cancel(id, decidedAt)))
    {
      assert id in items ==> Sound(items[id], Repr);
      owed, err := MutableLocked(id, now, Op.Cancel(id, decidedAt));
      if err.None? {
        RecordCanceled(id, decidedAt);
        owed := true;
      }
    }

    method RecordCanceled(id: string, now: int)
      requires Intact() && id in items
      modifies this`Repr, items[id].approval
      ensures Intact() && old(Repr) <= Repr && fresh(Repr - old(Repr))
      ensures State() == old(State())[id := old(State())[id].(approval :=
                             Decided(old(State())[id].approval, Op.Cancel(id, now)))]
    {
      assert Sound(items[id], Repr);
      items[id].approval.MarkCanceled(now);
      Repr := Repr + items[id].approval.Repr;
      RecordChanged(id);
    }

    method Delete(id: string) returns (present: bool)
      requires Valid()
      modifies this`items
      ensures Valid()
      ensures var e := Apply(maxSize, old(State()), 0, Op.Delete(id));
              State() == e.items && e.reply == Deleted(present) && e.fired == multiset{}
    {
      ApplyKeepsInv(maxSize, State(), 0, Op.Delete(id));
      if id !in items {
        assert State() - {id} == State();
        return false;
      }
      Drop(id);
      return true;
    }

    /** delete(s.items, id). */
    method Drop(id: string)
      requires Intact()
      modifies this`items
      ensures Intact() && State() == old(State()) - {id}
    {
      items := items - {id};
      forall j | j in items
        ensures Sound(items[j], Repr)
      {
        assert old(Sound(items[j], Repr));
      }
      forall i, j | i in items && j in items && i != j
        ensures Apart(items[i], items[j], Repr)
      {
        assert old(Apart(items[i], items[j], Repr));
      }
    }

    /** All that the store ever writes to, besides itself. */
    ghost function Approvals(): set<object>
      reads this
    {
      set o | o in Repr && o is Approval
    }

    method Sweep(at: Instants) returns (removed: int)
      requires Valid()
      modifies this`items, Approvals(), hook
      ensures Valid()
      ensures var e := Apply(maxSize, old(State()), 0, Op.Sweep(at));
              State() == e.items && e.reply == Count(removed) && HookSaw(old(Calls()), e.fired)
    {
      ghost var start := State();
      ApplyKeepsInv(maxSize, start, 0, Op.Sweep(at));
      var resolved;
      ghost var vals, parts, order;
      removed, resolved, vals, parts, order := SweepLocked(at);
      SweepIsOrderFree(maxSize, start, 0, at, order);
      FireAll(resolved, vals, parts);
    }

    /**
     What Sweep does under the lock, and the order in which it meets the records.
     parts are the objects of the clones it keeps for the hook.
     */
    method SweepLocked(at: Instants)
      returns (removed: int, resolved: seq<Approval>, ghost vals: seq<ApprovalValue>, ghost parts: set<object>,
               ghost order: seq<string>)
      requires Intact()
      modifies this`items, Approvals()
      ensures Intact() && Held(resolved, vals, 0, parts) && fresh(parts) && parts !! Repr + {this}
      ensures Enumerates(order, old(State()).Keys)
      ensures Tally(State(), removed, vals) == MetAll(old(State()), at, order)
    {
      ghost var start := State();
      var todo := items.Keys;
      removed, resolved, vals, parts, order := 0, [], [], {}, [];
      assert start.Keys - todo == {};
      while todo != {}
        invariant Keeping(resolved, vals, parts) && fresh(parts)
        invariant todo <= start.Keys && todo <= MetAll(start, at, order).left.Keys && Enumerates(order, start.Keys - todo)
        invariant Tally(State(), removed, vals) == MetAll(start, at, order)
        decreases |todo|
      {
        var id :| id in todo;
        MetOneMore(start, at, order, id);
        EnumeratesOneMore(order, start.Keys, todo, id);
        assert Sound(items[id], Repr);
        ghost var before := parts;
        removed, resolved, vals, parts := SweepTurn(id, at(id), removed, resolved, vals, parts);
        assert fresh(parts) by {
          assert forall o | o in parts :: o in before || fresh(o);
        }
        todo, order := todo - {id}, order + [id];
      }
      assert start.Keys - {} == start.Keys;
    }

    /** The clones kept for the hook are apart from the store. */
    ghost predicate Keeping(resolved: seq<Approval>, vals: seq<ApprovalValue>, parts: set<object>)
      reads this, Repr, parts
    {
      Intact() && Held(resolved, vals, 0, parts) && parts !! Repr + {this}
    }

    /** The body of the loop in Sweep. */
    method SweepTurn(id: string, now: int, removed: int, resolved: seq<Approval>,
                     ghost vals: seq<ApprovalValue>, ghost parts: set<object>)
      returns (removed': int, resolved': seq<Approval>, ghost vals': seq<ApprovalValue>, ghost parts': set<object>)
      requires Keeping(resolved, vals, parts) && id in items
      modifies this`items, items[id].approval
      ensures Keeping(resolved', vals', parts')
      ensures Tally(State(), removed', vals') == Met(Tally(old(State()), removed, vals), id, now)
      ensures forall o | o in parts' :: o in parts || fresh(o)
    {
      assert Sound(items[id], Repr);
      var c, gone := SweepOne(id, now);
      HeldOneMore(resolved, vals, parts, c);
      removed' := if gone then removed + 1 else removed;
      resolved' := if c == null then resolved else resolved + [c];
      vals' := vals + (if c == null then [] else [c.Value]);
      parts' := parts + (if c == null then {} else c.Repr);
    }

    method SweepOne(id: string, now: int) returns (c: Approval?, gone: bool)
      requires Intact() && id in items
      modifies this`items, items[id].approval
      ensures Intact()
      ensures var r := Expire(old(State())[id], now);
              && gone == r.approval.status.Terminal()
              && State() == (if gone then old(State()) - {id} else old(State()))
              && (if Due(old(State())[id], now) then c != null && c.Valid() && fresh(c.Repr) && c.Value == r.approval
                  else c == null)
    {
      ghost var r := Expire(State()[id], now);
      c := ExpireAndClone(id, now);
      assert Sound(items[id], Repr);
      gone := items[id].approval.status.Terminal();
      if gone {
        Drop(id);
        assert old(State())[id := r] - {id} == old(State()) - {id};
      } else {
        assert old(State())[id := r] == old(State());
      }
    }

    method ExpireAndClone(id: string, now: int) returns (c: Approval?)
      requires Intact() && id in items
      modifies items[id].approval
      ensures Intact()
      ensures var r := Expire(old(State())[id], now);
              && State() == old(State())[id := r]
              && (if Due(old(State())[id], now) then c != null && c.Valid() && fresh(c.Repr) && c.Value == r.approval
                  else c == null)
    {
      c := null;
      assert Sound(items[id], Repr);
      if items[id].approval.status == Pending {
        var just := ExpireLocked(id, now);
        if just {
          c := CloneRecord(id);
        }
      }
    }

    /** From the k-th on, the approvals hold the given values, in separate objects among parts. */
    ghost predicate Held(resolved: seq<Approval>, vals: seq<ApprovalValue>, k: nat, parts: set<object>)
      reads parts
    {
      && |resolved| == |vals|
      && (forall i {:trigger Holds(resolved[i], vals[i], parts)} | k <= i < |resolved| :: Holds(resolved[i], vals[i], parts))
      && (forall i, j {:trigger Separate(resolved[i], resolved[j], parts)} | k <= i < j < |resolved| ::
            Separate(resolved[i], resolved[j], parts))
    }

    ghost predicate Holds(a: Approval, v: ApprovalValue, parts: set<object>)
      reads parts
    {
      a in parts && a.Repr <= parts && a.Valid() && a.Value == v
    }

    ghost predicate Separate(a: Approval, b: Approval, parts: set<object>)
      reads parts
    {
      a in parts && b in parts && a.Repr !! b.Repr
    }

    lemma HeldOneMore(resolved: seq<Approval>, vals: seq<ApprovalValue>, parts: set<object>, c: Approval?)
      requires Held(resolved, vals, 0, parts)
      requires c != null ==> c.Valid() && c.Repr !! parts
      ensures if c == null then Held(resolved, vals + [], 0, parts + {})
              else Held(resolved + [c], vals + [c.Value], 0, parts + c.Repr)
    {
      if c == null {
        assert vals + [] == vals && parts + {} == parts;
      } else {
        AppendedIsHeld(resolved, vals, parts, c);
      }
    }

    lemma AppendedIsHeld(resolved: seq<Approval>, vals: seq<ApprovalValue>, parts: set<object>, c: Approval)
      requires Held(resolved, vals, 0, parts) && c.Valid() && c.Repr !! parts
      ensures Held(resolved + [c], vals + [c.Value], 0, parts + c.Repr)
    {
      forall i | 0 <= i < |resolved|
        ensures Holds(resolved[i], vals[i], parts + c.Repr) && Separate(resolved[i], c, parts + c.Repr)
      {
        assert Holds(resolved[i], vals[i], parts);
      }
      forall i, j | 0 <= i < j < |resolved|
        ensures Separate(resolved[i], resolved[j], parts + c.Repr)
      {
        assert Separate(resolved[i], resolved[j], parts);
      }
    }

    /** Sweep, the lock released. */
    method FireAll(resolved: seq<Approval>, ghost vals: seq<ApprovalValue>, ghost parts: set<object>)
      requires Intact() && Held(resolved, vals, 0, parts) && parts !! Repr + {this, hook}
      modifies hook, parts
      ensures Intact() && State() == old(State()) && HookSaw(old(Calls()), multiset(vals))
    {
      for k := 0 to |resolved|
        invariant Intact() && State() == old(State()) && Held(resolved, vals, k, parts)
        invariant HookSaw(old(Calls()), multiset(vals[..k]))
      {
        ghost var before := Calls();
        FireOne(k, resolved, vals, parts);
        assert vals[..k + 1] == vals[..k] + [vals[k]];
        if hook != null {
          Suffixes(old(Calls()), before, Calls());
        }
      }
      assert vals[..|vals|] == vals;
    }

    method FireOne(k: nat, resolved: seq<Approval>, ghost vals: seq<ApprovalValue>, ghost parts: set<object>)
      requires Intact() && Held(resolved, vals, k, parts) && k < |resolved| && parts !! Repr + {this, hook}
      modifies hook, parts
      ensures Intact() && State() == old(State()) && Held(resolved, vals, k + 1, parts)
      ensures HookSaw(old(Calls()), multiset{vals[k]})
    {
      assert Holds(resolved[k], vals[k], parts);
      forall i | k < i < |resolved|
        ensures Holds(resolved[i], vals[i], parts) && resolved[i].Repr !! resolved[k].Repr
      {
        assert Separate(resolved[k], resolved[i], parts);
      }
      FireResolve(resolved[k], multiset{vals[k]});
      forall i | k < i < |resolved|
        ensures Holds(resolved[i], vals[i], parts)
      {
        assert old(Holds(resolved[i], vals[i], parts));
      }
      forall i, j | k < i < j < |resolved|
        ensures Separate(resolved[i], resolved[j], parts)
      {
        assert old(Separate(resolved[i], resolved[j], parts));
        assert old(Holds(resolved[i], vals[i], parts)) && old(Holds(resolved[j], vals[j], parts));
      }
    }

    method Len() returns (n: int)
      requires Valid()
      ensures Apply(maxSize, State(), 0, Op.Len) == Effect(State(), Count(n), multiset{})
    {
      n := |items|;
      SizeOfState();
    }

    lemma SizeOfState()
      requires Intact()
      ensures |State()| == |items|
    {
      assert State().Keys == items.Keys;
      assert |items| == |items.Keys| && |State()| == |State().Keys|;
    }

    /**
     The request becomes the record, so it must not be part of the store. It is
     prepared even when the store turns out to be full, but not when no id can be
     minted.
     */
    method Create(req: Approval?, minted: Option<string>, now: int) returns (out: Approval?, err: Option<Error>)
      requires Valid()
      requires req != null ==> req.Valid() && Foreign(req)
      modifies this`items, this`Repr, req
      ensures Valid() && fresh(Repr - old(Repr) - old(RequestParts(req)))
      ensures var e := Apply(maxSize, old(State()), now, Op.Create(minted, old(RequestView(req))));
              State() == e.items && Answers(out, err, e.reply)
      ensures out != null ==> fresh(out.Repr) && out.Repr !! Repr + {this}
      ensures req != null && minted.Some? ==> req.Value == Prepared(old(req.Value), minted.value)
    {
      ghost var e := Apply(maxSize, State(), now, Op.Create(minted, RequestView(req)));
      ApplyKeepsInv(maxSize, State(), now, Op.Create(minted, RequestView(req)));
      if req == null {
        out, err := CreateEmpty(minted, now, e);
      } else {
        out, err := CreateFrom(req, minted, now, e);
      }
    }

    /** A request that is not given is an empty one. */
    method CreateEmpty(minted: Option<string>, now: int, ghost e: Effect) returns (out: Approval?, err: Option<Error>)
      requires Intact() && e == Apply(maxSize, State(), now, Op.Create(minted, EMPTY_APPROVAL))
      modifies this`items, this`Repr
      ensures Intact() && fresh(Repr - old(Repr))
      ensures State() == e.items && Answers(out, err, e.reply)
      ensures out != null ==> fresh(out.Repr) && out.Repr !! Repr + {this}
    {
      var a := new Approval();
      out, err := CreateFrom(a, minted, now, e);
    }

    /** The store holds neither the approval nor anything in it that it could write to. */
    ghost predicate Foreign(a: Approval)
      reads this, a
    {
      && a !in Repr && this !in a.Repr && (hook != null ==> hook !in a.Repr)
      && forall id {:trigger items[id]} | id in items :: items[id].approval !in a.Repr
    }

    ghost function RequestView(req: Approval?): ApprovalValue
      reads req
    {
      if req == null then EMPTY_APPROVAL else req.Value
    }

    ghost function RequestParts(req: Approval?): set<object>
      reads req
    {
      if req == null then {} else req.Repr
    }

    method CreateFrom(a: Approval, minted: Option<string>, now: int, ghost e: Effect)
      returns (out: Approval?, err: Option<Error>)
      requires Intact() && a.Valid() && Foreign(a)
      requires e == Apply(maxSize, State(), now, Op.Create(minted, a.Value))
      modifies this`items, this`Repr, a
      ensures Intact() && fresh(Repr - old(Repr) - old(a.Repr))
      ensures State() == e.items && Answers(out, err, e.reply)
      ensures out != null ==> fresh(out.Repr) && out.Repr !! Repr + {this}
      ensures a.Value == if minted.Some? then Prepared(old(a.Value), minted.value) else old(a.Value)
    {
      if minted.None? {
        out, err := null, Some(EntropyFailure);
      } else {
        a.Prepare(minted.value);
        assert State() == old(State());
        out, err := Admit(minted.value, a, now);
      }
    }

    /** Create, under the lock. */
    method Admit(id: string, a: Approval, now: int) returns (out: Approval?, err: Option<Error>)
      requires Intact() && a.Valid() && Foreign(a)
      modifies this`items, this`Repr
      ensures Intact() && Repr - old(Repr) <= a.Repr
      ensures if maxSize > 0 && |old(State())| >= maxSize
              then State() == old(State()) && out == null && err == Some(StoreFull)
              else State() == old(State())[id := Rec(a.Value, now)] && IsCopy(out, a.Value) && err.None?
      ensures out != null ==> fresh(out.Repr) && out.Repr !! Repr + {this}
    {
      SizeOfState();
      if maxSize > 0 && |items| >= maxSize {
        out, err := null, Some(StoreFull);
      } else {
        out := InsertAndClone(id, a, now);
        err := None;
      }
    }

    ghost predicate IsCopy(out: Approval?, v: ApprovalValue)
      reads out, if out == null then {} else out.Repr
    {
      out != null && out.Valid() && out.Value == v
    }

    method InsertAndClone(id: string, a: Approval, now: int) returns (out: Approval)
      requires Intact() && a.Valid() && Foreign(a)
      modifies this`items, this`Repr
      ensures Intact() && Repr == old(Repr) + a.Repr
      ensures State() == old(State())[id := Rec(a.Value, now)] && IsCopy(out, a.Value)
      ensures fresh(out.Repr) && out.Repr !! Repr + {this}
    {
      Insert(id, a, now);
      out := CloneRecord(id);
    }

    /** s.items[id] = &record{a, now}. */
    method Insert(id: string, a: Approval, now: int)
      requires Intact() && a.Valid() && Foreign(a)
      modifies this`items, this`Repr
      ensures Intact() && Repr == old(Repr) + a.Repr && id in items
      ensures State() == old(State())[id := Rec(a.Value, now)]
    {
      items, Repr := items[id := Record(a, now)], Repr + a.Repr;
      RecordInserted(id);
    }

    twostate lemma RecordInserted(id: string)
      requires old(Intact()) && id in items && items == old(items)[id := items[id]]
      requires var a := items[id].approval;
               && a.Valid() && a !in old(Repr) && this !in a.Repr && (hook != null ==> hook !in a.Repr)
               && (forall j {:trigger items[j]} | j in items && j != id :: items[j].approval !in a.Repr)
               && Repr == old(Repr) + a.Repr
               && unchanged(old(Repr))
      ensures Intact()
      ensures State() == old(State())[id := Rec(items[id].approval.Value, items[id].createdAt)]
    {
      OthersKept(id);
      assert Sound(items[id], Repr);
      InsertedIsApart(id);
      assert forall j | j in items :: j != id ==> Kept(items[j], items[id].approval, Repr);
    }

    twostate lemma InsertedIsApart(id: string)
      requires old(Intact()) && id in items && items == old(items)[id := items[id]]
      requires Sound(items[id], Repr) && unchanged(old(Repr))
      requires forall j {:trigger items[j]} | j in items && j != id :: items[j].approval !in items[id].approval.Repr
      requires forall j {:trigger Kept(items[j], items[id].approval, Repr)} | j in items && j != id ::
                 Kept(items[j], items[id].approval, Repr)
      ensures forall i, j {:trigger Apart(items[i], items[j], Repr)} | i in items && j in items && i != j ::
                Apart(items[i], items[j], Repr)
    {
      forall i, j | i in items && j in items && i != j
        ensures Apart(items[i], items[j], Repr)
      {
        assert j != id ==> Kept(items[j], items[id].approval, Repr);
        if i != id && j != id {
          assert old(Apart(items[i], items[j], Repr)) && old(Sound(items[j], Repr));
        }
      }
    }

    /** The record r is well formed and the given approval is no part of it. */
    ghost predicate Kept(r: Record, a: Approval, objects: set<object>)
      reads objects
    {
      Sound(r, objects) && a !in r.approval.Repr
    }

    twostate lemma OthersKept(id: string)
      requires old(Intact()) && id in items && items == old(items)[id := items[id]]
      requires items[id].approval !in old(Repr) && old(Repr) <= Repr && unchanged(old(Repr))
      ensures forall j {:trigger Kept(items[j], items[id].approval, Repr)} | j in items && j != id ::
                Kept(items[j], items[id].approval, Repr) && items[j].approval.Value == old(items[j].approval.Value)
    {
      forall j | j in items && j != id
        ensures Kept(items[j], items[id].approval, Repr)
        ensures items[j].approval.Value == old(items[j].approval.Value)
      {
        assert old(Sound(items[j], Repr));
      }
    }
  }
}
