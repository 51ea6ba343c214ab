/**
 The mutable objects of approval/approval.go. A Go struct is a value and a
 pointer to one is a Ref; only the approval itself, which the store updates
 field by field, is a class of its own. A slice is viewed by its elements, nil
 and empty alike.
 */
module ApprovalObjects {
  import opened Wrappers
  import opened ApprovalModel
  import opened References

  type Strings = Ref<seq<string>>
  type Reasons = Ref<Option<map<string, string>>>

  datatype RequestRef = RequestRef(
    kind: string,
    identifier: string,
    locations: Strings,
    actions: Strings,
    datatypes: Strings,
    privileges: Strings)

  datatype Grant = Grant(expiresAt: Ref<Option<int>>)

  ghost function RequestRefView(r: Option<RequestRef>): Option<RequestRefValue>
    reads if r.Some? then {r.value.locations, r.value.actions, r.value.datatypes, r.value.privileges} else {}
  {
    if r.None? then None
    else Some(RequestRefValue(r.value.kind, r.value.identifier, r.value.locations.target, r.value.actions.target,
                              r.value.datatypes.target, r.value.privileges.target))
  }

  ghost function RequestRefParts(r: Option<RequestRef>): set<object> {
    if r.None? then {} else {r.value.locations, r.value.actions, r.value.datatypes, r.value.privileges}
  }

  ghost function GrantView(g: Option<Grant>): Option<GrantValue>
    reads if g.Some? then {g.value.expiresAt} else {}
  {
    if g.None? then None else Some(GrantValue(g.value.expiresAt.target))
  }

  ghost function GrantParts(g: Option<Grant>): set<object> {
    if g.None? then {} else {g.value.expiresAt}
  }

  /** The clones, with the objects they are made of. */
  method CloneRequestRef(p: Ref<Option<RequestRef>>) returns (c: Ref<Option<RequestRef>>, ghost parts: set<object>)
    ensures fresh(parts) && c in parts && RequestRefParts(c.target) <= parts
    ensures RequestRefView(c.target) == RequestRefView(p.target)
  {
    if p.target.None? {
      c := new Ref(None);
      parts := {c};
    } else {
      var r := p.target.value;
      var l := r.locations.Clone();
      var a := r.actions.Clone();
      var d := r.datatypes.Clone();
      var v := r.privileges.Clone();
      c := new Ref(Some(RequestRef(r.kind, r.identifier, l, a, d, v)));
      parts := {c as object, l, a, d, v};
    }
  }

  method CloneGrant(p: Ref<Option<Grant>>) returns (c: Ref<Option<Grant>>, ghost parts: set<object>)
    ensures fresh(parts) && c in parts && GrantParts(c.target) <= parts
    ensures GrantView(c.target) == GrantView(p.target)
  {
    if p.target.None? {
      c := new Ref(None);
      parts := {c};
    } else {
      var e := p.target.value.expiresAt.Clone();
      c := new Ref(Some(Grant(e)));
      parts := {c as object, e};
    }
  }

  /** An approval. Repr holds it and every object it points to; Value is what they hold. */
  class Approval {
    var status: Status
    var id: string
    var expiresIn: int
    var interval: int
    var pollURL: string
    var delivery: Strings
    var callbackURL: string
    var requestRef: Ref<Option<RequestRef>>
    var approvers: Ref<Option<ApproversValue>>
    var grant: Ref<Option<Grant>>
    var decidedBy: string
    var decidedAt: Ref<Option<int>>
    var reasonUser: Reasons
    ghost var Repr: set<object>
    ghost var Value: ApprovalValue

    ghost predicate Valid()
      reads this, Repr
    {
      && this in Repr && delivery in Repr && approvers in Repr && decidedAt in Repr && reasonUser in Repr
      && requestRef in Repr && RequestRefParts(requestRef.target) <= Repr
      && grant in Repr && GrantParts(grant.target) <= Repr
      && Value == ApprovalValue(
                    status, id, expiresIn, interval,
                    RequestValue(pollURL, delivery.target, callbackURL, RequestRefView(requestRef.target), approvers.target),
                    GrantView(grant.target), decidedBy, decidedAt.target, reasonUser.target)
    }

    /** The zero Approval. */
    constructor ()
      ensures Valid() && fresh(Repr) && Value == EMPTY_APPROVAL
    {
      status, id, expiresIn, interval, pollURL, callbackURL, decidedBy := Unknown(""), "", 0, 0, "", "", "";
      var d := new Ref([]);
      var r := new Ref(None);
      var p := new Ref(None);
      var g := new Ref(None);
      var t := new Ref(None);
      var u := new Ref(None);
      delivery, requestRef, approvers, grant, decidedAt, reasonUser := d, r, p, g, t, u;
      Repr, Value := {this, d, r, p, g, t, u}, EMPTY_APPROVAL;
    }

    /** The struct copy *a, with copies in place of what a points to. */
    constructor CopyWith(a: Approval, delivery: Strings, requestRef: Ref<Option<RequestRef>>,
                         approvers: Ref<Option<ApproversValue>>, grant: Ref<Option<Grant>>, decidedAt: Ref<Option<int>>,
                         reasonUser: Reasons, ghost parts: set<object>)
      requires a.Valid()
      requires {delivery as object, requestRef, approvers, grant, decidedAt, reasonUser} <= parts
      requires RequestRefParts(requestRef.target) <= parts && GrantParts(grant.target) <= parts
      requires a.Value.request.delivery == delivery.target && a.Value.request.approvers == approvers.target
      requires a.Value.decidedAt == decidedAt.target && a.Value.reasonUser == reasonUser.target
      requires a.Value.request.requestRef == RequestRefView(requestRef.target) && a.Value.grant == GrantView(grant.target)
      ensures Valid() && Value == a.Value && Repr == {this} + parts
    {
      status, id, expiresIn, interval := a.status, a.id, a.expiresIn, a.interval;
      pollURL, callbackURL, decidedBy := a.pollURL, a.callbackURL, a.decidedBy;
      this.delivery, this.requestRef, this.approvers := delivery, requestRef, approvers;
      this.grant, this.decidedAt, this.reasonUser := grant, decidedAt, reasonUser;
      Repr, Value := {this} + parts, a.Value;
    }

    /** clone: the same value in objects of its own. */
    method Clone() returns (c: Approval)
      requires Valid()
      ensures c.Valid() && fresh(c.Repr) && c.Value == Value
    {
      var d, p, t, u := CloneFlat();
      var r, g;
      ghost var rp, gp;
      r, rp := CloneRequestRef(requestRef);
      g, gp := CloneGrant(grant);
      ghost var parts: set<object> := {d as object, p, t, u} + rp + gp;
      assert fresh(parts);
      c := new Approval.CopyWith(this, d, r, p, g, t, u, parts);
      assert forall o | o in c.Repr :: o == c || o in parts;
    }

    method CloneFlat() returns (d: Strings, p: Ref<Option<ApproversValue>>, t: Ref<Option<int>>, u: Reasons)
      requires Valid()
      ensures fresh(d) && fresh(p) && fresh(t) && fresh(u)
      ensures d.target == Value.request.delivery && p.target == Value.request.approvers
      ensures t.target == Value.decidedAt && u.target == Value.reasonUser
    {
      d := delivery.Clone();
      p := approvers.Clone();
      t := decidedAt.Clone();
      u := reasonUser.Clone();
    }

    // ---- the field assignments of the store

    method SetStatus(s: Status, expiresIn: int)
      requires Valid()
      modifies this
      ensures Valid() && Repr == old(Repr)
      ensures Value == old(Value).(status := s, expiresIn := expiresIn)
    {
      status, this.expiresIn := s, expiresIn;
      Value := Value.(status := s, expiresIn := expiresIn);
    }

    method SetDecision(decider: string, at: Ref<Option<int>>)
      requires Valid()
      modifies this
      ensures Valid() && Repr == old(Repr) + {at}
      ensures Value == old(Value).(decidedBy := decider, decidedAt := at.target)
    {
      decidedBy, decidedAt := decider, at;
      Repr, Value := Repr + {at}, Value.(decidedBy := decider, decidedAt := at.target);
    }

    /** The assignments that Create and every decision make. */
    method MarkDecided(s: Status, expiresIn: int, decider: string, at: Option<int>)
      requires Valid()
      modifies this
      ensures Valid() && old(Repr) <= Repr && fresh(Repr - old(Repr))
      ensures Value == old(Value).(status := s, decidedBy := decider, decidedAt := at, expiresIn := expiresIn)
    {
      var t := new Ref(at);
      SetStatus(s, expiresIn);
      SetDecision(decider, t);
    }

    method Identify(id: string, interval: int)
      requires Valid()
      modifies this
      ensures Valid() && Repr == old(Repr)
      ensures Value == old(Value).(id := id, interval := interval)
    {
      this.id, this.interval := id, interval;
      Value := Value.(id := id, interval := interval);
    }

    /** Create, before it takes the lock. */
    method Prepare(id: string)
      requires Valid()
      modifies this
      ensures Valid() && old(Repr) <= Repr && fresh(Repr - old(Repr))
      ensures Value == Prepared(old(Value), id)
      ensures Value == old(Value).(id := id, status := Pending, decidedBy := "", decidedAt := None,
                                   expiresIn := if old(Value).expiresIn > 0 then old(Value).expiresIn else 300,
                                   interval := if old(Value).interval > 0 then old(Value).interval else 5)
    {
      Identify(id, if interval <= 0 then DEFAULT_INTERVAL else interval);
      MarkDecided(Pending, if expiresIn <= 0 then DEFAULT_EXPIRES_IN else expiresIn, "", None);
    }

    /** expireLocked. */
    method MarkExpired()
      requires Valid()
      modifies this
      ensures Valid() && Repr == old(Repr)
      ensures Value == old(Value).(status := Expired, expiresIn := 0)
    {
      SetStatus(Expired, 0);
    }

    /** Approve; a grant that is given becomes part of the approval. */
    method MarkApproved(decider: string, given: Ref<Option<Grant>>, now: int)
      requires Valid()
      modifies this
      ensures Valid() && old(Repr) <= Repr
      ensures fresh(Repr - old(Repr) - {given} - GrantParts(given.target))
      ensures Value == Decided(old(Value), Op.Approve("", decider, GrantView(given.target), now))
      ensures Value == old(Value).(status := Approved, decidedBy := decider, decidedAt := Some(now), expiresIn := 0,
                                   grant := if given.target.Some? then GrantView(given.target) else old(Value).grant)
    {
      MarkDecided(Approved, 0, decider, Some(now));
      if given.target.Some? {
        GiveGrant(given);
      }
    }

    method GiveGrant(given: Ref<Option<Grant>>)
      requires Valid()
      modifies this
      ensures Valid() && Repr == old(Repr) + {given} + GrantParts(given.target)
      ensures Value == old(Value).(grant := GrantView(given.target))
    {
      grant := given;
      Repr, Value := Repr + {given} + GrantParts(given.target), Value.(grant := GrantView(given.target));
    }

    /** Cancel, which leaves the deciding principal as it is. */
    method MarkCanceled(now: int)
      requires Valid()
      modifies this
      ensures Valid() && old(Repr) <= Repr && fresh(Repr - old(Repr))
      ensures Value == Decided(old(Value), Op.Cancel("", now))
      ensures Value == old(Value).(status := Canceled, decidedAt := Some(now), expiresIn := 0)
    {
      MarkDecided(Canceled, 0, decidedBy, Some(now));
    }

    /** Deny; a non-empty reason becomes part of the approval. */
    method MarkDenied(decider: string, reason: Reasons, now: int)
      requires Valid()
      modifies this
      ensures Valid() && old(Repr) <= Repr && fresh(Repr - old(Repr) - {reason})
      ensures Value == Decided(old(Value), Op.Deny("", decider, reason.target, now))
      ensures Value == old(Value).(status := Denied, decidedBy := decider, decidedAt := Some(now), expiresIn := 0,
                                   reasonUser := if reason.target.Some? && |reason.target.value| > 0 then reason.target
                                                 else old(Value).reasonUser)
    {
      MarkDecided(Denied, 0, decider, Some(now));
      if reason.target.Some? && |reason.target.value| > 0 {
        GiveReason(reason);
      }
    }

    method GiveReason(reason: Reasons)
      requires Valid()
      modifies this
      ensures Valid() && Repr == old(Repr) + {reason} && Value == old(Value).(reasonUser := reason.target)
    {
      reasonUser := reason;
      Repr, Value := Repr + {reason}, Value.(reasonUser := reason.target);
    }
  }
}
