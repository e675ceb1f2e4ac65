// The log before a record, and everything a rule may ask of it, read off the records
// themselves: no index and no running state.
module Pasts {
  import opened Records
  import opened LedgerState
  import opened Refs
  import opened Rules
  import opened Checks
  import opened Ledger
  import opened Replay
  import opened Taint
  import opened Slots
  import opened Conversations
  import RequirementKeys

  // ----- Which record is meant ----------------------------------------------------------------

  ghost predicate NamedAt(log: seq<Record>, id: Id, i: nat) {
    i < |log| && log[i].id == id && forall j :: 0 <= j < i ==> log[j].id != id
  }

  // ----- Grants ---------------------------------------------------------------------------------

  predicate Grants(r: Record, actor: string, class_: string, scope: nat) {
    && r.kind == Capability && r.data.CapabilityData?
    && r.data.actor == actor && r.data.actionClass == class_ && r.data.scope == scope
  }

  predicate Approves(r: Record, s: Subject) {
    r.kind == Approval && r.data.ApprovalData? && r.data.targetAction == Some(s)
  }

  predicate ApprovesClass(r: Record, class_: string, scope: nat, actor: Option<string>) {
    && r.kind == Approval && r.data.ApprovalData?
    && r.data.approvedClass == Some(class_) && r.data.scope == scope && r.data.approvedActor == actor
  }

  /** The action or selection an exact approval must name to cover this record. */
  ghost predicate IsSubject(r: Record, s: Subject) {
    match s
    case ActionSubject(actor, d) => r.kind == Action && d.ActionData? && r.author.id == actor && r.data == d
    case SelectionSubject(actor, replaced, d) =>
      && r.kind == Selection && d.SelectionData? && r.author.id == actor && r.data == d
      && (match replaced
          case None => NoneOf(r.refs, Replace)
          case Some(x) => FirstNames(r.refs, Replace, x))
    case OtherSubject(_) => false
  }

  /** The last record of a history for which something holds. */
  ghost predicate LastSuch(h: seq<Record>, p: Record -> bool, i: nat) {
    i < |h| && p(h[i]) && forall j :: i < j < |h| ==> !p(h[j])
  }

  /** The record at `j` needed this very approval and names it as authority. */
  ghost predicate UsesUp(h: seq<Record>, x: Id, j: nat) {
    && j < |h| && Ref(Require, x) in h[j].refs
    && exists s, i: nat :: IsSubject(h[j], s) && LastSuch(h[..j], r => Approves(r, s), i) && h[i].id == x
  }

  // ----- The past of a record -------------------------------------------------------------------

  /** Every record so far, and the accepted ones in their order. */
  datatype Past = Past(log: seq<Record>, accepted: seq<Record>) {

    /** The record an id names: the first to carry it. */
    ghost function Named(id: Id): Option<Record> {
      if exists i: nat :: NamedAt(log, id, i) then
        var i: nat :| NamedAt(log, id, i);
        Some(log[i])
      else None
    }

    ghost predicate Accepted(id: Id) {
      HasId(accepted, id)
    }

    /** Retracted, or resting however indirectly on something retracted. */
    ghost predicate Withdrawn(id: Id) {
      IsRetracted(accepted, id) || RestsOnRetracted(accepted, id)
    }

    ghost predicate Stands(id: Id) {
      Accepted(id) && !Withdrawn(id)
    }

    ghost predicate Active(request: Id) {
      IsRequest(accepted, request) && !Ended(accepted, request)
    }

    ghost predicate Open(action: Id) {
      (exists request :: ActsFor(accepted, action, request)) && !ClosedAction(accepted, action)
    }

    /** Some action of the request is still open. */
    ghost predicate Busy(request: Id) {
      exists action :: ActsFor(accepted, action, request) && !ClosedAction(accepted, action)
    }

    /** How many responses the request has. */
    ghost function Turns(request: Id): nat {
      Conversations.Turns(accepted, request)
    }

    /** The request has a running plan. */
    ghost predicate Planned(request: Id) {
      exists plan :: PlanInForce(accepted, request, plan)
    }

    /** The latest accepted record that grants something, unless it was retracted. */
    ghost function InForce(p: Record -> bool): Option<Record> {
      if exists i: nat :: LastSuch(accepted, p, i) && !IsRetracted(accepted, accepted[i].id) then
        var i: nat :| LastSuch(accepted, p, i) && !IsRetracted(accepted, accepted[i].id);
        Some(accepted[i])
      else None
    }

    ghost function CapabilityFor(actor: string, class_: string, scope: nat): Option<Record> {
      InForce(r => Grants(r, actor, class_, scope))
    }

    ghost function ClassApprovalFor(class_: string, scope: nat, actor: Option<string>): Option<Record> {
      InForce(r => ApprovesClass(r, class_, scope, actor))
    }

    ghost predicate UsedUp(x: Id) {
      exists j: nat :: UsesUp(accepted, x, j)
    }

    /** An exact approval is in force only until it is used. */
    ghost function ExactApprovalFor(s: Subject): Option<Record> {
      var a := InForce(r => Approves(r, s));
      if a.Some? && UsedUp(a.value.id) then None else a
    }

    ghost predicate KeyTaken(request: Id, key: string) {
      RequirementKeys.KeyTaken(accepted, (request, key))
    }
  }

  ghost function PastOf(log: seq<Record>): Past {
    Past(log, AcceptedOf(log))
  }
}
