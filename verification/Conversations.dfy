// Requests, the actions and plans under them, and the turns of their responses, over
// every history the rules allow.
module Conversations {
  import opened Records
  import opened LedgerState
  import opened Reachability
  import opened Slots

  // ----- Declarative definitions -----------------------------------------------------------------

  /** A closing response, or a refusal of the request. */
  predicate Ends(r: Record, x: Id) {
    || (r.kind == Response && r.data.ResponseData? && r.data.closesRequest && r.data.requestId == x)
    || (r.kind == Refusal && r.data.RefusalData? && r.data.targetKind.OfRequest? && r.data.targetId == x)
  }

  /** A result of the action, or a refusal of it. */
  predicate Closes(r: Record, a: Id) {
    || (r.kind == Kind.Result && r.data.ResultData? && r.data.actionId == a)
    || (r.kind == Refusal && r.data.RefusalData? && r.data.targetKind.OfAction? && r.data.targetId == a)
  }

  ghost predicate Ended(h: seq<Record>, x: Id) {
    exists i :: 0 <= i < |h| && Ends(h[i], x)
  }

  ghost predicate ClosedAction(h: seq<Record>, a: Id) {
    exists i :: 0 <= i < |h| && Closes(h[i], a)
  }

  ghost predicate IsRequest(h: seq<Record>, x: Id) {
    exists i :: 0 <= i < |h| && h[i].id == x && h[i].kind == Request
  }

  /** An accepted action and the request it works for. */
  ghost predicate ActsFor(h: seq<Record>, a: Id, x: Id) {
    exists i :: 0 <= i < |h| && h[i].id == a && WorksFor(h[i], x)
  }

  predicate WorksFor(r: Record, x: Id) {
    r.kind == Action && r.data.ActionData? && r.data.requestId == x
  }

  /** Responses to a request so far. */
  ghost function Turns(h: seq<Record>, x: Id): nat {
    if h == [] then 0
    else Turns(h[..|h| - 1], x) + (if RespondsTo(h[|h| - 1], x) then 1 else 0)
  }

  predicate RespondsTo(r: Record, x: Id) {
    r.kind == Response && r.data.ResponseData? && r.data.requestId == x
  }

  /** A record that decides which plan of a request is in force. */
  predicate DecidesPlan(r: Record, x: Id) {
    (r.kind == Plan && r.data.PlanData? && r.data.requestId == x) || Ends(r, x)
  }

  predicate RunningPlan(r: Record, x: Id) {
    r.kind == Plan && r.data.PlanData? && r.data.requestId == x && r.data.planStatus.PlanRunning?
  }

  /** The last record to decide is a running plan with this id. */
  ghost predicate PlanInForce(h: seq<Record>, x: Id, plan: Id) {
    h != [] && var n := |h| - 1;
      if DecidesPlan(h[n], x) then RunningPlan(h[n], x) && h[n].id == plan else PlanInForce(h[..n], x, plan)
  }

  /** The open actions of a request. */
  ghost function OpenUnder(open: set<Id>, owners: map<Id, Id>, x: Id): set<Id> {
    set a | a in open && a in owners && owners[a] == x
  }

  // ----- What holds in every reachable state ---------------------------------------------------------

  ghost predicate RequestsExactly(h: seq<Record>, s: State) {
    && (forall x :: x in s.activeRequests <==> IsRequest(h, x) && !Ended(h, x))
    && (forall x :: Ended(h, x) ==> HasId(h, x))
  }

  ghost predicate ActionsExactly(h: seq<Record>, s: State) {
    && (forall a :: a in s.openActions <==> a in s.actionToRequest && !ClosedAction(h, a))
    && (forall a, x :: (a in s.actionToRequest && s.actionToRequest[a] == x) <==> ActsFor(h, a, x))
    && (forall a :: ClosedAction(h, a) ==> a in s.actionToRequest)
  }

  /** Each count is the number of open actions, and there are no zero entries. */
  ghost predicate CountsExactly(open: set<Id>, owners: map<Id, Id>, counts: map<Id, nat>) {
    forall x {:trigger Count(counts, x)} ::
      Count(counts, x) == |OpenUnder(open, owners, x)| && (x in counts ==> counts[x] > 0)
  }

  lemma EndedGrows(g: seq<Record>, r: Record, x: Id)
    ensures Ended(g + [r], x) <==> Ended(g, x) || EndsRequest(r) == Some(x)
  {
    if i :| 0 <= i < |g| && Ends(g[i], x) {
      assert (g + [r])[i] == g[i];
    }
    assert (g + [r])[|g|] == r;
  }

  lemma ClosedGrows(g: seq<Record>, r: Record, a: Id)
    ensures ClosedAction(g + [r], a) <==> ClosedAction(g, a) || ClosesAction(r) == Some(a)
  {
    if i :| 0 <= i < |g| && Closes(g[i], a) {
      assert (g + [r])[i] == g[i];
    }
    assert (g + [r])[|g|] == r;
  }

  lemma RequestsGrow(g: seq<Record>, r: Record, x: Id)
    ensures IsRequest(g + [r], x) <==> IsRequest(g, x) || (r.id == x && r.kind == Request)
    ensures IsRequest(g, x) ==> HasId(g, x)
  {
    if i :| 0 <= i < |g| && g[i].id == x && g[i].kind == Request {
      assert (g + [r])[i] == g[i];
    }
    assert (g + [r])[|g|] == r;
  }

  lemma ActsGrow(g: seq<Record>, r: Record, a: Id, x: Id)
    ensures ActsFor(g + [r], a, x) <==> ActsFor(g, a, x) || (r.id == a && OpensAction(r) && r.data.requestId == x)
    ensures ActsFor(g, a, x) ==> HasId(g, a)
  {
    if i :| 0 <= i < |g| && g[i].id == a && WorksFor(g[i], x) {
      assert (g + [r])[i] == g[i];
    }
    assert (g + [r])[|g|] == r;
  }

  /** What a good step says of requests and actions. */
  ghost predicate StepFits(g: seq<Record>, s: State, r: Record) {
    && !HasId(g, r.id)
    && (ClosesAction(r).Some? ==> ClosesAction(r).value in s.openActions)
    && (EndsRequest(r).Some? ==> EndsRequest(r).value in s.activeRequests)
  }

  lemma GoodStepFits(g: seq<Record>, r: Record)
    requires GoodStep(Fold(g), r)
    ensures StepFits(g, Fold(g), r)
  {
    hide Fold;
    AcceptedIds(g, r.id);
  }

  lemma ActsApart(r: Record)
    ensures OpensAction(r) ==> ClosesAction(r).None? && EndsRequest(r).None? && r.kind != Request
    ensures EndsRequest(r).Some? ==> r.kind != Request && r.kind != Plan
    ensures ClosesAction(r).Some? ==> EndsRequest(r).None?
  {
  }

  /** The requests still open are those accepted and never ended, in any reachable state. */
  lemma {:induction false} RequestsAreDeclarative(h: seq<Record>)
    requires Reachable(h)
    ensures RequestsExactly(h, Fold(h))
  {
    hide GoodStep, Apply, IsRequest, Ended, HasId, EndsRequest, RequestsExactly, StepFits;
    if h != [] {
      var g, r := h[..|h| - 1], h[|h| - 1];
      assert h == g + [r];
      RequestsAreDeclarative(g);
      GoodStepFits(g, r);
      ActsApart(r);
      Projects(Fold(g), r);
      RequestStep(g, r, Fold(g), Fold(h));
    } else {
      NoRequestsYet(h);
    }
  }

  lemma RequestStep(g: seq<Record>, r: Record, s: State, t: State)
    requires StepFits(g, s, r) && RequestsExactly(g, s)
    requires t.activeRequests == ActiveRequestsAfter(s.activeRequests, r)
    ensures RequestsExactly(g + [r], t)
  {
    hide IsRequest, Ended, HasId, EndsRequest;
    ActsApart(r);
    forall x
      ensures Ended(g + [r], x) <==> Ended(g, x) || EndsRequest(r) == Some(x)
      ensures IsRequest(g + [r], x) <==> IsRequest(g, x) || (r.id == x && r.kind == Request)
      ensures IsRequest(g, x) ==> HasId(g, x)
      ensures HasId(g + [r], x) <==> HasId(g, x) || r.id == x
    {
      EndedGrows(g, r, x);
      RequestsGrow(g, r, x);
      HasIdGrows(g, r, x);
    }
  }

  lemma NoRequestsYet(h: seq<Record>)
    requires h == []
    ensures forall x :: !IsRequest(h, x) && !Ended(h, x)
    ensures forall a :: !ClosedAction(h, a)
    ensures forall a, x :: !ActsFor(h, a, x)
    ensures RequestsExactly(h, EMPTY_STATE)
  {
  }

  /** The open actions are those accepted and never closed, each mapped to its request. */
  lemma {:induction false} ActionsAreDeclarative(h: seq<Record>)
    requires Reachable(h)
    ensures ActionsExactly(h, Fold(h))
  {
    hide GoodStep, Apply, ActsFor, ClosedAction, HasId, ClosesAction, OpensAction;
    if h != [] {
      var g, r := h[..|h| - 1], h[|h| - 1];
      assert h == g + [r];
      ActionsAreDeclarative(g);
      GoodStepFits(g, r);
      ActsApart(r);
      Projects(Fold(g), r);
      ActionStep(g, r, Fold(g), Fold(h));
    } else {
      NoRequestsYet(h);
    }
  }

  lemma ActionStep(g: seq<Record>, r: Record, s: State, t: State)
    requires StepFits(g, s, r) && ActionsExactly(g, s)
    requires t.openActions == OpenActionsAfter(s.openActions, r)
    requires t.actionToRequest == ActionToRequestAfter(s.actionToRequest, r)
    ensures ActionsExactly(g + [r], t)
  {
    hide ActsFor, ClosedAction, HasId, ClosesAction, OpensAction;
    ActsApart(r);
    OpensHasData(r);
    forall a, x
      ensures ActsFor(g + [r], a, x) <==> ActsFor(g, a, x) || (r.id == a && OpensAction(r) && r.data.requestId == x)
      ensures ActsFor(g, a, x) ==> HasId(g, a)
    {
      ActsGrow(g, r, a, x);
    }
    forall a: Id
      ensures ClosedAction(g + [r], a) <==> ClosedAction(g, a) || ClosesAction(r) == Some(a)
    {
      ClosedGrows(g, r, a);
    }
    forall a | a in s.actionToRequest
      ensures HasId(g, a)
    {
      assert ActsFor(g, a, s.actionToRequest[a]);
    }
  }

  lemma OpensHasData(r: Record)
    ensures OpensAction(r) ==> r.kind == Action && r.data.ActionData?
  {
  }

  // ----- Counts ----------------------------------------------------------------------------------------

  lemma OpenUnderGrows(open: set<Id>, owners: map<Id, Id>, a: Id, x: Id, y: Id)
    requires a !in owners && open <= owners.Keys
    ensures |OpenUnder(open + {a}, owners[a := x], y)| == |OpenUnder(open, owners, y)| + if y == x then 1 else 0
  {
    var before, after := OpenUnder(open, owners, y), OpenUnder(open + {a}, owners[a := x], y);
    if y == x {
      assert after == before + {a} && a !in before;
    } else {
      assert after == before;
    }
  }

  lemma OpeningCounts(open: set<Id>, owners: map<Id, Id>, counts: map<Id, nat>, a: Id, x: Id)
    requires CountsExactly(open, owners, counts) && a !in owners && open <= owners.Keys
    ensures CountsExactly(open + {a}, owners[a := x], counts[x := Count(counts, x) + 1])
  {
    hide OpenUnder;
    var after := counts[x := Count(counts, x) + 1];
    forall y
      ensures Count(after, y) == |OpenUnder(open + {a}, owners[a := x], y)| && (y in after ==> after[y] > 0)
    {
      OpenUnderGrows(open, owners, a, x, y);
      assert Count(counts, y) == |OpenUnder(open, owners, y)|;
    }
  }

  /** The count of a request with an open action is never zero, so closing one never
      takes it below. */
  lemma ClosingCounts(open: set<Id>, owners: map<Id, Id>, counts: map<Id, nat>, a: Id)
    requires CountsExactly(open, owners, counts) && a in open && a in owners
    ensures owners[a] in counts && counts[owners[a]] >= 1
    ensures CountsExactly(open - {a}, owners, Decremented(counts, owners[a]))
  {
    var x := owners[a];
    assert a in OpenUnder(open, owners, x);
    assert Count(counts, x) == |OpenUnder(open, owners, x)| > 0;
    var after := Decremented(counts, x);
    forall y
      ensures Count(after, y) == |OpenUnder(open - {a}, owners, y)| && (y in after ==> after[y] > 0)
    {
      assert OpenUnder(open - {a}, owners, y) == OpenUnder(open, owners, y) - if y == x then {a} else {};
      assert Count(counts, y) == |OpenUnder(open, owners, y)|;
    }
  }

  /** In every reachable state each request's count is the number of its open actions. */
  lemma {:induction false} CountsAreDeclarative(h: seq<Record>)
    requires Reachable(h)
    ensures CountsExactly(Fold(h).openActions, Fold(h).actionToRequest, Fold(h).openActionCount)
  {
    hide GoodStep, Apply, StepFits, ActionsExactly, CountsExactly;
    if h != [] {
      var g, r := h[..|h| - 1], h[|h| - 1];
      assert h == g + [r];
      var s := Fold(g);
      CountsAreDeclarative(g);
      ActionsAreDeclarative(g);
      GoodStepFits(g, r);
      Projects(s, r);
      CountStep(g, r, s, Fold(h));
    } else {
      NoCountsYet();
    }
  }

  lemma CountStep(g: seq<Record>, r: Record, s: State, t: State)
    requires StepFits(g, s, r) && ActionsExactly(g, s)
    requires CountsExactly(s.openActions, s.actionToRequest, s.openActionCount)
    requires t.openActions == OpenActionsAfter(s.openActions, r)
    requires t.actionToRequest == ActionToRequestAfter(s.actionToRequest, r)
    requires t.openActionCount == OpenActionCountAfter(s.openActionCount, s.actionToRequest, r)
    ensures CountsExactly(t.openActions, t.actionToRequest, t.openActionCount)
  {
    hide ActsFor, ClosedAction, HasId, ClosesAction, OpensAction, OpenUnder, Count, Decremented, CountsExactly;
    ActsApart(r);
    OpensHasData(r);
    if OpensAction(r) {
      assert r.id in s.actionToRequest ==> ActsFor(g, r.id, s.actionToRequest[r.id]);
      ActsGrow(g, r, r.id, if r.id in s.actionToRequest then s.actionToRequest[r.id] else 0);
      OpeningCounts(s.openActions, s.actionToRequest, s.openActionCount, r.id, r.data.requestId);
    } else if ClosesAction(r).Some? {
      ClosingCounts(s.openActions, s.actionToRequest, s.openActionCount, ClosesAction(r).value);
    }
  }

  lemma NoCountsYet()
    ensures CountsExactly({}, map[], map[])
  {
    assert forall x :: OpenUnder({}, map[], x) == {};
  }

  // ----- Turns and plans --------------------------------------------------------------------------------

  /** Turns are counted, and every accepted response carries the next one: 0, 1, 2, ... */
  lemma {:induction false} TurnsAreDeclarative(h: seq<Record>, x: Id)
    requires Reachable(h)
    ensures Count(Fold(h).responseTurns, x) == Turns(h, x) <= U32_MAX
    ensures h != [] && RespondsTo(h[|h| - 1], x) ==> h[|h| - 1].data.turnIndex == Turns(h[..|h| - 1], x)
  {
    hide Apply;
    if h != [] {
      var g, r := h[..|h| - 1], h[|h| - 1];
      TurnsAreDeclarative(g, x);
      Projects(Fold(g), r);
    }
  }

  lemma ResponsesTakeTurns(h: seq<Record>, i: nat)
    requires Reachable(h) && i < |h| && h[i].kind == Response
    ensures h[i].data.ResponseData? && h[i].data.turnIndex == Turns(h[..i], h[i].data.requestId)
  {
    hide Fold;
    ReachablePrefix(h, i + 1);
    var g := h[..i + 1];
    assert g[..i] == h[..i] && g[i] == h[i];
    ReachablePrefix(h, i);
    TurnsAreDeclarative(g, h[i].data.requestId);
  }

  /** The active plan of a request is the last to be decided, if it is running. */
  lemma {:induction false} PlansAreDeclarative(h: seq<Record>, x: Id, plan: Id)
    requires Reachable(h)
    ensures (x in Fold(h).activePlans && Fold(h).activePlans[x] == plan) <==> PlanInForce(h, x, plan)
  {
    hide Apply;
    if h != [] {
      var g, r := h[..|h| - 1], h[|h| - 1];
      PlansAreDeclarative(g, x, plan);
      Projects(Fold(g), r);
    }
  }

  // ----- Over whole runs -----------------------------------------------------------------------------------

  /** A request that is not active once accepted is never active again. */
  lemma RequestsNeverReactivate(h: seq<Record>, x: Id, i: nat, j: nat)
    requires Reachable(h) && i <= j <= |h|
    requires HasId(h[..i], x) && x !in Fold(h[..i]).activeRequests
    ensures x !in Fold(h[..j]).activeRequests
    decreases j - i
  {
    hide GoodStep, Apply, Fold, Ended, IsRequest;
    if i < j {
      var g, r := h[..i], h[i];
      ReachablePrefix(h, i);
      ReachablePrefix(h, i + 1);
      assert h[..i + 1] == g + [r] && h[..j][..i] == g;
      HasIdGrows(g, r, x);
      RequestsAreDeclarative(g);
      RequestsAreDeclarative(g + [r]);
      EndedGrows(g, r, x);
      RequestsGrow(g, r, x);
      GoodStepFits(g, r);
      RequestsNeverReactivate(h, x, i + 1, j);
    }
  }

  /** Nothing is going on under a request. */
  ghost predicate Settled(s: State, x: Id) {
    && x !in s.activeRequests
    && OpenUnder(s.openActions, s.actionToRequest, x) == {}
    && x !in s.activePlans
  }

  /** Only work for a live request can start anything, so a settled request stays settled. */
  lemma SettledStays(g: seq<Record>, r: Record, x: Id)
    requires Reachable(g) && GoodStep(Fold(g), r) && HasId(g, x) && Settled(Fold(g), x)
    ensures Settled(Fold(g + [r]), x)
  {
    hide Apply, Fold, Reachable;
    FoldStep(g, r);
    Projects(Fold(g), r);
    AcceptedIds(g, r.id);
    ActionsAreDeclarative(g);
  }

  /** A closing response leaves nothing open: no action, no plan, then and ever after. */
  lemma {:induction false} ClosedForGood(h: seq<Record>, i: nat, j: nat)
    requires Reachable(h) && i < j <= |h|
    requires h[i].kind == Response && h[i].data.ResponseData? && h[i].data.closesRequest
    ensures Settled(Fold(h[..j]), h[i].data.requestId)
    decreases j
  {
    hide GoodStep, Apply, Fold, Settled;
    var x := h[i].data.requestId;
    if j == i + 1 {
      ReachablePrefix(h, i);
      assert h[..i + 1] == h[..i] + [h[i]];
      ClosingSettles(h[..i], h[i]);
    } else {
      ClosedForGood(h, i, j - 1);
      ReachablePrefix(h, j - 1);
      assert h[..j] == h[..j - 1] + [h[j - 1]];
      RequestExists(h, i, j - 1);
      SettledStays(h[..j - 1], h[j - 1], x);
    }
  }

  lemma ClosingSettles(g: seq<Record>, r: Record)
    requires Reachable(g) && GoodStep(Fold(g), r)
    requires r.kind == Response && r.data.ResponseData? && r.data.closesRequest
    ensures Settled(Fold(g + [r]), r.data.requestId)
  {
    hide Apply, Fold, Reachable;
    FoldStep(g, r);
    Projects(Fold(g), r);
    CountsAreDeclarative(g);
    assert Count(Fold(g).openActionCount, r.data.requestId) == 0;
  }

  lemma RequestExists(h: seq<Record>, i: nat, j: nat)
    requires Reachable(h) && i < j <= |h| && h[i].kind == Response && h[i].data.ResponseData?
    ensures HasId(h[..j], h[i].data.requestId)
  {
    hide Apply, Fold, Ended;
    ReachablePrefix(h, i);
    RequestsAreDeclarative(h[..i]);
    var x := h[i].data.requestId;
    assert x in Fold(h[..i]).activeRequests;
    var k :| 0 <= k < |h[..i]| && h[..i][k].id == x && h[..i][k].kind == Request;
    assert h[..j][k].id == x;
  }

  // ----- Refusal does not settle --------------------------------------------------------------------------

  /** Whatever ends a request drops its plan, but leaves open exactly the actions that were
      open: the request is settled if and only if its count was zero beforehand. Responses
      check the count; refusals do not. */
  lemma EndingSettlesIffNoneOpen(g: seq<Record>, r: Record)
    requires Reachable(g) && GoodStep(Fold(g), r) && EndsRequest(r).Some?
    ensures var x := EndsRequest(r).value;
            Settled(Fold(g + [r]), x) <==> Count(Fold(g).openActionCount, x) == 0
  {
    hide Apply, Fold, Reachable;
    FoldStep(g, r);
    Projects(Fold(g), r);
    ActsApart(r);
    CountsAreDeclarative(g);
    var x := EndsRequest(r).value;
    assert Count(Fold(g).openActionCount, x) == |OpenUnder(Fold(g).openActions, Fold(g).actionToRequest, x)|;
  }
}
