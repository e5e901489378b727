/** What holds of the edit-request desk over whole runs. */
module EditRequestRuns {
  import opened Wrappers
  import opened EditRequests
  import opened IsoDate

  /** One step; other screens may rewrite residents in any way but never drop one. */
  datatype Event =
    | Asking(user: nat, society: Option<nat>, form: Form, mine: Option<nat>)
    | Approving(id: nat, user: nat, society: Option<nat>)
    | Rejecting(id: nat, user: nat, society: Option<nat>, why: string)
    | Elsewhere(residents: seq<Resident>)

  ghost predicate Possible(s: Desk, e: Event) {
    match e
    case Asking(user, _, _, mine) => Mine(s, user, mine)
    case Elsewhere(residents) => |residents| >= |s.residents|
    case _ => true
  }

  function Reply(reader: Reader, s: Desk, e: Event): (out: Result<Desk, Refusal>) {
    match e
    case Asking(user, society, form, mine) => Create(s, user, society, form, mine)
    case Approving(id, user, society) => Approve(reader, s, id, user, society)
    case Rejecting(id, user, society, why) => Reject(s, id, user, society, why)
    case Elsewhere(residents) => Success(s.(residents := residents))
  }

  function Do(reader: Reader, s: Desk, e: Event): (s': Desk) {
    var out := Reply(reader, s, e);
    if out.Success? then out.value else s
  }

  /** `h` lists the desk before and after each of the events; it opens without requests. */
  ghost predicate History(reader: Reader, h: seq<Desk>, events: seq<Event>) {
    && |h| == |events| + 1
    && h[0].requests == []
    && forall i :: 0 <= i < |events| ==> Possible(h[i], events[i]) && h[i + 1] == Do(reader, h[i], events[i])
  }

  // ---------------------------------------------------------------- what every step keeps

  ghost predicate Sound(reader: Reader, s: Desk) {
    && (forall i :: 0 <= i < |s.requests| ==>
          s.requests[i].resident < |s.residents| && StoredAsRead(reader, s.requests[i].changes))
    && OnePending(s.requests)
  }

  /** No resident has two requests waiting. */
  ghost predicate OnePending(requests: seq<Request>) {
    forall i, j :: 0 <= i < j < |requests| && requests[i].status == Pending && requests[j].status == Pending ==>
      requests[i].resident != requests[j].resident
  }

  /** A request stays as it was made, and once reviewed it stays as it was reviewed. */
  predicate Settles(before: Request, after: Request) {
    && after == before.(status := after.status, reviewedBy := after.reviewedBy, reason := after.reason)
    && (before.status != Pending ==> after == before)
  }

  ghost predicate Progress(s: Desk, s': Desk) {
    && |s'.residents| >= |s.residents| && |s'.requests| >= |s.requests|
    && forall i :: 0 <= i < |s.requests| ==> Settles(s.requests[i], s'.requests[i])
  }

  lemma NewKeeps(reader: Reader, s: Desk, request: Request)
    requires Sound(reader, s) && request.resident < |s.residents| && StoredAsRead(reader, request.changes)
    requires !Waiting(s, request.resident)
    ensures var s' := s.(requests := s.requests + [request]); Sound(reader, s') && Progress(s, s')
  {
  }

  lemma ReviewKeeps(reader: Reader, s: Desk, id: nat, reviewed: Request, residents: seq<Resident>)
    requires Sound(reader, s) && id < |s.requests| && |residents| >= |s.residents|
    requires Settles(s.requests[id], reviewed) && reviewed.status != Pending
    ensures var s' := Desk(residents, s.requests[id := reviewed]); Sound(reader, s') && Progress(s, s')
  {
  }

  lemma StepKeeps(reader: Reader, s: Desk, e: Event)
    requires Sound(reader, s) && Possible(s, e)
    ensures Sound(reader, Do(reader, s, e)) && Progress(s, Do(reader, s, e))
  {
    var s' := Do(reader, s, e);
    if Reply(reader, s, e).Success? {
      match e
      case Asking(_, _, form, _) =>
        StoredFormApplies(reader, form, map[]);
        NewKeeps(reader, s, s'.requests[|s.requests|]);
      case Approving(id, _, _) => ReviewKeeps(reader, s, id, s'.requests[id], s'.residents);
      case Rejecting(id, _, _, _) => ReviewKeeps(reader, s, id, s'.requests[id], s'.residents);
      case Elsewhere(_) =>
    }
  }

  lemma {:induction false} RunsStaySound(reader: Reader, h: seq<Desk>, events: seq<Event>, n: nat)
    requires History(reader, h, events) && n < |h|
    ensures Sound(reader, h[n])
  {
    if n > 0 {
      RunsStaySound(reader, h, events, n - 1);
      StepKeeps(reader, h[n - 1], events[n - 1]);
    }
  }

  lemma {:induction false} RunsProgress(reader: Reader, h: seq<Desk>, events: seq<Event>, m: nat, n: nat)
    requires History(reader, h, events) && m <= n < |h|
    ensures Progress(h[m], h[n])
  {
    if m < n {
      RunsProgress(reader, h, events, m, n - 1);
      RunsStaySound(reader, h, events, n - 1);
      StepKeeps(reader, h[n - 1], events[n - 1]);
    }
  }

  /** At no time does a resident have two requests waiting. */
  lemma NeverTwoPending(reader: Reader, h: seq<Desk>, events: seq<Event>, n: nat, i: nat, j: nat)
    requires History(reader, h, events) && n < |h| && i < j < |h[n].requests|
    requires h[n].requests[i].status == Pending && h[n].requests[j].status == Pending
    ensures h[n].requests[i].resident != h[n].requests[j].resident
  {
    RunsStaySound(reader, h, events, n);
  }

  /** Whatever texts the program takes for dates, every change on the desk is read and stored again as it stands. */
  lemma StoredChangesStand(reader: Reader, h: seq<Desk>, events: seq<Event>, n: nat, id: nat)
    requires History(reader, h, events) && n < |h| && id < |h[n].requests|
    ensures StoredAsRead(reader, h[n].requests[id].changes)
  {
    RunsStaySound(reader, h, events, n);
  }

  // ---------------------------------------------------------------- answers

  predicate Linked(s: Desk, r: nat, user: nat) {
    r < |s.residents| && s.residents[r].user == Some(user) && s.residents[r].active
  }

  /** Asking goes through exactly for a resident without a request waiting and a form not left empty. */
  lemma AskingGoesThrough(s: Desk, user: nat, society: Option<nat>, form: Form, mine: Option<nat>)
    requires Mine(s, user, mine)
    ensures var out := Create(s, user, society, form, mine);
            && (out.Success? <==>
                  && society.Some? && !Empty(form)
                  && exists r: nat :: mine == Some(r) && Linked(s, r, user)
                                      && forall i :: 0 <= i < |s.requests| && s.requests[i].resident == r ==>
                                           s.requests[i].status != Pending)
            && (out.Success? ==>
                  && out.value.residents == s.residents && |out.value.requests| == |s.requests| + 1
                  && out.value.requests == s.requests + [out.value.requests[|s.requests|]]
                  && var request := out.value.requests[|s.requests|];
                     && request.resident == mine.value && request.requestedBy == user
                     && request.society == society.value && request.status == Pending
                     && request.reviewedBy == None && request.reason == None)
            && (out == Failure(NotLinked) <==> forall r: nat :: !Linked(s, r, user))
            && (out == Failure(NoChanges)
                <==> mine.Some? && !Waiting(s, mine.value) && Empty(form))
            && (out == Failure(AlreadyPending) <==> mine.Some? && Waiting(s, mine.value))
  {
    NothingAsked(form);
    if mine.Some? {
      assert Linked(s, mine.value, user);
    }
  }

  /** A request waiting in the caller's society can be rejected, and keeps the reason; no resident changes. */
  lemma RejectionWorks(s: Desk, id: nat, user: nat, society: Option<nat>, why: string)
    ensures var out := Reject(s, id, user, society, why);
            && (out.Success? <==> id < |s.requests| && society == Some(s.requests[id].society)
                                  && s.requests[id].status == Pending)
            && (out.Success? ==> out.value.residents == s.residents
                                 && out.value.requests == s.requests[id := out.value.requests[id]]
                                 && out.value.requests[id] == s.requests[id].(status := Rejected,
                                      reviewedBy := Some(user), reason := Some(why)))
  {
  }

  /** Approval and rejection alike: another society's request is not found, a reviewed one stays reviewed. */
  lemma ReviewRefused(reader: Reader, s: Desk, id: nat, user: nat, society: Option<nat>, why: string)
    ensures var approval, rejection := Approve(reader, s, id, user, society), Reject(s, id, user, society, why);
            var found := id < |s.requests| && society == Some(s.requests[id].society);
            && (approval == Failure(RequestNotFound) <==> !found)
            && (rejection == Failure(RequestNotFound) <==> !found)
            && (approval == Failure(AlreadyReviewed) <==> found && s.requests[id].status != Pending)
            && (rejection == Failure(AlreadyReviewed) <==> found && s.requests[id].status != Pending)
  {
  }

  /** An approval notes who approved, and changes no other request. */
  lemma ApprovalNotes(reader: Reader, s: Desk, id: nat, user: nat, society: Option<nat>)
    requires Approve(reader, s, id, user, society).Success?
    ensures id < |s.requests|
            && Approve(reader, s, id, user, society).value.requests
               == s.requests[id := s.requests[id].(status := Approved, reviewedBy := Some(user))]
  {
  }

  // ---------------------------------------------------------------- reviews

  /** The step reviewed the request. */
  predicate Reviews(reader: Reader, s: Desk, e: Event, id: nat) {
    (e.Approving? || e.Rejecting?) && e.id == id && Reply(reader, s, e).Success?
  }

  /** A request is reviewed at most once, by one approval or one rejection. */
  lemma ReviewedOnce(reader: Reader, h: seq<Desk>, events: seq<Event>, m: nat, n: nat, id: nat)
    requires History(reader, h, events) && m < n < |events|
    requires Reviews(reader, h[m], events[m], id)
    ensures !Reviews(reader, h[n], events[n], id)
  {
    RunsProgress(reader, h, events, m + 1, n);
    assert Settles(h[m + 1].requests[id], h[n].requests[id]);
  }

  /** Approval in the request's society succeeds exactly as long as nobody reviewed the request. */
  lemma ApprovalWorks(reader: Reader, h: seq<Desk>, events: seq<Event>, n: nat, id: nat, user: nat,
                      society: Option<nat>)
    requires History(reader, h, events) && n < |h|
    ensures Approve(reader, h[n], id, user, society).Success?
       <==> Found(h[n], id, society) && h[n].requests[id].status == Pending
  {
    RunsStaySound(reader, h, events, n);
  }

  /** The step put the request on the desk, for the resident found and from the form filled in. */
  predicate Puts(s: Desk, e: Event, s': Desk, id: nat) {
    e.Asking? && e.mine.Some? && |s.requests| == id < |s'.requests|
  }

  /** The request was waiting before the step and is approved after it. */
  predicate Approves(s: Desk, s': Desk, id: nat) {
    && id < |s.requests| && s.requests[id].status == Pending
    && id < |s'.requests| && s'.requests[id].status == Approved
  }

  /** The form is set field by field on the one resident, and nothing else of any resident differs. */
  ghost predicate Sets(s: Desk, s': Desk, r: nat, form: Form) {
    && |s'.residents| == |s.residents| && r < |s.residents|
    && (forall q :: 0 <= q < |s.residents| && q != r ==> s'.residents[q] == s.residents[q])
    && s'.residents[r] == s.residents[r].(columns := s'.residents[r].columns)
    && FormSet(s.residents[r].columns, s'.residents[r].columns, form)
  }

  lemma NewRequestIsPut(reader: Reader, s: Desk, e: Event, id: nat)
    requires |s.requests| <= id < |Do(reader, s, e).requests|
    ensures Puts(s, e, Do(reader, s, e), id)
  {
  }

  lemma WhatIsPut(reader: Reader, s: Desk, e: Event, id: nat)
    requires Puts(s, e, Do(reader, s, e), id)
    ensures var request := Do(reader, s, e).requests[id];
            request.resident == e.mine.value && request.changes == Stored(Asked(e.form))
  {
  }

  lemma WhatApprovalSets(reader: Reader, s: Desk, e: Event, id: nat, form: Form)
    requires Approves(s, Do(reader, s, e), id) && s.requests[id].changes == Stored(Asked(form))
    ensures Sets(s, Do(reader, s, e), s.requests[id].resident, form)
  {
    assert e == Approving(id, e.user, e.society);
    StoredFormApplies(reader, form, s.residents[s.requests[id].resident].columns);
    AskedSetsForm(s.residents[s.requests[id].resident].columns, form);
  }

  /** Every request on the desk was put there by an earlier step. */
  lemma {:induction false} EveryRequestWasPut(reader: Reader, h: seq<Desk>, events: seq<Event>, n: nat, id: nat)
    returns (m: nat)
    requires History(reader, h, events) && n < |h| && id < |h[n].requests|
    ensures m < n && Puts(h[m], events[m], h[m + 1], id)
  {
    if id < |h[n - 1].requests| {
      m := EveryRequestWasPut(reader, h, events, n - 1, id);
    } else {
      m := n - 1;
      NewRequestIsPut(reader, h[m], events[m], id);
    }
  }

  /**
  Every approval goes back to an earlier asking: whatever happened in between, each column of
  the resident who asked holds what that form's own field gave, or what it held before where the
  field was left out, and nothing else of any resident changes.
  */
  lemma ApprovalSetsWhatWasAsked(reader: Reader, h: seq<Desk>, events: seq<Event>, n: nat, id: nat) returns (m: nat)
    requires History(reader, h, events) && n < |events| && Approves(h[n], h[n + 1], id)
    ensures m < n && Puts(h[m], events[m], h[m + 1], id)
    ensures Sets(h[n], h[n + 1], events[m].mine.value, events[m].form)
  {
    m := EveryRequestWasPut(reader, h, events, n, id);
    WhatIsPut(reader, h[m], events[m], id);
    RunsProgress(reader, h, events, m + 1, n);
    assert Settles(h[m + 1].requests[id], h[n].requests[id]);
    WhatApprovalSets(reader, h[n], events[n], id, events[m].form);
  }
}
