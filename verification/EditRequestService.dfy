/** The edit-request desk as the program has it. */
module EditRequestService {
  import opened Wrappers
  import opened EditRequests
  import opened IsoDate

  class EditRequestService {
    var residents: seq<Resident>
    var requests: seq<Request>
    const reader: Reader

    constructor (desk: Desk, reader: Reader)
      ensures Tables() == desk && this.reader == reader
    {
      residents, requests := desk.residents, desk.requests;
      this.reader := reader;
    }

    function Tables(): (desk: Desk)
      reads this
    {
      Desk(residents, requests)
    }

    method MyResident(user: nat) returns (mine: Option<nat>)
      ensures Mine(Tables(), user, mine)
    {
      for r := 0 to |residents|
        invariant forall q :: 0 <= q < r ==> !(residents[q].user == Some(user) && residents[q].active)
      {
        if residents[r].user == Some(user) && residents[r].active {
          return Some(r);
        }
      }
      mine := None;
    }

    method CreateRequest(user: nat, society: Option<nat>, form: Form)
      returns (refusal: Option<Refusal>, ghost mine: Option<nat>)
      modifies this`requests
      ensures Mine(old(Tables()), user, mine)
      ensures Answers(Create(old(Tables()), user, society, form, mine), old(Tables()), Tables(), refusal)
    {
      var resident := MyResident(user);
      mine := resident;
      if resident.None? {
        return Some(NotLinked), mine;
      }
      if Waiting(Tables(), resident.value) {
        return Some(AlreadyPending), mine;
      }
      var raw := Asked(form);
      if raw == map[] {
        return Some(NoChanges), mine;
      }
      if society.None? {
        return Some(NoSociety), mine;
      }
      var changes := map k | k in raw :: Serialize(raw[k]);
      requests := requests + [Request(resident.value, user, society.value, changes, Pending, None, None)];
      refusal := None;
    }

    /** The changes are set one by one, in whatever order the stored object lists them. */
    method SetAll(columns: map<string, Value>, changes: map<string, Json>) returns (after: Option<map<string, Value>>)
      ensures after == if Readable(reader, changes) then Some(Applied(reader, columns, changes)) else None
    {
      var now, todo := columns, changes.Keys;
      ghost var done: map<string, Json> := map[];
      while todo != {}
        invariant todo <= changes.Keys && done.Keys == changes.Keys - todo
        invariant forall k :: k in done ==> done[k] == changes[k]
        invariant Readable(reader, done) && now == Applied(reader, columns, done)
        decreases |todo|
      {
        var field :| field in todo;
        ReadableOneMore(reader, done, field, changes[field]);
        if Editable(field) {
          var value := Coerce(reader, field, changes[field]);
          if value.Failure? {
            assert done[field := changes[field]].Keys <= changes.Keys;
            return None;
          }
          now := now[field := value.value];
        }
        AppliedOneMore(reader, columns, done, field, changes[field]);
        done := done[field := changes[field]];
        todo := todo - {field};
      }
      assert done == changes;
      after := Some(now);
    }

    method ApproveRequest(id: nat, user: nat, society: Option<nat>) returns (refusal: Option<Refusal>)
      modifies this
      ensures Answers(Approve(reader, old(Tables()), id, user, society), old(Tables()), Tables(), refusal)
    {
      if !Found(Tables(), id, society) {
        return Some(RequestNotFound);
      }
      var request := requests[id];
      if request.status != Pending {
        return Some(AlreadyReviewed);
      }
      if request.resident >= |residents| {
        return Some(ResidentNotFound);
      }
      var resident := residents[request.resident];
      var columns := SetAll(resident.columns, request.changes);
      if columns.None? {
        return Some(Unreadable);
      }
      residents := residents[request.resident := resident.(columns := columns.value)];
      requests := requests[id := request.(status := Approved, reviewedBy := Some(user))];
      refusal := None;
    }

    method RejectRequest(id: nat, user: nat, society: Option<nat>, reason: string) returns (refusal: Option<Refusal>)
      modifies this`requests
      ensures Answers(Reject(old(Tables()), id, user, society, reason), old(Tables()), Tables(), refusal)
    {
      if !Found(Tables(), id, society) {
        return Some(RequestNotFound);
      }
      if requests[id].status != Pending {
        return Some(AlreadyReviewed);
      }
      requests := requests[id := requests[id].(status := Rejected, reviewedBy := Some(user), reason := Some(reason))];
      refusal := None;
    }
  }
}
