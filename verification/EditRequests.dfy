/** Residents ask for changes to their own profile; the committee approves or rejects them. */
module EditRequests {
  import opened Wrappers
  import opened IsoDate

  datatype Preference = AppOnly | Sms | Email | Whatsapp | All

  /** What a resident's column holds. */
  datatype Value =
    | Null | Words(text: string) | Born(date: Date) | Reach(via: Preference) | Flag(on: bool) | Count(n: int)

  /** What a stored change holds. */
  datatype Json = JNull | JText(text: string) | JFlag(on: bool) | JCount(n: int)

  const EDITABLE: set<string> :=
    {"full_name", "phone", "email", "date_of_birth", "emergency_contact_name", "emergency_contact_phone",
     "comm_preference", "photo_url"}

  function PreferenceText(p: Preference): (s: string) {
    match p
    case AppOnly => "app_only"
    case Sms => "sms"
    case Email => "email"
    case Whatsapp => "whatsapp"
    case All => "all"
  }

  function ReadPreference(s: string): (p: Option<Preference>) {
    if s == "app_only" then Some(AppOnly)
    else if s == "sms" then Some(Sms)
    else if s == "email" then Some(Email)
    else if s == "whatsapp" then Some(Whatsapp)
    else if s == "all" then Some(All)
    else None
  }

  function Serialize(v: Value): (j: Json) {
    match v
    case Null => JNull
    case Words(text) => JText(text)
    case Born(date) => JText(Format(date))
    case Reach(via) => JText(PreferenceText(via))
    case Flag(on) => JFlag(on)
    case Count(n) => JCount(n)
  }

  datatype Malformed = Malformed

  /** `reader` says which texts are read as dates besides the dates' own. */
  function Coerce(reader: Reader, field: string, j: Json): (v: Result<Value, Malformed>) {
    if j == JNull then Success(Null)
    else if field == "date_of_birth" then
      if j.JText? && ReadDate(reader, j.text).Some? then Success(Born(ReadDate(reader, j.text).value))
      else Failure(Malformed)
    else if field == "comm_preference" then
      if j.JText? && ReadPreference(j.text).Some? then Success(Reach(ReadPreference(j.text).value))
      else Failure(Malformed)
    else
      match j
      case JText(text) => Success(Words(text))
      case JFlag(on) => Success(Flag(on))
      case JCount(n) => Success(Count(n))
  }

  /** The value is of the kind the field's column holds. */
  predicate Fits(field: string, v: Value) {
    || v.Null?
    || if field == "date_of_birth" then v.Born?
       else if field == "comm_preference" then v.Reach?
       else v.Words? || v.Flag? || v.Count?
  }

  /** A value survives being stored and read back exactly when it is of the field's kind. */
  lemma CoerceUndoesSerialize(reader: Reader, field: string, v: Value)
    ensures Coerce(reader, field, Serialize(v)) == Success(v) <==> Fits(field, v)
  {
    if v.Born? {
      CanonicalFormat(v.date);
    }
  }

  /** A change that can be read is stored as itself again exactly when it holds no date, or a date in its own text. */
  lemma SerializeUndoesCoerce(reader: Reader, field: string, j: Json)
    requires Coerce(reader, field, j).Success?
    ensures Fits(field, Coerce(reader, field, j).value)
    ensures Serialize(Coerce(reader, field, j).value) == j
            <==> (field == "date_of_birth" && j.JText? ==> Canonical(j.text).Some?)
  {
    if j.JText? && field == "date_of_birth" {
      CanonicalFormat(ReadDate(reader, j.text).value);
      if Canonical(j.text).Some? {
        FormatCanonical(j.text);
      }
    }
  }

  /** A date written as eight digits is read, and stored again with dashes. */
  lemma EightDigitsComeBackDashed()
    ensures var read := Coerce(ReadCompact, "date_of_birth", JText("20200101"));
            read == Success(Born(Day(2020, 1, 1))) && Serialize(read.value) != JText("20200101")
  {
    EightDigits();
    assert |Format(Day(2020, 1, 1))| == 10;
  }

  // ---------------------------------------------------------------- the desk

  /** A resident's columns by name. */
  datatype Resident = Resident(user: Option<nat>, active: bool, columns: map<string, Value>)

  datatype Status = Pending | Approved | Rejected

  datatype Request = Request(resident: nat, requestedBy: nat, society: nat, changes: map<string, Json>,
                             status: Status, reviewedBy: Option<nat>, reason: Option<string>)

  datatype Desk = Desk(residents: seq<Resident>, requests: seq<Request>)

  datatype Refusal =
    | NotLinked | AlreadyPending | NoChanges | NoSociety
    | RequestNotFound | AlreadyReviewed | ResidentNotFound | Unreadable

  /** The form a resident fills in: every field may be left out. */
  datatype Form = Form(fullName: Option<string>, phone: Option<string>, email: Option<string>,
                       dateOfBirth: Option<Date>, emergencyName: Option<string>, emergencyPhone: Option<string>,
                       preference: Option<Preference>, photo: Option<string>)

  function Typed(text: Option<string>): (v: Value) {
    if text.Some? then Words(text.value) else Null
  }

  /** What the form holds for a field. */
  function Filled(form: Form, field: string): (v: Value) {
    match field
    case "full_name" => Typed(form.fullName)
    case "phone" => Typed(form.phone)
    case "email" => Typed(form.email)
    case "date_of_birth" => if form.dateOfBirth.Some? then Born(form.dateOfBirth.value) else Null
    case "emergency_contact_name" => Typed(form.emergencyName)
    case "emergency_contact_phone" => Typed(form.emergencyPhone)
    case "comm_preference" => if form.preference.Some? then Reach(form.preference.value) else Null
    case "photo_url" => Typed(form.photo)
    case _ => Null
  }

  /** The fields that were filled in. */
  function Asked(form: Form): (asked: map<string, Value>) {
    map k | k in EDITABLE && Filled(form, k) != Null :: Filled(form, k)
  }

  function Stored(asked: map<string, Value>): (changes: map<string, Json>) {
    map k | k in asked :: Serialize(asked[k])
  }

  lemma FilledFits(form: Form, field: string)
    ensures Fits(field, Filled(form, field))
  {
  }

  /** Nothing was filled in. */
  predicate Empty(form: Form) {
    && form.fullName.None? && form.phone.None? && form.email.None? && form.dateOfBirth.None?
    && form.emergencyName.None? && form.emergencyPhone.None? && form.preference.None? && form.photo.None?
  }

  /** A form asks for nothing exactly when all eight fields were left out. */
  lemma NothingAsked(form: Form)
    ensures Asked(form) == map[] <==> Empty(form)
  {
    if !Empty(form) {
      var field := if form.fullName.Some? then "full_name" else if form.phone.Some? then "phone"
                   else if form.email.Some? then "email" else if form.dateOfBirth.Some? then "date_of_birth"
                   else if form.emergencyName.Some? then "emergency_contact_name"
                   else if form.emergencyPhone.Some? then "emergency_contact_phone"
                   else if form.preference.Some? then "comm_preference" else "photo_url";
      assert field in Asked(form);
    }
  }

  function At(columns: map<string, Value>, field: string): (v: Option<Value>) {
    if field in columns then Some(columns[field]) else None
  }

  /** The column holds the text given, or what it held before. */
  predicate TextSet(before: map<string, Value>, after: map<string, Value>, field: string, given: Option<string>) {
    At(after, field) == if given.Some? then Some(Words(given.value)) else At(before, field)
  }

  /** Every column holds what its own field of the form gave, or what it held before. */
  ghost predicate FormSet(before: map<string, Value>, after: map<string, Value>, form: Form) {
    && TextSet(before, after, "full_name", form.fullName)
    && TextSet(before, after, "phone", form.phone)
    && TextSet(before, after, "email", form.email)
    && At(after, "date_of_birth")
       == (if form.dateOfBirth.Some? then Some(Born(form.dateOfBirth.value)) else At(before, "date_of_birth"))
    && TextSet(before, after, "emergency_contact_name", form.emergencyName)
    && TextSet(before, after, "emergency_contact_phone", form.emergencyPhone)
    && At(after, "comm_preference")
       == (if form.preference.Some? then Some(Reach(form.preference.value)) else At(before, "comm_preference"))
    && TextSet(before, after, "photo_url", form.photo)
    && OthersKept(before, after)
  }

  ghost predicate OthersKept(before: map<string, Value>, after: map<string, Value>) {
    forall field: string :: !Editable(field) ==> At(after, field) == At(before, field)
  }

  lemma AskedSetsField(columns: map<string, Value>, form: Form, field: string)
    ensures At(columns + Asked(form), field)
            == if Editable(field) && Filled(form, field) != Null then Some(Filled(form, field)) else At(columns, field)
  {
  }

  /** Putting a form over the columns sets each field from its own entry. */
  lemma AskedSetsForm(columns: map<string, Value>, form: Form)
    ensures FormSet(columns, columns + Asked(form), form)
  {
    forall field: string
      ensures At(columns + Asked(form), field)
              == if Editable(field) && Filled(form, field) != Null then Some(Filled(form, field))
                 else At(columns, field)
    {
      AskedSetsField(columns, form, field);
    }
  }

  predicate Editable(field: string) {
    field in EDITABLE
  }

  predicate Readable(reader: Reader, changes: map<string, Json>) {
    forall k :: k in changes && Editable(k) ==> Coerce(reader, k, changes[k]).Success?
  }

  /** Every change is to an editable field, can be read, and what is read is stored as that change again. */
  predicate StoredAsRead(reader: Reader, changes: map<string, Json>) {
    forall k :: k in changes ==>
      && Editable(k) && Coerce(reader, k, changes[k]).Success?
      && Serialize(Coerce(reader, k, changes[k]).value) == changes[k]
  }

  /** The columns the changes set. */
  function Effect(reader: Reader, changes: map<string, Json>): (columns: map<string, Value>)
    requires Readable(reader, changes)
  {
    map k | k in changes && Editable(k) :: Coerce(reader, k, changes[k]).value
  }

  /** The columns with the editable ones among the changes set. */
  function Applied(reader: Reader, columns: map<string, Value>, changes: map<string, Json>): (after: map<string, Value>)
    requires Readable(reader, changes)
  {
    columns + Effect(reader, changes)
  }

  lemma ReadableOneMore(reader: Reader, some: map<string, Json>, field: string, change: Json)
    requires Readable(reader, some) && field !in some
    ensures Readable(reader, some[field := change]) <==> Editable(field) ==> Coerce(reader, field, change).Success?
  {
  }

  /** One more change set on top of the others. */
  lemma AppliedOneMore(reader: Reader, columns: map<string, Value>, some: map<string, Json>, field: string,
                       change: Json)
    requires Readable(reader, some) && field !in some && Readable(reader, some[field := change])
    ensures Applied(reader, columns, some[field := change])
            == if Editable(field)
               then Applied(reader, columns, some)[field := Coerce(reader, field, change).value]
               else Applied(reader, columns, some)
  {
  }

  lemma StoredFieldReads(reader: Reader, form: Form, field: string)
    ensures Coerce(reader, field, Serialize(Filled(form, field))) == Success(Filled(form, field))
  {
    FilledFits(form, field);
    CoerceUndoesSerialize(reader, field, Filled(form, field));
  }

  /** Storing a form and applying it sets what was asked for, and nothing else. */
  lemma StoredFormApplies(reader: Reader, form: Form, columns: map<string, Value>)
    ensures StoredAsRead(reader, Stored(Asked(form))) && Readable(reader, Stored(Asked(form)))
    ensures Applied(reader, columns, Stored(Asked(form))) == columns + Asked(form)
  {
    var asked, changes := Asked(form), Stored(Asked(form));
    forall k | k in changes
      ensures Editable(k) && Coerce(reader, k, changes[k]) == Success(asked[k])
    {
      StoredFieldReads(reader, form, k);
    }
    assert Effect(reader, changes) == asked;
  }

  /** An active resident of the login, whichever the query happens to return. */
  predicate Mine(s: Desk, user: nat, mine: Option<nat>) {
    match mine
    case Some(r) => r < |s.residents| && s.residents[r].user == Some(user) && s.residents[r].active
    case None => forall r :: 0 <= r < |s.residents| ==> !(s.residents[r].user == Some(user) && s.residents[r].active)
  }

  predicate Waiting(s: Desk, r: nat) {
    exists i :: 0 <= i < |s.requests| && s.requests[i].resident == r && s.requests[i].status == Pending
  }

  function Create(s: Desk, user: nat, society: Option<nat>, form: Form, mine: Option<nat>)
    : (out: Result<Desk, Refusal>)
  {
    if mine.None? then Failure(NotLinked)
    else if Waiting(s, mine.value) then Failure(AlreadyPending)
    else if Asked(form) == map[] then Failure(NoChanges)
    else if society.None? then Failure(NoSociety)
    else
      var request := Request(mine.value, user, society.value, Stored(Asked(form)), Pending, None, None);
      Success(s.(requests := s.requests + [request]))
  }

  predicate Found(s: Desk, id: nat, society: Option<nat>) {
    id < |s.requests| && society == Some(s.requests[id].society)
  }

  function Approve(reader: Reader, s: Desk, id: nat, user: nat, society: Option<nat>): (out: Result<Desk, Refusal>) {
    if !Found(s, id, society) then Failure(RequestNotFound)
    else
      var request := s.requests[id];
      var r := request.resident;
      if request.status != Pending then Failure(AlreadyReviewed)
      else if r >= |s.residents| then Failure(ResidentNotFound)
      else if !Readable(reader, request.changes) then Failure(Unreadable)
      else
        var changed := s.residents[r].(columns := Applied(reader, s.residents[r].columns, request.changes));
        Success(s.(residents := s.residents[r := changed],
                   requests := s.requests[id := request.(status := Approved, reviewedBy := Some(user))]))
  }

  function Reject(s: Desk, id: nat, user: nat, society: Option<nat>, reason: string): (out: Result<Desk, Refusal>) {
    if !Found(s, id, society) then Failure(RequestNotFound)
    else if s.requests[id].status != Pending then Failure(AlreadyReviewed)
    else
      var rejected := s.requests[id].(status := Rejected, reviewedBy := Some(user), reason := Some(reason));
      Success(s.(requests := s.requests[id := rejected]))
  }
}
