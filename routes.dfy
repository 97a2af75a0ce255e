/** The decision logic of the web routes: the customer form submission, the
    admin login session, the dashboard filter, the request detail view and the
    status update. A form is a map from field names to strings, an admin
    session is one flag, and the JSON encoding of the fabric cuttings is a
    parameter. */
module Routes {
  import opened Basics
  import opened DateTime
  import opened Models
  import opened Integrity
  import Security

  // ---------------------------------------------------------------------------
  // The form submission
  // ---------------------------------------------------------------------------

  type Form = map<string, string>

  /** `request.form.get(key, '').strip()`; the default stays empty. */
  function Field(form: Form, key: string): string
  {
    if key in form then Strip(form[key]) else ""
  }

  const RequiredFields: seq<string> :=
    ["customer_name", "email", "company_name", "street_address", "city", "state_province", "postal_code", "country"]

  /** All eight required fields are non-empty once stripped. */
  predicate RequiredPresent(form: Form)
  {
    forall i | 0 <= i < |RequiredFields| :: Field(form, RequiredFields[i]) != []
  }

  const CuttingSlots: seq<string> :=
    ["fabric_cutting_1", "fabric_cutting_2", "fabric_cutting_3", "fabric_cutting_4", "fabric_cutting_5"]

  /** The stripped values of the given slots. */
  function SlotValues(form: Form, slots: seq<string>): (v: seq<string>)
    ensures |v| == |slots| && forall i | 0 <= i < |slots| :: v[i] == Field(form, slots[i])
  {
    seq(|slots|, i requires 0 <= i < |slots| => Field(form, slots[i]))
  }

  /** The non-empty values, in order. */
  function NonEmpty(values: seq<string>): (r: seq<string>)
    ensures |r| <= |values|
  {
    if values == [] then []
    else
      var n := |values| - 1;
      NonEmpty(values[..n]) + (if values[n] != [] then [values[n]] else [])
  }

  /** The filter keeps every non-empty value and nothing else. */
  lemma {:induction false} NonEmptySpec(values: seq<string>)
    ensures forall x | x in NonEmpty(values) :: x != [] && x in values
    ensures forall x | x in values && x != [] :: x in NonEmpty(values)
  {
    if values != [] {
      var n := |values| - 1;
      NonEmptySpec(values[..n]);
      assert forall x | x in values :: x in values[..n] || x == values[n];
      assert forall x | x in values[..n] :: x in values;
    }
  }

  lemma {:induction false} NonEmptyNone(values: seq<string>)
    ensures NonEmpty(values) == [] <==> forall i | 0 <= i < |values| :: values[i] == []
  {
    if values != [] {
      var n := |values| - 1;
      NonEmptyNone(values[..n]);
      assert forall i | 0 <= i < n :: values[..n][i] == values[i];
    }
  }

  /** `submit_request`'s fabric cuttings: the stripped non-empty slot values,
      in slot order. */
  function Cuttings(form: Form): seq<string>
  {
    NonEmpty(SlotValues(form, CuttingSlots))
  }

  /** At most five cuttings, each the non-empty stripped value of a slot; every
      slot with a value contributes it; none at all exactly when every slot
      is blank. */
  lemma CuttingsSpec(form: Form)
    ensures |Cuttings(form)| <= 5
    ensures forall x | x in Cuttings(form) :: x != [] && exists i | 0 <= i < 5 :: x == Field(form, CuttingSlots[i])
    ensures forall i | 0 <= i < 5 && Field(form, CuttingSlots[i]) != [] :: Field(form, CuttingSlots[i]) in Cuttings(form)
    ensures Cuttings(form) == [] <==> forall i | 0 <= i < 5 :: Field(form, CuttingSlots[i]) == []
  {
    var v := SlotValues(form, CuttingSlots);
    NonEmptySpec(v);
    NonEmptyNone(v);
    forall x | x in Cuttings(form) ensures exists i | 0 <= i < 5 :: x == Field(form, CuttingSlots[i]) {
      var i :| 0 <= i < |v| && v[i] == x;
    }
    forall i | 0 <= i < 5 && Field(form, CuttingSlots[i]) != [] ensures Field(form, CuttingSlots[i]) in Cuttings(form) {
      assert v[i] in v;
    }
  }

  /** The fabric-cutting loop over the five slots. */
  method CollectFabricCuttings(form: Form) returns (cuttings: seq<string>)
    ensures cuttings == Cuttings(form)
  {
    ghost var values := SlotValues(form, CuttingSlots);
    cuttings := [];
    for i := 0 to |CuttingSlots|
      invariant cuttings == NonEmpty(values[..i])
    {
      var cutting := Field(form, CuttingSlots[i]);
      assert cutting == values[i];
      if cutting != [] {
        cuttings := cuttings + [cutting];
      }
      assert values[..i + 1][..i] == values[..i];
    }
    assert values[..|CuttingSlots|] == values;
  }

  datatype SubmitResult = Submitted(requestId: int) | MissingRequired | NoFabricCutting | SubmitFailed

  /** The row a submission creates: the stripped fields, the encoded cuttings,
      and the column defaults. */
  function NewRequest(form: Form, id: int, cuttings: seq<string>, now: Timestamp, encode: seq<string> -> string): Record
  {
    Record(id, Field(form, "customer_name"), Field(form, "email"), Some(Field(form, "phone")),
           Some(Field(form, "company_name")), Field(form, "street_address"), Field(form, "city"),
           Field(form, "state_province"), Field(form, "postal_code"), Field(form, "country"),
           encode(cuttings), Some(Field(form, "additional_notes")), Outstanding, now, None)
  }

  /** `submit_request`. A failing commit is rolled back. */
  function Submit(s: State, form: Form, now: Timestamp, encode: seq<string> -> string): (State, SubmitResult)
  {
    if !RequiredPresent(form) then (s, MissingRequired)
    else
      var cuttings := Cuttings(form);
      if cuttings == [] then (s, NoFabricCutting)
      else if !s.online then (s, SubmitFailed)
      else (Inserted(s, NewRequest(form, s.nextId, cuttings, now, encode), now), Submitted(s.nextId))
  }

  /** A submission is stored exactly when every required field and one
      fabric cutting are present and the database answers; it is stored as
      a new Outstanding, undispatched row under the next id from the sequence
      and nothing else changes. A refused submission changes nothing. */
  lemma SubmitSpec(s: State, form: Form, now: Timestamp, encode: seq<string> -> string)
    ensures var (t, r) := Submit(s, form, now, encode);
      && (r.Submitted? <==> RequiredPresent(form) && Cuttings(form) != [] && s.online)
      && (!r.Submitted? ==> t == s)
      && (r == MissingRequired <==> !RequiredPresent(form))
  {
  }

  /** A stored submission is an insert of the new row under the next id. */
  lemma SubmitInserts(s: State, form: Form, now: Timestamp, encode: seq<string> -> string)
    requires Submit(s, form, now, encode).1.Submitted?
    ensures Submit(s, form, now, encode) ==
      (Inserted(s, NewRequest(form, s.nextId, Cuttings(form), now, encode), now), Submitted(s.nextId))
  {
  }

  /** A stored submission keeps the keys distinct, under an id no row had. */
  lemma SubmitStoresValid(s: State, form: Form, now: Timestamp, encode: seq<string> -> string)
    requires Valid(s) && Submit(s, form, now, encode).1.Submitted?
    ensures Valid(Submit(s, form, now, encode).0)
    ensures Submit(s, form, now, encode).1.requestId !in ActiveIds(s.active)
  {
    SubmitInserts(s, form, now, encode);
    InsertedValid(s, NewRequest(form, s.nextId, Cuttings(form), now, encode), now);
  }

  /** A stored submission adds one Outstanding, undispatched row submitted now
      after the existing ones, and leaves the archive alone. */
  lemma SubmitStoresRow(s: State, form: Form, now: Timestamp, encode: seq<string> -> string)
    requires Submit(s, form, now, encode).1.Submitted?
    ensures var t := Submit(s, form, now, encode).0;
      && |t.active| == |s.active| + 1 && t.active[..|s.active|] == s.active
      && t.active[|s.active|].id == s.nextId
      && t.active[|s.active|].status == Outstanding && t.active[|s.active|].dateDispatched.None?
      && t.active[|s.active|].dateSubmitted == now
      && t.archived == s.archived
  {
    SubmitInserts(s, form, now, encode);
    var r := NewRequest(form, s.nextId, Cuttings(form), now, encode);
    assert (s.active + [r])[..|s.active|] == s.active;
  }

  /** `submit_request` against the database. */
  method SubmitRequest(db: Database, form: Form, now: Timestamp, encode: seq<string> -> string) returns (result: SubmitResult)
    modifies db
    ensures (db.Contents(), result) == Submit(old(db.Contents()), form, now, encode)
  {
    if !RequiredPresent(form) {
      return MissingRequired;
    }
    var cuttings := CollectFabricCuttings(form);
    if cuttings == [] {
      return NoFabricCutting;
    }
    if !db.online {
      return SubmitFailed;
    }
    var id := db.nextId;
    db.InsertRow(NewRequest(form, id, cuttings, now, encode), now);
    return Submitted(id);
  }

  // ---------------------------------------------------------------------------
  // The admin session
  // ---------------------------------------------------------------------------

  /** What happens to the session flag: a login with the right password or
      not, or a logout. */
  datatype SessionEvent = LoginAttempt(passwordMatches: bool) | Logout

  function SessionAfter(authenticated: bool, e: SessionEvent): bool
  {
    match e
    case LoginAttempt(ok) => ok || authenticated
    case Logout => false
  }

  function SessionRun(authenticated: bool, events: seq<SessionEvent>): bool
  {
    if events == [] then authenticated
    else SessionAfter(SessionRun(authenticated, events[..|events| - 1]), events[|events| - 1])
  }

  /** Only a login with the right password makes a session an admin one, and
      it stays one until a logout. */
  lemma {:induction false} SessionNeedsPassword(authenticated: bool, events: seq<SessionEvent>)
    ensures SessionRun(authenticated, events) ==>
      (exists i | 0 <= i < |events| :: events[i] == LoginAttempt(true)
         && forall j | i < j < |events| :: events[j] != Logout)
      || (authenticated && forall j | 0 <= j < |events| :: events[j] != Logout)
  {
    if events != [] {
      var n := |events| - 1;
      SessionNeedsPassword(authenticated, events[..n]);
      if SessionRun(authenticated, events) && events[n] != LoginAttempt(true) {
        assert SessionRun(authenticated, events[..n]);
        assert forall j | 0 <= j < n :: events[..n][j] == events[j];
      }
    }
  }

  // ---------------------------------------------------------------------------
  // The dashboard and the detail view
  // ---------------------------------------------------------------------------

  /** The rows with the given status, in table order. */
  function WithStatus(rows: seq<Record>, status: string): (r: seq<Record>)
    ensures |r| <= |rows|
    ensures forall x | x in r :: x in rows && x.status == status
    ensures forall x | x in rows && x.status == status :: x in r
  {
    if rows == [] then []
    else
      var n := |rows| - 1;
      assert forall x | x in rows :: x in rows[..n] || x == rows[n];
      WithStatus(rows[..n], status) + (if rows[n].status == status then [rows[n]] else [])
  }

  datatype Page<T> = LoginRedirect | ServerError | NoSuchRequest | Shown(content: T)

  /** `admin_dashboard`: the rows shown, before sorting. An empty filter shows
      every row. */
  function Dashboard(s: State, authenticated: bool, statusFilter: string): (p: Page<seq<Record>>)
    ensures p.LoginRedirect? <==> !authenticated
    ensures p.Shown? <==> authenticated && s.online
    ensures p.Shown? && statusFilter == [] ==> p.content == s.active
    ensures p.Shown? && statusFilter != [] ==>
      && (forall x | x in p.content :: x in s.active && x.status == statusFilter)
      && (forall x | x in s.active && x.status == statusFilter :: x in p.content)
  {
    if !authenticated then LoginRedirect
    else if !s.online then ServerError
    else if statusFilter != [] then Shown(WithStatus(s.active, statusFilter))
    else Shown(s.active)
  }

  /** `request_details`: the row with the id, if the session is an admin one. */
  function RequestDetails(s: State, authenticated: bool, id: int): (p: Page<Record>)
    ensures p.LoginRedirect? <==> !authenticated
    ensures p.NoSuchRequest? <==> authenticated && s.online && id !in ActiveIds(s.active)
    ensures p.Shown? ==> p.content in s.active && p.content.id == id
  {
    if !authenticated then LoginRedirect
    else if !s.online then ServerError
    else match FindActive(s.active, id)
      case None => NoSuchRequest
      case Some(r) => Shown(r)
  }

  // ---------------------------------------------------------------------------
  // The status update
  // ---------------------------------------------------------------------------

  /** The parsed request body: nothing or a falsy JSON value, an object with its
      `status` member (absent when missing or not a string), or some other
      value, on which the lookup of `status` raises. */
  datatype JsonBody = NoBody | Object(status: Option<string>) | OtherValue

  datatype UpdateResult =
    | Unauthorized
    | UpdateError
    | NoJsonData
    | InvalidStatus
    | StatusUpdated(status: string, dateDispatched: Option<Timestamp>)

  /** The new status, with the dispatch date set the first time the request
      is dispatched and kept ever after. */
  function WithNewStatus(r: Record, status: string, now: Timestamp): Record
  {
    r.(status := status,
       dateDispatched := if status == Dispatched && r.dateDispatched.None? then Some(now) else r.dateDispatched)
  }

  /** The table with the row of the given id replaced. */
  function Replace(rows: seq<Record>, id: int, r: Record): (t: seq<Record>)
    ensures |t| == |rows|
    ensures forall i | 0 <= i < |rows| :: t[i] == if rows[i].id == id then r else rows[i]
  {
    seq(|rows|, i requires 0 <= i < |rows| => if rows[i].id == id then r else rows[i])
  }

  /** `update_status`. A missing row raises a not-found error inside the
      handler's `try`, so it is answered like any other error; a failing
      commit is rolled back. The update listener logs the updated row. */
  function UpdateStatus(s: State, authenticated: bool, id: int, body: JsonBody, now: Timestamp): (State, UpdateResult)
  {
    if !authenticated then (s, Unauthorized)
    else if !s.online then (s, UpdateError)
    else match FindActive(s.active, id)
      case None => (s, UpdateError)
      case Some(row) =>
        match body
        case NoBody => (s, NoJsonData)
        case OtherValue => (s, UpdateError)
        case Object(status) =>
          if status.None? || !Security.ValidateStatus(status.value) then (s, InvalidStatus)
          else
            var updated := WithNewStatus(row, status.value, now);
            var entry := AuditEntry(now, Update, RequestTable, id, ToDict(updated));
            (s.(active := Replace(s.active, id, updated), audit := AppendToLog(s.audit, entry, AuditCap, s.diskWritable)),
             StatusUpdated(status.value, updated.dateDispatched))
  }

  /** Only an admin session with a body naming one of the three statuses, for
      a row that exists, changes anything; every other request leaves the
      tables and the log as they were. */
  lemma UpdateStatusGuards(s: State, authenticated: bool, id: int, body: JsonBody, now: Timestamp)
    ensures var (t, r) := UpdateStatus(s, authenticated, id, body, now);
      && (r.StatusUpdated? <==>
            authenticated && s.online && id in ActiveIds(s.active) && body.Object? && body.status.Some?
            && (body.status.value == Outstanding || body.status.value == InProgress || body.status.value == Dispatched))
      && (!r.StatusUpdated? ==> t == s)
      && (!authenticated ==> r == Unauthorized)
  {
  }

  /** A successful update sets the status of the row with the id and of no
      other row; the dispatch date is set only by a first dispatch, and is
      never overwritten or cleared. */
  lemma UpdateStatusRow(s: State, authenticated: bool, id: int, body: JsonBody, now: Timestamp, i: int)
    requires Valid(s) && UpdateStatus(s, authenticated, id, body, now).1.StatusUpdated?
    requires 0 <= i < |s.active|
    ensures var (t, r) := UpdateStatus(s, authenticated, id, body, now);
      && |t.active| == |s.active|
      && (s.active[i].id != id ==> t.active[i] == s.active[i])
      && (s.active[i].id == id ==>
            && t.active[i].status == r.status
            && t.active[i].dateDispatched == r.dateDispatched
            && (s.active[i].dateDispatched.Some? ==> t.active[i].dateDispatched == s.active[i].dateDispatched)
            && (s.active[i].dateDispatched.None? ==>
                  t.active[i].dateDispatched == if r.status == Dispatched then Some(now) else None))
      && t.archived == s.archived && t.nextId == s.nextId
  {
    var row := FindActive(s.active, id).value;
    if s.active[i].id == id {
      assert row == s.active[i];
    }
  }

  /** `update_status` against the database. */
  method UpdateStatusHandler(db: Database, authenticated: bool, id: int, body: JsonBody, now: Timestamp)
    returns (result: UpdateResult)
    modifies db
    ensures (db.Contents(), result) == UpdateStatus(old(db.Contents()), authenticated, id, body, now)
  {
    if !authenticated {
      return Unauthorized;
    }
    if !db.online {
      return UpdateError;
    }
    var found := FindActive(db.active, id);
    if found.None? {
      return UpdateError;
    }
    if body.NoBody? {
      return NoJsonData;
    }
    if body.OtherValue? {
      return UpdateError;
    }
    var status := body.status;
    if status.None? || !Security.ValidateStatus(status.value) {
      return InvalidStatus;
    }
    var row := found.value.(status := status.value);
    if status.value == Dispatched && row.dateDispatched.None? {
      row := row.(dateDispatched := Some(now));
    }
    db.active := Replace(db.active, id, row);
    db.LogOperation(Update, id, ToDict(row), now);
    return StatusUpdated(status.value, row.dateDispatched);
  }
}
