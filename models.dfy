/** The `SampleRequest` row (one fabric-sample order), its `to_dict`
    serialisation, and the way the ORM builds a row from attribute assignments:
    column defaults, NOT NULL columns, and the date strings that the recovery
    code turns back into `datetime` values. The archive row is posited with the
    three columns the core reads. */
module Models {
  import opened Basics
  import opened DateTime

  /** A scalar as it appears in a serialised row, or as an attribute value
      handed to the ORM. `Time` is a `datetime` object; JSON never holds one. */
  datatype Value = Null | Str(s: string) | Int(i: int) | Time(t: Timestamp)

  /** The keys of a serialised row: the column names of both tables, and any
      other key a JSON object may carry. */
  datatype Field =
    | Id | CustomerName | Email | Phone | CompanyName | StreetAddress | City
    | StateProvince | PostalCode | Country | FabricSelections | AdditionalNotes
    | Status | DateSubmitted | DateDispatched | OriginalId | DateArchived
    | Other(name: string)

  /** The JSON spelling of a key. */
  function Name(f: Field): string
  {
    match f
    case Id => "id"
    case CustomerName => "customer_name"
    case Email => "email"
    case Phone => "phone"
    case CompanyName => "company_name"
    case StreetAddress => "street_address"
    case City => "city"
    case StateProvince => "state_province"
    case PostalCode => "postal_code"
    case Country => "country"
    case FabricSelections => "fabric_selections"
    case AdditionalNotes => "additional_notes"
    case Status => "status"
    case DateSubmitted => "date_submitted"
    case DateDispatched => "date_dispatched"
    case OriginalId => "original_id"
    case DateArchived => "date_archived"
    case Other(n) => n
  }

  /** A serialised row (`to_dict`, audit-log `data`, backup-file entries), or a
      set of attribute assignments. */
  type Snapshot = map<Field, Value>

  const Outstanding := "Outstanding"
  const InProgress := "In Progress"
  const Dispatched := "Dispatched"

  datatype Record = Record(
    id: int,
    customerName: string,
    email: string,
    phone: Option<string>,
    companyName: Option<string>,
    streetAddress: string,
    city: string,
    stateProvince: string,
    postalCode: string,
    country: string,
    fabricSelections: string,
    additionalNotes: Option<string>,
    status: string,
    dateSubmitted: Timestamp,
    dateDispatched: Option<Timestamp>)

  /** An `ArchivedRequest` row, reduced to the columns the core uses. */
  datatype ArchivedRow = ArchivedRow(
    originalId: Option<int>,
    dateArchived: Option<Timestamp>,
    dateDispatched: Option<Timestamp>)

  // ---------------------------------------------------------------------------
  // Serialisation
  // ---------------------------------------------------------------------------

  function TextOrNull(o: Option<string>): Value
  {
    if o.Some? then Str(o.value) else Null
  }

  /** A date column as `to_dict` writes it: formatted text, or null. */
  function DateOrNull(o: Option<Timestamp>): Value
  {
    if o.Some? then Str(Format(o.value)) else Null
  }

  /** The fifteen keys of a serialised `SampleRequest`. */
  const Columns: set<Field> := {
    Id, CustomerName, Email, Phone, CompanyName, StreetAddress,
    City, StateProvince, PostalCode, Country, FabricSelections,
    AdditionalNotes, Status, DateSubmitted, DateDispatched }

  /** The serialised value of one column of a row; keys that are not
      `SampleRequest` columns have none. */
  function ColumnValue(r: Record, k: Field): Value
  {
    match k
    case Id => Int(r.id)
    case CustomerName => Str(r.customerName)
    case Email => Str(r.email)
    case Phone => TextOrNull(r.phone)
    case CompanyName => TextOrNull(r.companyName)
    case StreetAddress => Str(r.streetAddress)
    case City => Str(r.city)
    case StateProvince => Str(r.stateProvince)
    case PostalCode => Str(r.postalCode)
    case Country => Str(r.country)
    case FabricSelections => Str(r.fabricSelections)
    case AdditionalNotes => TextOrNull(r.additionalNotes)
    case Status => Str(r.status)
    case DateSubmitted => Str(Format(r.dateSubmitted))
    case DateDispatched => DateOrNull(r.dateDispatched)
    case _ => Null
  }

  /** `to_dict`: every column under its own name. */
  function ToDict(r: Record): Snapshot
  {
    map k | k in Columns :: ColumnValue(r, k)
  }

  /** `to_dict` produces exactly the fifteen column keys, and the dispatch date
      is null exactly when the row has none. */
  lemma ToDictShape(r: Record)
    ensures ToDict(r).Keys == Columns
    ensures (ToDict(r)[DateDispatched] == Null) <==> r.dateDispatched.None?
    ensures ToDict(r)[DateSubmitted].Str?
  {
  }

  function ArchivedToDict(a: ArchivedRow): Snapshot
  {
    map[
      OriginalId := if a.originalId.Some? then Int(a.originalId.value) else Null,
      DateArchived := DateOrNull(a.dateArchived),
      DateDispatched := DateOrNull(a.dateDispatched)]
  }

  // ---------------------------------------------------------------------------
  // Building rows from attribute assignments
  // ---------------------------------------------------------------------------

  /** Python truthiness of a value. */
  predicate Truthy(v: Value)
  {
    match v
    case Null => false
    case Str(s) => s != ""
    case Int(i) => i != 0
    case Time(_) => true
  }

  /** Why a row cannot be rebuilt: a NOT NULL column left NULL, a value of the
      wrong type for its column, a date string `fromisoformat` rejects, or a
      date value that is not a string. */
  datatype RowError = NullValue(column: Field) | BadValue(column: Field) | InvalidIsoformat(key: Field) | NotAString(key: Field)

  /** The recovery code's date handling for one key: a truthy value must be a
      string that `fromisoformat` reads after spaces become `T`; a falsy value
      is assigned as it is. */
  function ConvertDate(data: Snapshot, key: Field): Result<Snapshot, RowError>
  {
    if key in data && Truthy(data[key]) then
      match data[key]
      case Str(s) =>
        (match ParseIso(ReplaceChar(s, ' ', 'T'))
         case Some(t) => Ok(data[key := Time(t)])
         case None => Err(InvalidIsoformat(key)))
      case _ => Err(NotAString(key))
    else Ok(data)
  }

  /** A NOT NULL text column: it must be assigned a string. */
  function RequiredText(attrs: Snapshot, key: Field): Result<string, RowError>
  {
    if key in attrs && attrs[key].Str? then Ok(attrs[key].s)
    else Err(NullValue(key))
  }

  /** A nullable text column: unassigned or None give NULL. */
  function OptionalText(attrs: Snapshot, key: Field): Result<Option<string>, RowError>
  {
    if key !in attrs || attrs[key].Null? then Ok(None)
    else if attrs[key].Str? then Ok(Some(attrs[key].s))
    else Err(BadValue(key))
  }

  /** `SampleRequest(**attrs)` followed by a flush that inserts it under `id`:
      `status` defaults to Outstanding and `date_submitted` to `now` when they
      are not assigned; an explicit None in a NOT NULL column violates the
      constraint; the key `id` and keys that are not columns are ignored. */
  function Construct(attrs: Snapshot, id: int, now: Timestamp): Result<Record, RowError>
  {
    var name := RequiredText(attrs, CustomerName);
    var email := RequiredText(attrs, Email);
    var phone := OptionalText(attrs, Phone);
    var company := OptionalText(attrs, CompanyName);
    var street := RequiredText(attrs, StreetAddress);
    var city := RequiredText(attrs, City);
    var state := RequiredText(attrs, StateProvince);
    var postal := RequiredText(attrs, PostalCode);
    var country := RequiredText(attrs, Country);
    var fabrics := RequiredText(attrs, FabricSelections);
    var notes := OptionalText(attrs, AdditionalNotes);
    var status := if Status in attrs then RequiredText(attrs, Status) else Ok(Outstanding);
    var submitted: Result<Timestamp, RowError> :=
      if DateSubmitted !in attrs then Ok(now)
      else if attrs[DateSubmitted].Time? then Ok(attrs[DateSubmitted].t)
      else Err(BadValue(DateSubmitted));
    var dispatched: Result<Option<Timestamp>, RowError> :=
      if DateDispatched !in attrs || attrs[DateDispatched].Null? then Ok(None)
      else if attrs[DateDispatched].Time? then Ok(Some(attrs[DateDispatched].t))
      else Err(BadValue(DateDispatched));
    if name.Err? then Err(name.error)
    else if email.Err? then Err(email.error)
    else if phone.Err? then Err(phone.error)
    else if company.Err? then Err(company.error)
    else if street.Err? then Err(street.error)
    else if city.Err? then Err(city.error)
    else if state.Err? then Err(state.error)
    else if postal.Err? then Err(postal.error)
    else if country.Err? then Err(country.error)
    else if fabrics.Err? then Err(fabrics.error)
    else if notes.Err? then Err(notes.error)
    else if status.Err? then Err(status.error)
    else if submitted.Err? then Err(submitted.error)
    else if dispatched.Err? then Err(dispatched.error)
    else Ok(Record(id, name.value, email.value, phone.value, company.value, street.value,
                   city.value, state.value, postal.value, country.value, fabrics.value,
                   notes.value, status.value, submitted.value, dispatched.value))
  }

  /** A new row built from a serialised one, as the audit-log recovery and the
      backup restore do it: both date keys converted, then every other key
      assigned verbatim, `id` left to the database. */
  function Recreate(data: Snapshot, id: int, now: Timestamp): Result<Record, RowError>
  {
    match ConvertDate(data, DateSubmitted)
    case Err(e) => Err(e)
    case Ok(d1) =>
      match ConvertDate(d1, DateDispatched)
      case Err(e) => Err(e)
      case Ok(d2) => Construct(d2, id, now)
  }

  /** A rebuilt row has the id the database supplied. */
  lemma RecreateId(data: Snapshot, id: int, now: Timestamp)
    ensures Recreate(data, id, now).Ok? ==> Recreate(data, id, now).value.id == id
  {
    var d1 := ConvertDate(data, DateSubmitted);
    if d1.Ok? {
      var d2 := ConvertDate(d1.value, DateDispatched);
      if d2.Ok? {
        ConstructDefaults(d2.value, id, now);
      }
    }
  }

  /** `ArchivedRequest(**attrs)` over the posited columns. */
  function ConstructArchived(attrs: Snapshot): Result<ArchivedRow, RowError>
  {
    var original: Result<Option<int>, RowError> :=
      if OriginalId !in attrs || attrs[OriginalId].Null? then Ok(None)
      else if attrs[OriginalId].Int? then Ok(Some(attrs[OriginalId].i))
      else Err(BadValue(OriginalId));
    var archived := OptionalDate(attrs, DateArchived);
    var dispatched := OptionalDate(attrs, DateDispatched);
    if original.Err? then Err(original.error)
    else if archived.Err? then Err(archived.error)
    else if dispatched.Err? then Err(dispatched.error)
    else Ok(ArchivedRow(original.value, archived.value, dispatched.value))
  }

  function OptionalDate(attrs: Snapshot, key: Field): Result<Option<Timestamp>, RowError>
  {
    if key !in attrs || attrs[key].Null? then Ok(None)
    else if attrs[key].Time? then Ok(Some(attrs[key].t))
    else Err(BadValue(key))
  }

  /** The restore code's archive-row rebuild: three date keys converted, then
      assigned. */
  function RecreateArchived(data: Snapshot): Result<ArchivedRow, RowError>
  {
    match ConvertDate(data, DateSubmitted)
    case Err(e) => Err(e)
    case Ok(d1) =>
      match ConvertDate(d1, DateDispatched)
      case Err(e) => Err(e)
      case Ok(d2) =>
        match ConvertDate(d2, DateArchived)
        case Err(e) => Err(e)
        case Ok(d3) => ConstructArchived(d3)
  }

  // ---------------------------------------------------------------------------
  // Round trips
  // ---------------------------------------------------------------------------

  /** A date whose formatted text reads back (glibc pads no year below 1000). */
  predicate Readable(t: Timestamp)
  {
    t.year >= 1000
  }

  predicate RecordReadable(r: Record)
  {
    Readable(r.dateSubmitted) && (r.dateDispatched.Some? ==> Readable(r.dateDispatched.value))
  }

  function TruncateOpt(o: Option<Timestamp>): Option<Timestamp>
  {
    if o.Some? then Some(Truncate(o.value)) else None
  }

  /** `v` is the serialised form of the optional date `o`: null for none, and
      otherwise text that `fromisoformat` reads as `o` once spaces become `T`. */
  predicate ReadsAs(v: Value, o: Option<Timestamp>)
  {
    if o.Some? then v.Str? && v.s != "" && ParseIso(ReplaceChar(v.s, ' ', 'T')) == o
    else v == Null
  }

  /** What `to_dict` writes for a readable date reads back truncated. */
  lemma DateOrNullReadsAs(o: Option<Timestamp>)
    requires o.Some? ==> Readable(o.value)
    ensures ReadsAs(DateOrNull(o), TruncateOpt(o))
  {
    if o.Some? {
      FormatParseRoundTrip(o.value);
      FormatNonEmpty(o.value);
    }
  }

  /** Converting a date key whose value reads as `o`. */
  lemma ConvertReadsAs(data: Snapshot, key: Field, o: Option<Timestamp>)
    requires key in data && ReadsAs(data[key], o)
    ensures ConvertDate(data, key) == Ok(if o.Some? then data[key := Time(o.value)] else data)
  {
  }

  /** Rebuilding a row from a serialised one whose date keys read as `u1` and
      `o2` and whose other columns are those of `r`. */
  lemma RecreateFromText(data: Snapshot, r: Record, id: int, now: Timestamp,
                         u1: Timestamp, o2: Option<Timestamp>)
    requires forall k | k in Columns && k != DateSubmitted && k != DateDispatched ::
      k in data && data[k] == ColumnValue(r, k)
    requires DateSubmitted in data && ReadsAs(data[DateSubmitted], Some(u1))
    requires DateDispatched in data && ReadsAs(data[DateDispatched], o2)
    ensures Recreate(data, id, now) == Ok(r.(id := id, dateSubmitted := u1, dateDispatched := o2))
  {
    ConvertReadsAs(data, DateSubmitted, Some(u1));
    var d1 := data[DateSubmitted := Time(u1)];
    ConvertReadsAs(d1, DateDispatched, o2);
    ConstructWithDates(data, r, id, now, u1, o2);
  }

  /** The attributes of a serialised row once its two dates are converted. */
  function WithDates(data: Snapshot, u1: Timestamp, o2: Option<Timestamp>): Snapshot
  {
    var d1 := data[DateSubmitted := Time(u1)];
    if o2.Some? then d1[DateDispatched := Time(o2.value)] else d1
  }

  lemma ConstructWithDates(data: Snapshot, r: Record, id: int, now: Timestamp,
                           u1: Timestamp, o2: Option<Timestamp>)
    requires forall k | k in Columns && k != DateSubmitted && k != DateDispatched ::
      k in data && data[k] == ColumnValue(r, k)
    requires DateDispatched in data && (o2.None? ==> data[DateDispatched] == Null)
    ensures Construct(WithDates(data, u1, o2), id, now) ==
      Ok(r.(id := id, dateSubmitted := u1, dateDispatched := o2))
  {
    var target := r.(id := id, dateSubmitted := u1, dateDispatched := o2);
    WithDatesAssigns(data, r, id, u1, o2);
    ConstructAssigned(WithDates(data, u1, o2), target, now);
  }

  lemma WithDatesAssigns(data: Snapshot, r: Record, id: int, u1: Timestamp, o2: Option<Timestamp>)
    requires forall k | k in Columns && k != DateSubmitted && k != DateDispatched ::
      k in data && data[k] == ColumnValue(r, k)
    requires DateDispatched in data && (o2.None? ==> data[DateDispatched] == Null)
    ensures Assigns(WithDates(data, u1, o2), r.(id := id, dateSubmitted := u1, dateDispatched := o2))
  {
    var target := r.(id := id, dateSubmitted := u1, dateDispatched := o2);
    TextAgrees(data, r);
    TextOfSameText(data, r, target);
    var d1 := data[DateSubmitted := Time(u1)];
    TextKeptByDate(data, target, DateSubmitted, Time(u1));
    if o2.Some? {
      TextKeptByDate(d1, target, DateDispatched, Time(o2.value));
      DatesAssigned(d1[DateDispatched := Time(o2.value)], target);
    } else {
      DatesAssigned(d1, target);
    }
  }

  lemma DatesAssigned(attrs: Snapshot, r: Record)
    requires AssignsText(attrs, r)
    requires DateSubmitted in attrs && attrs[DateSubmitted] == Time(r.dateSubmitted)
    requires DateDispatched in attrs && attrs[DateDispatched] == DateValue(r.dateDispatched)
    ensures Assigns(attrs, r)
  {
  }

  /** Two rows with the same text columns have the same text assignments. */
  lemma TextOfSameText(attrs: Snapshot, r: Record, s: Record)
    requires AssignsText(attrs, r)
    requires s.customerName == r.customerName && s.email == r.email && s.phone == r.phone
    requires s.companyName == r.companyName && s.streetAddress == r.streetAddress && s.city == r.city
    requires s.stateProvince == r.stateProvince && s.postalCode == r.postalCode && s.country == r.country
    requires s.fabricSelections == r.fabricSelections && s.additionalNotes == r.additionalNotes
    requires s.status == r.status
    ensures AssignsText(attrs, s)
  {
  }

  /** Setting a date key leaves the text assignments alone. */
  lemma TextKeptByDate(attrs: Snapshot, r: Record, k: Field, v: Value)
    requires AssignsText(attrs, r)
    requires k == DateSubmitted || k == DateDispatched
    ensures AssignsText(attrs[k := v], r)
  {
  }

  /** Agreeing with `to_dict` on every text column assigns those columns. */
  lemma TextAgrees(attrs: Snapshot, r: Record)
    requires forall k | k in Columns && k != DateSubmitted && k != DateDispatched ::
      k in attrs && attrs[k] == ColumnValue(r, k)
    ensures AssignsText(attrs, r)
  {
  }

  /** Rebuilding a row from its `to_dict` gives the same row under the new id,
      with both dates truncated to whole seconds. */
  lemma RecreateToDict(r: Record, id: int, now: Timestamp)
    requires RecordReadable(r)
    ensures Recreate(ToDict(r), id, now) ==
      Ok(r.(id := id, dateSubmitted := Truncate(r.dateSubmitted),
            dateDispatched := TruncateOpt(r.dateDispatched)))
  {
    ToDictDatesRead(r);
    RecreateFromText(ToDict(r), r, id, now, Truncate(r.dateSubmitted), TruncateOpt(r.dateDispatched));
  }

  /** Both date keys of `to_dict` read back as the truncated dates. */
  lemma ToDictDatesRead(r: Record)
    requires RecordReadable(r)
    ensures ReadsAs(ToDict(r)[DateSubmitted], Some(Truncate(r.dateSubmitted)))
    ensures ReadsAs(ToDict(r)[DateDispatched], TruncateOpt(r.dateDispatched))
  {
    assert ToDict(r)[DateSubmitted] == DateOrNull(Some(r.dateSubmitted));
    assert ToDict(r)[DateDispatched] == DateOrNull(r.dateDispatched);
    DateOrNullReadsAs(Some(r.dateSubmitted));
    DateOrNullReadsAs(r.dateDispatched);
  }

  /** The attribute assignments that rebuild `r` exactly. */
  predicate Assigns(attrs: Snapshot, r: Record)
  {
    && AssignsText(attrs, r)
    && DateSubmitted in attrs && attrs[DateSubmitted] == Time(r.dateSubmitted)
    && DateDispatched in attrs && attrs[DateDispatched] == DateValue(r.dateDispatched)
  }

  /** A date column as the attribute it is assigned. */
  function DateValue(d: Option<Timestamp>): (v: Value)
    ensures v.Null? <==> d.None?
    ensures d.Some? ==> v == Time(d.value)
  {
    if d.Some? then Time(d.value) else Null
  }

  /** The assignments of the text columns. */
  predicate AssignsText(attrs: Snapshot, r: Record)
  {
    && CustomerName in attrs && attrs[CustomerName] == Str(r.customerName)
    && Email in attrs && attrs[Email] == Str(r.email)
    && Phone in attrs && attrs[Phone] == TextOrNull(r.phone)
    && CompanyName in attrs && attrs[CompanyName] == TextOrNull(r.companyName)
    && StreetAddress in attrs && attrs[StreetAddress] == Str(r.streetAddress)
    && City in attrs && attrs[City] == Str(r.city)
    && StateProvince in attrs && attrs[StateProvince] == Str(r.stateProvince)
    && PostalCode in attrs && attrs[PostalCode] == Str(r.postalCode)
    && Country in attrs && attrs[Country] == Str(r.country)
    && FabricSelections in attrs && attrs[FabricSelections] == Str(r.fabricSelections)
    && AdditionalNotes in attrs && attrs[AdditionalNotes] == TextOrNull(r.additionalNotes)
    && Status in attrs && attrs[Status] == Str(r.status)
  }

  lemma ConstructAssigned(attrs: Snapshot, r: Record, now: Timestamp)
    requires Assigns(attrs, r)
    ensures Construct(attrs, r.id, now) == Ok(r)
  {
  }

  predicate ArchivedReadable(a: ArchivedRow)
  {
    && (a.dateArchived.Some? ==> Readable(a.dateArchived.value))
    && (a.dateDispatched.Some? ==> Readable(a.dateDispatched.value))
  }

  /** Rebuilding an archive row from a serialised one whose date keys read
      as `oa` and `od` (and which has no submission date). */
  lemma RecreateArchivedFromText(data: Snapshot, original: Option<int>,
                                 oa: Option<Timestamp>, od: Option<Timestamp>)
    requires DateSubmitted !in data
    requires OriginalId in data
    requires data[OriginalId] == if original.Some? then Int(original.value) else Null
    requires DateArchived in data && ReadsAs(data[DateArchived], oa)
    requires DateDispatched in data && ReadsAs(data[DateDispatched], od)
    ensures RecreateArchived(data) == Ok(ArchivedRow(original, oa, od))
  {
    assert ConvertDate(data, DateSubmitted) == Ok(data);
    ConvertReadsAs(data, DateDispatched, od);
    var d1 := if od.Some? then data[DateDispatched := Time(od.value)] else data;
    ConvertReadsAs(d1, DateArchived, oa);
    var d2 := if oa.Some? then d1[DateArchived := Time(oa.value)] else d1;
    ConstructArchivedOf(d2, original, oa, od);
  }

  lemma ConstructArchivedOf(attrs: Snapshot, original: Option<int>,
                            oa: Option<Timestamp>, od: Option<Timestamp>)
    requires OriginalId in attrs
    requires attrs[OriginalId] == if original.Some? then Int(original.value) else Null
    requires DateArchived in attrs && attrs[DateArchived] == (if oa.Some? then Time(oa.value) else Null)
    requires DateDispatched in attrs && attrs[DateDispatched] == (if od.Some? then Time(od.value) else Null)
    ensures ConstructArchived(attrs) == Ok(ArchivedRow(original, oa, od))
  {
  }

  /** Rebuilding an archive row from its serialised form gives it back with
      truncated dates. */
  lemma RecreateArchivedToDict(a: ArchivedRow)
    requires ArchivedReadable(a)
    ensures RecreateArchived(ArchivedToDict(a)) ==
      Ok(ArchivedRow(a.originalId, TruncateOpt(a.dateArchived), TruncateOpt(a.dateDispatched)))
  {
    DateOrNullReadsAs(a.dateArchived);
    DateOrNullReadsAs(a.dateDispatched);
    RecreateArchivedFromText(ArchivedToDict(a), a.originalId,
                             TruncateOpt(a.dateArchived), TruncateOpt(a.dateDispatched));
  }

  /** A row built with no status and no submission date gets the defaults, and
      a NOT NULL column assigned None is refused. */
  lemma ConstructDefaults(attrs: Snapshot, id: int, now: Timestamp)
    ensures Construct(attrs, id, now).Ok? && Status !in attrs ==>
      Construct(attrs, id, now).value.status == Outstanding
    ensures Construct(attrs, id, now).Ok? && DateSubmitted !in attrs ==>
      Construct(attrs, id, now).value.dateSubmitted == now
    ensures Construct(attrs, id, now).Ok? ==> Construct(attrs, id, now).value.id == id
    ensures (exists k | k in RequiredColumns :: k !in attrs || attrs[k] == Null) ==>
      Construct(attrs, id, now).Err?
  {
  }

  /** The NOT NULL text columns without a default. */
  const RequiredColumns: set<Field> := {
    CustomerName, Email, StreetAddress, City, StateProvince,
    PostalCode, Country, FabricSelections }
}
