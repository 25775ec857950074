/** Filters over the event filter spec (event/filter.go). A Go `Filter` is a
    closure that validates its captured argument and then overwrites one field
    of the spec; here it is a command applied by `Apply`. */
module Filters {
  import opened Results
  import opened Text
  import opened VimTypes

  /** One command per option constructor; `None` is a nil argument. */
  datatype Filter =
    | WithEventTypeId(ids: Option<seq<string>>)
    | WithMaxCount(count: Uint32)
    | WithRecursion(recursion: RecursionOption)
    | WithTime(window: Option<TimeWindow>)
    | WithUsername(user: Option<UsernameFilter>)

  datatype FilterError = TypesNil | CountZero | TimeNil | UsernameNil

  const NotNil := "must not be nil"
  const NotPositive := "be greater than 0"

  function Message(e: FilterError): string
  {
    match e
    case TypesNil => "types filter " + NotNil
    case CountZero => "count must " + NotPositive
    case TimeNil => "time filter " + NotNil
    case UsernameNil => "username filter " + NotNil
  }

  /** The fields of the spec, and a uniform view of their values, so that
      "this filter changes that field and nothing else" can be stated once. */
  datatype Field = EntityRef | Recursion | TimeField | UserNameField | EventTypeIdField | MaxCountField

  datatype FieldValue =
    | EntityValue(ref: ManagedObjectReference)
    | RecursionValue(recursion: RecursionOption)
    | TimeValue(window: Option<TimeWindow>)
    | UserNameValue(user: Option<UsernameFilter>)
    | EventTypeIdValue(ids: Option<seq<string>>)
    | MaxCountValue(count: Int32)

  function Get(s: EventFilterSpec, fld: Field): FieldValue
  {
    match fld
    case EntityRef => EntityValue(s.entity.entity)
    case Recursion => RecursionValue(s.entity.recursion)
    case TimeField => TimeValue(s.time)
    case UserNameField => UserNameValue(s.userName)
    case EventTypeIdField => EventTypeIdValue(s.eventTypeId)
    case MaxCountField => MaxCountValue(s.maxCount)
  }

  /** Two specs that agree on every field are the same spec. */
  lemma Extensionality(a: EventFilterSpec, b: EventFilterSpec)
    requires forall fld :: Get(a, fld) == Get(b, fld)
    ensures a == b
  {
    assert Get(a, EntityRef) == Get(b, EntityRef);
    assert Get(a, Recursion) == Get(b, Recursion);
    assert Get(a, TimeField) == Get(b, TimeField);
    assert Get(a, UserNameField) == Get(b, UserNameField);
    assert Get(a, EventTypeIdField) == Get(b, EventTypeIdField);
    assert Get(a, MaxCountField) == Get(b, MaxCountField);
  }

  /** The field a filter writes. No filter writes the entity reference. */
  function Target(f: Filter): (fld: Field)
    ensures fld != EntityRef
  {
    match f
    case WithEventTypeId(_) => EventTypeIdField
    case WithMaxCount(_) => MaxCountField
    case WithRecursion(_) => Recursion
    case WithTime(_) => TimeField
    case WithUsername(_) => UserNameField
  }

  /** The value a filter writes into its target field. The count is stored
      through Go's `int32(count)` conversion. */
  function Payload(f: Filter): FieldValue
  {
    match f
    case WithEventTypeId(ids) => EventTypeIdValue(ids)
    case WithMaxCount(c) => MaxCountValue(Int32OfUint32(c))
    case WithRecursion(r) => RecursionValue(r)
    case WithTime(w) => TimeValue(w)
    case WithUsername(u) => UserNameValue(u)
  }

  /** The argument check each option makes before writing; it looks only at
      the filter's own argument, never at the spec. */
  function Check(f: Filter): Option<FilterError>
  {
    match f
    case WithEventTypeId(ids) => if ids.None? then Some(TypesNil) else None
    case WithMaxCount(c) => if c == 0 then Some(CountZero) else None
    case WithRecursion(_) => None
    case WithTime(w) => if w.None? then Some(TimeNil) else None
    case WithUsername(u) => if u.None? then Some(UsernameNil) else None
  }

  predicate Valid(f: Filter)
  {
    Check(f).None?
  }

  /** Runs one filter against a spec. */
  function Apply(f: Filter, s: EventFilterSpec): (r: Result<EventFilterSpec, FilterError>)
    ensures r.Success? <==> Valid(f)
    ensures r.Failure? ==> Some(r.error) == Check(f)
    ensures r.Success? ==> forall fld :: Get(r.value, fld) == (if fld == Target(f) then Payload(f) else Get(s, fld))
  {
    match f
    case WithEventTypeId(ids) =>
      if ids.None? then Failure(TypesNil) else Success(s.(eventTypeId := ids))
    case WithMaxCount(c) =>
      if c == 0 then Failure(CountZero) else Success(s.(maxCount := Int32OfUint32(c)))
    case WithRecursion(r) =>
      Success(s.(entity := s.entity.(recursion := r)))
    case WithTime(w) =>
      if w.None? then Failure(TimeNil) else Success(s.(time := w))
    case WithUsername(u) =>
      if u.None? then Failure(UsernameNil) else Success(s.(userName := u))
  }

  /** A nil type list, time window or username filter is rejected with a
      "must not be nil" error, whatever the spec. */
  lemma NilArgumentsRejected(s: EventFilterSpec)
    ensures Apply(WithEventTypeId(None), s) == Failure(TypesNil)
    ensures Apply(WithTime(None), s) == Failure(TimeNil)
    ensures Apply(WithUsername(None), s) == Failure(UsernameNil)
    ensures Contains(Message(TypesNil), NotNil)
    ensures Contains(Message(TimeNil), NotNil)
    ensures Contains(Message(UsernameNil), NotNil)
  {
    ContainsSuffix("types filter ", NotNil);
    ContainsSuffix("time filter ", NotNil);
    ContainsSuffix("username filter ", NotNil);
  }

  /** A zero count is rejected with "must be greater than 0"; a count that
      fits in an int32 is stored unchanged; a larger one wraps negative. */
  lemma MaxCountBehaviour(s: EventFilterSpec, c: Uint32)
    ensures Apply(WithMaxCount(0), s) == Failure(CountZero)
    ensures Contains(Message(CountZero), NotPositive)
    ensures 0 < c < 0x8000_0000 ==> Apply(WithMaxCount(c), s) == Success(s.(maxCount := c))
    ensures 0x8000_0000 <= c ==> Apply(WithMaxCount(c), s).value.maxCount < 0
  {
    ContainsSuffix("count must ", NotPositive);
  }

  /** Recursion never fails and keeps the entity reference. */
  lemma RecursionAlwaysApplies(s: EventFilterSpec, r: RecursionOption)
    ensures Apply(WithRecursion(r), s).Success?
    ensures Apply(WithRecursion(r), s).value.entity == EntityScope(s.entity.entity, r)
  {
  }

  /** The filters applied before the caller's: recursion over all
      descendants, and a time window that begins at `start` (the instant the
      package was initialised) and has no end. */
  function DefaultFilters(start: Time): (fs: seq<Filter>)
    ensures forall i | 0 <= i < |fs| :: Valid(fs[i])
  {
    [WithRecursion(RecursionAll), WithTime(Some(TimeWindow(Some(start), None)))]
  }
}
