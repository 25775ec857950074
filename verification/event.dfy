/** Spec assembly and event classification (event/event.go). */
module Events {
  import opened Results
  import opened Text
  import opened VimTypes
  import opened Filters

  /** Error of `createSpec`: the failing filter's error, wrapped. */
  datatype SpecError = FilterSpecInvalid(cause: FilterError)

  /** Error of `NewHistoryCollector` before the remote call is made. */
  datatype CollectorError = CreateFilterSpec(cause: SpecError)

  function SpecErrorMessage(e: SpecError): string
  {
    "filter spec invalid: " + Message(e.cause)
  }

  function CollectorErrorMessage(e: CollectorError): string
  {
    "create filter spec: " + SpecErrorMessage(e.cause)
  }

  /** All filters in `fs` pass their argument check. */
  predicate AllValid(fs: seq<Filter>)
  {
    forall i | 0 <= i < |fs| :: Valid(fs[i])
  }

  /** The loop of `createSpec`: filters run in list order against the spec
      being built, and the first failure stops the loop. */
  function ApplyAll(s: EventFilterSpec, fs: seq<Filter>): Result<EventFilterSpec, FilterError>
    decreases |fs|
  {
    if fs == [] then Success(s)
    else match Apply(fs[0], s)
      case Failure(e) => Failure(e)
      case Success(s') => ApplyAll(s', fs[1..])
  }

  /** The spec before any filter runs: only the entity reference is set. */
  function InitialSpec(entity: ManagedObjectReference): EventFilterSpec
  {
    EventFilterSpec(EntityScope(entity, RecursionUnset), None, None, None, 0)
  }

  /** `createSpec(entity, filters)`. */
  function CreateSpec(entity: ManagedObjectReference, fs: seq<Filter>): (r: Result<EventFilterSpec, SpecError>)
    ensures r.Success? ==> r.value.entity.entity == entity
    ensures r.Success? <==> AllValid(fs)
  {
    ApplyAllPreservesEntity(InitialSpec(entity), fs);
    ApplyAllSucceedsIffAllValid(InitialSpec(entity), fs);
    match ApplyAll(InitialSpec(entity), fs)
    case Failure(e) => Failure(FilterSpecInvalid(e))
    case Success(s) => Success(s)
  }

  /** The spec-building part of `NewHistoryCollector`: the default filters
      run first, then the caller's. */
  function HistoryCollectorSpec(entity: ManagedObjectReference, start: Time, fs: seq<Filter>): (r: Result<EventFilterSpec, CollectorError>)
    ensures r.Success? <==> AllValid(fs)
    ensures r.Failure? ==> Contains(CollectorErrorMessage(r.error), "create filter spec")
  {
    var all := DefaultFilters(start) + fs;
    assert AllValid(all) <==> AllValid(fs) by {
      if AllValid(fs) {
        forall i | 0 <= i < |all| ensures Valid(all[i]) {
          if i >= 2 { assert all[i] == fs[i - 2]; }
        }
      }
      if AllValid(all) {
        forall i | 0 <= i < |fs| ensures Valid(fs[i]) {
          assert fs[i] == all[i + 2];
        }
      }
    }
    match CreateSpec(entity, all)
    case Failure(e) =>
      assert "create filter spec: " + SpecErrorMessage(e)
          == "create filter spec" + (": " + SpecErrorMessage(e));
      ContainsPrefix("create filter spec", ": " + SpecErrorMessage(e));
      Failure(CreateFilterSpec(e))
    case Success(s) => Success(s)
  }

  // ----- Reference semantics: last write wins, field by field -----

  /** The value of `fld` after the writes in `fs`, scanning from the end:
      the payload of the last filter that targets `fld`, or `dflt` if none
      does. Independent of the left-to-right loop in `ApplyAll`. */
  function LastWrite(fs: seq<Filter>, fld: Field, dflt: FieldValue): FieldValue
    decreases |fs|
  {
    if fs == [] then dflt
    else if Target(fs[|fs| - 1]) == fld then Payload(fs[|fs| - 1])
    else LastWrite(fs[..|fs| - 1], fld, dflt)
  }

  /** Running `fs + [f]` is running `fs`, then `f`. */
  lemma {:induction false} ApplyAllSnoc(s: EventFilterSpec, fs: seq<Filter>, f: Filter)
    ensures ApplyAll(s, fs + [f]) ==
      match ApplyAll(s, fs)
      case Failure(e) => Failure(e)
      case Success(t) => Apply(f, t)
    decreases |fs|
  {
    if fs == [] {
      assert [f][1..] == [];
    } else {
      assert (fs + [f])[0] == fs[0];
      assert (fs + [f])[1..] == fs[1..] + [f];
      match Apply(fs[0], s)
      case Failure(_) =>
      case Success(s') => ApplyAllSnoc(s', fs[1..], f);
    }
  }

  /** When every filter is valid, the loop succeeds and every field of the
      result holds the last value written to it, or its starting value. */
  lemma {:induction false} ApplyAllIsLastWrite(s: EventFilterSpec, fs: seq<Filter>)
    requires AllValid(fs)
    ensures ApplyAll(s, fs).Success?
    ensures forall fld :: Get(ApplyAll(s, fs).value, fld) == LastWrite(fs, fld, Get(s, fld))
    decreases |fs|
  {
    if fs == [] {
    } else {
      var front, f := fs[..|fs| - 1], fs[|fs| - 1];
      assert fs == front + [f];
      ApplyAllIsLastWrite(s, front);
      ApplyAllSnoc(s, front, f);
      var t := ApplyAll(s, front).value;
      forall fld
        ensures Get(ApplyAll(s, fs).value, fld) == LastWrite(fs, fld, Get(s, fld))
      {
        assert Get(t, fld) == LastWrite(front, fld, Get(s, fld));
      }
    }
  }

  /** The loop fails exactly when some filter is invalid. */
  lemma {:induction false} ApplyAllSucceedsIffAllValid(s: EventFilterSpec, fs: seq<Filter>)
    ensures ApplyAll(s, fs).Success? <==> AllValid(fs)
    decreases |fs|
  {
    if fs != [] {
      match Apply(fs[0], s)
      case Failure(_) =>
      case Success(s') =>
        ApplyAllSucceedsIffAllValid(s', fs[1..]);
        if AllValid(fs[1..]) {
          forall i | 0 <= i < |fs| ensures Valid(fs[i]) {
            if i > 0 { assert fs[i] == fs[1..][i - 1]; }
          }
        }
    }
  }

  /** The loop's error is the error of the first invalid filter; whatever
      follows it is never run. */
  lemma {:induction false} ApplyAllFirstError(s: EventFilterSpec, fs: seq<Filter>, k: nat)
    requires k < |fs| && !Valid(fs[k])
    requires forall j | 0 <= j < k :: Valid(fs[j])
    ensures ApplyAll(s, fs) == Failure(Check(fs[k]).value)
    decreases k
  {
    if k > 0 {
      var s' := Apply(fs[0], s).value;
      ApplyAllFirstError(s', fs[1..], k - 1);
    }
  }

  /** A successful loop never changes the entity reference. */
  lemma {:induction false} ApplyAllPreservesEntity(s: EventFilterSpec, fs: seq<Filter>)
    ensures ApplyAll(s, fs).Success? ==> ApplyAll(s, fs).value.entity.entity == s.entity.entity
    decreases |fs|
  {
    if fs != [] {
      match Apply(fs[0], s)
      case Failure(_) =>
      case Success(s') =>
        assert Get(s', EntityRef) == Get(s, EntityRef);
        ApplyAllPreservesEntity(s', fs[1..]);
    }
  }

  /** `createSpec` characterised without reference to its loop: on valid
      filters, each field holds the last value written to it (the entity
      reference is `entity`, the rest start at their Go zero values); on the
      first invalid filter it reports that filter's error, wrapped. */
  lemma CreateSpecMeaning(entity: ManagedObjectReference, fs: seq<Filter>)
    ensures AllValid(fs) ==> (
      && CreateSpec(entity, fs).Success?
      && forall fld :: Get(CreateSpec(entity, fs).value, fld) == LastWrite(fs, fld, Get(InitialSpec(entity), fld)))
    ensures forall k | 0 <= k < |fs| && !Valid(fs[k]) && (forall j | 0 <= j < k :: Valid(fs[j])) ::
      CreateSpec(entity, fs) == Failure(FilterSpecInvalid(Check(fs[k]).value))
  {
    if AllValid(fs) {
      ApplyAllIsLastWrite(InitialSpec(entity), fs);
    }
    forall k | 0 <= k < |fs| && !Valid(fs[k]) && (forall j | 0 <= j < k :: Valid(fs[j]))
      ensures CreateSpec(entity, fs) == Failure(FilterSpecInvalid(Check(fs[k]).value))
    {
      ApplyAllFirstError(InitialSpec(entity), fs, k);
    }
  }

  /** `LastWrite` over a concatenation: the writes of `b` override those of `a`. */
  lemma {:induction false} LastWriteAppend(a: seq<Filter>, b: seq<Filter>, fld: Field, dflt: FieldValue)
    ensures LastWrite(a + b, fld, dflt) == LastWrite(b, fld, LastWrite(a, fld, dflt))
    decreases |b|
  {
    if b == [] {
      assert a + b == a;
    } else {
      var ab := a + b;
      assert ab[|ab| - 1] == b[|b| - 1];
      assert ab[..|ab| - 1] == a + b[..|b| - 1];
      LastWriteAppend(a, b[..|b| - 1], fld, dflt);
    }
  }

  /** `LastWrite` over a two-filter list. */
  lemma LastWritePair(f: Filter, g: Filter, fld: Field, dflt: FieldValue)
    ensures LastWrite([f, g], fld, dflt) ==
      if Target(g) == fld then Payload(g) else if Target(f) == fld then Payload(f) else dflt
  {
    var fs := [f, g];
    assert fs[..1] == [f];
    assert [f][..0] == [];
    assert LastWrite([f], fld, dflt) == if Target(f) == fld then Payload(f) else LastWrite([], fld, dflt);
    if Target(g) != fld {
      assert LastWrite(fs, fld, dflt) == LastWrite(fs[..1], fld, dflt);
    }
  }

  /** The spec produced by the default filters alone. */
  function DefaultSpec(entity: ManagedObjectReference, start: Time): EventFilterSpec
  {
    EventFilterSpec(EntityScope(entity, RecursionAll), Some(TimeWindow(Some(start), None)), None, None, 0)
  }

  /** With only the default filters, the spec has the entity, recursion over
      all descendants, a time window from `start` with no end, no username
      filter, no type list and a zero max count. */
  lemma DefaultsOnly(entity: ManagedObjectReference, start: Time)
    ensures CreateSpec(entity, DefaultFilters(start)) == Success(DefaultSpec(entity, start))
  {
    var fs := DefaultFilters(start);
    CreateSpecMeaning(entity, fs);
    var s := CreateSpec(entity, fs).value;
    forall fld ensures Get(s, fld) == Get(DefaultSpec(entity, start), fld) {
      LastWritePair(fs[0], fs[1], fld, Get(InitialSpec(entity), fld));
    }
    Extensionality(s, DefaultSpec(entity, start));
  }

  /** `NewHistoryCollector`'s spec on valid caller filters: each field holds
      the caller's last write to it, or else the default. */
  lemma HistoryCollectorOverridesDefaults(entity: ManagedObjectReference, start: Time, fs: seq<Filter>)
    requires AllValid(fs)
    ensures HistoryCollectorSpec(entity, start, fs).Success?
    ensures forall fld :: Get(HistoryCollectorSpec(entity, start, fs).value, fld)
                          == LastWrite(fs, fld, Get(DefaultSpec(entity, start), fld))
  {
    var defaults := DefaultFilters(start);
    var all := defaults + fs;
    var init := InitialSpec(entity);
    assert AllValid(all) by {
      forall i | 0 <= i < |all| ensures Valid(all[i]) {
        if i >= 2 { assert all[i] == fs[i - 2]; }
      }
    }
    ApplyAllIsLastWrite(init, all);
    var s := HistoryCollectorSpec(entity, start, fs).value;
    assert s == ApplyAll(init, all).value;
    forall fld
      ensures Get(s, fld) == LastWrite(fs, fld, Get(DefaultSpec(entity, start), fld))
    {
      LastWriteAppend(defaults, fs, fld, Get(init, fld));
      LastWritePair(defaults[0], defaults[1], fld, Get(init, fld));
    }
  }

  /** `NewHistoryCollector` reports the first invalid caller filter's error,
      wrapped twice. */
  lemma HistoryCollectorFirstError(entity: ManagedObjectReference, start: Time, fs: seq<Filter>, k: nat)
    requires k < |fs| && !Valid(fs[k])
    requires forall j | 0 <= j < k :: Valid(fs[j])
    ensures HistoryCollectorSpec(entity, start, fs) == Failure(CreateFilterSpec(FilterSpecInvalid(Check(fs[k]).value)))
  {
    var all := DefaultFilters(start) + fs;
    assert all[k + 2] == fs[k];
    forall j | 0 <= j < k + 2 ensures Valid(all[j]) {
      if j >= 2 { assert all[j] == fs[j - 2]; }
    }
    ApplyAllFirstError(InitialSpec(entity), all, k + 2);
  }

  /** Defaults followed by `WithRecursion(Self)`: the later write wins. */
  lemma DefaultsThenSelf(entity: ManagedObjectReference, start: Time, begin: Time)
    ensures HistoryCollectorSpec(entity, start, [WithTime(Some(TimeWindow(Some(begin), None))), WithRecursion(RecursionSelf)])
      == Success(EventFilterSpec(EntityScope(entity, RecursionSelf), Some(TimeWindow(Some(begin), None)), None, None, 0))
  {
    var fs := [WithTime(Some(TimeWindow(Some(begin), None))), WithRecursion(RecursionSelf)];
    var want := EventFilterSpec(EntityScope(entity, RecursionSelf), Some(TimeWindow(Some(begin), None)), None, None, 0);
    HistoryCollectorOverridesDefaults(entity, start, fs);
    var s := HistoryCollectorSpec(entity, start, fs).value;
    forall fld ensures Get(s, fld) == Get(want, fld) {
      LastWritePair(fs[0], fs[1], fld, Get(DefaultSpec(entity, start), fld));
    }
    Extensionality(s, want);
  }

  /** Each single invalid filter makes `createSpec` fail, and the rendered
      error still carries the filter's own complaint. */
  lemma SingleInvalidFilter(entity: ManagedObjectReference)
    ensures CreateSpec(entity, [WithEventTypeId(None)]) == Failure(FilterSpecInvalid(TypesNil))
    ensures CreateSpec(entity, [WithTime(None)]) == Failure(FilterSpecInvalid(TimeNil))
    ensures CreateSpec(entity, [WithUsername(None)]) == Failure(FilterSpecInvalid(UsernameNil))
    ensures CreateSpec(entity, [WithMaxCount(0)]) == Failure(FilterSpecInvalid(CountZero))
    ensures Contains(SpecErrorMessage(FilterSpecInvalid(TypesNil)), NotNil)
    ensures Contains(SpecErrorMessage(FilterSpecInvalid(TimeNil)), NotNil)
    ensures Contains(SpecErrorMessage(FilterSpecInvalid(UsernameNil)), NotNil)
    ensures Contains(SpecErrorMessage(FilterSpecInvalid(CountZero)), NotPositive)
  {
    var s := InitialSpec(entity);
    NilArgumentsRejected(s);
    MaxCountBehaviour(s, 0);
    ContainsAfterPrefix("filter spec invalid: ", Message(TypesNil), NotNil);
    ContainsAfterPrefix("filter spec invalid: ", Message(TimeNil), NotNil);
    ContainsAfterPrefix("filter spec invalid: ", Message(UsernameNil), NotNil);
    ContainsAfterPrefix("filter spec invalid: ", Message(CountZero), NotPositive);
  }

  // ----- Event classification -----

  /** The class and type of an event. */
  datatype Details = Details(eventClass: string, eventType: string)

  /** `GetDetails`: the class names the event's shape, and the type comes
      from `EventTypeId` for the two extensible shapes and from the Go type
      name otherwise. */
  function GetDetails(be: BaseEvent): (d: Details)
    ensures d.eventClass in {"event", "eventex", "extendedevent"}
    ensures d.eventClass == "eventex" <==> be.EventEx?
    ensures d.eventClass == "extendedevent" <==> be.ExtendedEvent?
    ensures d.eventClass == "event" <==> be.TypedEvent?
    ensures be.TypedEvent? ==> d.eventType == be.typeName
    ensures !be.TypedEvent? ==> d.eventType == be.eventTypeId
  {
    match be
    case EventEx(_, id) => Details("eventex", id)
    case ExtendedEvent(_, id) => Details("extendedevent", id)
    case TypedEvent(_, name) => Details("event", name)
  }
}
