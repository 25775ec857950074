# vSphere event layer, modelled in Dafny

This project models the event-normalisation layer of a Go convenience client
for the vSphere API (the `event` package). It has three parts:

- **Filter-spec builder.** Each `Filter` option validates its own argument.
  It then overwrites exactly one field of an `EventFilterSpec`. `createSpec`
  seeds the spec with the entity reference and runs the filters in list
  order. It stops at the first error and wraps it as "filter spec invalid".
  `NewHistoryCollector` runs the default filters before the caller's. The
  defaults are recursion over all descendants and a time window that starts
  at package initialisation. A spec error is reported as "create filter spec".
- **Event classification.** `GetDetails` maps an event to a (class, type)
  pair by its shape. An `EventEx` gives "eventex" and its `EventTypeId`. An
  `ExtendedEvent` gives "extendedevent" and its `EventTypeId`. Any other
  typed event gives "event" and its Go type name.
- **CloudEvent conversion.** `ToCloudEvent` builds a CloudEvents v1.0
  envelope from an event:
  - the ID is the event key in decimal;
  - the type is "com.vmware.vsphere.<type>.v0";
  - the time is the event's creation time;
  - the payload is the JSON encoding of the event;
  - the caller's extensions are attached.

  The envelope is then validated. `source`, `id` and `type` are required.
  Extension names are checked against the attribute naming rule of the
  CloudEvents core specification: non-empty, only 'a'–'z' and '0'–'9'. An
  encoding failure or a validation failure returns an error and no envelope.

Every operation is a pure function. `ToCloudEvent` copies the time from the
event and reads no clock, so equal inputs always give equal envelopes.

Modules, one per file:

- `Results` (results.dfy): `Option` (Go nil ↔ `None`) and `Result` (a non-nil
  Go `error` ↔ `Failure`).
- `Text` (text.dfy): substring containment, used for the error-message
  fragments the Go tests check.
- `Decimal` (decimal.dfy): `fmt.Sprintf("%d", n)` and its parser.
- `VimTypes` (vim_types.dfy): object references, `int32`/`uint32` with Go's
  conversion, the filter spec, and the event as a tagged union.
- `Filters` (filter.dfy): the filter options as a command datatype, and
  `Apply`.
- `Events` (event.dfy): the `createSpec` fold, the collector's filter
  composition, and `GetDetails`.
- `CloudEvents` (cloudevent.dfy): `ToCloudEvent` and envelope validation.

How the fold is specified:

- `Get` views the spec one `Field` at a time.
- `Apply` changes exactly its filter's `Target` field and no other.
- `LastWrite` is a reference definition that scans a filter list from the
  right. The fold over valid filters is proved equal to it, field by field
  ("last write wins").
- Over a list with an invalid filter, the fold is proved to fail with the
  error of the first invalid filter.

`WithMaxCount` stores `int32(count)` of a `uint32`. The model follows Go's
conversion: counts from 2^31 upwards wrap to negative values
(`Filters.MaxCountBehaviour`).

Facts about the Go code that the model keeps:

- The type format is the literal `com.vmware.vsphere.%s.v0`.
- The error wraps read "marshal vsphere event to cloudevent data" and
  "convert vsphere event to cloudevent".
- "123-hello" is rejected for its '-'. Digits may appear anywhere in an
  extension name.
- A failing filter makes `createSpec` return an error and no spec.

## Model

| member | source | states |
|---|---|---|
| Filters.Apply | event/filter.go:12-65 | A filter succeeds exactly when its own argument check passes, and a failure carries that check's error. On success the filter's target field holds its argument and every other field (the entity reference included) is unchanged. |
| Filters.NilArgumentsRejected | event/filter.go:15-65 | A nil type list, time window or username filter is rejected on any spec, and each of these errors contains "must not be nil". |
| Filters.MaxCountBehaviour | event/filter.go:26-34 | A zero count is rejected with an error containing "be greater than 0". A count in 1..2^31-1 is stored unchanged. A count of 2^31 or more is stored as a negative int32. |
| Filters.RecursionAlwaysApplies | event/filter.go:38-43 | The recursion option never fails. Afterwards the entity scope is the same entity reference with the new recursion. |
| Filters.DefaultFilters | event/filter.go:67-71 | Neither default filter (recursion over all descendants, a time window from the start instant) can fail. |
| VimTypes.Int32OfUint32 | event/filter.go:31 | Go's int32(count) is the int32 congruent to the uint32 modulo 2^32. |
| Events.CreateSpec | event/event.go:26-40 | The spec always carries the given entity reference. Assembly succeeds exactly when every filter passes its check. |
| Events.ApplyAllSucceedsIffAllValid | event/event.go:32-36 | The filter loop completes exactly when every filter in the list is valid. |
| Events.ApplyAllFirstError | event/event.go:32-36 | When filter k is the first invalid one, the loop fails with filter k's error, whatever follows it. |
| Events.ApplyAllIsLastWrite | event/event.go:32-36 | On valid filters, each field of the result equals the value written by the last filter targeting it, or its starting value if none does. |
| Events.ApplyAllPreservesEntity | event/event.go:27-36 | A successful loop never changes the entity reference. |
| Events.ApplyAllSnoc | event/event.go:32-36 | Running a list followed by one more filter is running the list, then that filter, if the list succeeded. |
| Events.LastWriteAppend | event/event.go:17-18 | In a concatenated filter list, a write in the second part overrides the first part. |
| Events.CreateSpecMeaning | event/event.go:26-40 | createSpec on valid filters gives each field the last value written to it, with the entity reference and Go zero values as the start. On the first invalid filter it returns that filter's error wrapped as "filter spec invalid". |
| Events.HistoryCollectorSpec | event/event.go:16-21 | The collector's spec succeeds exactly when every caller filter is valid. Its error message contains "create filter spec". |
| Events.HistoryCollectorOverridesDefaults | event/event.go:17-20 | With valid caller filters, each field holds the caller's last write to it, or otherwise the default value: recursion All, a time window from the start instant with no end, nothing else set. |
| Events.HistoryCollectorFirstError | event/event.go:17-21 | The first invalid caller filter's error is returned, wrapped as "filter spec invalid" and then "create filter spec". |
| Events.DefaultsOnly | event/event_test.go:79-87 | The defaults alone give the entity, recursion All, time set from the start instant, no username filter, no type list, max count 0. |
| Events.DefaultsThenSelf | event/event_test.go:113-131 | Defaults, then a caller time window, then recursion Self give a spec with recursion Self and the caller's window. |
| Events.SingleInvalidFilter | event/event_test.go:43-77 | Each of the four invalid filters alone makes createSpec fail. The wrapped message still contains "must not be nil" or "be greater than 0". |
| Events.GetDetails | event/event.go:56-73 | The class is one of "event", "eventex", "extendedevent", and each class holds exactly for its own shape. The type is EventTypeId for EventEx and ExtendedEvent, and the Go type name otherwise. |
| Decimal.NatToDecimal | event/cloudevent.go:24 | The rendering is a non-empty digit string. It starts with '0' only for zero, which renders as "0". |
| Decimal.IntToDecimal | event/cloudevent.go:24 | The "%d" rendering is canonical: digits with no leading zero except "0" itself, after an optional '-' that appears exactly for negative numbers. |
| Decimal.CanonicalUnique | event/cloudevent.go:24 | A canonical string that parses to n is the rendering of n, so "%d" has no other output for n (no "01234", no "-0"). |
| Decimal.RoundTrip | event/cloudevent.go:24 | Parsing the "%d" rendering of any integer, negative ones included, gives the integer back. |
| Decimal.Injective | event/cloudevent.go:24 | Distinct keys render to distinct strings. |
| CloudEvents.TypeFormatRoundTrip | event/cloudevent.go:12 | A string has the form "com.vmware.vsphere.<t>.v0" with <t> recovered from it exactly when it equals the format applied to <t>. |
| CloudEvents.ToCloudEvent | event/cloudevent.go:19-41 | Conversion succeeds exactly when the event encodes, the source is non-empty and every extension name is valid. An encoding failure is returned as is. On success the ID is in canonical decimal form and parses back to the key, and the type parses back to GetDetails' type. The source, time, payload, content type and extensions are the inputs. A validation error lists the missing source exactly when the source is empty, and lists exactly the invalid extension names. It never reports a missing id or type. |
| CloudEvents.IdIsKeyRendering | event/cloudevent.go:24 | On success the envelope ID is exactly the "%d" rendering of the event key. |
| CloudEvents.DistinctKeysDistinctIds | event/cloudevent.go:24 | Two successful conversions of events with different keys yield different IDs. |
| CloudEvents.EmptySourceRejected | event/cloudevent.go:36-38 | For any event that encodes, an empty source makes conversion fail with "source: REQUIRED" in the error. |
| CloudEvents.BadExtensionNameRejected | event/cloudevent.go:28-38 | For any event that encodes, one invalid extension name makes conversion fail with "bad key" in the error. |
| CloudEvents.ExtensionNameExamples | event/cloudevent_test.go:20-26 | "vsphereclass" is a valid extension name and "123-hello" is not. |
| CloudEvents.ConvertsPoweredOnEvent | event/cloudevent_test.go:34-48 | The test's powered-on event (key 1234) converts to ID "1234", type "com.vmware.vsphere.VmPoweredOnEvent.v0", the given source and time, its JSON payload, and no extensions. |
| CloudEvents.ConvertsWithExtension | event/cloudevent_test.go:49-66 | The same event with extension vsphereclass = "event" converts with exactly that extension. |
| CloudEvents.RejectsBadInput | event/cloudevent_test.go:20-32 | The extension "123-hello" makes conversion fail with "bad key". An empty source makes it fail with "source: REQUIRED". |

## Left out

- The remote call `CreateCollectorForEvents` (event/event.go:22) is left out. So is reading events from a collector in pages. Both are calls to the vSphere server. The model stops at the spec that would be passed to the server.
- JSON encoding of the event is a parameter `marshal` of `ToCloudEvent`. It returns either bytes or an error text. Its format is not modelled.
- Go reflection for the type name of a typed event is replaced by a name field on that variant.
- `time.Now()` in the default filters is evaluated once, at package initialisation. It is the parameter `start`. Instants are abstract integers.
- Some `EventFilterSpec` fields are written by no filter: event chain, alarm, scheduled task, category, type, tag, the message and init flags. They are not modelled and stay at their zero values.
- Event records keep only the fields of the base `types.Event`. Fields of particular event types are not modelled: the template flag of VM events, the names inside event arguments, and the datastore, network, switch and tag arguments. So `marshal` cannot tell apart events that differ only in those fields. No property depends on them.
- The recursion option is limited to its three named constants and the zero value. Go's string type would admit any other string; the model does not.
- A nil `BaseEvent` makes the Go code panic. It is not modelled, because every model event has a shape.
- CloudEvents SDK details beyond the required attributes and the extension naming rule are not modelled:
  - reserved attribute names used as extension names;
  - URI-reference parsing of the source;
  - a zero time becoming an absent time;
  - extension value coercion.
- CloudEvents.ValidExtensionName: follows the naming rule of the CloudEvents core specification (non-empty, only 'a'–'z' and '0'–'9'). The SDK validator that `SetExtension` calls is not part of this model. The model does not cover any acceptance of upper-case letters followed by lower-casing of the stored name that some SDK versions perform.
- CloudEvents.FailureText: models only the field name and the fragments "REQUIRED but MISSING" and "bad key" of the SDK's messages, not its full wording.
- The aggregated validation message is shown by `ErrorMentions`: the fragment is in the single wrapper prefix or in one failure line. The SDK prints its failure lines in map order, so their order is not modelled.
- The `client/`, `logger/`, `example/` and `test/` directories are not part of this model: credentials and TLS, logger injection, the polling demo, and the end-to-end scaffolding.
