/** Conversion of a vSphere event into a CloudEvents v1.0 envelope
    (event/cloudevent.go), with the checks the CloudEvents core specification
    makes of it: `id`, `source` and `type` are required, and extension
    attribute names consist only of lower-case ASCII letters and digits. */
module CloudEvents {
  import opened Results
  import opened Text
  import opened Decimal
  import opened VimTypes
  import opened Events

  type Bytes = seq<bv8>

  const SpecVersion := "1.0"
  const ApplicationJson := "application/json"

  /** The two halves of the type format "com.vmware.vsphere.%s.v0". */
  const TypePrefix := "com.vmware.vsphere."
  const TypeSuffix := ".v0"

  function CeType(eventType: string): string
  {
    TypePrefix + eventType + TypeSuffix
  }

  /** Recovers the vSphere type from an envelope type, if it has the format. */
  function EventTypeOf(ceType: string): Option<string>
  {
    if |ceType| >= |TypePrefix| + |TypeSuffix|
       && ceType[..|TypePrefix|] == TypePrefix
       && ceType[|ceType| - |TypeSuffix|..] == TypeSuffix
    then Some(ceType[|TypePrefix|..|ceType| - |TypeSuffix|])
    else None
  }

  /** An envelope type has the format exactly when it is the format applied
      to the type it carries. */
  lemma TypeFormatRoundTrip(ceType: string, eventType: string)
    ensures EventTypeOf(ceType) == Some(eventType) <==> ceType == CeType(eventType)
  {
    var p, x := |TypePrefix|, |TypeSuffix|;
    if ceType == CeType(eventType) {
      assert ceType[..p] == TypePrefix;
      assert ceType[|ceType| - x..] == TypeSuffix;
      assert ceType[p..|ceType| - x] == eventType;
    }
    if EventTypeOf(ceType) == Some(eventType) {
      assert ceType == ceType[..p] + ceType[p..|ceType| - x] + ceType[|ceType| - x..];
    }
  }

  /** Attribute naming rule of the CloudEvents core specification, applied
      to extension names: non-empty, only 'a'..'z' and '0'..'9'. */
  predicate ValidExtensionName(name: string)
  {
    |name| >= 1 && forall i | 0 <= i < |name| :: IsLowerAlnum(name[i])
  }

  /** The envelope. `ToCloudEvent` returns one only when it is valid; on an
      error the Go code returns the zero `ce.Event{}`, which carries nothing,
      so the model returns no envelope. */
  datatype CloudEvent = CloudEvent(
    specVersion: string,
    id: string,
    source: string,
    eventType: string,
    time: Time,
    dataContentType: string,
    data: Bytes,
    extensions: map<string, string>)

  datatype ValidationFailure = SourceMissing | IdMissing | TypeMissing | BadExtensionKey(key: string)

  const Required := "REQUIRED but MISSING"
  const BadKey := "bad key"

  /** The line the envelope validator reports for each failure. */
  function FailureText(f: ValidationFailure): string
  {
    match f
    case SourceMissing => "source: " + Required
    case IdMissing => "id: " + Required
    case TypeMissing => "type: " + Required
    case BadExtensionKey(k) => "extension:" + k + ": " + BadKey
  }

  /** Why a conversion failed: the JSON encoding of the event failed, or the
      assembled envelope broke the rules (all broken rules are reported). */
  datatype ConvertError = MarshalFailed(cause: string) | Invalid(failures: set<ValidationFailure>)

  /** The rendered error contains `sub`. A validation error is wrapped once
      and then lists one line per failure in an unspecified order, so a
      fragment of the wrapper or of any one line is a fragment of the whole
      message. */
  predicate ErrorMentions(e: ConvertError, sub: string)
  {
    match e
    case MarshalFailed(cause) =>
      Contains("marshal vsphere event to cloudevent data: " + cause, sub)
    case Invalid(failures) =>
      || Contains("convert vsphere event to cloudevent: ", sub)
      || exists f | f in failures :: Contains(FailureText(f), sub)
  }

  /** The required-attribute check of `Validate`. */
  function MissingRequired(e: CloudEvent): set<ValidationFailure>
  {
    (if e.source == "" then {SourceMissing} else {})
    + (if e.id == "" then {IdMissing} else {})
    + (if e.eventType == "" then {TypeMissing} else {})
  }

  /** Setting an extension with a bad name records a failure; setting one
      with a good name stores it. */
  function ExtensionFailures(extensions: map<string, string>): set<ValidationFailure>
  {
    set k | k in extensions && !ValidExtensionName(k) :: BadExtensionKey(k)
  }

  function StoredExtensions(extensions: map<string, string>): map<string, string>
  {
    map k | k in extensions && ValidExtensionName(k) :: extensions[k]
  }

  /** `ToCloudEvent(source, be, extensions)`; `marshal` is the JSON encoder
      (nil `extensions` is the empty map). */
  function ToCloudEvent(source: string, be: BaseEvent, extensions: map<string, string>,
                        marshal: BaseEvent -> Result<Bytes, string>): (r: Result<CloudEvent, ConvertError>)
    ensures r.Success? <==>
      && marshal(be).Success?
      && source != ""
      && forall k | k in extensions :: ValidExtensionName(k)
    ensures marshal(be).Failure? ==> r == Failure(MarshalFailed(marshal(be).error))
    ensures r.Success? ==>
      && Canonical(r.value.id)
      && ParseDecimal(r.value.id) == Some(be.event.key as int)
      && EventTypeOf(r.value.eventType) == Some(GetDetails(be).eventType)
      && r.value.source == source
      && r.value.time == be.event.createdTime
      && r.value.extensions == extensions
      && r.value.data == marshal(be).value
      && r.value.dataContentType == ApplicationJson
      && r.value.specVersion == SpecVersion
    ensures r.Failure? && marshal(be).Success? ==>
      && r.error.Invalid?
      && (SourceMissing in r.error.failures <==> source == "")
      && IdMissing !in r.error.failures
      && TypeMissing !in r.error.failures
      && forall k :: BadExtensionKey(k) in r.error.failures <==> k in extensions && !ValidExtensionName(k)
  {
    var details := GetDetails(be);
    match marshal(be)
    case Failure(cause) => Failure(MarshalFailed(cause))
    case Success(bytes) =>
      var e := CloudEvent(SpecVersion, IntToDecimal(be.event.key), source, CeType(details.eventType),
                          be.event.createdTime, ApplicationJson, bytes, StoredExtensions(extensions));
      var failures := ExtensionFailures(extensions) + MissingRequired(e);
      assert forall k | k in extensions && !ValidExtensionName(k) :: BadExtensionKey(k) in failures;
      RoundTrip(be.event.key);
      TypeFormatRoundTrip(e.eventType, details.eventType);
      if failures == {} then Success(e) else Failure(Invalid(failures))
  }

  /** Envelopes converted from events with different keys have different
      IDs: the ID is unique within one source as long as keys are. */
  lemma DistinctKeysDistinctIds(source: string, a: BaseEvent, b: BaseEvent, extensions: map<string, string>,
                                marshal: BaseEvent -> Result<Bytes, string>)
    requires ToCloudEvent(source, a, extensions, marshal).Success?
    requires ToCloudEvent(source, b, extensions, marshal).Success?
    requires a.event.key != b.event.key
    ensures ToCloudEvent(source, a, extensions, marshal).value.id != ToCloudEvent(source, b, extensions, marshal).value.id
  {
  }

  /** The envelope ID is exactly `fmt.Sprintf("%d", key)`: the contract's
      canonical form and round trip leave no other string. */
  lemma IdIsKeyRendering(source: string, be: BaseEvent, extensions: map<string, string>,
                         marshal: BaseEvent -> Result<Bytes, string>)
    requires ToCloudEvent(source, be, extensions, marshal).Success?
    ensures ToCloudEvent(source, be, extensions, marshal).value.id == IntToDecimal(be.event.key as int)
  {
    CanonicalUnique(ToCloudEvent(source, be, extensions, marshal).value.id, be.event.key as int);
  }

  /** "vsphereclass" is a valid extension name; "123-hello" is not. */
  lemma ExtensionNameExamples()
    ensures ValidExtensionName("vsphereclass")
    ensures !ValidExtensionName("123-hello")
  {
    assert !IsLowerAlnum("123-hello"[3]);
  }

  /** The event of the conversion tests: a powered-on event with key 1234. */
  function PoweredOnEvent(t: Time): BaseEvent
  {
    TypedEvent(EventData(1234, 1234, t, "test-user", None, None, None,
                         Some(ManagedObjectReference("VirtualMachine", "vm-1234")), "some test message"),
               "VmPoweredOnEvent")
  }

  lemma PoweredOnFields(t: Time)
    ensures IntToDecimal(PoweredOnEvent(t).event.key) == "1234"
    ensures CeType(GetDetails(PoweredOnEvent(t)).eventType) == "com.vmware.vsphere.VmPoweredOnEvent.v0"
  {
    KeyDigits();
    PoweredOnType();
  }

  lemma PoweredOnType()
    ensures CeType("VmPoweredOnEvent") == "com.vmware.vsphere.VmPoweredOnEvent.v0"
  {
  }

  lemma KeyDigits()
    ensures NatToDecimal(1234) == "1234"
  {
    assert NatToDecimal(12) == "12" by {
      assert DigitChar(1) == '1' && DigitChar(2) == '2';
    }
    assert NatToDecimal(123) == "123" by {
      assert DigitChar(3) == '3';
      assert NatToDecimal(123) == NatToDecimal(12) + [DigitChar(3)];
    }
    assert DigitChar(4) == '4';
    assert NatToDecimal(1234) == NatToDecimal(123) + [DigitChar(4)];
  }

  /** The conversion of the powered-on event with a good source: ID "1234",
      the versioned type, the event's time, and no extensions. */
  lemma ConvertsPoweredOnEvent(t: Time, marshal: BaseEvent -> Result<Bytes, string>)
    requires marshal(PoweredOnEvent(t)).Success?
    ensures ToCloudEvent("/testsource", PoweredOnEvent(t), map[], marshal)
      == Success(CloudEvent("1.0", "1234", "/testsource", "com.vmware.vsphere.VmPoweredOnEvent.v0", t,
                            "application/json", marshal(PoweredOnEvent(t)).value, map[]))
  {
    PoweredOnFields(t);
    assert StoredExtensions(map[]) == map[];
    assert ExtensionFailures(map[]) == {};
  }

  /** The same conversion with the extension vsphereclass = "event". */
  lemma ConvertsWithExtension(t: Time, marshal: BaseEvent -> Result<Bytes, string>)
    requires marshal(PoweredOnEvent(t)).Success?
    ensures ToCloudEvent("/testsource", PoweredOnEvent(t), map["vsphereclass" := "event"], marshal)
      == Success(CloudEvent("1.0", "1234", "/testsource", "com.vmware.vsphere.VmPoweredOnEvent.v0", t,
                            "application/json", marshal(PoweredOnEvent(t)).value, map["vsphereclass" := "event"]))
  {
    PoweredOnFields(t);
    ExtensionNameExamples();
    var ext := map["vsphereclass" := "event"];
    assert StoredExtensions(ext) == ext;
    assert ExtensionFailures(ext) == {};
  }

  /** The validation-error line for a missing source carries
      "source: REQUIRED". */
  lemma SourceLineMentions()
    ensures Contains(FailureText(SourceMissing), "source: REQUIRED")
  {
    var line := FailureText(SourceMissing);
    assert line == "source: REQUIRED" + " but MISSING";
    ContainsPrefix("source: REQUIRED", " but MISSING");
  }

  /** The validation-error line for a bad extension name carries "bad key". */
  lemma BadKeyLineMentions(k: string)
    ensures Contains(FailureText(BadExtensionKey(k)), BadKey)
  {
    ContainsSuffix("extension:" + k + ": ", BadKey);
  }

  /** Whatever the event, once it encodes, an empty source makes the
      conversion fail with "source: REQUIRED" in the error. */
  lemma EmptySourceRejected(be: BaseEvent, extensions: map<string, string>, marshal: BaseEvent -> Result<Bytes, string>)
    requires marshal(be).Success?
    ensures ToCloudEvent("", be, extensions, marshal).Failure?
    ensures ErrorMentions(ToCloudEvent("", be, extensions, marshal).error, "source: REQUIRED")
  {
    var r := ToCloudEvent("", be, extensions, marshal);
    SourceLineMentions();
    assert SourceMissing in r.error.failures;
  }

  /** Whatever the event, once it encodes, an extension with a bad name
      makes the conversion fail with "bad key" in the error. */
  lemma BadExtensionNameRejected(source: string, be: BaseEvent, extensions: map<string, string>,
                                 marshal: BaseEvent -> Result<Bytes, string>, k: string)
    requires marshal(be).Success?
    requires k in extensions && !ValidExtensionName(k)
    ensures ToCloudEvent(source, be, extensions, marshal).Failure?
    ensures ErrorMentions(ToCloudEvent(source, be, extensions, marshal).error, BadKey)
  {
    var r := ToCloudEvent(source, be, extensions, marshal);
    BadKeyLineMentions(k);
    assert BadExtensionKey(k) in r.error.failures;
  }

  /** The two failing conversions of the powered-on event: an extension
      named "123-hello", and an empty source. */
  lemma RejectsBadInput(t: Time, marshal: BaseEvent -> Result<Bytes, string>)
    requires marshal(PoweredOnEvent(t)).Success?
    ensures ToCloudEvent("/testsource", PoweredOnEvent(t), map["123-hello" := "invalid"], marshal).Failure?
    ensures ToCloudEvent("", PoweredOnEvent(t), map[], marshal).Failure?
    ensures ErrorMentions(ToCloudEvent("/testsource", PoweredOnEvent(t), map["123-hello" := "invalid"], marshal).error, BadKey)
    ensures ErrorMentions(ToCloudEvent("", PoweredOnEvent(t), map[], marshal).error, "source: REQUIRED")
  {
    ExtensionNameExamples();
    BadExtensionNameRejected("/testsource", PoweredOnEvent(t), map["123-hello" := "invalid"], marshal, "123-hello");
    EmptySourceRejected(PoweredOnEvent(t), map[], marshal);
  }
}
