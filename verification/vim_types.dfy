/** The slice of the vSphere API data types that the event layer touches:
    object references, the event filter spec, and the polymorphic event
    record. Go's fixed-width integers are subset types of `int`. */
module VimTypes {
  import opened Results

  type Int32 = x: int | -0x8000_0000 <= x < 0x8000_0000
  type Uint32 = x: int | 0 <= x < 0x1_0000_0000

  /** Go's conversion `int32(u)` of a `uint32`: the same bits read as two's
      complement, so values of 2^31 and above wrap to negatives. */
  function Int32OfUint32(u: Uint32): (r: Int32)
    ensures (r as int - u as int) % 0x1_0000_0000 == 0
  {
    if u < 0x8000_0000 then u else u - 0x1_0000_0000
  }

  /** An instant (`time.Time`), kept abstract as a count of ticks. */
  type Time = int

  datatype ManagedObjectReference = ManagedObjectReference(objType: string, value: string)

  /** `EventFilterSpecRecursionOption`, restricted to its three named
      constants "self", "children", "all", and the Go zero value "" that the
      spec holds before any filter sets it. */
  datatype RecursionOption = RecursionUnset | RecursionSelf | RecursionChildren | RecursionAll

  /** `EventFilterSpecByEntity` */
  datatype EntityScope = EntityScope(entity: ManagedObjectReference, recursion: RecursionOption)

  /** `EventFilterSpecByTime`: both bounds are optional pointers. */
  datatype TimeWindow = TimeWindow(beginTime: Option<Time>, endTime: Option<Time>)

  /** `EventFilterSpecByUsername` */
  datatype UsernameFilter = UsernameFilter(systemUser: bool, userList: seq<string>)

  /** The fields of `EventFilterSpec` that the filters write. The entity scope
      is not optional because spec construction always sets it first and no
      filter clears it; `maxCount` 0 is the Go zero value, meaning unset. */
  datatype EventFilterSpec = EventFilterSpec(
    entity: EntityScope,
    time: Option<TimeWindow>,
    userName: Option<UsernameFilter>,
    eventTypeId: Option<seq<string>>,
    maxCount: Int32)

  /** The base `Event` record every variant embeds. */
  datatype EventData = EventData(
    key: Int32,
    chainId: Int32,
    createdTime: Time,
    userName: string,
    datacenter: Option<ManagedObjectReference>,
    computeResource: Option<ManagedObjectReference>,
    host: Option<ManagedObjectReference>,
    vm: Option<ManagedObjectReference>,
    fullFormattedMessage: string)

  /** The Go type name of a typed event. An `EventEx` or `ExtendedEvent` is
      never a typed event, so neither name can occur. */
  type TypedEventName = s: string | s != "EventEx" && s != "ExtendedEvent" witness "Event"

  /** `types.BaseEvent` by structural shape: an `EventEx`, an `ExtendedEvent`,
      or any other typed event, which carries the name of its Go type. */
  datatype BaseEvent =
    | EventEx(event: EventData, eventTypeId: string)
    | ExtendedEvent(event: EventData, eventTypeId: string)
    | TypedEvent(event: EventData, typeName: TypedEventName)
}
