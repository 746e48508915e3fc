/**
 Slot state records, the predicates that compare two of them, and the events a change produces.

 A field that may be absent is an Option; SAS addresses are in their normalized form.
 */
module SlotRecords {
  import opened PythonText
  import opened Wrappers

  type Text = Option<string>

  datatype Key = Key(system: string, enclosure: string, slot: int)

  datatype SlotRecord = SlotRecord(
    key: Key,
    present: bool,
    state: Text,
    identifyActive: bool,
    device: Text,
    serial: Text,
    model: Text,
    gptid: Text,
    pool: Text,
    vdev: Text,
    health: Text,
    persistentLabel: Text,
    identityKey: Text,
    logicalUnit: Text,
    sas: Text,
    topologyLabel: Text,
    multipath: seq<Text>)

  datatype Signature = Signature(pool: Text, vdev: Text, topology: Text)

  function SignatureOf(record: SlotRecord): Signature {
    Signature(record.pool, record.vdev, record.topologyLabel)
  }

  function WithPreviousTopology(previous: SlotRecord, current: SlotRecord): (r: SlotRecord)
    ensures SignatureOf(r) == SignatureOf(previous)
  {
    current.(pool := previous.pool, vdev := previous.vdev, topologyLabel := previous.topologyLabel)
  }

  // ---------------------------------------------------------------- topology predicates

  predicate TopologyChanged(previous: SlotRecord, current: SlotRecord) {
    previous.pool != current.pool || previous.vdev != current.vdev || previous.topologyLabel != current.topologyLabel
  }

  /** Presence and every disk identifier are unchanged. */
  predicate StableIdentity(previous: SlotRecord, current: SlotRecord) {
    && previous.present == current.present
    && previous.serial == current.serial && previous.model == current.model && previous.gptid == current.gptid
    && previous.logicalUnit == current.logicalUnit && previous.identityKey == current.identityKey
  }

  /** How many `>`-separated parts of a label are not blank; `inPart` says whether the current one already is. */
  function LabelParts(text: string, inPart: bool): nat {
    if text == "" then 0
    else if text[0] == '>' then LabelParts(text[1..], false)
    else if inPart || IsSpace(text[0]) then LabelParts(text[1..], inPart)
    else 1 + LabelParts(text[1..], true)
  }

  predicate Known(text: Text) {
    text.Some? && text.value != ""
  }

  function TopologyDetailScore(record: SlotRecord): nat {
    (if Known(record.pool) then 1 else 0)
    + (if Known(record.vdev) then 4 else 0)
    + (if Known(record.topologyLabel) then LabelParts(record.topologyLabel.value, false) else 0)
  }

  /** The same disk in the same pool, described with less topology detail than before. */
  predicate TopologyDegradation(previous: SlotRecord, current: SlotRecord) {
    && TopologyChanged(previous, current)
    && StableIdentity(previous, current)
    && previous.pool == current.pool
    && TopologyDetailScore(current) < TopologyDetailScore(previous)
  }

  const MASS_DEGRADATION_MIN_SLOTS := 4

  /** At least four slots and a quarter of the pass. */
  predicate MassDegradation(degraded: nat, total: nat) {
    total > 0 && degraded >= MASS_DEGRADATION_MIN_SLOTS && 4 * degraded >= total
  }

  predicate HasExtendedState(record: SlotRecord) {
    || record.persistentLabel.Some? || record.logicalUnit.Some? || record.sas.Some? || record.topologyLabel.Some?
    || exists i | 0 <= i < |record.multipath| :: record.multipath[i].Some?
  }

  /** A first record with extended fields for a slot stored without any, otherwise unchanged. */
  predicate Backfills(previous: Option<SlotRecord>, current: SlotRecord) {
    && previous.Some?
    && !HasExtendedState(previous.value) && HasExtendedState(current)
    && var stored := previous.value;
       && stored.present == current.present && stored.state == current.state
       && stored.identifyActive == current.identifyActive && stored.device == current.device
       && stored.serial == current.serial && stored.model == current.model && stored.gptid == current.gptid
       && stored.pool == current.pool && stored.vdev == current.vdev && stored.health == current.health
  }

  // ---------------------------------------------------------------- events

  datatype Field =
    | PresentField | StateField | IdentifyField | HealthField
    | DeviceField | SerialField | ModelField | GptidField | LogicalUnitField | SasField
    | PoolField | VdevField | TopologyLabelField
    | MultipathField(index: nat)

  datatype EventKind = StateChanged | IdentityChanged | TopologyEvent | MultipathChanged

  datatype Group = Group(kind: EventKind, fields: seq<Field>)

  const EVENT_GROUPS: seq<Group> := [
    Group(StateChanged, [PresentField, StateField, IdentifyField, HealthField]),
    Group(IdentityChanged, [DeviceField, SerialField, ModelField, GptidField, LogicalUnitField, SasField]),
    Group(TopologyEvent, [PoolField, VdevField, TopologyLabelField]),
    Group(MultipathChanged, [
      MultipathField(0), MultipathField(1), MultipathField(2), MultipathField(3), MultipathField(4), MultipathField(5),
      MultipathField(6), MultipathField(7), MultipathField(8), MultipathField(9), MultipathField(10),
      MultipathField(11), MultipathField(12)
    ])
  ]

  datatype Event = Event(kind: EventKind, key: Key, changes: seq<Field>)

  /** The identity rule of the event builder, which lets one SAS port stand for the other. */
  predicate SameDisk(previous: SlotRecord, current: SlotRecord) {
    && previous.serial == current.serial && previous.gptid == current.gptid
    && previous.logicalUnit == current.logicalUnit
    && (|| Known(previous.serial) || Known(previous.gptid) || Known(previous.logicalUnit)
        || (Known(previous.identityKey) && previous.identityKey == current.identityKey))
  }

  function WithoutHexPrefix(address: string): string {
    if |address| >= 2 && address[..2] == "0x" then address[2..] else address
  }

  /** Two addresses of one dual-ported disk: equal up to a last decimal digit at most three apart. */
  predicate DualPath(before: Text, after: Text) {
    && Known(before) && Known(after)
    && var a, b := WithoutHexPrefix(before.value), WithoutHexPrefix(after.value);
       && |a| == |b| && |a| >= 2 && a[..|a| - 1] == b[..|b| - 1]
       && var p, q := a[|a| - 1], b[|b| - 1];
          '0' <= p <= '9' && '0' <= q <= '9' && -3 <= p as int - q as int <= 3
  }

  predicate FieldEqual(previous: SlotRecord, current: SlotRecord, field: Field) {
    match field
    case PresentField => previous.present == current.present
    case StateField => previous.state == current.state
    case IdentifyField => previous.identifyActive == current.identifyActive
    case HealthField => previous.health == current.health
    case DeviceField => previous.device == current.device
    case SerialField => previous.serial == current.serial
    case ModelField => previous.model == current.model
    case GptidField => previous.gptid == current.gptid
    case LogicalUnitField => previous.logicalUnit == current.logicalUnit
    case SasField =>
      previous.sas == current.sas || (SameDisk(previous, current) && DualPath(previous.sas, current.sas))
    case PoolField => previous.pool == current.pool
    case VdevField => previous.vdev == current.vdev
    case TopologyLabelField => previous.topologyLabel == current.topologyLabel
    case MultipathField(i) => MultipathAt(previous, i) == MultipathAt(current, i)
  }

  function MultipathAt(record: SlotRecord, i: nat): Text {
    if i < |record.multipath| then record.multipath[i] else None
  }

  function Changes(previous: SlotRecord, current: SlotRecord, fields: seq<Field>): seq<Field> {
    if fields == [] then []
    else
      var last := fields[|fields| - 1];
      Changes(previous, current, fields[..|fields| - 1]) + if FieldEqual(previous, current, last) then [] else [last]
  }

  lemma {:induction false} NoChanges(previous: SlotRecord, current: SlotRecord, fields: seq<Field>)
    ensures Changes(previous, current, fields) == [] <==> forall field <- fields :: FieldEqual(previous, current, field)
  {
    if fields != [] {
      var rest, last := fields[..|fields| - 1], fields[|fields| - 1];
      assert fields == rest + [last];
      NoChanges(previous, current, rest);
    }
  }

  function GroupEvents(previous: SlotRecord, current: SlotRecord, group: Group): seq<Event> {
    if group.kind != StateChanged && previous.present != current.present then []
    else
      var changes := Changes(previous, current, group.fields);
      if changes == [] then [] else [Event(group.kind, current.key, changes)]
  }

  function EventsFrom(previous: SlotRecord, current: SlotRecord, groups: seq<Group>): seq<Event> {
    if groups == [] then []
    else EventsFrom(previous, current, groups[..|groups| - 1]) + GroupEvents(previous, current, groups[|groups| - 1])
  }

  function SlotEvents(previous: Option<SlotRecord>, current: SlotRecord): seq<Event> {
    if previous.None? then [] else EventsFrom(previous.value, current, EVENT_GROUPS)
  }

  method ChangedFields(previous: SlotRecord, current: SlotRecord, fields: seq<Field>) returns (changes: seq<Field>)
    ensures changes == Changes(previous, current, fields)
  {
    changes := [];
    for f := 0 to |fields|
      invariant changes == Changes(previous, current, fields[..f])
    {
      assert fields[..f + 1][..f] == fields[..f];
      if !FieldEqual(previous, current, fields[f]) {
        changes := changes + [fields[f]];
      }
    }
    assert fields[..|fields|] == fields;
  }

  /** `build_slot_events`. */
  method BuildSlotEvents(previous: Option<SlotRecord>, current: SlotRecord) returns (events: seq<Event>)
    ensures events == SlotEvents(previous, current)
  {
    events := [];
    if previous.None? { return; }
    var groups := EVENT_GROUPS;
    for g := 0 to |groups|
      invariant events == EventsFrom(previous.value, current, groups[..g])
    {
      assert groups[..g + 1][..g] == groups[..g];
      if groups[g].kind == StateChanged || previous.value.present == current.present {
        var changes := ChangedFields(previous.value, current, groups[g].fields);
        if changes != [] {
          events := events + [Event(groups[g].kind, current.key, changes)];
        }
      }
    }
    assert groups[..|groups|] == groups;
  }

  lemma {:induction false} EventOfSomeGroup(previous: SlotRecord, current: SlotRecord, groups: seq<Group>, event: Event)
    ensures event in EventsFrom(previous, current, groups)
       <==> exists i :: 0 <= i < |groups| && event in GroupEvents(previous, current, groups[i])
  {
    if groups != [] {
      var n := |groups| - 1;
      EventOfSomeGroup(previous, current, groups[..n], event);
      assert forall i | 0 <= i < n :: groups[..n][i] == groups[i];
    }
  }

  predicate HasTopologyEvent(events: seq<Event>, key: Key) {
    exists event <- events :: event.kind == TopologyEvent && event.key == key
  }

  lemma TopologyGroupSpeaks(previous: SlotRecord, current: SlotRecord)
    ensures GroupEvents(previous, current, EVENT_GROUPS[2]) != []
       <==> previous.present == current.present && SignatureOf(previous) != SignatureOf(current)
  {
    NoChanges(previous, current, [PoolField, VdevField, TopologyLabelField]);
    assert PoolField in EVENT_GROUPS[2].fields && VdevField in EVENT_GROUPS[2].fields;
    assert TopologyLabelField in EVENT_GROUPS[2].fields;
  }

  /** A topology event is emitted exactly when presence is unchanged and the stored topology differs. */
  lemma TopologyEventExactlyOnChange(previous: SlotRecord, current: SlotRecord)
    ensures HasTopologyEvent(SlotEvents(Some(previous), current), current.key)
       <==> previous.present == current.present && SignatureOf(previous) != SignatureOf(current)
    ensures forall event <- SlotEvents(Some(previous), current) :: event.key == current.key
  {
    var events := SlotEvents(Some(previous), current);
    var topology := GroupEvents(previous, current, EVENT_GROUPS[2]);
    TopologyGroupSpeaks(previous, current);
    forall event: Event
      ensures event in events ==> event.key == current.key && (event.kind == TopologyEvent ==> event in topology)
      ensures event in topology ==> event in events && event.kind == TopologyEvent
    {
      EventOfSomeGroup(previous, current, EVENT_GROUPS, event);
    }
    if topology != [] {
      assert topology[0] in topology;
    }
  }
}
