/** The children of a mirror: for each type of device a list and four indexes of it, and the selections
    that refer to them. */
module ChildIndex {
  import opened Basics
  import opened DeviceIdentity
  import opened SelectionText

  datatype DeviceType = Panel | Edge | MPES | FocalPlane | Positioner | OtherType

  /** A controller: its identity, and which object it is. */
  datatype Device = Device(id: Identity, object: nat)

  /** The children of one type. */
  datatype Index = Index(
    children: seq<Device>,
    byIdentity: seq<(Identity, Device)>,
    byPosition: map<int, Device>,
    bySerial: map<int, Device>,
    byAddress: map<string, Device>)

  const EMPTY := Index([], [], map[], map[], map[])

  /** What a mirror keeps of its children and of its selections. */
  datatype Family = Family(
    indexes: Indexes,
    panels: set<int>, tzFixed: set<int>, rxRyFixed: set<int>,
    sensors: set<int>,
    edges: set<string>)

  predicate Possible(t: DeviceType) { !t.OtherType? }

  type Indexes = map<DeviceType, Index>

  function IndexOf(indexes: Indexes, t: DeviceType): Index {
    if t in indexes then indexes[t] else EMPTY
  }

  /** All three keys are there already, though perhaps of different devices. */
  predicate KeysTaken(ix: Index, id: Identity) {
    id.position in ix.byPosition && id.serial in ix.bySerial && id.address in ix.byAddress
  }

  /** The map of identities compares them in its own way: storing under an identity that counts as one
      already there keeps the old key. */
  function PutDevice(entries: seq<(Identity, Device)>, d: Device): seq<(Identity, Device)> {
    if entries == [] then [(d.id, d)]
    else if Same(entries[0].0, d.id) then [(entries[0].0, d)] + entries[1..]
    else [entries[0]] + PutDevice(entries[1..], d)
  }

  function Indexed(ix: Index, d: Device): Index {
    Index(ix.children + [d], PutDevice(ix.byIdentity, d),
          ix.byPosition[d.id.position := d], ix.bySerial[d.id.serial := d], ix.byAddress[d.id.address := d])
  }

  function WithChild(indexes: Indexes, t: DeviceType, d: Device): Indexes {
    var ix := IndexOf(indexes, t);
    if KeysTaken(ix, d.id) || !Possible(t) then indexes else indexes[t := Indexed(ix, d)]
  }

  /** A panel, edge or sensor is selected when it is added, and also when it is dropped. */
  function Selected(f: Family, t: DeviceType, id: Identity): Family {
    match t
    case Panel => f.(panels := f.panels + {Unsigned(id.position)})
    case Edge => f.(edges := f.edges + {id.address})
    case MPES => f.(sensors := f.sensors + {id.serial})
    case _ => f
  }

  /** The keys a selection can refer to, if there ever was a child of the type. */
  function PanelKeys(indexes: Indexes): Option<set<int>> {
    if Panel in indexes then Some(set p | p in indexes[Panel].byPosition :: Unsigned(p)) else None
  }

  function SensorKeys(indexes: Indexes): Option<set<int>> {
    if MPES in indexes then Some(indexes[MPES].bySerial.Keys) else None
  }

  function EdgeKeys(indexes: Indexes): Option<set<string>> {
    if Edge in indexes then Some(indexes[Edge].byAddress.Keys) else None
  }

  function Positions(children: seq<Device>): set<int> {
    set i | 0 <= i < |children| :: Unsigned(children[i].id.position)
  }

  function Serials(children: seq<Device>): set<int> {
    set i | 0 <= i < |children| :: children[i].id.serial as int
  }

  function EdgeAddresses(children: seq<Device>): set<string> {
    set i | 0 <= i < |children| :: children[i].id.address
  }

  /** Selects all children. The first type without children throws, and leaves the rest as it is. */
  function AllSelected(f: Family): Family {
    var g := f.(panels := {}, tzFixed := {}, rxRyFixed := {});
    if Panel !in f.indexes then g else
    var h := g.(panels := Positions(f.indexes[Panel].children), edges := {});
    if Edge !in f.indexes then h else
    var k := h.(edges := EdgeAddresses(f.indexes[Edge].children), sensors := {});
    if MPES !in f.indexes then k else k.(sensors := Serials(f.indexes[MPES].children))
  }

  datatype Event =
    | AddChild(t: DeviceType, d: Device)
    | SetPanels(text: string) | SetTzFixed(text: string) | SetRxRyFixed(text: string)
    | SetSensors(text: string) | SetEdges(text: string)
    | SelectAll

  /** Reading the first character of an empty selection is undefined. */
  predicate Defined(e: Event) {
    e.AddChild? || e.SelectAll? || e.text != ""
  }

  function Next(f: Family, e: Event): Family
    requires Defined(e)
  {
    match e
    case AddChild(t, d) => Selected(f.(indexes := WithChild(f.indexes, t, d)), t, d.id)
    case SetPanels(text) => f.(panels := NumbersKept(ItemsOf(text), PanelKeys(f.indexes), true))
    case SetTzFixed(text) => f.(tzFixed := NumbersKept(ItemsOf(text), PanelKeys(f.indexes), true))
    case SetRxRyFixed(text) => f.(rxRyFixed := NumbersKept(ItemsOf(text), PanelKeys(f.indexes), true))
    case SetSensors(text) => f.(sensors := NumbersKept(ItemsOf(text), SensorKeys(f.indexes), false))
    case SetEdges(text) => f.(edges := AddressesKept(ItemsOf(text), EdgeKeys(f.indexes)))
    case SelectAll => AllSelected(f)
  }

  const START := Family(map[], {}, {}, {}, {}, {})

  function After(events: seq<Event>): Family
    requires forall i :: 0 <= i < |events| ==> Defined(events[i])
  {
    if events == [] then START else Next(After(events[..|events| - 1]), events[|events| - 1])
  }

  /* ---------- what holds after any sequence of events ---------- */

  ghost predicate DistinctIdentities(children: seq<Device>) {
    forall i, j :: 0 <= i < j < |children| ==> children[i].id != children[j].id
  }

  ghost predicate AllKeysTaken(ix: Index) {
    forall d :: d in ix.children ==> KeysTaken(ix, d.id)
  }

  ghost predicate ValuesAreChildren(ix: Index) {
    && (forall k {:trigger ix.byPosition[k]} :: k in ix.byPosition ==> ix.byPosition[k] in ix.children && ix.byPosition[k].id.position == k)
    && (forall k {:trigger ix.bySerial[k]} :: k in ix.bySerial ==> ix.bySerial[k] in ix.children && ix.bySerial[k].id.serial == k)
    && (forall k {:trigger ix.byAddress[k]} :: k in ix.byAddress ==> ix.byAddress[k] in ix.children && ix.byAddress[k].id.address == k)
  }

  ghost predicate IdentitiesMatch(entries: seq<(Identity, Device)>, children: seq<Device>) {
    forall i :: 0 <= i < |entries| ==> entries[i].1 in children && Same(entries[i].0, entries[i].1.id)
  }

  /** Every value of an index is a child, under its own key; no identity is in the list twice; and every
      child's keys are taken. */
  ghost predicate Consistent(ix: Index) {
    && DistinctIdentities(ix.children) && AllKeysTaken(ix) && ValuesAreChildren(ix)
    && IdentitiesMatch(ix.byIdentity, ix.children)
  }

  function KeysOrNone<T>(keys: Option<set<T>>): set<T> {
    if keys.Some? then keys.value else {}
  }

  /** Everything selected is a key of the matching index. */
  ghost predicate SelectionsFound(f: Family) {
    && f.panels + f.tzFixed + f.rxRyFixed <= KeysOrNone(PanelKeys(f.indexes))
    && f.sensors <= KeysOrNone(SensorKeys(f.indexes))
    && f.edges <= KeysOrNone(EdgeKeys(f.indexes))
  }

  ghost predicate AllConsistent(indexes: Indexes) {
    forall t :: t in indexes ==> Consistent(indexes[t])
  }

  ghost predicate Sound(f: Family) { AllConsistent(f.indexes) && SelectionsFound(f) }

  lemma SameAsItself(a: Identity)
    ensures Same(a, a)
  {
  }

  lemma {:induction false} PutDeviceKeeps(entries: seq<(Identity, Device)>, d: Device, children: seq<Device>)
    requires d in children && IdentitiesMatch(entries, children)
    ensures IdentitiesMatch(PutDevice(entries, d), children)
  {
    SameAsItself(d.id);
    hide Same;
    if entries != [] && !Same(entries[0].0, d.id) {
      PutDeviceKeeps(entries[1..], d, children);
      var rest := PutDevice(entries[1..], d);
      var put := [entries[0]] + rest;
      forall i | 0 <= i < |put| ensures put[i].1 in children && Same(put[i].0, put[i].1.id) {
        if i > 0 { assert put[i] == rest[i - 1]; }
      }
    }
  }

  lemma MoreChildrenMatch(entries: seq<(Identity, Device)>, children: seq<Device>, d: Device)
    requires IdentitiesMatch(entries, children)
    ensures IdentitiesMatch(entries, children + [d])
  {
    hide Same;
  }

  lemma OneMoreIdentity(ix: Index, d: Device)
    requires DistinctIdentities(ix.children) && AllKeysTaken(ix) && !KeysTaken(ix, d.id)
    ensures DistinctIdentities(ix.children + [d])
  {
    hide KeysTaken;
    forall i | 0 <= i < |ix.children| ensures ix.children[i].id != d.id {
      assert ix.children[i] in ix.children;
    }
  }

  lemma IndexedTakesKeys(ix: Index, d: Device)
    requires AllKeysTaken(ix)
    ensures AllKeysTaken(Indexed(ix, d)) && KeysTaken(Indexed(ix, d), d.id)
  {
    hide PutDevice;
    var n := Indexed(ix, d);
    forall e | e in n.children ensures KeysTaken(n, e.id) {
      assert e in ix.children || e == d;
      if e in ix.children { assert KeysTaken(ix, e.id); }
    }
  }

  lemma IndexedValues(ix: Index, d: Device)
    requires ValuesAreChildren(ix)
    ensures ValuesAreChildren(Indexed(ix, d))
  {
    hide PutDevice;
    var n := Indexed(ix, d);
    assert d in n.children && forall e :: e in ix.children ==> e in n.children;
  }

  lemma IndexedConsistent(ix: Index, d: Device)
    requires Consistent(ix) && !KeysTaken(ix, d.id)
    ensures Consistent(Indexed(ix, d)) && KeysTaken(Indexed(ix, d), d.id)
  {
    OneMoreIdentity(ix, d);
    IndexedTakesKeys(ix, d);
    IndexedValues(ix, d);
    MoreChildrenMatch(ix.byIdentity, ix.children, d);
    assert d in ix.children + [d];
    PutDeviceKeeps(ix.byIdentity, d, ix.children + [d]);
    hide DistinctIdentities, AllKeysTaken, ValuesAreChildren, IdentitiesMatch, PutDevice, KeysTaken;
  }

  lemma EmptyConsistent()
    ensures Consistent(EMPTY)
  {
  }

  lemma {:induction false} KeptAreKeys(items: seq<string>, children: Option<set<int>>, unsigned: bool)
    ensures NumbersKept(items, children, unsigned) <= KeysOrNone(children)
  {
    hide Stoi, Unsigned;
    if items != [] {
      KeptAreKeys(items[..|items| - 1], children, unsigned);
      NumbersAreKeys(items, children, unsigned);
    }
  }

  lemma {:induction false} NumbersAreKeys(items: seq<string>, children: Option<set<int>>, unsigned: bool)
    ensures Numbers(items, children, unsigned).Some? ==> Numbers(items, children, unsigned).value <= KeysOrNone(children)
  {
    hide Stoi, Unsigned;
    if items != [] {
      NumbersAreKeys(items[..|items| - 1], children, unsigned);
    }
  }

  lemma {:induction false} KeptAreAddresses(items: seq<string>, children: Option<set<string>>)
    ensures AddressesKept(items, children) <= KeysOrNone(children)
    ensures Addresses(items, children).Some? ==> Addresses(items, children).value <= KeysOrNone(children)
  {
    if items != [] {
      KeptAreAddresses(items[..|items| - 1], children);
    }
  }

  /** Adding a child, or dropping it, keeps the indexes consistent; in any case its keys are taken. */
  lemma AddKeepsConsistent(indexes: Indexes, t: DeviceType, d: Device)
    requires AllConsistent(indexes)
    ensures AllConsistent(WithChild(indexes, t, d))
    ensures Possible(t) ==> KeysTaken(IndexOf(WithChild(indexes, t, d), t), d.id)
  {
    hide Consistent, Indexed, KeysTaken, EMPTY;
    EmptyConsistent();
    var ix := IndexOf(indexes, t);
    if !KeysTaken(ix, d.id) {
      IndexedConsistent(ix, d);
    }
  }

  /** It keeps all keys there are. */
  lemma AddKeepsKeys(indexes: Indexes, t: DeviceType, d: Device)
    ensures var after := WithChild(indexes, t, d);
            && KeysOrNone(PanelKeys(indexes)) <= KeysOrNone(PanelKeys(after))
            && KeysOrNone(SensorKeys(indexes)) <= KeysOrNone(SensorKeys(after))
            && KeysOrNone(EdgeKeys(indexes)) <= KeysOrNone(EdgeKeys(after))
  {
    hide PutDevice, Unsigned, KeysTaken;
  }

  /** The key of the child is there. */
  lemma OwnKey(indexes: Indexes, t: DeviceType, id: Identity)
    requires KeysTaken(IndexOf(indexes, t), id)
    ensures t == Panel ==> Unsigned(id.position) in KeysOrNone(PanelKeys(indexes))
    ensures t == MPES ==> id.serial in KeysOrNone(SensorKeys(indexes))
    ensures t == Edge ==> id.address in KeysOrNone(EdgeKeys(indexes))
  {
    hide Unsigned;
  }

  lemma AddKeepsSound(f: Family, t: DeviceType, d: Device)
    requires Sound(f)
    ensures Sound(Selected(f.(indexes := WithChild(f.indexes, t, d)), t, d.id))
  {
    hide AllConsistent, WithChild, Unsigned, KeysTaken, PanelKeys, SensorKeys, EdgeKeys, KeysOrNone, IndexOf;
    AddKeepsConsistent(f.indexes, t, d);
    AddKeepsKeys(f.indexes, t, d);
    if Possible(t) { OwnKey(WithChild(f.indexes, t, d), t, d.id); }
  }

  lemma AllSelectedSound(f: Family)
    requires Sound(f)
    ensures Sound(AllSelected(f))
  {
    hide Consistent, Positions, EdgeAddresses, Serials, Unsigned;
    if Panel in f.indexes { ChildrenAreKeys(f.indexes[Panel]); }
    if Edge in f.indexes { ChildrenAreKeys(f.indexes[Edge]); }
    if MPES in f.indexes { ChildrenAreKeys(f.indexes[MPES]); }
  }

  lemma ChildrenAreKeys(ix: Index)
    requires Consistent(ix)
    ensures Positions(ix.children) <= set p | p in ix.byPosition :: Unsigned(p)
    ensures EdgeAddresses(ix.children) <= ix.byAddress.Keys
    ensures Serials(ix.children) <= ix.bySerial.Keys
  {
    hide Unsigned, ValuesAreChildren, DistinctIdentities, IdentitiesMatch;
    forall i | 0 <= i < |ix.children| ensures KeysTaken(ix, ix.children[i].id) {
      assert ix.children[i] in ix.children;
    }
  }

  lemma NextKeepsSound(f: Family, e: Event)
    requires Sound(f) && Defined(e)
    ensures Sound(Next(f, e))
  {
    hide AllConsistent, ItemsOf, NumbersKept, AddressesKept, AllSelected, WithChild, Selected, PanelKeys, SensorKeys, EdgeKeys, KeysOrNone;
    match e
    case AddChild(t, d) => AddKeepsSound(f, t, d);
    case SetPanels(text) => KeptAreKeys(ItemsOf(text), PanelKeys(f.indexes), true);
    case SetTzFixed(text) => KeptAreKeys(ItemsOf(text), PanelKeys(f.indexes), true);
    case SetRxRyFixed(text) => KeptAreKeys(ItemsOf(text), PanelKeys(f.indexes), true);
    case SetSensors(text) => KeptAreKeys(ItemsOf(text), SensorKeys(f.indexes), false);
    case SetEdges(text) => KeptAreAddresses(ItemsOf(text), EdgeKeys(f.indexes));
    case SelectAll => AllSelectedSound(f);
  }

  lemma StartSound()
    ensures Sound(START)
  {
  }

  /** After any sequence of additions and selections, the indexes are consistent and everything selected is
      a key, so that no later lookup of a selected device fails. */
  lemma {:induction false} AlwaysSound(events: seq<Event>)
    requires forall i :: 0 <= i < |events| ==> Defined(events[i])
    ensures Sound(After(events))
  {
    hide Next, Sound;
    StartSound();
    if events != [] {
      AlwaysSound(events[..|events| - 1]);
      NextKeepsSound(After(events[..|events| - 1]), events[|events| - 1]);
    }
  }

  /** An unsigned position as the number it came from. */
  function Signed(u: int): int { if u > INT_MAX then u - TWO_32 else u }

  /** The lookups made later: the panel at a selected position, the sensor of a selected serial number, the
      edge of a selected address. */
  lemma LookupsSucceed(f: Family)
    requires Sound(f)
    ensures forall u :: u in f.panels + f.tzFixed + f.rxRyFixed ==>
              var p := Signed(u);
              Panel in f.indexes && p in f.indexes[Panel].byPosition && f.indexes[Panel].byPosition[p].id.position == p
    ensures forall s :: s in f.sensors ==> MPES in f.indexes && s in f.indexes[MPES].bySerial && f.indexes[MPES].bySerial[s].id.serial == s
    ensures forall a :: a in f.edges ==> Edge in f.indexes && a in f.indexes[Edge].byAddress && f.indexes[Edge].byAddress[a].id.address == a
  {
    hide DistinctIdentities, AllKeysTaken, IdentitiesMatch, Unsigned, Signed;
    forall u | u in f.panels + f.tzFixed + f.rxRyFixed
      ensures Panel in f.indexes && Signed(u) in f.indexes[Panel].byPosition
              && f.indexes[Panel].byPosition[Signed(u)].id.position == Signed(u)
    {
      PanelLookup(f.indexes[Panel], u);
    }
  }

  lemma PanelLookup(ix: Index, u: int)
    requires ValuesAreChildren(ix) && u in set p | p in ix.byPosition :: Unsigned(p)
    ensures Signed(u) in ix.byPosition && ix.byPosition[Signed(u)].id.position == Signed(u)
  {
    hide Unsigned, Signed;
    var p :| p in ix.byPosition && Unsigned(p) == u;
    SignedUnsigned(ix.byPosition[p].id.position);
  }

  lemma SignedUnsigned(p: Int32)
    ensures Signed(Unsigned(p)) == p
  {
  }

  /** Children that have the position, the serial number and the address of `id` between them. */
  ghost predicate KeysAmong(children: seq<Device>, id: Identity) {
    && (exists a :: a in children && a.id.position == id.position)
    && (exists b :: b in children && b.id.serial == id.serial)
    && (exists c :: c in children && c.id.address == id.address)
  }

  /** A device is dropped exactly when there are children with its position, with its serial number and
      with its address; one child need not have all three, so a device no child is identical to can be
      dropped. Otherwise it becomes the last child. */
  lemma DroppedIffKeysAmongChildren(indexes: Indexes, t: DeviceType, d: Device)
    requires AllConsistent(indexes) && Possible(t)
    ensures KeysAmong(IndexOf(indexes, t).children, d.id) ==> WithChild(indexes, t, d) == indexes
    ensures !KeysAmong(IndexOf(indexes, t).children, d.id) ==>
              IndexOf(WithChild(indexes, t, d), t).children == IndexOf(indexes, t).children + [d]
  {
    hide Consistent, KeysTaken, KeysAmong, PutDevice, EMPTY;
    EmptyConsistent();
    KeysTakenIff(IndexOf(indexes, t), d.id);
  }

  lemma KeysTakenIff(ix: Index, id: Identity)
    requires Consistent(ix)
    ensures KeysTaken(ix, id) <==> KeysAmong(ix.children, id)
  {
    hide *;
    ConsistentParts(ix);
    AmongAreTaken(ix, id);
    TakenAreAmong(ix, id);
  }

  lemma ConsistentParts(ix: Index)
    requires Consistent(ix)
    ensures AllKeysTaken(ix) && ValuesAreChildren(ix)
  {
    hide AllKeysTaken, ValuesAreChildren, DistinctIdentities, IdentitiesMatch;
  }

  lemma AmongAreTaken(ix: Index, id: Identity)
    requires AllKeysTaken(ix)
    ensures KeysAmong(ix.children, id) ==> KeysTaken(ix, id)
  {
    if KeysAmong(ix.children, id) {
      var a :| a in ix.children && a.id.position == id.position;
      var b :| b in ix.children && b.id.serial == id.serial;
      var c :| c in ix.children && c.id.address == id.address;
      assert KeysTaken(ix, a.id) && KeysTaken(ix, b.id) && KeysTaken(ix, c.id);
    }
  }

  lemma TakenAreAmong(ix: Index, id: Identity)
    requires ValuesAreChildren(ix)
    ensures KeysTaken(ix, id) ==> KeysAmong(ix.children, id)
  {
    if KeysTaken(ix, id) {
      var a, b, c := ix.byPosition[id.position], ix.bySerial[id.serial], ix.byAddress[id.address];
      assert a in ix.children && b in ix.children && c in ix.children;
    }
  }

  function Adding(devices: seq<Device>): (events: seq<Event>)
    ensures |events| == |devices| && forall i :: 0 <= i < |events| ==> Defined(events[i])
  {
    seq(|devices|, i requires 0 <= i < |devices| => AddChild(Panel, devices[i]))
  }

  /** The panels there are after adding one after the other. */
  function PanelsAfter(devices: seq<Device>): seq<Device> {
    IndexOf(After(Adding(devices)).indexes, Panel).children
  }

  /** One more panel is dropped exactly when its keys are among those of the panels there. */
  lemma AddingOneMore(devices: seq<Device>, d: Device)
    ensures PanelsAfter(devices + [d])
            == if KeysAmong(PanelsAfter(devices), d.id) then PanelsAfter(devices) else PanelsAfter(devices) + [d]
  {
    hide WithChild, KeysAmong, Sound, Selected;
    var events, more := Adding(devices), Adding(devices + [d]);
    assert more[..|devices|] == events && more[|devices|] == AddChild(Panel, d);
    AlwaysSound(events);
    SoundIsConsistent(After(events));
    AfterOneMore(After(events), Panel, d);
    hide AllConsistent, IndexOf;
    DroppedIffKeysAmongChildren(After(events).indexes, Panel, d);
  }

  lemma SoundIsConsistent(f: Family)
    requires Sound(f)
    ensures AllConsistent(f.indexes)
  {
    hide AllConsistent;
  }

  lemma AfterOneMore(f: Family, t: DeviceType, d: Device)
    ensures Next(f, AddChild(t, d)).indexes == WithChild(f.indexes, t, d)
  {
    hide WithChild;
  }

  lemma NoPanelsAtFirst()
    ensures PanelsAfter([]) == []
  {
  }

  /** Three panels at different positions are all added, and then a panel with the position of the first,
      the serial number of the second and the address of the third is dropped, whatever its name. */
  lemma MixedKeysAreDropped(a: Device, b: Device, c: Device, d: Device)
    requires a.id.position != b.id.position && a.id.position != c.id.position && b.id.position != c.id.position
    requires d.id.position == a.id.position && d.id.serial == b.id.serial && d.id.address == c.id.address
    ensures PanelsAfter([a, b, c]) == [a, b, c] && PanelsAfter([a, b, c, d]) == [a, b, c]
  {
    hide PanelsAfter;
    NoPanelsAtFirst();
    AddingOneMore([], a);
    AddingOneMore([a], b);
    AddingOneMore([a, b], c);
    AddingOneMore([a, b, c], d);
    assert [] + [a] == [a] && [a] + [b] == [a, b] && [a, b] + [c] == [a, b, c] && [a, b, c] + [d] == [a, b, c, d];
  }

  /** Such a panel need not be the same as any of the three, so that a panel the mirror does not have is
      lost. */
  lemma NewPanelCanBeLost() returns (panels: seq<Device>, lost: Device)
    ensures PanelsAfter(panels) == panels && PanelsAfter(panels + [lost]) == panels
    ensures forall i :: 0 <= i < |panels| ==> !Same(panels[i].id, lost.id)
  {
    var a, b, c := Device(Identity(11, "10.0.0.1", "A", 1111), 0), Device(Identity(12, "10.0.0.2", "B", 1112), 1),
                   Device(Identity(13, "10.0.0.3", "C", 1113), 2);
    panels, lost := [a, b, c], Device(Identity(12, "10.0.0.3", "D", 1111), 3);
    assert !Same(a.id, lost.id) && !Same(b.id, lost.id) && !Same(c.id, lost.id) by {
      assert "A"[0] != "D"[0] && "B"[0] != "D"[0] && "C"[0] != "D"[0];
    }
    hide PanelsAfter, Same;
    MixedKeysAreDropped(a, b, c, lost);
    assert panels + [lost] == [a, b, c, lost];
  }

  /* ---------- the mirror's methods ---------- */

  class MirrorChildren {
    var indexes: Indexes
    var panels: set<int>
    var tzFixed: set<int>
    var rxRyFixed: set<int>
    var sensors: set<int>
    var edges: set<string>

    constructor ()
      ensures View() == START
    {
      indexes, panels, tzFixed, rxRyFixed, sensors, edges := map[], {}, {}, {}, {}, {};
    }

    function View(): Family
      reads this
    {
      Family(indexes, panels, tzFixed, rxRyFixed, sensors, edges)
    }

    method AddChild(t: DeviceType, d: Device)
      modifies this
      ensures View() == Next(old(View()), Event.AddChild(t, d))
    {
      hide PutDevice, Unsigned;
      var ix := if t in indexes then indexes[t] else EMPTY;
      if !KeysTaken(ix, d.id) && Possible(t) {
        indexes := indexes[t := Index(ix.children + [d], PutDevice(ix.byIdentity, d), ix.byPosition[d.id.position := d],
                                      ix.bySerial[d.id.serial := d], ix.byAddress[d.id.address := d])];
      }
      if t == Panel {
        panels := panels + {Unsigned(d.id.position)};
      } else if t == Edge {
        edges := edges + {d.id.address};
      } else if t == MPES {
        sensors := sensors + {d.id.serial};
      }
    }

    /** Selects all children, type by type; it throws at the first type without any. */
    method SelectAll() returns (thrown: bool)
      modifies this
      ensures View() == Next(old(View()), Event.SelectAll)
      ensures thrown <==> Panel !in indexes || Edge !in indexes || MPES !in indexes
    {
      hide Positions, EdgeAddresses, Serials;
      panels, tzFixed, rxRyFixed := {}, {}, {};
      if Panel !in indexes { return true; }
      panels := CollectPositions(indexes[Panel].children);
      edges := {};
      if Edge !in indexes { return true; }
      edges := CollectAddresses(indexes[Edge].children);
      sensors := {};
      if MPES !in indexes { return true; }
      sensors := CollectSerials(indexes[MPES].children);
      thrown := false;
    }
  }

  method CollectPositions(children: seq<Device>) returns (s: set<int>)
    ensures s == Positions(children)
  {
    s := {};
    for i := 0 to |children|
      invariant s == Positions(children[..i])
    {
      assert children[..i + 1] == children[..i] + [children[i]];
      s := s + {Unsigned(children[i].id.position)};
    }
    assert children[..|children|] == children;
  }

  method CollectAddresses(children: seq<Device>) returns (s: set<string>)
    ensures s == EdgeAddresses(children)
  {
    s := {};
    for i := 0 to |children|
      invariant s == EdgeAddresses(children[..i])
    {
      assert children[..i + 1] == children[..i] + [children[i]];
      s := s + {children[i].id.address};
    }
    assert children[..|children|] == children;
  }

  method CollectSerials(children: seq<Device>) returns (s: set<int>)
    ensures s == Serials(children)
  {
    s := {};
    for i := 0 to |children|
      invariant s == Serials(children[..i])
    {
      assert children[..i + 1] == children[..i] + [children[i]];
      s := s + {children[i].id.serial as int};
    }
    assert children[..|children|] == children;
  }
}
