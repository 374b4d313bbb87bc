/** What the events of a mirror do to its children and selections, told by the children themselves. */
module ChildLaws {
  import opened Basics
  import opened ChildIndex
  import opened DeviceIdentity
  import opened SelectionText
  import opened TextLaws

  /** A child of this type. */
  ghost predicate IsChild(f: Family, t: DeviceType, d: Device) {
    t in f.indexes && d in f.indexes[t].children
  }

  /** A panel is selected by its position, a negative one taken as an unsigned number. */
  ghost predicate HasPosition(f: Family, x: int) {
    exists d :: IsChild(f, Panel, d) && x == if d.id.position < 0 then d.id.position + 4294967296 else d.id.position
  }

  ghost predicate HasSerial(f: Family, x: int) {
    exists d :: IsChild(f, MPES, d) && x == d.id.serial
  }

  ghost predicate HasAddress(f: Family, a: string) {
    exists d :: IsChild(f, Edge, d) && a == d.id.address
  }

  /* ---------- additions ---------- */

  /** An addition selects the device by the key of its type, and changes no other selection. */
  lemma AdditionSelects(f: Family, t: DeviceType, d: Device)
    ensures var g := Next(f, AddChild(t, d));
            && g.tzFixed == f.tzFixed && g.rxRyFixed == f.rxRyFixed
            && g.panels == (if t == Panel then f.panels + {if d.id.position < 0 then d.id.position + 4294967296 else d.id.position}
                            else f.panels)
            && g.sensors == (if t == MPES then f.sensors + {d.id.serial as int} else f.sensors)
            && g.edges == (if t == Edge then f.edges + {d.id.address} else f.edges)
  {
    UnsignedIs(d.id.position);
    hide WithChild, Unsigned;
  }

  /** A device that is added is last in the list and found under its position, its serial number and its
      address; every other key leads where it led before, and no other type changes. */
  lemma AdditionIsFound(f: Family, t: DeviceType, d: Device)
    requires Possible(t) && !KeysTaken(IndexOf(f.indexes, t), d.id)
    ensures var before, after := IndexOf(f.indexes, t), IndexOf(Next(f, AddChild(t, d)).indexes, t);
            && after.children == before.children + [d]
            && (forall p :: p in after.byPosition <==> p in before.byPosition || p == d.id.position)
            && (forall p :: p in after.byPosition ==> after.byPosition[p] == if p == d.id.position then d else before.byPosition[p])
            && (forall s :: s in after.bySerial <==> s in before.bySerial || s == d.id.serial)
            && (forall s :: s in after.bySerial ==> after.bySerial[s] == if s == d.id.serial then d else before.bySerial[s])
            && (forall a :: a in after.byAddress <==> a in before.byAddress || a == d.id.address)
            && (forall a :: a in after.byAddress ==> after.byAddress[a] == if a == d.id.address then d else before.byAddress[a])
    ensures forall u :: u != t ==> IndexOf(Next(f, AddChild(t, d)).indexes, u) == IndexOf(f.indexes, u)
  {
    hide KeysTaken, PutDevice, Unsigned;
  }

  /* ---------- selecting all ---------- */

  lemma PositionsAre(children: seq<Device>, x: int)
    ensures x in Positions(children) <==>
            exists d :: d in children && x == if d.id.position < 0 then d.id.position + 4294967296 else d.id.position
  {
    forall i | 0 <= i < |children| ensures Unsigned(children[i].id.position)
        == if children[i].id.position < 0 then children[i].id.position + 4294967296 else children[i].id.position {
      UnsignedIs(children[i].id.position);
    }
    hide Unsigned;
  }

  /** Selecting all selects exactly the children, type by type, panels first, then edges, then sensors, and
      clears the two lists of constrained panels; at the first type without any child it stops, with the
      selection of that type cleared if another came before it. */
  lemma SelectAllSelects(f: Family, x: int, a: string)
    ensures var g := Next(f, SelectAll);
            && g.indexes == f.indexes && g.tzFixed == {} && g.rxRyFixed == {}
            && (x in g.panels <==> HasPosition(f, x))
            && (a in g.edges <==> if Panel in f.indexes then HasAddress(f, a) else a in f.edges)
            && (x in g.sensors <==> if Panel in f.indexes && Edge in f.indexes then HasSerial(f, x) else x in f.sensors)
  {
    if Panel in f.indexes { PositionsAre(f.indexes[Panel].children, x); }
    hide Unsigned, Positions;
  }

  /* ---------- selecting by a text ---------- */

  /** The keys of a consistent family are those of its children. */
  lemma KeysAreOfChildren(f: Family, x: int, a: string)
    requires AllConsistent(f.indexes)
    ensures x in KeysOrNone(PanelKeys(f.indexes)) <==> HasPosition(f, x)
    ensures x in KeysOrNone(SensorKeys(f.indexes)) <==> HasSerial(f, x)
    ensures a in KeysOrNone(EdgeKeys(f.indexes)) <==> HasAddress(f, a)
  {
    hide Unsigned, Consistent, KeysTaken;
    if Panel in f.indexes { PanelKeysAre(f.indexes[Panel], x); }
    if MPES in f.indexes { SensorKeysAre(f.indexes[MPES], x); }
    if Edge in f.indexes { EdgeKeysAre(f.indexes[Edge], a); }
  }

  lemma ValueIsChild(ix: Index, p: int, s: int, a: string)
    requires ValuesAreChildren(ix)
    ensures p in ix.byPosition ==> ix.byPosition[p] in ix.children && ix.byPosition[p].id.position == p
    ensures s in ix.bySerial ==> ix.bySerial[s] in ix.children && ix.bySerial[s].id.serial == s
    ensures a in ix.byAddress ==> ix.byAddress[a] in ix.children && ix.byAddress[a].id.address == a
  {
  }

  lemma ChildHasKeys(ix: Index, d: Device)
    requires AllKeysTaken(ix) && d in ix.children
    ensures d.id.position in ix.byPosition && d.id.serial in ix.bySerial && d.id.address in ix.byAddress
  {
    assert KeysTaken(ix, d.id);
  }

  lemma PanelKeysAre(ix: Index, x: int)
    requires Consistent(ix)
    ensures x in (set p | p in ix.byPosition :: Unsigned(p)) <==>
            exists d :: d in ix.children && x == if d.id.position < 0 then d.id.position + 4294967296 else d.id.position
  {
    hide *;
    ConsistentParts(ix);
    if p :| p in ix.byPosition && Unsigned(p) == x {
      ValueIsChild(ix, p, 0, "");
      UnsignedIs(ix.byPosition[p].id.position);
    }
    if d :| d in ix.children && x == if d.id.position < 0 then d.id.position + 4294967296 else d.id.position {
      ChildHasKeys(ix, d);
      UnsignedIs(d.id.position);
    }
  }

  lemma SensorKeysAre(ix: Index, x: int)
    requires Consistent(ix)
    ensures x in ix.bySerial <==> exists d :: d in ix.children && x == d.id.serial
  {
    hide *;
    ConsistentParts(ix);
    ValueIsChild(ix, 0, x, "");
    if d :| d in ix.children && x == d.id.serial { ChildHasKeys(ix, d); }
  }

  lemma EdgeKeysAre(ix: Index, a: string)
    requires Consistent(ix)
    ensures a in ix.byAddress <==> exists d :: d in ix.children && a == d.id.address
  {
    hide *;
    ConsistentParts(ix);
    ValueIsChild(ix, 0, 0, a);
    if d :| d in ix.children && a == d.id.address { ChildHasKeys(ix, d); }
  }

  lemma NothingKept(items: seq<string>, unsigned: bool)
    ensures NumbersKept(items, None, unsigned) == {} && AddressesKept(items, None) == {}
  {
    NothingNumbered(items, unsigned);
    NothingAddressed(items);
  }

  lemma {:induction false} NothingNumbered(items: seq<string>, unsigned: bool)
    ensures NumbersKept(items, None, unsigned) == {}
  {
    hide Stoi;
    NumbersThrowIff(items, None, unsigned);
    if items == [] {
      NumbersNone(None, unsigned);
    } else {
      NothingNumbered(items[..|items| - 1], unsigned);
    }
  }

  lemma {:induction false} NothingAddressed(items: seq<string>)
    ensures AddressesKept(items, None) == {}
  {
    AddressesThrowIff(items, None);
    if items == [] {
      AddressesNone(None);
    } else {
      NothingAddressed(items[..|items| - 1]);
    }
  }

  lemma ReachedIsConsistent(events: seq<Event>)
    requires forall i :: 0 <= i < |events| ==> Defined(events[i])
    ensures AllConsistent(After(events).indexes)
  {
    hide *;
    AlwaysSound(events);
    SoundIsConsistent(After(events));
  }

  /** After any events, a text selects exactly the panels that are children and among the numbers it holds
      before the first item that is no number; the same for the two lists of constrained panels. */
  lemma TextSelectsPanels(events: seq<Event>, text: string, x: int)
    requires text != "" && forall i :: 0 <= i < |events| ==> Defined(events[i])
    ensures var f := After(events);
            var chosen := HasPosition(f, x) && exists k: nat :: ReadsAt(ItemsOf(text), k, true, x);
            && (x in Next(f, SetPanels(text)).panels <==> chosen)
            && (x in Next(f, SetTzFixed(text)).tzFixed <==> chosen)
            && (x in Next(f, SetRxRyFixed(text)).rxRyFixed <==> chosen)
  {
    hide *;
    ReachedIsConsistent(events);
    KeysAreOfChildren(After(events), x, "");
    SelectionsSet(After(events), text);
    KeptOfKeys(ItemsOf(text), PanelKeys(After(events).indexes), true, x);
  }

  /** Sensors are selected the same way by their serial numbers. */
  lemma TextSelectsSensors(events: seq<Event>, text: string, x: int)
    requires text != "" && forall i :: 0 <= i < |events| ==> Defined(events[i])
    ensures x in Next(After(events), SetSensors(text)).sensors <==>
            HasSerial(After(events), x) && exists k: nat :: ReadsAt(ItemsOf(text), k, false, x)
  {
    hide *;
    ReachedIsConsistent(events);
    KeysAreOfChildren(After(events), x, "");
    SelectionsSet(After(events), text);
    KeptOfKeys(ItemsOf(text), SensorKeys(After(events).indexes), false, x);
  }

  /** Of edges those are selected whose address is an item. */
  lemma TextSelectsEdges(events: seq<Event>, text: string, a: string)
    requires text != "" && forall i :: 0 <= i < |events| ==> Defined(events[i])
    ensures a in Next(After(events), SetEdges(text)).edges <==> HasAddress(After(events), a) && a in ItemsOf(text)
  {
    hide *;
    ReachedIsConsistent(events);
    KeysAreOfChildren(After(events), 0, a);
    SelectionsSet(After(events), text);
    AddressesOfKeys(ItemsOf(text), EdgeKeys(After(events).indexes), a);
  }

  lemma SelectionsSet(f: Family, text: string)
    requires text != ""
    ensures Defined(SetPanels(text)) && Defined(SetTzFixed(text)) && Defined(SetRxRyFixed(text))
    ensures Defined(SetSensors(text)) && Defined(SetEdges(text))
    ensures Next(f, SetPanels(text)).panels == NumbersKept(ItemsOf(text), PanelKeys(f.indexes), true)
    ensures Next(f, SetTzFixed(text)).tzFixed == NumbersKept(ItemsOf(text), PanelKeys(f.indexes), true)
    ensures Next(f, SetRxRyFixed(text)).rxRyFixed == NumbersKept(ItemsOf(text), PanelKeys(f.indexes), true)
    ensures Next(f, SetSensors(text)).sensors == NumbersKept(ItemsOf(text), SensorKeys(f.indexes), false)
    ensures Next(f, SetEdges(text)).edges == AddressesKept(ItemsOf(text), EdgeKeys(f.indexes))
  {
    hide NumbersKept, AddressesKept, ItemsOf, PanelKeys, SensorKeys, EdgeKeys;
  }

  lemma KeptOfKeys(items: seq<string>, keys: Option<set<int>>, unsigned: bool, x: int)
    ensures x in NumbersKept(items, keys, unsigned) <==> x in KeysOrNone(keys) && exists k: nat :: ReadsAt(items, k, unsigned, x)
  {
    hide NumbersKept, ReadsAt;
    match keys {
      case None => NothingKept(items, unsigned);
      case Some(children) => SelectedNumbers(items, children, unsigned, x);
    }
  }

  lemma AddressesOfKeys(items: seq<string>, keys: Option<set<string>>, a: string)
    ensures a in AddressesKept(items, keys) <==> a in KeysOrNone(keys) && a in items
  {
    hide AddressesKept;
    match keys {
      case None => NothingKept(items, true);
      case Some(children) => SelectedAddresses(items, children, a);
    }
  }
}
