/** From a saved file of sensors to the calibration table: the tool reads the file and makes the
    readings in it the targets of the sensors. */
module TargetUpdate {
  import opened Basics
  import opened LinearAlgebra
  import opened SelectionText
  import opened DeviceIdentity
  import opened SaveFiles
  import opened TargetFile
  import Table = CalibrationTable

  /** The items of a dictionary, in some order. */
  ghost predicate IsItems(items: seq<(string, Vec)>, m: map<string, Vec>) {
    && (forall j, k :: 0 <= j < k < |items| ==> items[j].0 != items[k].0)
    && (forall k :: 0 <= k < |items| ==> items[k].0 in m && m[items[k].0] == items[k].1)
    && (forall key :: key in m ==> exists k :: 0 <= k < |items| && items[k].0 == key)
  }

  /** The serial number that a key stands for in a query. */
  function SerialOf(key: string): int {
    var i := Stoi(key);
    if i.Some? then i.value else -1
  }

  function UpdateOf(item: (string, Vec)): Table.Update { Table.Update(SerialOf(item.0), item.1) }

  function Updates(items: seq<(string, Vec)>): (list: seq<Table.Update>)
    ensures |list| == |items|
  {
    seq(|items|, k requires 0 <= k < |items| => UpdateOf(items[k]))
  }

  /** The update a saved record asks for. */
  function Asked(r: Record): Table.Update { Table.Update(r.id.serial, r.values) }

  lemma SerialOfDigits(n: Int32)
    requires n >= 0
    ensures SerialOf(Digits(n)) == n
  {
    StoiOfDecimal(n, "");
    assert Decimal(n) + "" == Digits(n);
  }

  ghost predicate FromRecord(records: seq<Record>, u: Table.Update) {
    exists k :: 0 <= k < |records| && u == Asked(records[k])
  }

  lemma ItemIsRecord(records: seq<Record>, items: seq<(string, Vec)>, i: nat)
    requires AllReadable(records) && DistinctSerials(records) && IsItems(items, AllOf(map[], records)) && i < |items|
    ensures FromRecord(records, UpdateOf(items[i])) && items[i].0 == Digits(UpdateOf(items[i]).serial)
  {
    var key := items[i].0;
    AllOfHas(map[], records, key);
    hide AllOf, Digits, Stoi, DistinctSerials, IsSensor;
    var k :| IsKeyOf(records, key, k);
    SerialOfDigits(records[k].id.serial);
    assert UpdateOf(items[i]) == Asked(records[k]);
  }

  lemma RecordIsItem(records: seq<Record>, items: seq<(string, Vec)>, k: nat) returns (i: nat)
    requires AllReadable(records) && DistinctSerials(records) && IsItems(items, AllOf(map[], records)) && k < |records|
    ensures i < |items| && Updates(items)[i] == Asked(records[k])
  {
    LookUpKey(records, k);
    hide AllOf, Digits, Stoi, DistinctSerials, IsSensor;
    assert IsReadable(records[k]);
    var key := Digits(records[k].id.serial);
    i :| 0 <= i < |items| && items[i].0 == key;
    SerialOfDigits(records[k].id.serial);
  }

  lemma ItemsDiffer(records: seq<Record>, items: seq<(string, Vec)>)
    requires AllReadable(records) && DistinctSerials(records) && IsItems(items, AllOf(map[], records))
    ensures Table.DistinctSerials(Updates(items))
    ensures forall i :: 0 <= i < |items| ==> FromRecord(records, Updates(items)[i])
  {
    forall i | 0 <= i < |items|
      ensures FromRecord(records, UpdateOf(items[i])) && items[i].0 == Digits(UpdateOf(items[i]).serial)
    {
      ItemIsRecord(records, items, i);
    }
    hide AllOf, Digits, SerialOf, FromRecord;
  }

  /** Whatever the order in which the tool goes through the sensors it read, afterwards each saved sensor has
      one active row per coordinate with its saved reading as the target, and the rows of all sensors
      that are not in the file are what they were. */
  lemma SavedReadingsBecomeTargets(mirror: Identity, info: seq<Line>, records: seq<Record>, azEl: string,
                                   items: seq<(string, Vec)>, rows: seq<Table.Row>, now: Table.Time)
    requires AllReadable(records) && DistinctSerials(records) && IsInfo(info) && !Contains("Mirror: " + Printed(mirror), "Az:")
    requires var read := Run(TargetFile.START, File("MPES: ", mirror, info, records, azEl)); read.Some? && IsItems(items, read.value.all)
    requires forall k :: 0 <= k < |records| ==> Table.Applicable(rows, Asked(records[k]), now)
    ensures var list := Updates(items);
            var after := Table.AfterList(rows, list, |list|, now);
            && after.ok
            && (forall k :: 0 <= k < |records| ==>
                 |records[k].values| == 2
                 && Table.SensorUpdated(rows, after.rows, records[k].id.serial, records[k].values[0], records[k].values[1], now))
            && (forall serial :: (forall k :: 0 <= k < |records| ==> records[k].id.serial != serial) ==>
                  Table.OfSensor(after.rows, serial) == Table.OfSensor(rows, serial))
  {
    ToolReads(mirror, info, records, azEl);
    ItemsDiffer(records, items);
    var list := Updates(items);
    AllApplicable(records, list, rows, now);
    Table.ListUpdated(rows, list, now);
    var after := Table.AfterList(rows, list, |list|, now).rows;
    hide *;
    forall k | 0 <= k < |records|
      ensures |records[k].values| == 2
      ensures Table.SensorUpdated(rows, after, records[k].id.serial, records[k].values[0], records[k].values[1], now)
    {
      ReadableHasTwo(records, k);
      var i := RecordIsItem(records, items, k);
    }
    forall serial | forall k :: 0 <= k < |records| ==> records[k].id.serial != serial
      ensures Table.OfSensor(after, serial) == Table.OfSensor(rows, serial)
    {
      NotListed(records, list, serial);
    }
  }

  lemma ReadableHasTwo(records: seq<Record>, k: nat)
    requires AllReadable(records) && k < |records|
    ensures |Asked(records[k]).targets| == |records[k].values| == 2
    ensures Asked(records[k]).serial == records[k].id.serial && Asked(records[k]).targets == records[k].values
  {
    assert IsReadable(records[k]);
  }

  lemma AllApplicable(records: seq<Record>, list: seq<Table.Update>, rows: seq<Table.Row>, now: Table.Time)
    requires forall i :: 0 <= i < |list| ==> FromRecord(records, list[i])
    requires forall k :: 0 <= k < |records| ==> Table.Applicable(rows, Asked(records[k]), now)
    ensures forall i :: 0 <= i < |list| ==> Table.Applicable(rows, list[i], now)
  {
    hide Table.Applicable;
  }

  lemma NotListed(records: seq<Record>, list: seq<Table.Update>, serial: int)
    requires forall i :: 0 <= i < |list| ==> FromRecord(records, list[i])
    requires forall k :: 0 <= k < |records| ==> records[k].id.serial != serial
    ensures !Table.Listed(list, |list|, serial)
  {
    forall i | 0 <= i < |list| ensures list[i].serial != serial {
      assert FromRecord(records, list[i]);
    }
  }
}
