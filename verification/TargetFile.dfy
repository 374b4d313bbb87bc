/** The calibration tool's own reader of the file of sensor positions, next to the mirror's loader. */
module TargetFile {
  import opened Basics
  import opened DeviceIdentity
  import opened LinearAlgebra
  import opened SaveFiles
  import opened SelectionText

  /** Place of the first occurrence of a pattern; the length of the string if there is none. */
  function Find(s: string, pattern: string): (k: nat)
    ensures k <= |s|
  {
    if s == "" || OccursAt(s, pattern, 0) then 0 else 1 + Find(s[1..], pattern)
  }

  /** The piece between the first and the second underscore. */
  function AfterUnderscore(s: string): string {
    var k := FindChar(s, '_');
    if k == |s| then "" else
    var rest := s[k + 1..];
    rest[..FindChar(rest, '_')]
  }

  /** The key of a sensor: ten characters from the prefix on, split at underscores. */
  function KeyIn(s: string): string {
    var k := Find(s, "MPES_");
    AfterUnderscore(if k + 10 <= |s| then s[k..k + 10] else s[k..])
  }

  /** State of the reader: inside the information about the mirror, recording the values of a sensor,
      which sensor, its values so far, and all sensors. */
  datatype State = State(inMirror: bool, recording: bool, key: string, values: Vec, all: map<string, Vec>)

  const START := State(false, false, "0", [], map[])

  /** One line; a line that should be a number and is not raises an error. */
  function Step(st: State, line: Line): Option<State> {
    match line
    case Text(s) =>
      if Contains(s, "Az:") then Some(st)
      else if Contains(s, "Mirror: ") then Some(st.(inMirror := true))
      else if Contains(s, "****") then Some(st.(inMirror := false))
      else if st.inMirror then Some(st)
      else if Contains(s, "MPES_") then Some(st.(values := [], key := KeyIn(s), recording := true))
      else if st.recording then None
      else Some(st)
    case Num(v) =>
      if st.inMirror || !st.recording then Some(st)
      else
        var values := st.values + [v];
        Some(st.(values := values, all := st.all[st.key := values]))
  }

  function Run(st: State, lines: seq<Line>): Option<State>
    decreases |lines|
  {
    if lines == [] then Some(st) else
    var next := Step(st, lines[0]);
    if next.None? then None else Run(next.value, lines[1..])
  }

  /** Reads the file line by line. */
  method ReadMpesFile(lines: seq<Line>) returns (all: Option<map<string, Vec>>)
    ensures all == if Run(START, lines).None? then None else Some(Run(START, lines).value.all)
  {
    hide Step;
    var st := START;
    for i := 0 to |lines|
      invariant Run(st, lines[i..]) == Run(START, lines)
    {
      assert lines[i..][0] == lines[i] && lines[i..][1..] == lines[i + 1..];
      var next := Step(st, lines[i]);
      if next.None? { return None; }
      st := next.value;
    }
    assert lines[|lines|..] == [];
    all := Some(st.all);
  }

  /* ---------- one block ---------- */

  lemma {:induction false} RunConcat(st: State, a: seq<Line>, b: seq<Line>)
    ensures Run(st, a + b) == if Run(st, a).None? then None else Run(Run(st, a).value, b)
    decreases |a|
  {
    hide Step;
    if a == [] {
      assert a + b == b;
    } else {
      assert (a + b)[1..] == a[1..] + b;
      var next := Step(st, a[0]);
      if next.Some? { RunConcat(next.value, a[1..], b); }
    }
  }

  lemma {:induction false} RunNumbers(st: State, values: Vec)
    requires !st.inMirror && st.recording
    ensures Run(st, Numbered(values))
            == Some(if values == [] then st else st.(values := st.values + values, all := st.all[st.key := st.values + values]))
    decreases |values|
  {
    if values == [] {
      assert Numbered(values) == [];
    } else {
      assert Numbered(values)[1..] == Numbered(values[1..]);
      var next := Step(st, Num(values[0])).value;
      RunNumbers(next, values[1..]);
      assert st.values + [values[0]] + values[1..] == st.values + values;
      if values[1..] == [] {
        assert values == [values[0]];
      } else {
        var v := st.values + values;
        assert next.all[st.key := v] == st.all[st.key := v];
      }
    }
  }

  /** A pattern does not occur without one of its characters. */
  lemma MissingChar(s: string, pattern: string, i: nat)
    requires i < |pattern| && forall k :: 0 <= k < |s| ==> s[k] != pattern[i]
    ensures !Contains(s, pattern)
  {
    forall k: nat | k + |pattern| <= |s| ensures !OccursAt(s, pattern, k) {
      assert s[k..k + |pattern|][i] == s[k + i];
    }
  }

  lemma FirstIsAt(s: string, pattern: string, k: nat)
    requires pattern != "" && k <= |s| && OccursAt(s, pattern, k)
    requires forall j: nat :: j < k ==> !OccursAt(s, pattern, j)
    ensures Find(s, pattern) == k && Contains(s, pattern)
    decreases k
  {
    if k > 0 {
      var rest := s[1..];
      assert rest[k - 1..k - 1 + |pattern|] == s[k..k + |pattern|];
      forall j: nat | j < k - 1 ensures !OccursAt(rest, pattern, j) {
        assert !OccursAt(s, pattern, j + 1);
        if j + |pattern| <= |rest| {
          assert rest[j..j + |pattern|] == s[j + 1..j + 1 + |pattern|];
        }
      }
      FirstIsAt(rest, pattern, k - 1);
      assert !OccursAt(s, pattern, 0);
    }
  }

  /* ---------- the file of a mirror ---------- */

  predicate AllDigits(s: string) { forall i :: 0 <= i < |s| ==> IsDigit(s[i]) }

  /** A sensor as it is configured: it sits at a numbered port and is named after its serial number. */
  predicate IsSensor(id: Identity) {
    id.serial >= 0 && AllDigits(id.address) && id.name == "MPES_" + Digits(id.serial)
  }

  function BeforeName(id: Identity): string { "MPES: " + ("(" + Decimal(id.serial) + ", " + id.address + ", ") }

  function AfterName(id: Identity): string { ", " + (Decimal(id.position) + ")") }

  lemma SensorLine(id: Identity)
    requires IsSensor(id)
    ensures "MPES: " + Printed(id) == BeforeName(id) + ("MPES_" + (Digits(id.serial) + AfterName(id)))
  {
    hide Decimal, Digits;
    var s, p := Decimal(id.serial), Decimal(id.position);
    assert "(" + s + ", " + id.address + ", " + id.name + ", " + p + ")" == ("(" + s + ", " + id.address + ", ") + (id.name + (", " + (p + ")")));
    assert id.name + (", " + (p + ")")) == "MPES_" + (Digits(id.serial) + (", " + (p + ")")));
  }

  /** Characters of numbers, lists and labels other than the underscore. */
  predicate Plain(s: string) {
    forall i :: 0 <= i < |s| ==> IsDigit(s[i]) || s[i] in "MPES: (),-"
  }

  lemma PlainConcat(a: string, b: string)
    requires Plain(a) && Plain(b)
    ensures Plain(a + b)
  {
  }

  lemma DecimalPlain(i: int)
    ensures Plain(Decimal(i)) && (i >= 0 ==> AllDigits(Decimal(i)))
  {
    var d := Decimal(i);
    forall k | 0 <= k < |d| ensures IsDigit(d[k]) || d[k] == '-' {
      if i < 0 && k > 0 { assert d[k] == Digits(-i)[k - 1]; }
    }
  }

  lemma SurroundingsPlain(id: Identity)
    requires IsSensor(id)
    ensures Plain(BeforeName(id)) && Plain(Digits(id.serial)) && Plain(AfterName(id))
  {
    DecimalPlain(id.serial);
    DecimalPlain(id.position);
    assert Plain(id.address) && Plain("(") && Plain(", ") && Plain(")") && Plain("MPES: ");
    hide Plain, Decimal, Digits;
    PlainConcat("(", Decimal(id.serial));
    PlainConcat("(" + Decimal(id.serial), ", ");
    PlainConcat("(" + Decimal(id.serial) + ", ", id.address);
    PlainConcat("(" + Decimal(id.serial) + ", " + id.address, ", ");
    PlainConcat("MPES: ", "(" + Decimal(id.serial) + ", " + id.address + ", ");
    PlainConcat(Decimal(id.position), ")");
    PlainConcat(", ", Decimal(id.position) + ")");
  }

  /** A pattern with a character that the string has in one place only is found there. */
  lemma FoundByChar(s: string, pattern: string, k: nat, i: nat)
    requires i < |pattern| && k <= |s| && OccursAt(s, pattern, k)
    requires forall j :: 0 <= j < |s| && j != k + i ==> s[j] != pattern[i]
    ensures Find(s, pattern) == k && Contains(s, pattern)
  {
    forall j: nat | j < k ensures !OccursAt(s, pattern, j) {
      if j + |pattern| <= |s| {
        assert s[j..j + |pattern|][i] == s[j + i];
      }
    }
    FirstIsAt(s, pattern, k);
  }

  lemma OnlyUnderscore(before: string, after: string, i: nat)
    requires Plain(before) && Plain(after) && i < |before| + 5 + |after| && i != |before| + 4
    ensures (before + ("MPES_" + after))[i] != '_'
  {
    var s := before + ("MPES_" + after);
    if i < |before| {
      assert s[i] == before[i];
    } else if i >= |before| + 5 {
      assert s[i] == after[i - |before| - 5];
    }
  }

  /** In a line made of plain stretches and one prefix, the prefix is found where it stands. */
  lemma FindPrefix(before: string, after: string)
    requires Plain(before) && Plain(after)
    ensures Find(before + ("MPES_" + after), "MPES_") == |before| && Contains(before + ("MPES_" + after), "MPES_")
  {
    hide *;
    var s := before + ("MPES_" + after);
    var k := |before|;
    OccursBetween(before, "MPES_", after);
    forall i | 0 <= i < |s| && i != k + 4 ensures s[i] != '_' {
      OnlyUnderscore(before, after, i);
    }
    assert "MPES_"[4] == '_';
    FoundByChar(s, "MPES_", k, 4);
  }

  lemma OccursBetween(before: string, pattern: string, after: string)
    ensures OccursAt(before + (pattern + after), pattern, |before|)
  {
  }

  lemma NoOtherPatterns(before: string, after: string)
    requires Plain(before) && Plain(after)
    ensures var s := before + ("MPES_" + after);
            !Contains(s, "Az:") && !Contains(s, "Mirror: ") && !Contains(s, "****")
  {
    var s := before + ("MPES_" + after);
    forall i | 0 <= i < |s| ensures s[i] != 'z' && s[i] != 'o' && s[i] != '*' {
      if i < |before| { assert s[i] == before[i]; }
      else if i >= |before| + 5 { assert s[i] == after[i - |before| - 5]; }
      else { assert s[i] == "MPES_"[i - |before|]; }
    }
    assert "Az:"[1] == 'z' && "Mirror: "[4] == 'o' && "****"[0] == '*';
    MissingChar(s, "Az:", 1);
    MissingChar(s, "Mirror: ", 4);
    MissingChar(s, "****", 0);
  }

  /** The key the reader takes from the line of a sensor: the first five characters behind the prefix. */
  lemma KeyOfLine(before: string, after: string)
    requires Plain(before) && Plain(after) && |after| >= 5
    ensures KeyIn(before + ("MPES_" + after)) == after[..5]
  {
    FindPrefix(before, after);
    hide Find, Plain;
    var s := before + ("MPES_" + after);
    var piece := s[|before|..|before| + 10];
    assert piece == "MPES" + ['_'] + after[..5];
    CharAfter("MPES", '_', after[..5]);
    assert piece[5..] == after[..5];
    NoUnderscore(after[..5], after);
  }

  lemma NoUnderscore(a: string, after: string)
    requires Plain(after) && a <= after
    ensures FindChar(a, '_') == |a| && a[..|a|] == a
  {
    forall i | 0 <= i < |a| ensures a[i] != '_' {
      assert a[i] == after[i];
    }
  }

  /** The key is the serial number exactly when it has five digits; of a longer one the key is the first
      five digits only, and of a shorter one it takes in the separator. */
  lemma KeyOfSensor(id: Identity)
    requires IsSensor(id)
    ensures KeyIn("MPES: " + Printed(id)) == (Digits(id.serial) + AfterName(id))[..5]
    ensures KeyIn("MPES: " + Printed(id)) == Digits(id.serial) <==> |Digits(id.serial)| == 5
  {
    SensorLine(id);
    SurroundingsPlain(id);
    PlainConcat(Digits(id.serial), AfterName(id));
    AfterNameLength(id);
    hide Printed, Plain, KeyIn, Digits, BeforeName, AfterName, IsSensor;
    KeyOfLine(BeforeName(id), Digits(id.serial) + AfterName(id));
  }

  lemma AfterNameLength(id: Identity)
    ensures |AfterName(id)| >= 4
  {
    hide Decimal;
    DecimalIsPlain(id.position);
  }

  lemma {:induction false} DigitsLength(n: nat, k: nat, power: nat)
    requires k > 0 && power == Power10(k - 1)
    ensures |Digits(n)| == k <==> power <= n < 10 * power || (k == 1 && n == 0)
    decreases k
  {
    if k > 1 {
      if n >= 10 { DigitsLength(n / 10, k - 1, Power10(k - 2)); }
    }
  }

  function Power10(k: nat): nat { if k == 0 then 1 else 10 * Power10(k - 1) }

  lemma FiveDigits(n: nat)
    ensures |Digits(n)| == 5 <==> 10000 <= n <= 99999
  {
    assert Power10(0) == 1 && Power10(1) == 10 && Power10(2) == 100;
    assert Power10(3) == 1000 && Power10(4) == 10000;
    DigitsLength(n, 5, 10000);
  }

  /* ---------- reading a saved file ---------- */

  /** A sensor with a serial number of five digits. */
  predicate IsReadable(r: Record) { IsSensor(r.id) && 10000 <= r.id.serial <= 99999 && |r.values| == 2 }

  predicate AllReadable(records: seq<Record>) { forall k :: 0 <= k < |records| ==> IsReadable(records[k]) }

  lemma StepSensorLine(st: State, id: Identity)
    requires IsSensor(id) && 10000 <= id.serial <= 99999 && !st.inMirror
    ensures Step(st, Text("MPES: " + Printed(id))) == Some(st.(values := [], key := Digits(id.serial), recording := true))
  {
    FiveDigits(id.serial);
    KeyOfSensor(id);
    SensorLine(id);
    SurroundingsPlain(id);
    PlainConcat(Digits(id.serial), AfterName(id));
    hide Printed, Plain, KeyIn, Digits, BeforeName, AfterName, IsSensor, Contains;
    FindPrefix(BeforeName(id), Digits(id.serial) + AfterName(id));
    NoOtherPatterns(BeforeName(id), Digits(id.serial) + AfterName(id));
  }

  lemma StepCut(st: State)
    ensures Step(st, CUT) == Some(st.(inMirror := false))
  {
    CutPatterns(DELIMITER);
  }

  lemma CutPatterns(s: string)
    requires s == DELIMITER
    ensures !Contains(s, "Az:") && !Contains(s, "Mirror: ") && Contains(s, "****")
  {
    assert forall i :: 0 <= i < |s| ==> s[i] == '*';
    assert "Az:"[1] == 'z' && "Mirror: "[4] == 'o';
    MissingChar(s, "Az:", 1);
    MissingChar(s, "Mirror: ", 4);
    assert s[0..4] == "****";
    assert OccursAt(s, "****", 0);
  }

  lemma RunOne(st: State, line: Line)
    ensures Run(st, [line]) == Step(st, line)
  {
    hide Step;
    assert [line][1..] == [];
  }

  lemma RunBlock(st: State, r: Record)
    requires !st.inMirror && IsReadable(r)
    ensures Run(st, Block("MPES: ", r)) == Some(State(false, true, Digits(r.id.serial), r.values, st.all[Digits(r.id.serial) := r.values]))
  {
    var first := Text("MPES: " + Printed(r.id));
    StepSensorLine(st, r.id);
    var st1 := st.(values := [], key := Digits(r.id.serial), recording := true);
    RunNumbers(st1, r.values);
    assert [] + r.values == r.values;
    hide *;
    var st2 := st1.(values := r.values, all := st1.all[st1.key := r.values]);
    StepCut(st2);
    RunOne(st, first);
    RunOne(st2, CUT);
    SensorBlock(r);
    RunConcat(st, [first] + Numbered(r.values), [CUT]);
    RunConcat(st, [first], Numbered(r.values));
  }

  lemma SensorBlock(r: Record)
    ensures Block("MPES: ", r) == [Text("MPES: " + Printed(r.id))] + Numbered(r.values) + [CUT]
  {
    hide Printed;
  }

  function AllOf(all: map<string, Vec>, records: seq<Record>): map<string, Vec>
    requires AllReadable(records)
    decreases |records|
  {
    if records == [] then all else AllOf(all[Digits(records[0].id.serial) := records[0].values], records[1..])
  }

  lemma {:induction false} RunBlocks(st: State, records: seq<Record>)
    requires !st.inMirror && AllReadable(records)
    ensures var end := Run(st, Blocks("MPES: ", records));
            end.Some? && !end.value.inMirror && end.value.all == AllOf(st.all, records)
    decreases |records|
  {
    hide Block, Digits, IsSensor, Step;
    if records != [] {
      var r := records[0];
      RunBlock(st, r);
      var next := State(false, true, Digits(r.id.serial), r.values, st.all[Digits(r.id.serial) := r.values]);
      RunConcat(st, Block("MPES: ", r), Blocks("MPES: ", records[1..]));
      RunBlocks(next, records[1..]);
    }
  }

  /** Lines of information that do not look like a delimiter. */
  predicate IsInfo(info: seq<Line>) {
    forall i :: 0 <= i < |info| ==> info[i].Num? || !Contains(info[i].s, "****")
  }

  lemma {:induction false} RunInfo(st: State, info: seq<Line>)
    requires st.inMirror && IsInfo(info)
    ensures Run(st, info) == Some(st)
    decreases |info|
  {
    hide Contains;
    if info != [] {
      assert st.(inMirror := true) == st;
      assert Step(st, info[0]) == Some(st);
      RunInfo(st, info[1..]);
    }
  }

  lemma StepMirrorLine(st: State, mirror: Identity)
    requires !Contains("Mirror: " + Printed(mirror), "Az:")
    ensures Step(st, Text("Mirror: " + Printed(mirror))) == Some(st.(inMirror := true))
  {
    hide Printed;
    var s := "Mirror: " + Printed(mirror);
    assert s[0..8] == "Mirror: ";
    assert OccursAt(s, "Mirror: ", 0);
  }

  /** What the tool reads from a saved file of sensors. */
  lemma ToolReads(mirror: Identity, info: seq<Line>, records: seq<Record>, azEl: string)
    requires AllReadable(records) && IsInfo(info) && !Contains("Mirror: " + Printed(mirror), "Az:")
    ensures var end := Run(START, File("MPES: ", mirror, info, records, azEl));
            end.Some? && end.value.all == AllOf(map[], records)
  {
    var first, last := Text("Mirror: " + Printed(mirror)), Text("Az: " + azEl);
    var body := Blocks("MPES: ", records);
    var inside := START.(inMirror := true);
    StepMirrorLine(START, mirror);
    RunInfo(inside, info);
    StepCut(inside);
    RunBlocks(START, records);
    var end := Run(START, body).value;
    AzLine(azEl);
    StepAzLine(end, last);
    hide *;
    FileIs("MPES: ", mirror, info, records, azEl);
    RunOne(START, first);
    RunOne(inside, CUT);
    RunOne(end, last);
    RunConcat(START, [first], info + ([CUT] + (body + [last])));
    RunConcat(inside, info, [CUT] + (body + [last]));
    RunConcat(inside, [CUT], body + [last]);
    RunConcat(START, body, [last]);
  }

  lemma StepAzLine(st: State, line: Line)
    requires IsAzLine(line)
    ensures Step(st, line) == Some(st)
  {
    hide Contains;
  }

  /* ---------- both readers ---------- */

  predicate DistinctSerials(records: seq<Record>) {
    forall j, k :: 0 <= j < k < |records| ==> records[j].id.serial != records[k].id.serial
  }

  lemma DigitsDiffer(a: nat, b: nat)
    requires a != b
    ensures Digits(a) != Digits(b) && "MPES_" + Digits(a) != "MPES_" + Digits(b)
  {
    ValueOfDigits(a);
    ValueOfDigits(b);
    hide Digits;
    assert ("MPES_" + Digits(a))[5..] == Digits(a) && ("MPES_" + Digits(b))[5..] == Digits(b);
  }

  /** The keys of some sensors. */
  ghost predicate IsKeyOf(records: seq<Record>, key: string, k: int)
    requires AllReadable(records)
  {
    0 <= k < |records| && key == Digits(records[k].id.serial)
  }

  lemma {:induction false} AllOfHas(all: map<string, Vec>, records: seq<Record>, key: string)
    requires AllReadable(records) && DistinctSerials(records)
    ensures var m := AllOf(all, records);
            && (forall k :: IsKeyOf(records, key, k) ==> key in m && m[key] == records[k].values)
            && ((forall k :: !IsKeyOf(records, key, k)) ==> (key in m <==> key in all) && (key in m ==> m[key] == all[key]))
    decreases |records|
  {
    hide Digits, IsSensor;
    if records != [] {
      var r, rest := records[0], records[1..];
      var d := Digits(r.id.serial);
      AllOfHas(all[d := r.values], rest, key);
      KeysShift(records, key);
    }
  }

  /** The keys behind the first record, which none of them repeats. */
  lemma KeysShift(records: seq<Record>, key: string)
    requires records != [] && AllReadable(records) && DistinctSerials(records)
    ensures forall k :: k > 0 ==> (IsKeyOf(records, key, k) <==> IsKeyOf(records[1..], key, k - 1))
    ensures IsKeyOf(records, key, 0) ==> forall k :: !IsKeyOf(records[1..], key, k)
    ensures (forall k :: !IsKeyOf(records, key, k)) ==> forall k :: !IsKeyOf(records[1..], key, k)
  {
    hide Digits, IsSensor;
    var rest := records[1..];
    forall k ensures IsKeyOf(rest, key, k) <==> k >= 0 && IsKeyOf(records, key, k + 1) {
      if 0 <= k < |rest| { assert rest[k] == records[k + 1]; }
    }
    if IsKeyOf(records, key, 0) {
      forall k ensures !IsKeyOf(rest, key, k) {
        if 0 <= k < |rest| {
          assert IsReadable(records[0]) && IsReadable(records[k + 1]);
          DigitsDiffer(rest[k].id.serial, records[0].id.serial);
        }
      }
    }
  }

  lemma SensorsStorable(records: seq<Record>)
    requires AllReadable(records) && DistinctSerials(records)
    ensures AllStorable("MPES: ", records, 2) && DistinctNames(records)
  {
    forall k | 0 <= k < |records| ensures Storable("MPES: ", records[k].id) && |records[k].values| == 2 {
      SensorStorable(records[k].id);
    }
    hide Digits;
    forall j, k | 0 <= j < k < |records| ensures records[j].id.name != records[k].id.name {
      assert IsReadable(records[j]) && IsReadable(records[k]);
      DigitsDiffer(records[j].id.serial, records[k].id.serial);
    }
  }

  lemma SensorStorable(id: Identity)
    requires IsSensor(id)
    ensures Storable("MPES: ", id)
  {
    SensorLine(id);
    SurroundingsPlain(id);
    PlainConcat(Digits(id.serial), AfterName(id));
    NoOtherPatterns(BeforeName(id), Digits(id.serial) + AfterName(id));
    hide Printed, Plain, BeforeName, AfterName, Contains, Digits;
    var name := "MPES_" + Digits(id.serial);
    forall i | 0 <= i < |name| ensures name[i] != ',' && name[i] != '(' && name[i] != ')' && name[i] != ' ' {
      if i >= 5 { assert name[i] == Digits(id.serial)[i - 5]; }
    }
    NothingToRemove(name);
  }

  lemma InfoHasNoCut(info: seq<Line>)
    requires IsInfo(info)
    ensures CUT !in info
  {
    CutPatterns(DELIMITER);
  }

  /** The mirror and the calibration tool read the same from a saved file of sensors: for each sensor, under
      its identity and under the digits of its serial number, the two values saved; and nothing else. */
  lemma BothReadTheSame(mirror: Identity, info: seq<Line>, records: seq<Record>, azEl: string, scratch: Vec, other: Identity)
    requires NoComma(mirror.address) && NoComma(mirror.name) && NoParentheses(mirror.address) && NoParentheses(mirror.name)
    requires ComesBack(mirror) && !Contains("Mirror: " + Printed(mirror), "Az:")
    requires AllReadable(records) && DistinctSerials(records) && IsInfo(info) && |scratch| == 2 && IsSensor(other)
    ensures var lines := File("MPES: ", mirror, info, records, azEl);
            var loaded, read := Loaded(lines, mirror, scratch), Run(START, lines);
            && loaded.Some? && read.Some?
            && (forall k :: 0 <= k < |records| ==>
                  && Get(loaded.value, records[k].id) == Some(records[k].values)
                  && Digits(records[k].id.serial) in read.value.all
                  && read.value.all[Digits(records[k].id.serial)] == records[k].values)
            && (Get(loaded.value, other).Some? <==> Digits(other.serial) in read.value.all)
  {
    ToolReads(mirror, info, records, azEl);
    SensorsStorable(records);
    InfoHasNoCut(info);
    FileLoads("MPES: ", mirror, info, records, azEl, mirror, scratch);
    RestoredIsSame(mirror);
    OtherSensor(records, other);
    hide *;
    forall k | 0 <= k < |records|
      ensures Get(PutAll([], records), records[k].id) == Some(records[k].values)
      ensures records[k].id.serial >= 0
      ensures Digits(records[k].id.serial) in AllOf(map[], records) && AllOf(map[], records)[Digits(records[k].id.serial)] == records[k].values
    {
      LookUpSensor(records, k);
      LookUpKey(records, k);
    }
  }

  lemma LookUpKey(records: seq<Record>, k: nat)
    requires k < |records| && AllReadable(records) && DistinctSerials(records)
    ensures records[k].id.serial >= 0
    ensures var key := Digits(records[k].id.serial);
            key in AllOf(map[], records) && AllOf(map[], records)[key] == records[k].values
  {
    assert IsReadable(records[k]);
    AllOfHas(map[], records, Digits(records[k].id.serial));
    hide AllOf, Digits, DistinctSerials;
    assert IsKeyOf(records, Digits(records[k].id.serial), k);
  }

  lemma LookUpSensor(records: seq<Record>, k: nat)
    requires k < |records| && AllStorable("MPES: ", records, 2) && DistinctNames(records)
    ensures Get(PutAll([], records), records[k].id) == Some(records[k].values)
  {
    assert Storable("MPES: ", records[k].id);
    LookUp("MPES: ", 2, records, records[k].id);
    assert IsRecordOf(records, records[k].id.name, k);
  }

  /** Any sensor is found by the one reader if and only if it is found by the other. */
  lemma OtherSensor(records: seq<Record>, other: Identity)
    requires AllReadable(records) && DistinctSerials(records) && IsSensor(other)
    ensures Get(PutAll([], records), other).Some? <==> Digits(other.serial) in AllOf(map[], records)
  {
    SensorsStorable(records);
    AllOfHas(map[], records, Digits(other.serial));
    LookUp("MPES: ", 2, records, other);
    hide PutAll, Get, AllOf, Digits, AllStorable, DistinctNames;
    forall k ensures IsRecordOf(records, other.name, k) <==> IsKeyOf(records, Digits(other.serial), k) {
      if 0 <= k < |records| {
        assert IsReadable(records[k]);
        if records[k].id.serial != other.serial { DigitsDiffer(records[k].id.serial, other.serial); }
      }
    }
  }
}
