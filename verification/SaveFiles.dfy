/** Files of actuator lengths and of sensor positions: how a mirror writes them, how it loads them
    again, and how the calibration tool reads the file of sensors. */
module SaveFiles {
  import opened Basics
  import opened DeviceIdentity
  import opened LinearAlgebra
  import opened SelectionText

  /** A line holds text or a printed number. */
  datatype Line = Text(s: string) | Num(v: real)

  const DELIMITER := "****************************************"

  const CUT: Line := Text(DELIMITER)

  /** Six actuator lengths of a panel, or two coordinates of a sensor. */
  datatype Record = Record(id: Identity, values: Vec)

  /* ---------- writing ---------- */

  function Numbered(values: Vec): (lines: seq<Line>)
    ensures |lines| == |values|
  {
    seq(|values|, i requires 0 <= i < |values| => Num(values[i]))
  }

  function Block(title: string, r: Record): seq<Line> {
    [Text(title + Printed(r.id))] + Numbered(r.values) + [CUT]
  }

  function Blocks(title: string, records: seq<Record>): seq<Line> {
    if records == [] then [] else Block(title, records[0]) + Blocks(title, records[1..])
  }

  /** The top of a file: the mirror, some lines of information, and the first delimiter. */
  function Top(mirror: Identity, info: seq<Line>): seq<Line> {
    [Text("Mirror: " + Printed(mirror))] + info + [CUT]
  }

  function File(title: string, mirror: Identity, info: seq<Line>, records: seq<Record>, azEl: string): seq<Line> {
    Top(mirror, info) + Blocks(title, records) + [Text("Az: " + azEl)]
  }

  /** A selected panel and the lengths read from it, if it could be read. */
  datatype Reading = Reading(id: Identity, lengths: Option<Six>)

  function Readable(panels: seq<Reading>): seq<Record> {
    if panels == [] then [] else
    var n := |panels| - 1;
    if panels[n].lengths.Some? then Readable(panels[..n]) + [Record(panels[n].id, panels[n].lengths.value)] else Readable(panels[..n])
  }

  /** Writes the lengths of the selected panels, leaving out those that cannot be read. */
  method SaveActuatorLengths(mirror: Identity, info: seq<Line>, panels: seq<Reading>, azEl: string) returns (f: seq<Line>)
    ensures f == File("Panel: ", mirror, info, Readable(panels), azEl)
  {
    hide Top, Block, Readable;
    f := Top(mirror, info);
    ReadableNone();
    for i := 0 to |panels|
      invariant f == Top(mirror, info) + Blocks("Panel: ", Readable(panels[..i]))
    {
      ReadableNext(panels, i);
      if panels[i].lengths.None? {
        continue;
      }
      var r := Record(panels[i].id, panels[i].lengths.value);
      OneMoreBlock(Top(mirror, info), "Panel: ", Readable(panels[..i]), r);
      f := f + Block("Panel: ", r);
    }
    assert panels[..|panels|] == panels;
    f := f + [Text("Az: " + azEl)];
  }

  lemma ReadableNone()
    ensures Readable([]) == []
  {
  }

  lemma ReadableNext(panels: seq<Reading>, i: nat)
    requires i < |panels|
    ensures Readable(panels[..i + 1])
            == if panels[i].lengths.Some? then Readable(panels[..i]) + [Record(panels[i].id, panels[i].lengths.value)] else Readable(panels[..i])
  {
    assert panels[..i + 1][..i] == panels[..i];
  }

  lemma OneMoreBlock(top: seq<Line>, title: string, records: seq<Record>, r: Record)
    ensures top + Blocks(title, records + [r]) == top + Blocks(title, records) + Block(title, r)
  {
    BlocksAppend(title, records, r);
    hide Block, Blocks;
  }

  /** Writes the positions of the selected sensors. */
  method SaveMPESPositions(mirror: Identity, info: seq<Line>, sensors: seq<Identity>, read: nat -> (real, real), azEl: string)
    returns (f: seq<Line>)
    ensures f == File("MPES: ", mirror, info, Positions(sensors, read), azEl)
  {
    hide Top, Block;
    f := Top(mirror, info);
    ghost var records := Positions(sensors, read);
    for i := 0 to |sensors|
      invariant f == Top(mirror, info) + Blocks("MPES: ", records[..i])
    {
      var (x, y) := read(i);
      var block := WriteMPES(sensors[i], x, y);
      assert records[..i + 1] == records[..i] + [records[i]];
      OneMoreBlock(Top(mirror, info), "MPES: ", records[..i], records[i]);
      f := f + block;
    }
    assert records[..|sensors|] == records;
    f := f + [Text("Az: " + azEl)];
  }

  /** The lines of one sensor. */
  method WriteMPES(id: Identity, x: real, y: real) returns (f: seq<Line>)
    ensures f == Block("MPES: ", Record(id, [x, y]))
  {
    assert Numbered([x, y]) == [Num(x), Num(y)];
    f := [Text("MPES: " + Printed(id)), Num(x), Num(y), CUT];
  }

  function Positions(sensors: seq<Identity>, read: nat -> (real, real)): (records: seq<Record>)
    ensures |records| == |sensors|
  {
    seq(|sensors|, i requires 0 <= i < |sensors| => Record(sensors[i], [read(i).0, read(i).1]))
  }

  lemma {:induction false} BlocksAppend(title: string, records: seq<Record>, r: Record)
    ensures Blocks(title, records + [r]) == Blocks(title, records) + Block(title, r)
  {
    hide Block;
    if records == [] {
      assert records + [r] == [r];
      assert [r][1..] == [];
      assert Block(title, r) + [] == Block(title, r);
    } else {
      assert (records + [r])[1..] == records[1..] + [r];
      BlocksAppend(title, records[1..], r);
    }
  }

  /* ---------- loading ---------- */

  predicate OccursAt(s: string, pattern: string, k: nat) {
    k + |pattern| <= |s| && s[k..k + |pattern|] == pattern
  }

  predicate Contains(s: string, pattern: string) {
    exists k: nat :: k <= |s| && OccursAt(s, pattern, k)
  }

  /** Place of the first `c`; the length of the string if there is none. */
  function FindChar(s: string, c: char): (k: nat)
    ensures k <= |s| && (k < |s| ==> s[k] == c) && forall i :: 0 <= i < k ==> s[i] != c
  {
    if s == "" || s[0] == c then 0 else 1 + FindChar(s[1..], c)
  }

  /** What stands between the parentheses of a line, with them. Places are 32-bit numbers, "not found" the
      largest of them; a missing opening parenthesis throws. */
  function Extract(s: string): Option<string> {
    var open, close := FindChar(s, '('), FindChar(s, ')');
    if open == |s| then None else
    var length := if open < close < |s| then close - open + 2
                  else ((if close == |s| then TWO_32 - 1 else close) - open + 2) % TWO_32;
    Some(Substr(s, open, length))
  }

  /** At most so many characters of a string, from a place in it. */
  function Substr(s: string, from: nat, length: nat): string
    requires from <= |s|
  {
    if from + length < |s| then s[from..from + length] else s[from..]
  }

  function IdentityIn(line: Line): Option<Identity> {
    match line
    case Num(_) => None
    case Text(s) =>
      var text := Extract(s);
      if text.None? then None else Parsed(text.value)
  }

  /** The values found so far, by identity: a later value for the same identity replaces the earlier one. */
  type Entries = seq<(Identity, Vec)>

  function Put(entries: Entries, id: Identity, v: Vec): Entries {
    if entries == [] then [(id, v)]
    else if Same(entries[0].0, id) then [(entries[0].0, v)] + entries[1..]
    else [entries[0]] + Put(entries[1..], id, v)
  }

  function Get(entries: Entries, id: Identity): Option<Vec> {
    if entries == [] then None
    else if Same(entries[0].0, id) then Some(entries[0].1)
    else Get(entries[1..], id)
  }

  predicate IsAzLine(line: Line) { line.Text? && Contains(line.s, "Az:") }

  /** Lines before the next delimiter. */
  function UpToCut(lines: seq<Line>): (n: nat)
    ensures n <= |lines|
  {
    if lines == [] || lines[0] == CUT then 0 else 1 + UpToCut(lines[1..])
  }

  /** Overwrites the front of a vector with the numbers of some lines; a line that is no number throws, and
      so does one number too many. */
  function Fill(target: Vec, lines: seq<Line>): Option<Vec> {
    if lines == [] then Some(target) else
    var n := |lines| - 1;
    var front := Fill(target, lines[..n]);
    if front.None? || lines[n].Text? || n >= |front.value| then None
    else Some(front.value[n := lines[n].v])
  }

  /** Reads the records that follow the top of a file. The vector keeps what a shorter record leaves. */
  function ReadRecords(lines: seq<Line>, target: Vec, entries: Entries): Option<Entries>
    decreases |lines|
  {
    if lines == [] then Some(entries)
    else if IsAzLine(lines[0]) then ReadRecords(lines[1..], target, entries)
    else
      var id := IdentityIn(lines[0]);
      var n := UpToCut(lines[1..]);
      var filled := Fill(target, lines[1..1 + n]);
      if id.None? || filled.None? then None else
      ReadRecords(if 1 + n < |lines| then lines[2 + n..] else [], filled.value, Put(entries, id.value, filled.value))
  }

  /** What the loaders find in a file of this mirror: nothing if reading throws or the file is another
      mirror's. */
  function Loaded(lines: seq<Line>, mirror: Identity, scratch: Vec): Option<Entries> {
    if lines == [] then None else
    var id := IdentityIn(lines[0]);
    if id.None? || !Same(id.value, mirror) then None else
    var n := UpToCut(lines[1..]);
    ReadRecords(if 1 + n < |lines| then lines[2 + n..] else [], scratch, [])
  }

  /** Skips to the next delimiter and past it. */
  method SkipPastCut(lines: seq<Line>, from: nat) returns (next: nat)
    requires from <= |lines|
    ensures next <= |lines|
    ensures var n := UpToCut(lines[from..]); next == if from + n < |lines| then from + n + 1 else |lines|
  {
    next := from;
    while next < |lines| && lines[next] != CUT
      invariant from <= next <= |lines|
      invariant forall j :: from <= j < next ==> lines[j] != CUT
    {
      next := next + 1;
    }
    UpToCutIs(lines[from..], next - from);
    if next < |lines| {
      next := next + 1;
    }
  }

  lemma {:induction false} UpToCutIs(lines: seq<Line>, n: nat)
    requires n <= |lines| && forall j :: 0 <= j < n ==> lines[j] != CUT
    requires n < |lines| ==> lines[n] == CUT
    ensures UpToCut(lines) == n
  {
    if n > 0 { UpToCutIs(lines[1..], n - 1); }
  }

  /** Reads the numbers up to the next delimiter into the vector. */
  method ReadValues(lines: seq<Line>, from: nat, target: Vec) returns (filled: Option<Vec>, next: nat)
    requires from <= |lines|
    ensures filled == Fill(target, lines[from..from + UpToCut(lines[from..])])
    ensures filled.Some? ==> next == from + UpToCut(lines[from..])
  {
    hide Fill, UpToCut;
    var v := target;
    next := from;
    FillNone(target);
    assert lines[from..from] == [];
    while next < |lines| && lines[next] != CUT
      invariant from <= next <= |lines|
      invariant forall j :: from <= j < next ==> lines[j] != CUT
      invariant Fill(target, lines[from..next]) == Some(v)
    {
      FillNext(target, lines, from, next);
      if lines[next].Text? || next - from >= |v| {
        FillFails(target, lines, from, next + 1);
        return None, next;
      }
      v := v[next - from := lines[next].v];
      next := next + 1;
    }
    UpToCutIs(lines[from..], next - from);
    filled := Some(v);
  }

  lemma FillNone(target: Vec)
    ensures Fill(target, []) == Some(target)
  {
  }

  lemma FillNext(target: Vec, lines: seq<Line>, from: nat, next: nat)
    requires from <= next < |lines| && Fill(target, lines[from..next]).Some?
    ensures var v := Fill(target, lines[from..next]).value;
            Fill(target, lines[from..next + 1])
            == if lines[next].Text? || next - from >= |v| then None else Some(v[next - from := lines[next].v])
  {
    assert lines[from..next + 1][..next - from] == lines[from..next];
  }

  lemma FillFails(target: Vec, lines: seq<Line>, from: nat, next: nat)
    requires from <= next <= |lines| && Fill(target, lines[from..next]).None?
    requires forall j :: from <= j < next - 1 ==> lines[j] != CUT
    requires from < next && lines[next - 1] != CUT
    ensures Fill(target, lines[from..from + UpToCut(lines[from..])]).None?
  {
    var n := UpToCut(lines[from..]);
    CutNotBefore(lines[from..], next - from);
    assert lines[from..][..next - from] == lines[from..next];
    assert lines[from..][..n] == lines[from..from + n];
    FillStaysFailed(target, lines[from..], next - from, n);
  }

  lemma {:induction false} CutNotBefore(lines: seq<Line>, n: nat)
    requires n <= |lines| && forall j :: 0 <= j < n ==> lines[j] != CUT
    ensures UpToCut(lines) >= n
  {
    if n > 0 { CutNotBefore(lines[1..], n - 1); }
  }

  lemma {:induction false} FillStaysFailed(target: Vec, lines: seq<Line>, m: nat, n: nat)
    requires m <= n <= |lines| && Fill(target, lines[..m]).None?
    ensures Fill(target, lines[..n]).None?
  {
    if m < n {
      FillStaysFailed(target, lines, m, n - 1);
      assert lines[..n][..n - 1] == lines[..n - 1];
    }
  }

  /** Loads the records of a file of this mirror. */
  method LoadRecords(lines: seq<Line>, mirror: Identity, scratch: Vec) returns (found: Option<Entries>)
    ensures found == Loaded(lines, mirror, scratch)
  {
    hide IdentityIn, Put, Fill, UpToCut, Same, IsAzLine;
    if lines == [] { return None; }
    var id := IdentityIn(lines[0]);
    if id.None? || !Same(id.value, mirror) { return None; }
    var at := SkipPastCut(lines, 1);
    assert lines[|lines|..] == [];
    found := LoadBody(lines, at, scratch);
  }

  method LoadBody(lines: seq<Line>, from: nat, scratch: Vec) returns (found: Option<Entries>)
    requires from <= |lines|
    ensures found == ReadRecords(lines[from..], scratch, [])
  {
    hide IdentityIn, Put, Fill, UpToCut, Same, IsAzLine, ReadRecords;
    var at, target, entries := from, scratch, [];
    while at < |lines|
      invariant at <= |lines|
      invariant ReadRecords(lines[at..], target, entries) == ReadRecords(lines[from..], scratch, [])
      decreases |lines| - at
    {
      RecordsUnfold(lines, at, target, entries);
      if IsAzLine(lines[at]) {
        at := at + 1;
        continue;
      }
      var id := IdentityIn(lines[at]);
      if id.None? { return None; }
      var filled, next := ReadValues(lines, at + 1, target);
      if filled.None? { return None; }
      target := filled.value;
      entries := Put(entries, id.value, target);
      assert lines[|lines|..] == [];
      at := if next < |lines| then next + 1 else next;
    }
    assert lines[|lines|..] == [];
    RecordsEnd(target, entries);
    found := Some(entries);
  }

  lemma RecordsEnd(target: Vec, entries: Entries)
    ensures ReadRecords([], target, entries) == Some(entries)
  {
  }

  lemma RecordsUnfold(lines: seq<Line>, at: nat, target: Vec, entries: Entries)
    requires at < |lines|
    ensures var n := UpToCut(lines[at + 1..]);
            var id, filled := IdentityIn(lines[at]), Fill(target, lines[at + 1..at + 1 + n]);
            ReadRecords(lines[at..], target, entries)
            == if IsAzLine(lines[at]) then ReadRecords(lines[at + 1..], target, entries)
               else if id.None? || filled.None? then None
               else ReadRecords(if at + 1 + n < |lines| then lines[at + n + 2..] else [], filled.value, Put(entries, id.value, filled.value))
  {
    hide IdentityIn, Put, Fill, UpToCut, Same, IsAzLine;
    var rest := lines[at..];
    var n := UpToCut(lines[at + 1..]);
    assert rest[1..] == lines[at + 1..];
    assert rest[1..1 + n] == lines[at + 1..at + 1 + n];
    if at + 1 + n < |lines| {
      assert rest[2 + n..] == lines[at + n + 2..];
    }
  }

  /* ---------- loading what was saved ---------- */

  predicate NoParentheses(s: string) { forall i :: 0 <= i < |s| ==> s[i] != '(' && s[i] != ')' }

  /** A device whose identity can be stored in a line that starts with `title`. */
  predicate Storable(title: string, id: Identity) {
    && NoComma(id.address) && NoComma(id.name) && NoParentheses(id.address) && NoParentheses(id.name)
    && id.name != "" && Compact(id.name)
    && NoParentheses(title) && !Contains(title + Printed(id), "Az:")
  }

  /** The identity a loader reads for a stored device. */
  function Restored(id: Identity): Identity {
    Identity(id.position, NoSpaces(id.address), NoSpaces(id.name), -1)
  }

  lemma {:induction false} CharAfter(w: string, c: char, rest: string)
    requires forall i :: 0 <= i < |w| ==> w[i] != c
    ensures FindChar(w + [c] + rest, c) == |w|
  {
    if w != "" {
      assert (w + [c] + rest)[1..] == w[1..] + [c] + rest;
      CharAfter(w[1..], c, rest);
    }
  }

  /** All that is printed between the parentheses. */
  function Inside(id: Identity): string {
    Decimal(id.serial) + ", " + id.address + ", " + id.name + ", " + Decimal(id.position)
  }

  lemma InsideHasNoParentheses(id: Identity)
    requires NoParentheses(id.address) && NoParentheses(id.name)
    ensures NoParentheses(Inside(id))
    ensures Printed(id) == "(" + Inside(id) + ")"
  {
    DecimalHasNoParentheses(id.serial);
    DecimalHasNoParentheses(id.position);
    hide Decimal;
    assert NoParentheses(", ");
    JoinNoParentheses(Decimal(id.serial), ", ");
    JoinNoParentheses(Decimal(id.serial) + ", ", id.address);
    JoinNoParentheses(Decimal(id.serial) + ", " + id.address, ", ");
    JoinNoParentheses(Decimal(id.serial) + ", " + id.address + ", ", id.name);
    JoinNoParentheses(Decimal(id.serial) + ", " + id.address + ", " + id.name, ", ");
    JoinNoParentheses(Decimal(id.serial) + ", " + id.address + ", " + id.name + ", ", Decimal(id.position));
    hide NoParentheses;
    PrintedIs(id);
  }

  lemma PrintedIs(id: Identity)
    ensures Printed(id) == "(" + Inside(id) + ")"
  {
    hide Decimal;
    var s, p := Decimal(id.serial), Decimal(id.position);
    assert "(" + s + ", " + id.address + ", " + id.name + ", " + p + ")" == "(" + (s + ", " + id.address + ", " + id.name + ", " + p) + ")";
  }

  lemma JoinNoParentheses(a: string, b: string)
    requires NoParentheses(a) && NoParentheses(b)
    ensures NoParentheses(a + b)
  {
  }

  lemma DecimalHasNoParentheses(i: int)
    ensures NoParentheses(Decimal(i))
  {
    var d := Decimal(i);
    forall k | 0 <= k < |d| ensures d[k] != '(' && d[k] != ')' {
      assert IsDigit(d[k]) || d[k] == '-' by {
        if i < 0 && k > 0 { assert d[k] == Digits(-i)[k - 1]; }
      }
    }
  }

  lemma ExtractBetween(s: string, open: nat, close: nat)
    requires FindChar(s, '(') == open < FindChar(s, ')') == close < |s|
    ensures Extract(s) == Some(Substr(s, open, close - open + 2))
  {
    hide FindChar, Substr;
  }

  lemma ParenthesesAt(before: string, inside: string, rest: string)
    requires NoParentheses(before) && NoParentheses(inside)
    ensures var s := before + "(" + inside + ")" + rest;
            FindChar(s, '(') == |before| && FindChar(s, ')') == |before| + 1 + |inside|
  {
    hide FindChar;
    var s := before + "(" + inside + ")" + rest;
    assert s == before + ['('] + (inside + ")" + rest);
    CharAfter(before, '(', inside + ")" + rest);
    var front := before + "(" + inside;
    assert forall i :: 0 <= i < |front| ==> front[i] != ')';
    assert s == front + [')'] + rest;
    CharAfter(front, ')', rest);
  }

  lemma TakenOut(before: string, inside: string, rest: string)
    ensures Substr(before + "(" + inside + ")" + rest, |before|, |inside| + 3)
            == "(" + inside + ")" + rest[..if rest == "" then 0 else 1]
  {
  }

  /** What is taken from a line as an identity: the first parenthesis, and one character more if there is one. */
  lemma ExtractedIs(before: string, inside: string, rest: string)
    requires NoParentheses(before) && NoParentheses(inside)
    ensures Extract(before + "(" + inside + ")" + rest) == Some("(" + inside + ")" + rest[..if rest == "" then 0 else 1])
  {
    hide *;
    ParenthesesAt(before, inside, rest);
    ExtractBetween(before + "(" + inside + ")" + rest, |before|, |before| + 1 + |inside|);
    TakenOut(before, inside, rest);
  }

  lemma ExtractPrinted(title: string, id: Identity)
    requires NoParentheses(title) && NoParentheses(id.address) && NoParentheses(id.name)
    ensures Extract(title + Printed(id)) == Some(Printed(id))
  {
    hide *;
    InsideHasNoParentheses(id);
    ExtractedIs(title, Inside(id), "");
    NothingBehind(title, Inside(id));
  }

  lemma NothingBehind(title: string, inside: string)
    ensures title + "(" + inside + ")" + "" == title + ("(" + inside + ")")
    ensures "(" + inside + ")" + ""[..0] == "(" + inside + ")"
  {
  }

  lemma StoredLine(title: string, id: Identity)
    requires Storable(title, id)
    ensures !IsAzLine(Text(title + Printed(id))) && IdentityIn(Text(title + Printed(id))) == Some(Restored(id))
  {
    ExtractPrinted(title, id);
    ParsedOfPrinted(id);
    hide Printed, Parsed, Extract;
  }

  lemma {:induction false} FillNumbered(target: Vec, values: Vec, n: nat)
    requires n <= |values| == |target|
    ensures Fill(target, Numbered(values)[..n]) == Some(values[..n] + target[n..])
  {
    var lines := Numbered(values);
    if n == 0 {
      assert lines[..0] == [] && values[..0] + target[0..] == target;
    } else {
      FillNumbered(target, values, n - 1);
      assert lines[..n][..n - 1] == lines[..n - 1];
      assert lines[..n][n - 1] == Num(values[n - 1]);
      PutOne(target, values, n);
      hide Numbered;
    }
  }

  lemma PutOne(target: Vec, values: Vec, n: nat)
    requires 0 < n <= |values| == |target|
    ensures (values[..n - 1] + target[n - 1..])[n - 1 := values[n - 1]] == values[..n] + target[n..]
  {
  }

  lemma {:induction false} CutAfter(lines: seq<Line>, cut: Line, rest: seq<Line>)
    requires cut == CUT && cut !in lines
    ensures UpToCut(lines + ([cut] + rest)) == |lines|
  {
    hide CUT;
    if lines == [] {
      assert lines + ([cut] + rest) == [cut] + rest;
    } else {
      assert (lines + ([cut] + rest))[1..] == lines[1..] + ([cut] + rest);
      CutAfter(lines[1..], cut, rest);
    }
  }

  lemma SplitAtCut(first: Line, middle: seq<Line>, cut: Line, rest: seq<Line>)
    ensures var lines := [first] + (middle + ([cut] + rest));
            var n := |middle|;
            && |lines| == n + 2 + |rest|
            && lines[0] == first && lines[1..] == middle + ([cut] + rest)
            && lines[1..1 + n] == middle && lines[n + 2..] == rest && lines[0..] == lines
  {
  }

  lemma ReadOne(first: Line, middle: seq<Line>, cut: Line, rest: seq<Line>, target: Vec, entries: Entries)
    requires cut == CUT && cut !in middle && !IsAzLine(first)
    requires IdentityIn(first).Some? && Fill(target, middle).Some?
    ensures var v := Fill(target, middle).value;
            ReadRecords([first] + (middle + ([cut] + rest)), target, entries)
            == ReadRecords(rest, v, Put(entries, IdentityIn(first).value, v))
  {
    hide *;
    var lines := [first] + (middle + ([cut] + rest));
    SplitAtCut(first, middle, cut, rest);
    CutAfter(middle, cut, rest);
    RecordsUnfold(lines, 0, target, entries);
  }

  /** Reading one stored record. */
  lemma ReadBlock(title: string, r: Record, rest: seq<Line>, target: Vec, entries: Entries)
    requires Storable(title, r.id) && |r.values| == |target|
    ensures ReadRecords(Block(title, r) + rest, target, entries) == ReadRecords(rest, r.values, Put(entries, Restored(r.id), r.values))
  {
    StoredLine(title, r.id);
    FillNumbered(target, r.values, |r.values|);
    hide *;
    var numbers := Numbered(r.values);
    assert numbers[..|r.values|] == numbers;
    assert r.values[..|r.values|] + target[|r.values|..] == r.values;
    BlockIs(title, r, rest);
    ReadOne(Text(title + Printed(r.id)), numbers, CUT, rest, target, entries);
  }

  lemma BlockIs(title: string, r: Record, rest: seq<Line>)
    ensures Block(title, r) + rest == [Text(title + Printed(r.id))] + (Numbered(r.values) + ([CUT] + rest))
    ensures CUT !in Numbered(r.values)
  {
    hide Printed;
  }

  function PutAll(entries: Entries, records: seq<Record>): Entries
    decreases |records|
  {
    if records == [] then entries else PutAll(Put(entries, Restored(records[0].id), records[0].values), records[1..])
  }

  predicate AllStorable(title: string, records: seq<Record>, width: nat) {
    forall k :: 0 <= k < |records| ==> Storable(title, records[k].id) && |records[k].values| == width
  }

  lemma {:induction false} ReadBlocks(title: string, records: seq<Record>, azEl: string, target: Vec, entries: Entries)
    requires AllStorable(title, records, |target|)
    ensures ReadRecords(Blocks(title, records) + [Text("Az: " + azEl)], target, entries) == Some(PutAll(entries, records))
  {
    hide Storable, Put, Restored, Block;
    var last := [Text("Az: " + azEl)];
    if records == [] {
      assert Blocks(title, records) + last == last;
      AzLine(azEl);
      RecordsUnfold(last, 0, target, entries);
      assert last[0..] == last && last[1..] == [];
    } else {
      var r := records[0];
      assert Blocks(title, records) + last == Block(title, r) + (Blocks(title, records[1..]) + last);
      hide ReadRecords;
      ReadBlock(title, r, Blocks(title, records[1..]) + last, target, entries);
      ReadBlocks(title, records[1..], azEl, r.values, Put(entries, Restored(r.id), r.values));
    }
  }

  lemma AzLine(azEl: string)
    ensures IsAzLine(Text("Az: " + azEl))
  {
    var s := "Az: " + azEl;
    assert s[0..3] == "Az:";
    assert OccursAt(s, "Az:", 0);
  }

  /** A saved file is loaded by the mirrors whose identity counts as the restored one of the mirror that
      saved it, and they read all its records. */
  lemma FileLoads(title: string, mirror: Identity, info: seq<Line>, records: seq<Record>, azEl: string, me: Identity, scratch: Vec)
    requires NoComma(mirror.address) && NoComma(mirror.name) && NoParentheses(mirror.address) && NoParentheses(mirror.name)
    requires CUT !in info && AllStorable(title, records, |scratch|)
    ensures Loaded(File(title, mirror, info, records, azEl), me, scratch)
            == if Same(Restored(mirror), me) then Some(PutAll([], records)) else None
  {
    MirrorLine(mirror);
    ReadBlocks(title, records, azEl, scratch, []);
    hide *;
    var first := Text("Mirror: " + Printed(mirror));
    var body := Blocks(title, records) + [Text("Az: " + azEl)];
    FileIs(title, mirror, info, records, azEl);
    SplitAtCut(first, info, CUT, body);
    CutAfter(info, CUT, body);
    LoadedUnfold([first] + (info + ([CUT] + body)), me, scratch);
  }

  lemma FileIs(title: string, mirror: Identity, info: seq<Line>, records: seq<Record>, azEl: string)
    ensures File(title, mirror, info, records, azEl)
            == [Text("Mirror: " + Printed(mirror))] + (info + ([CUT] + (Blocks(title, records) + [Text("Az: " + azEl)])))
  {
    hide Printed, Blocks;
  }

  lemma LoadedUnfold(lines: seq<Line>, mirror: Identity, scratch: Vec)
    requires lines != []
    ensures var id, n := IdentityIn(lines[0]), UpToCut(lines[1..]);
            Loaded(lines, mirror, scratch)
            == if id.None? || !Same(id.value, mirror) then None
               else ReadRecords(if 1 + n < |lines| then lines[2 + n..] else [], scratch, [])
  {
    hide IdentityIn, UpToCut, Same, ReadRecords;
  }

  lemma MirrorLine(mirror: Identity)
    requires NoComma(mirror.address) && NoComma(mirror.name) && NoParentheses(mirror.address) && NoParentheses(mirror.name)
    ensures IdentityIn(Text("Mirror: " + Printed(mirror))) == Some(Restored(mirror))
  {
    assert NoParentheses("Mirror: ");
    ExtractPrinted("Mirror: ", mirror);
    ParsedOfPrinted(mirror);
    hide Printed, Parsed, Extract;
  }

  /* ---------- looking up what was loaded ---------- */

  predicate Named(entries: Entries) { forall i :: 0 <= i < |entries| ==> entries[i].0.name != "" }

  lemma {:induction false} GetPut(entries: Entries, a: Identity, v: Vec, id: Identity)
    requires Named(entries) && a.name != "" && id.name != ""
    ensures Named(Put(entries, a, v))
    ensures Get(Put(entries, a, v), id) == if a.name == id.name then Some(v) else Get(entries, id)
  {
    if entries != [] && !Same(entries[0].0, a) {
      GetPut(entries[1..], a, v, id);
      var p := Put(entries[1..], a, v);
      assert ([entries[0]] + p)[1..] == p;
    } else if entries != [] {
      assert ([(entries[0].0, v)] + entries[1..])[1..] == entries[1..];
    }
  }

  predicate DistinctNames(records: seq<Record>) {
    forall j, k :: 0 <= j < k < |records| ==> records[j].id.name != records[k].id.name
  }

  /** The record of a name. */
  ghost predicate IsRecordOf(records: seq<Record>, name: string, k: int) {
    0 <= k < |records| && records[k].id.name == name
  }

  lemma {:induction false} GetPutAll(title: string, width: nat, entries: Entries, records: seq<Record>, id: Identity)
    requires Named(entries) && AllStorable(title, records, width) && DistinctNames(records) && id.name != ""
    ensures var found := Get(PutAll(entries, records), id);
            && (forall k :: IsRecordOf(records, id.name, k) ==> found == Some(records[k].values))
            && ((forall k :: !IsRecordOf(records, id.name, k)) ==> found == Get(entries, id))
    decreases |records|
  {
    if records != [] {
      var r, rest := records[0], records[1..];
      StoredName(title, r.id);
      hide Storable, Put, Get, Restored, Named;
      var after := Put(entries, Restored(r.id), r.values);
      GetPut(entries, Restored(r.id), r.values, id);
      GetPutAll(title, width, after, rest, id);
      forall k | IsRecordOf(records, id.name, k) ensures Get(PutAll(entries, records), id) == Some(records[k].values) {
        if k > 0 {
          assert IsRecordOf(rest, id.name, k - 1);
        } else {
          assert forall j :: !IsRecordOf(rest, id.name, j) by {
            assert forall j :: 0 <= j < |rest| ==> rest[j] == records[j + 1];
          }
        }
      }
      if forall k :: !IsRecordOf(records, id.name, k) {
        assert !IsRecordOf(records, id.name, 0);
        forall j ensures !IsRecordOf(rest, id.name, j) {
          assert !IsRecordOf(records, id.name, j + 1);
        }
      }
    }
  }

  lemma StoredName(title: string, id: Identity)
    requires Storable(title, id)
    ensures Restored(id).name == id.name != ""
  {
  }

  /* ---------- the plan made from a file of lengths ---------- */

  /** A panel of the mirror while a file is loaded: whether its position can be read, and the lengths
      that reading them leaves, with the status it returns. */
  datatype Child = Child(id: Identity, isTable: bool, readable: bool, lengths: Six, lengthsGood: bool)

  predicate Moves(p: Child, entries: Entries) { !p.isTable && Get(entries, p.id).Some? }

  /** The status returned is the one of the last call made: that of the lengths of the last child if it
      is to move. */
  predicate LastStatus(children: seq<Child>, entries: Entries) {
    children == [] || !Moves(children[|children| - 1], entries) || children[|children| - 1].lengthsGood
  }

  function ToMove(children: seq<Child>, entries: Entries): seq<Child> {
    if children == [] then [] else
    var n := |children| - 1;
    if Moves(children[n], entries) then ToMove(children[..n], entries) + [children[n]]
    else ToMove(children[..n], entries)
  }

  /** Slice `k` of the plan takes the `k`-th panel to move to the lengths found for it. */
  ghost predicate IsPlan(entries: Entries, children: seq<Child>, x: Vec, panels: seq<Child>) {
    && panels == ToMove(children, entries) && 6 * |panels| <= |x|
    && forall k :: 0 <= k < |panels| ==> Reaches(entries, panels[k], Slice(x, k))
  }

  ghost predicate Reaches(entries: Entries, panel: Child, six: Vec) {
    && |six| == 6 && Get(entries, panel.id) == Some(Add(panel.lengths, six))
  }

  /** Loads a file of lengths and plans the motion there. The vector has six entries for every child,
      filled from the front; what `rest` holds beyond the last panel to move is arbitrary. */
  method CalculateLoadActuatorLengths(lines: seq<Line>, mirror: Identity, children: seq<Child>, scratch: Six, rest: Vec)
    returns (plan: Option<(Vec, seq<Child>)>, good: bool)
    requires |rest| == 6 * |children|
    ensures plan.None? <==> Loaded(lines, mirror, scratch).None? || exists k :: 0 <= k < |children| && !children[k].readable
    ensures plan.Some? ==> IsPlan(Loaded(lines, mirror, scratch).value, children, plan.value.0, plan.value.1)
    ensures plan.Some? ==> |plan.value.0| == 6 * |children| && (good <==> LastStatus(children, Loaded(lines, mirror, scratch).value))
    ensures plan.None? ==> !good
  {
    hide Loaded, Get, ToMove, Slice, Reaches, IsPlan;
    var loaded := LoadRecords(lines, mirror, scratch);
    if loaded.None? { return None, false; }
    good := true;
    var entries := loaded.value;
    LoadedWidth(lines, mirror, scratch);
    var x, panels := rest, [];
    ToMoveNone(entries);
    for i := 0 to |children|
      invariant |x| == 6 * |children| && |panels| <= i && panels == ToMove(children[..i], entries)
      invariant forall k :: 0 <= k < i ==> children[k].readable
      invariant forall k :: 0 <= k < |panels| ==> Reaches(entries, panels[k], Slice(x, k))
      invariant good <==> LastStatus(children[..i], entries)
    {
      var p := children[i];
      if !p.readable { return None, false; }
      good := true;
      ToMoveNext(children, i, entries);
      if p.isTable { continue; }
      var target := Get(entries, p.id);
      if target.Some? {
        GetWidth(entries, p.id, 6);
        var six := Sub(target.value, p.lengths);
        SubReaches(entries, p, six);
        x := PutSlice(x, |panels|, six);
        panels := panels + [p];
        good := p.lengthsGood;
      }
    }
    assert children[..|children|] == children;
    MakesPlan(entries, children, x, panels);
    plan := Some((x, panels));
  }

  lemma MakesPlan(entries: Entries, children: seq<Child>, x: Vec, panels: seq<Child>)
    requires panels == ToMove(children, entries) && 6 * |panels| <= |x|
    requires forall k :: 0 <= k < |panels| ==> Reaches(entries, panels[k], Slice(x, k))
    ensures IsPlan(entries, children, x, panels)
  {
    hide Get, ToMove, Reaches;
  }

  lemma SubReaches(entries: Entries, p: Child, six: Vec)
    requires Get(entries, p.id).Some? && |Get(entries, p.id).value| == 6 && six == Sub(Get(entries, p.id).value, p.lengths)
    ensures Reaches(entries, p, six)
  {
    hide Get;
    assert Add(p.lengths, six) == Get(entries, p.id).value;
  }

  /* ---------- the plan made from a file of coordinate changes ---------- */

  /** The Stewart platform of a panel, in both directions. */
  datatype Stewart = Stewart(coords: Six -> Six, acts: Six -> Six)

  /** Adding `six` to the lengths of the panel gives those at which its coordinates have changed by what
      was found for it. */
  ghost predicate Shifts(entries: Entries, platform: Stewart, panel: Child, six: Vec) {
    && |six| == 6 && Get(entries, panel.id).Some? && |Get(entries, panel.id).value| == 6
    && Add(panel.lengths, six) == platform.acts(Add(platform.coords(panel.lengths), Get(entries, panel.id).value))
  }

  /** Here the table is skipped before its status is looked at, so that, as the last child, it decides
      the status returned. */
  predicate LastDeltaStatus(children: seq<Child>, entries: Entries) {
    children == [] ||
    var last := children[|children| - 1];
    if last.isTable then last.readable else Moves(last, entries) ==> last.lengthsGood
  }

  /** Loads a file of coordinate changes and plans the motion of the panels named in it. */
  method CalculateLoadDeltaCoords(lines: seq<Line>, mirror: Identity, children: seq<Child>, platform: Stewart,
                                  scratch: Six, rest: Vec)
    returns (plan: Option<(Vec, seq<Child>)>, good: bool)
    requires |rest| == 6 * |children|
    ensures plan.None? <==>
            Loaded(lines, mirror, scratch).None? || exists k :: 0 <= k < |children| && !children[k].isTable && !children[k].readable
    ensures plan.Some? ==>
              var entries := Loaded(lines, mirror, scratch).value;
              var (x, panels) := plan.value;
              && panels == ToMove(children, entries) && |x| == 6 * |children| && |panels| <= |children|
              && (forall k :: 0 <= k < |panels| ==> Shifts(entries, platform, panels[k], Slice(x, k)))
              && (good <==> LastDeltaStatus(children, entries))
    ensures plan.None? ==> !good
  {
    hide Loaded, Get, ToMove, Slice, Shifts;
    var loaded := LoadRecords(lines, mirror, scratch);
    if loaded.None? { return None, false; }
    good := true;
    var entries := loaded.value;
    LoadedWidth(lines, mirror, scratch);
    var x, panels := rest, [];
    ToMoveNone(entries);
    for i := 0 to |children|
      invariant |x| == 6 * |children| && |panels| <= i && panels == ToMove(children[..i], entries)
      invariant forall k :: 0 <= k < i ==> children[k].isTable || children[k].readable
      invariant forall k :: 0 <= k < |panels| ==> Shifts(entries, platform, panels[k], Slice(x, k))
      invariant good <==> LastDeltaStatus(children[..i], entries)
    {
      var p := children[i];
      good := p.readable;
      ToMoveNext(children, i, entries);
      if p.isTable { continue; }
      if !p.readable { return None, false; }
      var delta := Get(entries, p.id);
      if delta.Some? {
        good := p.lengthsGood;
        GetWidth(entries, p.id, 6);
        var six := Sub(platform.acts(Add(platform.coords(p.lengths), delta.value)), p.lengths);
        SubShifts(entries, platform, p, six);
        x := PutSlice(x, |panels|, six);
        panels := panels + [p];
      }
    }
    assert children[..|children|] == children;
    plan := Some((x, panels));
  }

  lemma SubShifts(entries: Entries, platform: Stewart, p: Child, six: Vec)
    requires Get(entries, p.id).Some? && |Get(entries, p.id).value| == 6
    requires six == Sub(platform.acts(Add(platform.coords(p.lengths), Get(entries, p.id).value)), p.lengths)
    ensures Shifts(entries, platform, p, six)
  {
    hide Get;
    assert Add(p.lengths, six) == platform.acts(Add(platform.coords(p.lengths), Get(entries, p.id).value));
  }

  /** With an exact platform, the slice changes the coordinates of the panel by what the file says. */
  lemma CoordinatesShift(entries: Entries, platform: Stewart, panel: Child, six: Vec)
    requires Shifts(entries, platform, panel, six)
    requires forall c: Six {:trigger platform.acts(c)} :: platform.coords(platform.acts(c)) == c
    ensures platform.coords(Add(panel.lengths, six)) == Add(platform.coords(panel.lengths), Get(entries, panel.id).value)
  {
  }

  lemma ToMoveNone(entries: Entries)
    ensures ToMove([], entries) == []
  {
  }

  lemma ToMoveNext(children: seq<Child>, i: nat, entries: Entries)
    requires i < |children|
    ensures ToMove(children[..i + 1], entries)
            == if Moves(children[i], entries) then ToMove(children[..i], entries) + [children[i]]
               else ToMove(children[..i], entries)
  {
    assert children[..i + 1][..i] == children[..i];
  }

  predicate AllWide(entries: Entries, width: nat) { forall i :: 0 <= i < |entries| ==> |entries[i].1| == width }

  lemma {:induction false} PutWidth(entries: Entries, id: Identity, v: Vec, width: nat)
    requires AllWide(entries, width) && |v| == width
    ensures AllWide(Put(entries, id, v), width)
  {
    if entries != [] && !Same(entries[0].0, id) {
      PutWidth(entries[1..], id, v, width);
    }
  }

  lemma {:induction false} GetWidth(entries: Entries, id: Identity, width: nat)
    requires AllWide(entries, width)
    ensures Get(entries, id).Some? ==> |Get(entries, id).value| == width
  {
    if entries != [] { GetWidth(entries[1..], id, width); }
  }

  lemma {:induction false} FillWidth(target: Vec, lines: seq<Line>)
    ensures Fill(target, lines).Some? ==> |Fill(target, lines).value| == |target|
  {
    if lines != [] { FillWidth(target, lines[..|lines| - 1]); }
  }

  lemma {:induction false} RecordsWidth(lines: seq<Line>, target: Vec, entries: Entries)
    requires AllWide(entries, |target|)
    ensures ReadRecords(lines, target, entries).Some? ==> AllWide(ReadRecords(lines, target, entries).value, |target|)
    decreases |lines|
  {
    hide AllWide, Put, Fill, IdentityIn, IsAzLine;
    if lines != [] {
      if IsAzLine(lines[0]) {
        RecordsWidth(lines[1..], target, entries);
      } else {
        var id, n := IdentityIn(lines[0]), UpToCut(lines[1..]);
        var filled := Fill(target, lines[1..1 + n]);
        FillWidth(target, lines[1..1 + n]);
        if id.Some? && filled.Some? {
          PutWidth(entries, id.value, filled.value, |target|);
          RecordsWidth(if 1 + n < |lines| then lines[2 + n..] else [], filled.value, Put(entries, id.value, filled.value));
        }
      }
    }
  }

  lemma LoadedWidth(lines: seq<Line>, mirror: Identity, scratch: Vec)
    ensures Loaded(lines, mirror, scratch).Some? ==> AllWide(Loaded(lines, mirror, scratch).value, |scratch|)
  {
    hide *;
    NothingLoaded(mirror, scratch);
    if lines != [] {
      var n := UpToCut(lines[1..]);
      RecordsWidth(if 1 + n < |lines| then lines[2 + n..] else [], scratch, []);
      LoadedUnfold(lines, mirror, scratch);
    }
  }

  lemma NothingLoaded(mirror: Identity, scratch: Vec)
    ensures Loaded([], mirror, scratch).None? && AllWide([], |scratch|)
  {
  }

  /** The children that a file of some records will move. */
  ghost function Recorded(children: seq<Child>, records: seq<Record>): seq<Child> {
    if children == [] then [] else
    var n := |children| - 1;
    if !children[n].isTable && exists k :: IsRecordOf(records, children[n].id.name, k) then Recorded(children[..n], records) + [children[n]]
    else Recorded(children[..n], records)
  }

  predicate AllNamed(children: seq<Child>) { forall i :: 0 <= i < |children| ==> children[i].id.name != "" }

  lemma {:induction false} RecordedAreMoved(title: string, width: nat, records: seq<Record>, children: seq<Child>)
    requires AllStorable(title, records, width) && DistinctNames(records) && AllNamed(children)
    ensures ToMove(children, PutAll([], records)) == Recorded(children, records)
    ensures forall p, k :: p in Recorded(children, records) && IsRecordOf(records, p.id.name, k) ==>
              Get(PutAll([], records), p.id) == Some(records[k].values)
  {
    hide PutAll, Get, AllStorable, DistinctNames;
    if children != [] {
      var n := |children| - 1;
      var p := children[n];
      RecordedAreMoved(title, width, records, children[..n]);
      LookUp(title, width, records, p.id);
    }
  }

  lemma LookUp(title: string, width: nat, records: seq<Record>, id: Identity)
    requires AllStorable(title, records, width) && DistinctNames(records) && id.name != ""
    ensures var found := Get(PutAll([], records), id);
            && (found.Some? <==> exists k :: IsRecordOf(records, id.name, k))
            && (forall k :: IsRecordOf(records, id.name, k) ==> found == Some(records[k].values))
  {
    GetPutAll(title, width, [], records, id);
    hide PutAll, AllStorable, DistinctNames;
  }

  /** Loading a saved file in the same mirror plans to move exactly the panels the file has lengths for,
      except an optical table, and slice `k` of the plan takes the `k`-th of them from its current lengths
      to the saved ones. */
  lemma SavedLengthsAreRestored(mirror: Identity, info: seq<Line>, records: seq<Record>, azEl: string, scratch: Six,
                                children: seq<Child>, x: Vec, panels: seq<Child>)
    requires NoComma(mirror.address) && NoComma(mirror.name) && NoParentheses(mirror.address) && NoParentheses(mirror.name)
    requires ComesBack(mirror) && CUT !in info
    requires AllStorable("Panel: ", records, 6) && DistinctNames(records) && AllNamed(children)
    ensures var loaded := Loaded(File("Panel: ", mirror, info, records, azEl), mirror, scratch);
            && loaded.Some?
            && (IsPlan(loaded.value, children, x, panels) ==>
                  && panels == Recorded(children, records) && 6 * |panels| <= |x|
                  && forall k, j :: 0 <= k < |panels| && IsRecordOf(records, panels[k].id.name, j) ==>
                       Add(panels[k].lengths, Slice(x, k)) == records[j].values)
  {
    FileLoads("Panel: ", mirror, info, records, azEl, mirror, scratch);
    RestoredIsSame(mirror);
    RecordedAreMoved("Panel: ", 6, records, children);
    hide *;
    var loaded := Loaded(File("Panel: ", mirror, info, records, azEl), mirror, scratch);
    if IsPlan(loaded.value, children, x, panels) {
      PlanOfRecords(records, loaded.value, children, x, panels);
    }
  }

  lemma RestoredIsSame(mirror: Identity)
    requires NoComma(mirror.address) && NoComma(mirror.name) && ComesBack(mirror)
    ensures Same(Restored(mirror), mirror)
  {
    ParsedOfPrinted(mirror);
    SameAfterPrinting(mirror);
    hide Parsed, Printed, ComesBack, NoComma, Same;
  }

  lemma PlanOfRecords(records: seq<Record>, entries: Entries, children: seq<Child>, x: Vec, panels: seq<Child>)
    requires IsPlan(entries, children, x, panels) && ToMove(children, entries) == Recorded(children, records)
    requires forall p, k :: p in Recorded(children, records) && IsRecordOf(records, p.id.name, k) ==>
               Get(entries, p.id) == Some(records[k].values)
    ensures panels == Recorded(children, records) && 6 * |panels| <= |x|
    ensures forall k, j :: 0 <= k < |panels| && IsRecordOf(records, panels[k].id.name, j) ==>
              Add(panels[k].lengths, Slice(x, k)) == records[j].values
  {
    hide Get, ToMove, Recorded;
    forall k, j | 0 <= k < |panels| && IsRecordOf(records, panels[k].id.name, j)
      ensures Add(panels[k].lengths, Slice(x, k)) == records[j].values
    {
      assert panels[k] in panels;
      assert Reaches(entries, panels[k], Slice(x, k));
    }
  }
}
