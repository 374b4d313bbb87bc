/** Texts and files told character by character and line by line: what is written where, and which items
    of a text are selected. */
module TextLaws {
  import opened Basics
  import opened DeviceIdentity
  import opened LinearAlgebra
  import opened SaveFiles
  import opened SelectionText
  import TargetFile

  /* ---------- selections ---------- */

  lemma PrintedPair(a: string, b: string)
    ensures Bracketed([]) == "[]" && Bracketed([a]) == "[" + a + "]" && Bracketed([a, b]) == "[" + a + ", " + b + "]"
  {
    assert [a, b][1..] == [b];
    assert Join([a, b]) == a + ", " + b;
    assert "[" + (a + ", " + b) + "]" == "[" + a + ", " + b + "]";
  }

  /** No blank, separator, quote, brace or bracket. */
  predicate IsPlain(w: string) {
    w != "" && forall i :: 0 <= i < |w| ==> w[i] !in " ,;:\"'{}[]"
  }

  lemma {:induction false} DelimiterAfter(w: string, d: char, rest: string)
    requires (forall i :: 0 <= i < |w| ==> w[i] !in " ,;:\"'{}") && d in " ,;:\"'{}"
    ensures NextDelimiter(w + [d] + rest) == |w|
  {
    if w == "" {
      assert w + [d] + rest == [d] + rest;
    } else {
      assert (w + [d] + rest)[1..] == w[1..] + [d] + rest;
      DelimiterAfter(w[1..], d, rest);
    }
  }

  lemma ItemAfter(w: string, d: char, rest: string)
    requires w != "" && (forall i :: 0 <= i < |w| ==> w[i] !in " ,;:\"'{}") && d in " ,;:\"'{}"
    ensures Items(w + [d] + rest) == [w] + Items(rest)
  {
    DelimiterAfter(w, d, rest);
    var s := w + [d] + rest;
    assert s[..|w|] == w && s[|w| + 1..] == rest;
    hide NextDelimiter;
  }

  lemma StrippedTexts(inner: string)
    requires inner != "" && inner[0] != '[' && inner[|inner| - 1] != ']'
    ensures Stripped("[" + inner + "]") == inner + "]" && Stripped(inner) == inner && Stripped(inner + "]") == inner
  {
  }

  lemma TwoBetween(a: string, d: char, b: string)
    requires a != "" && (forall i :: 0 <= i < |a| ==> a[i] !in " ,;:\"'{}") && d in " ,;:\"'{}"
    requires b != "" && forall i :: 0 <= i < |b| ==> b[i] !in " ,;:\"'{}"
    ensures Items(a + [d] + b + " ") == [a, b]
  {
    hide *;
    ItemAfter(a, d, b + " ");
    ItemAfter(b, ' ', "");
    NoItems();
    assert a + [d] + b + " " == a + [d] + (b + " ");
    assert b + [' '] + "" == b + " ";
  }

  /** Two items with any of the delimiters between them: with both brackets, the closing one stays on the
      second; without the opening one, it is taken off. */
  lemma TwoItems(a: string, d: char, b: string)
    requires IsPlain(a) && IsPlain(b) && d in " ,;:\"'{}"
    ensures ItemsOf("[" + (a + [d] + b) + "]") == [a, b + "]"]
    ensures ItemsOf(a + [d] + b) == [a, b] && ItemsOf(a + [d] + b + "]") == [a, b]
  {
    PlainHasNoDelimiter(a);
    PlainHasNoDelimiter(b);
    StrippedTexts(a + [d] + b);
    hide Items, Stripped, IsPlain;
    TwoBetween(a, d, b);
    TwoBetween(a, d, b + "]");
    assert a + [d] + (b + "]") == a + [d] + b + "]";
  }

  lemma PlainHasNoDelimiter(w: string)
    requires IsPlain(w)
    ensures w != "" && forall i :: 0 <= i < |w| ==> w[i] !in " ,;:\"'{}"
    ensures forall i :: 0 <= i < |w + "]"| ==> (w + "]")[i] !in " ,;:\"'{}"
  {
  }

  lemma NoItems()
    ensures Items("") == []
  {
  }

  /** Item `k` and all before it read as numbers, and item `k` is `x`, where a negative number may be meant as
      an unsigned one. */
  ghost predicate ReadsAt(items: seq<string>, k: nat, unsigned: bool, x: int) {
    && k < |items| && (forall j :: 0 <= j <= k ==> Stoi(items[j]).Some?)
    && var v := Stoi(items[k]).value; x == if unsigned && v < 0 then v + 4294967296 else v
  }

  lemma UnsignedIs(i: Int32)
    ensures Unsigned(i) == if i < 0 then i + 4294967296 else i
  {
  }

  /** Reading numbers throws exactly when there is an item but no children of the type, or an item is no
      number. */
  lemma {:induction false} NumbersThrowIff(items: seq<string>, children: Option<set<int>>, unsigned: bool)
    ensures Numbers(items, children, unsigned).None? <==>
            items != [] && (children.None? || exists k :: 0 <= k < |items| && Stoi(items[k]).None?)
  {
    hide Stoi, Unsigned;
    if items != [] {
      var n := |items| - 1;
      NumbersThrowIff(items[..n], children, unsigned);
      if k :| 0 <= k < |items| && Stoi(items[k]).None? && children.Some? {
        assert k < n ==> items[..n][k] == items[k];
      }
    }
  }

  /** The selection left, whether or not it throws, is exactly the children among the numbers read before the
      first item that is no number. */
  lemma {:induction false} SelectedNumbers(items: seq<string>, children: set<int>, unsigned: bool, x: int)
    ensures x in NumbersKept(items, Some(children), unsigned) <==> x in children && exists k: nat :: ReadsAt(items, k, unsigned, x)
  {
    if items != [] {
      var n := |items| - 1;
      SelectedNumbers(items[..n], children, unsigned, x);
      OneMoreItem(items, unsigned, x);
      NumbersThrowIff(items, Some(children), unsigned);
      KeptNext(items, children, unsigned);
      hide *;
    }
  }

  lemma OneMoreItem(items: seq<string>, unsigned: bool, x: int)
    requires items != []
    ensures var n := |items| - 1;
            (exists k: nat :: ReadsAt(items, k, unsigned, x)) <==>
            (exists k: nat :: ReadsAt(items[..n], k, unsigned, x)) || ReadsAt(items, n, unsigned, x)
  {
    hide Stoi;
    var n := |items| - 1;
    forall k: nat | k < n ensures ReadsAt(items, k, unsigned, x) <==> ReadsAt(items[..n], k, unsigned, x) {
      assert forall j :: 0 <= j <= k ==> items[..n][j] == items[j];
    }
  }

  /** One more item adds its number if it is a child and nothing threw before. */
  lemma KeptNext(items: seq<string>, children: set<int>, unsigned: bool)
    requires items != []
    ensures var n := |items| - 1;
            forall x :: x in NumbersKept(items, Some(children), unsigned) <==>
              x in NumbersKept(items[..n], Some(children), unsigned) || (x in children && ReadsAt(items, n, unsigned, x))
  {
    hide Stoi, Unsigned;
    var n := |items| - 1;
    NumbersThrowIff(items[..n], Some(children), unsigned);
    NumbersThrowIff(items, Some(children), unsigned);
    AllBefore(items);
    if Numbers(items, Some(children), unsigned).Some? {
      UnsignedIs(Stoi(items[n]).value);
      NumbersDone(items[..n], Some(children), unsigned);
    }
  }

  lemma AllBefore(items: seq<string>)
    requires items != []
    ensures var n := |items| - 1;
            (exists k :: 0 <= k < n && Stoi(items[..n][k]).None?) <==> !(forall j :: 0 <= j < n ==> Stoi(items[j]).Some?)
  {
    hide Stoi;
    assert forall j :: 0 <= j < |items| - 1 ==> items[..|items| - 1][j] == items[j];
  }

  lemma {:induction false} AddressesThrowIff(items: seq<string>, children: Option<set<string>>)
    ensures Addresses(items, children).None? <==> items != [] && children.None?
  {
    if items != [] { AddressesThrowIff(items[..|items| - 1], children); }
  }

  /** The edges selected are exactly the items that are addresses of children. */
  lemma SelectedAddresses(items: seq<string>, children: set<string>, a: string)
    ensures a in AddressesKept(items, Some(children)) <==> a in children && a in items
  {
    AddressesOfItems(items, children);
    AddressesDone(items, Some(children));
    hide Addresses, AddressesKept;
  }

  /* ---------- identities ---------- */

  /** A text of four fields between parentheses: the last becomes the serial number, the first is read and
      lost, the middle ones are address and name. */
  lemma ParsedFields(a: string, b: string, c: string, d: string)
    requires forall w :: w in [a, b, c, d] ==> forall i :: 0 <= i < |w| ==> w[i] != ',' && w[i] != ' '
    requires d != ""
    ensures Parsed("(" + a + "," + b + "," + c + "," + d + ")") ==
            if Stoi(a).None? || Stoi(d).None? then None else Some(Identity(Stoi(d).value, b, c, -1))
  {
    assert a in [a, b, c, d] && b in [a, b, c, d] && c in [a, b, c, d] && d in [a, b, c, d];
    hide Stoi, Tokens, NoSpaces, Parsed;
    var inner := a + ("," + (b + ("," + (c + ("," + d)))));
    TogetherAre(a, b, c, d);
    FieldsHaveNoSpaces(a, b, c, d);
    ParsedInside(inner);
    FourTokens(a, b, c, d);
  }

  lemma TogetherAre(a: string, b: string, c: string, d: string)
    ensures "(" + a + "," + b + "," + c + "," + d + ")" == "(" + (a + ("," + (b + ("," + (c + ("," + d)))))) + ")"
  {
    assert "(" + a + "," + b + "," + c + "," + d + ")" == "(" + (a + "," + b + "," + c + "," + d) + ")";
    assert a + "," + b + "," + c + "," + d == a + ("," + (b + "," + c + "," + d));
    assert b + "," + c + "," + d == b + ("," + (c + "," + d));
    assert c + "," + d == c + ("," + d);
  }

  lemma FieldsHaveNoSpaces(a: string, b: string, c: string, d: string)
    requires forall w :: w in [a, b, c, d] ==> forall i :: 0 <= i < |w| ==> w[i] != ',' && w[i] != ' '
    ensures forall i :: 0 <= i < |a + ("," + (b + ("," + (c + ("," + d)))))| ==> (a + ("," + (b + ("," + (c + ("," + d))))))[i] != ' '
  {
    assert a in [a, b, c, d] && b in [a, b, c, d] && c in [a, b, c, d] && d in [a, b, c, d];
    var s0 := c + ("," + d);
    assert forall i :: 0 <= i < |s0| ==> s0[i] != ' ';
    var s1 := b + ("," + s0);
    assert forall i :: 0 <= i < |s1| ==> s1[i] != ' ';
  }

  lemma ParsedInside(inner: string)
    requires forall i :: 0 <= i < |inner| ==> inner[i] != ' '
    ensures Parsed("(" + inner + ")") == FromTokens(Tokens(inner))
  {
    var text := "(" + inner + ")";
    assert text[1..|text| - 1] == inner;
    NothingToRemove(inner);
    hide NoSpaces, FromTokens, Tokens;
  }

  /* ---------- files ---------- */

  lemma {:induction false} BlocksSplit(title: string, records: seq<Record>, k: nat)
    requires k < |records|
    ensures Blocks(title, records) == Blocks(title, records[..k]) + (Block(title, records[k]) + Blocks(title, records[k + 1..]))
  {
    hide Block;
    if k == 0 {
      assert records[..0] == [];
      assert [] + (Block(title, records[0]) + Blocks(title, records[1..])) == Blocks(title, records);
    } else {
      BlocksSplit(title, records[1..], k - 1);
      assert records[1..][..k - 1] == records[..k][1..] && records[1..][k..] == records[k + 1..];
      assert records[..k][0] == records[0] && records[1..][k - 1] == records[k];
      var front, rest := Blocks(title, records[..k][1..]), Block(title, records[k]) + Blocks(title, records[k + 1..]);
      assert Block(title, records[0]) + (front + rest) == Block(title, records[0]) + front + rest;
    }
  }

  /** Blocks of two values have four lines each, blocks of six have eight. */
  lemma {:induction false} BlocksLength(title: string, records: seq<Record>)
    ensures (forall k :: 0 <= k < |records| ==> |records[k].values| == 2) ==> |Blocks(title, records)| == 4 * |records|
    ensures (forall k :: 0 <= k < |records| ==> |records[k].values| == 6) ==> |Blocks(title, records)| == 8 * |records|
  {
    if records != [] {
      assert |records[0].values| == |Numbered(records[0].values)|;
      BlocksLength(title, records[1..]);
    }
  }

  /** The lines of the block of record `k`, `at` lines after the delimiter that ends the top of the file. */
  ghost predicate BlockAt(f: seq<Line>, at: nat, header: string, values: Vec) {
    && at + |values| + 2 <= |f|
    && f[at] == Text(header) && f[at + |values| + 1] == Text("****************************************")
    && forall i :: 0 <= i < |values| ==> f[at + 1 + i] == Num(values[i])
  }

  lemma BlockLines(title: string, r: Record, before: seq<Line>, after: seq<Line>)
    ensures BlockAt(before + (Block(title, r) + after), |before|, title + Printed(r.id), r.values)
  {
    var f := before + (Block(title, r) + after);
    forall i | 0 <= i < |r.values| ensures f[|before| + 1 + i] == Num(r.values[i]) {
      assert Block(title, r)[1 + i] == Numbered(r.values)[i];
    }
  }

  /** A file starts with the mirror and its lines of information, ends with the direction of the telescope, and
      between has one block per record: a header, the values, and a line of asterisks. */
  lemma FileLines(title: string, mirror: Identity, info: seq<Line>, records: seq<Record>, azEl: string, k: nat)
    requires k < |records|
    ensures var f := File(title, mirror, info, records, azEl);
            && f[0] == Text("Mirror: " + Printed(mirror)) && f[1..1 + |info|] == info
            && f[|f| - 1] == Text("Az: " + azEl)
            && ((forall j :: 0 <= j < |records| ==> |records[j].values| == 2) ==>
                  |f| == |info| + 3 + 4 * |records|
                  && BlockAt(f, |info| + 2 + 4 * k, title + Printed(records[k].id), records[k].values))
            && ((forall j :: 0 <= j < |records| ==> |records[j].values| == 6) ==>
                  |f| == |info| + 3 + 8 * |records|
                  && BlockAt(f, |info| + 2 + 8 * k, title + Printed(records[k].id), records[k].values))
  {
    hide *;
    BlocksSplit(title, records, k);
    BlocksLength(title, records);
    BlocksLength(title, records[..k]);
    FileParts(title, mirror, info, Blocks(title, records), records, azEl);
    var before := Top(mirror, info) + Blocks(title, records[..k]);
    var after := Blocks(title, records[k + 1..]) + [Text("Az: " + azEl)];
    Regrouped(Top(mirror, info), Blocks(title, records[..k]), Block(title, records[k]), Blocks(title, records[k + 1..]), [Text("Az: " + azEl)]);
    BlockLines(title, records[k], before, after);
  }

  lemma FileParts(title: string, mirror: Identity, info: seq<Line>, blocks: seq<Line>, records: seq<Record>, azEl: string)
    requires blocks == Blocks(title, records)
    ensures var f := File(title, mirror, info, records, azEl);
            && f == Top(mirror, info) + blocks + [Text("Az: " + azEl)] && |Top(mirror, info)| == |info| + 2
            && |f| == |info| + 3 + |blocks|
            && f[0] == Text("Mirror: " + Printed(mirror)) && f[1..1 + |info|] == info
            && f[|f| - 1] == Text("Az: " + azEl)
  {
    hide Blocks, Printed, DELIMITER;
  }

  lemma Regrouped(a: seq<Line>, b: seq<Line>, c: seq<Line>, d: seq<Line>, e: seq<Line>)
    ensures a + (b + (c + d)) + e == a + b + (c + (d + e))
  {
    assert a + (b + (c + d)) == a + b + (c + d);
    assert a + b + (c + d) + e == a + b + ((c + d) + e);
    assert (c + d) + e == c + (d + e);
  }

  /** A saved sensor has its two coordinates in its block, x first. */
  lemma PositionLines(mirror: Identity, info: seq<Line>, sensors: seq<Identity>, read: nat -> (real, real), azEl: string, k: nat)
    requires k < |sensors|
    ensures BlockAt(File("MPES: ", mirror, info, Positions(sensors, read), azEl), |info| + 2 + 4 * k,
                    "MPES: " + Printed(sensors[k]), [read(k).0, read(k).1])
  {
    FileLines("MPES: ", mirror, info, Positions(sensors, read), azEl, k);
    hide File, Printed, BlockAt;
  }

  /** The records of saved lengths are those of the panels that could be read, in their order. */
  lemma {:induction false} ReadableAre(panels: seq<Reading>)
    ensures forall r :: r in Readable(panels) <==>
              exists i :: 0 <= i < |panels| && panels[i].lengths.Some? && r == Record(panels[i].id, panels[i].lengths.value)
    ensures (forall i :: 0 <= i < |panels| ==> panels[i].lengths.Some?) ==>
              |Readable(panels)| == |panels|
              && forall i :: 0 <= i < |panels| ==> Readable(panels)[i] == Record(panels[i].id, panels[i].lengths.value)
  {
    if panels != [] {
      var n := |panels| - 1;
      ReadableAre(panels[..n]);
      assert forall i :: 0 <= i < n ==> panels[..n][i] == panels[i];
    }
  }

  /* ---------- devices that files can hold ---------- */

  predicate Without(s: string, c: char) { forall i :: 0 <= i < |s| ==> s[i] != c }

  lemma JoinedWithout(a: string, b: string, c: char)
    requires Without(a, c) && Without(b, c)
    ensures Without(a + b, c)
  {
  }

  lemma DecimalWithoutColon(i: int)
    ensures Without(Decimal(i), ':')
  {
    TargetFile.DecimalPlain(i);
    var d := Decimal(i);
    forall k | 0 <= k < |d| ensures d[k] != ':' {
      if i < 0 && k > 0 { assert d[k] == Digits(-i)[k - 1]; }
    }
  }

  lemma PrintedWithoutColon(id: Identity)
    requires Without(id.address, ':') && Without(id.name, ':')
    ensures Without(Printed(id), ':')
  {
    hide Decimal;
    DecimalWithoutColon(id.serial);
    DecimalWithoutColon(id.position);
    var a := "(" + Decimal(id.serial) + ", ";
    assert Without(a, ':');
    var b := a + id.address + ", ";
    assert Without(b, ':');
    var c := b + id.name + ", ";
    assert Without(c, ':');
    assert Printed(id) == c + Decimal(id.position) + ")";
  }

  lemma NoColonAfterZ(title: string, printed: string, i: nat)
    requires (title == "Panel: " || title == "MPES: ") && Without(printed, ':') && 0 < i < |title + printed|
    ensures (title + printed)[i] == ':' ==> (title + printed)[i - 1] != 'z'
  {
    if i >= |title| { assert (title + printed)[i] == printed[i - |title|]; }
  }

  lemma NoAzimuth(title: string, printed: string)
    requires (title == "Panel: " || title == "MPES: ") && Without(printed, ':')
    ensures !Contains(title + printed, "Az:")
  {
    var s := title + printed;
    forall k: nat ensures !OccursAt(s, "Az:", k) {
      if k + 3 <= |s| && s[k..k + 3] == "Az:" {
        assert s[k..k + 3][2] == s[k + 2] && s[k..k + 3][1] == s[k + 1];
        NoColonAfterZ(title, printed, k + 2);
        assert false;
      }
    }
  }

  lemma PlainField(w: string)
    requires forall i :: 0 <= i < |w| ==> w[i] !in " ,():"
    ensures NoComma(w) && NoParentheses(w) && Without(w, ':') && NoSpaces(w) == w
  {
    NothingToRemove(w);
    hide NoSpaces;
  }

  lemma TitleHasNone(title: string)
    requires title == "Panel: " || title == "MPES: "
    ensures NoParentheses(title)
  {
  }

  /** Any device with a name can be stored and found again if neither its name nor its address holds a blank, a
      comma, a parenthesis or a colon. */
  lemma StorableDevice(title: string, id: Identity)
    requires title == "Panel: " || title == "MPES: "
    requires id.name != "" && forall i :: 0 <= i < |id.name| ==> id.name[i] !in " ,():"
    requires forall i :: 0 <= i < |id.address| ==> id.address[i] !in " ,():"
    ensures Storable(title, id)
  {
    hide Printed, NoSpaces, Contains, NoComma, NoParentheses, Without;
    PlainField(id.name);
    PlainField(id.address);
    TitleHasNone(title);
    PrintedWithoutColon(id);
    NoAzimuth(title, Printed(id));
  }

  /** Any sensor is read by the calibration tool that has a serial number of five digits, its name made of it, and
      an address of digits. */
  lemma ReadableSensor(serial: Int32, address: string, position: Int32, x: real, y: real)
    requires 10000 <= serial <= 99999 && forall i :: 0 <= i < |address| ==> '0' <= address[i] <= '9'
    ensures TargetFile.IsReadable(Record(Identity(serial, address, "MPES_" + Digits(serial), position), [x, y]))
  {
  }
}
