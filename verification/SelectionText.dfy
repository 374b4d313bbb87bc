/** The text of a selection: how a mirror prints the panels, sensors or edges it has selected, and how
    it reads such a text back. */
module SelectionText {
  import opened Basics

  const INT_MAX: int := 0x7FFF_FFFF
  const TWO_32: int := 0x1_0000_0000

  type Int32 = i: int | -INT_MAX - 1 <= i <= INT_MAX

  /** Panel positions are kept as unsigned numbers. */
  type UInt32 = i: int | 0 <= i < TWO_32

  /* ---------- decimal numbers ---------- */

  function DigitChar(d: nat): char
    requires d < 10
  {
    '0' + (d as char)
  }

  predicate IsDigit(c: char) { '0' <= c <= '9' }

  function DigitValue(c: char): nat
    requires IsDigit(c)
  {
    (c - '0') as nat
  }

  function Digits(n: nat): (s: string)
    ensures s != "" && forall i :: 0 <= i < |s| ==> IsDigit(s[i])
  {
    if n < 10 then [DigitChar(n)] else Digits(n / 10) + [DigitChar(n % 10)]
  }

  function Decimal(i: int): string {
    if i < 0 then "-" + Digits(-i) else Digits(i)
  }

  /** Number of digits at the front. */
  function DigitCount(s: string): (n: nat)
    ensures n <= |s| && forall i :: 0 <= i < n ==> IsDigit(s[i])
    ensures n < |s| ==> !IsDigit(s[n])
  {
    if s == "" || !IsDigit(s[0]) then 0 else 1 + DigitCount(s[1..])
  }

  function DigitsValue(s: string): nat
    requires forall i :: 0 <= i < |s| ==> IsDigit(s[i])
  {
    if s == "" then 0 else 10 * DigitsValue(s[..|s| - 1]) + DigitValue(s[|s| - 1])
  }

  predicate IsSpace(c: char) { c == ' ' || '\t' <= c <= '\r' }

  function SkipSpaces(s: string): string {
    if s != "" && IsSpace(s[0]) then SkipSpaces(s[1..]) else s
  }

  /** The value of the digits at the front, with the given sign; nothing if there are none or the value is
      out of range, where the library throws. */
  function ReadDigits(s: string, negative: bool): Option<Int32> {
    var n := DigitCount(s);
    var v: int := DigitsValue(s[..n]);
    var i := if negative then -v else v;
    if n == 0 || !(-INT_MAX - 1 <= i <= INT_MAX) then None else Some(i)
  }

  /** The number at the front of a string, whatever follows it. */
  function Stoi(s: string): Option<Int32> {
    var t := SkipSpaces(s);
    if t != "" && t[0] == '-' then ReadDigits(t[1..], true)
    else if t != "" && t[0] == '+' then ReadDigits(t[1..], false)
    else ReadDigits(t, false)
  }

  lemma {:induction false} DigitsRead(n: nat, rest: string)
    requires rest == "" || !IsDigit(rest[0])
    ensures DigitCount(Digits(n) + rest) == |Digits(n)| && DigitsValue(Digits(n)) == n
  {
    ValueOfDigits(n);
    CountDigits(Digits(n), rest);
  }

  lemma {:induction false} ValueOfDigits(n: nat)
    ensures DigitsValue(Digits(n)) == n
  {
    if n >= 10 {
      ValueOfDigits(n / 10);
      assert Digits(n)[..|Digits(n)| - 1] == Digits(n / 10);
    }
  }

  lemma {:induction false} CountDigits(s: string, rest: string)
    requires forall i :: 0 <= i < |s| ==> IsDigit(s[i])
    requires rest == "" || !IsDigit(rest[0])
    ensures DigitCount(s + rest) == |s|
  {
    if s == "" {
      assert s + rest == rest;
    } else {
      assert (s + rest)[1..] == s[1..] + rest;
      CountDigits(s[1..], rest);
    }
  }

  lemma ReadPrinted(n: nat, rest: string, negative: bool)
    requires rest == "" || !IsDigit(rest[0])
    ensures var i := if negative then 0 - n else n as int;
            ReadDigits(Digits(n) + rest, negative) == if -INT_MAX - 1 <= i <= INT_MAX then Some(i) else None
  {
    DigitsRead(n, rest);
    assert (Digits(n) + rest)[..|Digits(n)|] == Digits(n);
  }

  /** A printed number is read back whatever follows it, if it is in range. */
  lemma StoiOfDecimal(i: int, rest: string)
    requires rest == "" || !IsDigit(rest[0])
    ensures Stoi(Decimal(i) + rest) == if -INT_MAX - 1 <= i <= INT_MAX then Some(i) else None
  {
    hide ReadDigits, Digits;
    var n: nat := if i < 0 then -i else i;
    ReadPrinted(n, rest, i < 0);
    var s := Digits(n);
    assert IsDigit(s[0]);
    if i < 0 {
      assert (Decimal(i) + rest)[1..] == s + rest;
    }
  }

  /* ---------- printing and splitting ---------- */

  function Join(words: seq<string>): string {
    if words == [] then "" else
    if |words| == 1 then words[0] else words[0] + ", " + Join(words[1..])
  }

  function Bracketed(words: seq<string>): string { "[" + Join(words) + "]" }

  /** Appends one word after the other, with separators between them. */
  method Print(words: seq<string>) returns (s: string)
    ensures s == Bracketed(words)
  {
    s := "[";
    for i := 0 to |words|
      invariant s + Join(words[i..]) == "[" + Join(words)
    {
      ghost var before := s;
      s := s + words[i];
      if i != |words| - 1 {
        s := s + ", ";
        assert s + Join(words[i..][1..]) == before + Join(words[i..]);
      } else {
        assert words[i..] == [words[i]] && words[i + 1..] == [];
        assert s + "" == s;
      }
      assert words[i..][1..] == words[i + 1..];
    }
    assert words[|words|..] == [];
    assert s + "" == s;
    s := s + "]";
  }

  predicate IsDelimiter(c: char) { c in " ,;:\"'{}" }

  /** The text between the brackets, cut the way the library does it: from the front bracket, for as many
      characters as the position of the back bracket says. */
  function Stripped(text: string): string
    requires text != ""
  {
    var front := if text[0] == '[' then 1 else 0;
    var back := if text[|text| - 1] == ']' then |text| - 1 else |text|;
    text[front..if front + back < |text| then front + back else |text|]
  }

  /** Number of characters before the first delimiter. */
  function NextDelimiter(s: string): (k: nat)
    ensures k <= |s| && forall i :: 0 <= i < k ==> !IsDelimiter(s[i])
    ensures k < |s| ==> IsDelimiter(s[k])
  {
    if s == "" || IsDelimiter(s[0]) then 0 else 1 + NextDelimiter(s[1..])
  }

  /** The stretches between delimiters, except empty ones and what no delimiter follows. */
  function Items(s: string): seq<string> {
    var cur := NextDelimiter(s);
    if cur == |s| then [] else
    (if cur > 0 then [s[..cur]] else []) + Items(s[cur + 1..])
  }

  /** The items of a text. */
  function ItemsOf(text: string): seq<string>
    requires text != ""
  {
    Items(Stripped(text) + " ")
  }

  method Split(text: string) returns (items: seq<string>)
    requires text != ""
    ensures items == ItemsOf(text)
  {
    hide Stripped, NextDelimiter, Items;
    var s := Stripped(text) + " ";
    items := [];
    var prev := 0;
    assert s[0..] == s;
    while true
      invariant 0 <= prev <= |s|
      invariant items + Items(s[prev..]) == Items(s)
      decreases |s| - prev
    {
      var cur := FindFirstOf(s, prev);
      ItemsStep(s, prev, cur);
      if cur == |s| {
        break;
      }
      if cur > prev {
        items := items + [s[prev..cur]];
      }
      prev := cur + 1;
    }
    assert items + [] == items;
  }

  /** The place of the first delimiter from `from` on; the end of the string if there is none. */
  method FindFirstOf(s: string, from: nat) returns (cur: nat)
    requires from <= |s|
    ensures from <= cur <= |s| && cur == from + NextDelimiter(s[from..])
  {
    cur := from + NextDelimiter(s[from..]);
  }

  lemma ItemsUnfold(s: string)
    ensures var k := NextDelimiter(s);
            Items(s) == if k == |s| then [] else (if k > 0 then [s[..k]] else []) + Items(s[k + 1..])
  {
    hide NextDelimiter;
  }

  lemma ItemsStep(s: string, prev: nat, cur: nat)
    requires prev <= cur <= |s| && cur == prev + NextDelimiter(s[prev..])
    ensures cur == |s| ==> Items(s[prev..]) == []
    ensures cur < |s| ==> Items(s[prev..]) == (if cur > prev then [s[prev..cur]] else []) + Items(s[cur + 1..])
  {
    hide NextDelimiter, Items;
    var rest := s[prev..];
    ItemsUnfold(rest);
    var k := cur - prev;
    if cur < |s| {
      assert rest[..k] == s[prev..cur];
      assert rest[k + 1..] == s[cur + 1..];
    }
  }

  predicate IsWord(w: string) {
    w != "" && forall i :: 0 <= i < |w| ==> !IsDelimiter(w[i])
  }

  predicate AreWords(words: seq<string>) {
    forall k :: 0 <= k < |words| ==> IsWord(words[k])
  }

  /** The last word keeps the closing bracket. */
  function Bent(words: seq<string>): seq<string> {
    if words == [] then ["]"] else words[..|words| - 1] + [words[|words| - 1] + "]"]
  }

  lemma {:induction false} DelimiterAfter(w: string, rest: string)
    requires rest != "" && IsDelimiter(rest[0]) && forall i :: 0 <= i < |w| ==> !IsDelimiter(w[i])
    ensures NextDelimiter(w + rest) == |w|
  {
    if w == "" {
      assert w + rest == rest;
    } else {
      assert (w + rest)[1..] == w[1..] + rest;
      DelimiterAfter(w[1..], rest);
    }
  }

  lemma ItemsOfWord(w: string, c: char, rest: string)
    requires IsWord(w) && IsDelimiter(c)
    ensures Items(w + [c] + rest) == [w] + Items(rest)
  {
    DelimiterAfter(w, [c] + rest);
    assert w + [c] + rest == w + ([c] + rest);
    assert (w + [c] + rest)[..|w|] == w && (w + [c] + rest)[|w| + 1..] == rest;
  }

  lemma ItemsOfGap(c: char, rest: string)
    requires IsDelimiter(c)
    ensures Items([c] + rest) == Items(rest)
  {
    assert ([c] + rest)[1..] == rest;
  }

  /** Splitting a joined text finds the words again. */
  lemma {:induction false} ItemsOfJoined(words: seq<string>)
    requires words != [] && AreWords(words)
    ensures Items(Join(words) + " ") == words
  {
    hide IsWord, Items;
    var w := words[0];
    if |words| == 1 {
      assert Join(words) + " " == w + [' '] + "";
      ItemsOfWord(w, ' ', "");
      assert Items("") == [] by { NoItems(); }
      assert words == [w] + [];
    } else {
      var rest := Join(words[1..]) + " ";
      assert Join(words) + " " == w + [','] + ([' '] + rest);
      ItemsOfWord(w, ',', [' '] + rest);
      ItemsOfGap(' ', rest);
      ItemsOfJoined(words[1..]);
      assert words == [w] + words[1..];
    }
  }

  lemma NoItems()
    ensures Items("") == []
  {
  }

  lemma {:induction false} JoinBent(words: seq<string>)
    requires words != []
    ensures Join(Bent(words)) == Join(words) + "]"
  {
    if |words| > 1 {
      JoinBent(words[1..]);
      assert Bent(words)[1..] == Bent(words[1..]);
      assert Join(Bent(words)) == words[0] + ", " + Join(Bent(words[1..]));
    }
  }

  /** What is read back from a printed list: all its words, the last one with the bracket behind it; and
      a lone bracket from an empty list. */
  lemma ItemsOfPrinted(words: seq<string>)
    requires AreWords(words)
    ensures ItemsOf(Bracketed(words)) == Bent(words)
  {
    var text := Bracketed(words);
    assert text[|text| - 1] == ']' && text[0] == '[';
    assert Stripped(text) == Join(words) + "]" by {
      assert text[1..|text|] == Join(words) + "]";
    }
    var bent := Bent(words);
    if words == [] {
      assert Join(bent) == "]" && Join(words) + "]" == "]";
    } else {
      JoinBent(words);
    }
    forall k | 0 <= k < |bent| ensures IsWord(bent[k]) {
      if words != [] && k < |words| - 1 { assert bent[k] == words[k]; }
    }
    ItemsOfJoined(bent);
  }

  /* ---------- selections ---------- */

  /** The words of a list of numbers. */
  function Decimals(v: seq<int>): (words: seq<string>)
    ensures |words| == |v|
  {
    seq(|v|, k requires 0 <= k < |v| => Decimal(v[k]))
  }

  /** How a number read for a panel becomes a position. */
  function Unsigned(i: int): UInt32 { i % TWO_32 }

  /** What is selected when the items are numbers: the children among them. It throws at an item that is no
      number, and at any item if the mirror never had a child of the type, when there is no table of them. */
  function Numbers(items: seq<string>, children: Option<set<int>>, unsigned: bool): Option<set<int>> {
    if items == [] then Some({}) else
    var n := |items| - 1;
    var before := Numbers(items[..n], children, unsigned);
    var i := Stoi(items[n]);
    if before.None? || i.None? || children.None? then None else
    var key := if unsigned then Unsigned(i.value) else i.value;
    Some(if key in children.value then before.value + {key} else before.value)
  }

  /** What is selected when the items are addresses. */
  function Addresses(items: seq<string>, children: Option<set<string>>): Option<set<string>> {
    if items == [] then Some({}) else
    var n := |items| - 1;
    var before := Addresses(items[..n], children);
    if before.None? || children.None? then None else
    Some(if items[n] in children.value then before.value + {items[n]} else before.value)
  }

  /** What stays selected: everything read before the first item that throws. */
  function NumbersKept(items: seq<string>, children: Option<set<int>>, unsigned: bool): set<int> {
    var all := Numbers(items, children, unsigned);
    if all.Some? then all.value else if items == [] then {} else NumbersKept(items[..|items| - 1], children, unsigned)
  }

  function AddressesKept(items: seq<string>, children: Option<set<string>>): set<string> {
    var all := Addresses(items, children);
    if all.Some? then all.value else if items == [] then {} else AddressesKept(items[..|items| - 1], children)
  }

  /** The selections of a mirror. */
  class Selections {
    var panels: set<int>
    var sensors: set<int>
    var edges: set<string>

    constructor (panels: set<int>, sensors: set<int>, edges: set<string>)
      ensures this.panels == panels && this.sensors == sensors && this.edges == edges
    {
      this.panels, this.sensors, this.edges := panels, sensors, edges;
    }

    /** Sets the selected panels. The selection is cleared first; where it throws, what was read so far
        stays selected. */
    method SelectPanels(text: string, children: Option<set<int>>) returns (thrown: bool)
      requires text != ""
      modifies this`panels
      ensures thrown <==> Numbers(ItemsOf(text), children, true).None?
      ensures panels == NumbersKept(ItemsOf(text), children, true)
    {
      hide Numbers, NumbersKept, Stoi, ItemsOf, Unsigned;
      var items := Split(text);
      panels := {};
      NumbersNone(children, true);
      for k := 0 to |items|
        invariant Some(panels) == Numbers(items[..k], children, true)
      {
        NumbersNext(items, k, children, true);
        var i := Stoi(items[k]);
        if i.None? || children.None? {
          NumbersStop(items, k, children, true);
          return true;
        }
        if Unsigned(i.value) in children.value {
          panels := panels + {Unsigned(i.value)};
        }
      }
      assert items[..|items|] == items;
      NumbersDone(items, children, true);
      thrown := false;
    }

    method SelectSensors(text: string, children: Option<set<int>>) returns (thrown: bool)
      requires text != ""
      modifies this`sensors
      ensures thrown <==> Numbers(ItemsOf(text), children, false).None?
      ensures sensors == NumbersKept(ItemsOf(text), children, false)
    {
      hide Numbers, NumbersKept, Stoi, ItemsOf, Unsigned;
      var items := Split(text);
      sensors := {};
      NumbersNone(children, false);
      for k := 0 to |items|
        invariant Some(sensors) == Numbers(items[..k], children, false)
      {
        NumbersNext(items, k, children, false);
        var i := Stoi(items[k]);
        if i.None? || children.None? {
          NumbersStop(items, k, children, false);
          return true;
        }
        if i.value in children.value {
          sensors := sensors + {i.value};
        }
      }
      assert items[..|items|] == items;
      NumbersDone(items, children, false);
      thrown := false;
    }

    method SelectEdges(text: string, children: Option<set<string>>) returns (thrown: bool)
      requires text != ""
      modifies this`edges
      ensures thrown <==> Addresses(ItemsOf(text), children).None?
      ensures edges == AddressesKept(ItemsOf(text), children)
    {
      hide Addresses, AddressesKept, ItemsOf;
      var items := Split(text);
      edges := {};
      AddressesNone(children);
      for k := 0 to |items|
        invariant Some(edges) == Addresses(items[..k], children)
      {
        AddressesNext(items, k, children);
        if children.None? {
          AddressesStop(items, k, children);
          return true;
        }
        if items[k] in children.value {
          edges := edges + {items[k]};
        }
      }
      assert items[..|items|] == items;
      AddressesDone(items, children);
      thrown := false;
    }
  }

  lemma NumbersDone(items: seq<string>, children: Option<set<int>>, unsigned: bool)
    ensures Numbers(items, children, unsigned).Some? ==>
              NumbersKept(items, children, unsigned) == Numbers(items, children, unsigned).value
  {
  }

  lemma AddressesDone(items: seq<string>, children: Option<set<string>>)
    ensures Addresses(items, children).Some? ==> AddressesKept(items, children) == Addresses(items, children).value
  {
  }

  /** Where item `k` throws, what was read before it is kept. */
  lemma {:induction false} NumbersStop(items: seq<string>, k: nat, children: Option<set<int>>, unsigned: bool)
    requires k < |items| && Numbers(items[..k], children, unsigned).Some? && (Stoi(items[k]).None? || children.None?)
    ensures Numbers(items, children, unsigned).None?
    ensures NumbersKept(items, children, unsigned) == Numbers(items[..k], children, unsigned).value
  {
    hide Stoi, Unsigned;
    var n := |items| - 1;
    if k < n {
      assert items[..n][..k] == items[..k];
      NumbersStop(items[..n], k, children, unsigned);
    }
  }

  lemma {:induction false} AddressesStop(items: seq<string>, k: nat, children: Option<set<string>>)
    requires k < |items| && Addresses(items[..k], children).Some? && children.None?
    ensures Addresses(items, children).None?
    ensures AddressesKept(items, children) == Addresses(items[..k], children).value
  {
    var n := |items| - 1;
    if k < n {
      assert items[..n][..k] == items[..k];
      AddressesStop(items[..n], k, children);
    }
  }

  lemma NumbersNone(children: Option<set<int>>, unsigned: bool)
    ensures Numbers([], children, unsigned) == Some({})
  {
  }

  lemma AddressesNone(children: Option<set<string>>)
    ensures Addresses([], children) == Some({})
  {
  }

  /** Reading one more item; once an item throws, the whole reading throws. */
  lemma NumbersNext(items: seq<string>, k: nat, children: Option<set<int>>, unsigned: bool)
    requires k < |items|
    ensures var before := Numbers(items[..k], children, unsigned);
            var i := Stoi(items[k]);
            && (before.None? || i.None? || children.None? ==> Numbers(items, children, unsigned).None?)
            && (before.Some? && i.Some? && children.Some? ==>
                  var key := if unsigned then Unsigned(i.value) else i.value;
                  Numbers(items[..k + 1], children, unsigned)
                  == Some(if key in children.value then before.value + {key} else before.value))
  {
    hide Stoi, Unsigned;
    assert items[..k + 1][..k] == items[..k];
    NumbersThrow(items, k + 1, children, unsigned);
  }

  lemma AddressesNext(items: seq<string>, k: nat, children: Option<set<string>>)
    requires k < |items|
    ensures var before := Addresses(items[..k], children);
            && (before.None? || children.None? ==> Addresses(items, children).None?)
            && (before.Some? && children.Some? ==>
                  Addresses(items[..k + 1], children)
                  == Some(if items[k] in children.value then before.value + {items[k]} else before.value))
  {
    assert items[..k + 1][..k] == items[..k];
    AddressesThrow(items, k + 1, children);
  }

  lemma {:induction false} NumbersThrow(items: seq<string>, n: nat, children: Option<set<int>>, unsigned: bool)
    requires n <= |items|
    ensures Numbers(items[..n], children, unsigned).None? ==> Numbers(items, children, unsigned).None?
    decreases |items| - n
  {
    hide Stoi, Unsigned;
    if n < |items| {
      assert items[..n + 1][..n] == items[..n];
      NumbersThrow(items, n + 1, children, unsigned);
    } else {
      assert items[..n] == items;
    }
  }

  lemma {:induction false} AddressesThrow(items: seq<string>, n: nat, children: Option<set<string>>)
    requires n <= |items|
    ensures Addresses(items[..n], children).None? ==> Addresses(items, children).None?
    decreases |items| - n
  {
    if n < |items| {
      assert items[..n + 1][..n] == items[..n];
      AddressesThrow(items, n + 1, children);
    } else {
      assert items[..n] == items;
    }
  }

  /* ---------- round trips ---------- */

  ghost function Elements<T>(v: seq<T>): set<T> { set x | x in v }

  lemma DecimalIsWord(i: int)
    ensures IsWord(Decimal(i)) && IsWord(Decimal(i) + "]")
  {
    var d := Decimal(i);
    forall k | 0 <= k < |d| ensures IsDigit(d[k]) || d[k] == '-' {
      if i < 0 && k > 0 { assert d[k] == Digits(-i)[k - 1]; }
    }
  }

  predicate InRange(i: int) { -INT_MAX - 1 <= i <= INT_MAX }

  predicate AllInRange(v: seq<int>) { forall k :: 0 <= k < |v| ==> InRange(v[k]) }

  /** Items that read as the numbers of `v`, up to their range. */
  predicate ReadAs(items: seq<string>, v: seq<int>) {
    |items| == |v| && forall k :: 0 <= k < |v| ==> Stoi(items[k]) == if InRange(v[k]) then Some(v[k]) else None
  }

  lemma BentDecimalsReadAs(v: seq<int>)
    requires v != []
    ensures AreWords(Decimals(v)) && ReadAs(Bent(Decimals(v)), v)
  {
    hide Decimal, Stoi, IsWord;
    forall k | 0 <= k < |v|
      ensures IsWord(Decimals(v)[k])
      ensures Stoi(Bent(Decimals(v))[k]) == if InRange(v[k]) then Some(v[k]) else None
    {
      DecimalIsWord(v[k]);
      StoiOfDecimal(v[k], "");
      StoiOfDecimal(v[k], "]");
      assert Decimal(v[k]) + "" == Decimal(v[k]);
    }
  }

  lemma {:induction false} NumbersOfItems(items: seq<string>, v: seq<int>, children: set<int>, unsigned: bool)
    requires ReadAs(items, v) && Elements(v) <= children
    requires unsigned ==> forall k :: 0 <= k < |v| ==> Unsigned(v[k]) == v[k]
    ensures Numbers(items, Some(children), unsigned) == if AllInRange(v) then Some(Elements(v)) else None
  {
    hide Stoi, Unsigned;
    if v != [] {
      var n := |v| - 1;
      assert v == v[..n] + [v[n]];
      assert Elements(v) == Elements(v[..n]) + {v[n]};
      NumbersOfItems(items[..n], v[..n], children, unsigned);
      assert AllInRange(v) <==> AllInRange(v[..n]) && InRange(v[n]);
    } else {
      assert Elements(v) == {};
    }
  }

  /** A printed selection of panels is read back as the same selection exactly when it is not empty and
      all positions fit a signed number; otherwise reading it throws. The bracket left behind the last
      number does no harm. */
  lemma PanelsRoundTrip(v: seq<int>, children: Option<set<int>>)
    requires forall k :: 0 <= k < |v| ==> 0 <= v[k] < TWO_32
    requires v != [] ==> children.Some? && Elements(v) <= children.value
    ensures Numbers(ItemsOf(Bracketed(Decimals(v))), children, true)
            == if v != [] && AllInRange(v) then Some(Elements(v)) else None
  {
    hide *;
    if v == [] {
      EmptyThrows(children, true);
    } else {
      UnsignedAlready(v);
      BentDecimalsReadAs(v);
      ItemsOfPrinted(Decimals(v));
      assert children == Some(children.value);
      NumbersOfItems(Bent(Decimals(v)), v, children.value, true);
    }
  }

  lemma UnsignedAlready(v: seq<int>)
    requires forall k :: 0 <= k < |v| ==> 0 <= v[k] < TWO_32
    ensures forall k :: 0 <= k < |v| ==> Unsigned(v[k]) == v[k]
  {
  }

  /** The same for sensors, whose serial numbers are signed to begin with. */
  lemma SensorsRoundTrip(v: seq<int>, children: Option<set<int>>)
    requires AllInRange(v)
    requires v != [] ==> children.Some? && Elements(v) <= children.value
    ensures Numbers(ItemsOf(Bracketed(Decimals(v))), children, false)
            == if v != [] then Some(Elements(v)) else None
  {
    hide *;
    if v == [] {
      EmptyThrows(children, false);
    } else {
      BentDecimalsReadAs(v);
      ItemsOfPrinted(Decimals(v));
      assert children == Some(children.value);
      NumbersOfItems(Bent(Decimals(v)), v, children.value, false);
    }
  }

  /** What is printed for an empty selection is not read back: the lone bracket is no number. */
  lemma EmptyThrows(children: Option<set<int>>, unsigned: bool)
    ensures Numbers(ItemsOf(Bracketed(Decimals([]))), children, unsigned).None?
  {
    assert Decimals([]) == [];
    ItemsOfPrinted([]);
    hide Items, Stripped, Bracketed, Unsigned;
    assert Stoi("]").None? by { assert "]" != "" && !IsSpace(']') && !IsDigit(']'); }
    assert ["]"][..0] == [];
  }

  /** An edge address: the positions of its panels, joined by plus signs. */
  predicate IsAddress(a: string) {
    a != "" && forall i :: 0 <= i < |a| ==> IsDigit(a[i]) || a[i] == '+'
  }

  lemma AddressIsWord(a: string)
    requires IsAddress(a)
    ensures IsWord(a) && IsWord(a + "]") && !IsAddress(a + "]")
  {
    var b := a + "]";
    assert b[|a|] == ']';
  }

  lemma {:induction false} AddressesOfItems(items: seq<string>, children: set<string>)
    ensures Addresses(items, Some(children)) == Some(Elements(items) * children)
  {
    if items != [] {
      var n := |items| - 1;
      AddressesOfItems(items[..n], children);
      assert items == items[..n] + [items[n]];
      if items[n] in children {
        assert Elements(items) * children == Elements(items[..n]) * children + {items[n]};
      } else {
        assert Elements(items) * children == Elements(items[..n]) * children;
      }
    } else {
      assert Elements(items) * children == {};
    }
  }

  /** A printed selection of edges is read back without its last edge: the bracket left behind it makes it
      an address no child has. So only the empty selection comes back as it was, if there ever was an edge. */
  lemma EdgesLoseTheLast(v: seq<string>, children: Option<set<string>>)
    requires NoDuplicates(v) && (v != [] ==> children.Some? && Elements(v) <= children.value)
    requires children.Some? ==> forall a :: a in children.value ==> IsAddress(a)
    ensures var back := Addresses(ItemsOf(Bracketed(v)), children);
            && (children.Some? ==> back == Some(Elements(if v == [] then [] else v[..|v| - 1])))
            && (back == Some(Elements(v)) <==> v == [] && children.Some?)
  {
    forall k | 0 <= k < |v| ensures IsWord(v[k]) {
      assert v[k] in Elements(v);
      AddressIsWord(v[k]);
    }
    ItemsOfPrinted(v);
    hide Items, Stripped, Bracketed, IsWord;
    if children.Some? {
      AddressesOfItems(Bent(v), children.value);
      BentChildren(v, children.value);
    } else {
      assert Addresses(["]"], children).None?;
    }
  }

  lemma BentChildren(v: seq<string>, children: set<string>)
    requires NoDuplicates(v) && Elements(v) <= children && forall a :: a in children ==> IsAddress(a)
    ensures Elements(Bent(v)) * children == Elements(if v == [] then [] else v[..|v| - 1])
    ensures v != [] ==> Elements(v[..|v| - 1]) != Elements(v)
  {
    hide IsAddress;
    if v == [] {
      assert "]" !in children by { assert !IsAddress("]") by { BracketIsNoAddress(); } }
    } else {
      var n := |v| - 1;
      assert v[n] in v;
      AddressIsWord(v[n]);
      assert Elements(Bent(v)) == Elements(v[..n]) + {v[n] + "]"};
      assert Elements(v[..n]) <= children by { assert forall a :: a in v[..n] ==> a in v; }
      assert v[n] !in v[..n];
      assert v[n] in Elements(v);
    }
  }

  lemma BracketIsNoAddress()
    ensures !IsAddress("]")
  {
    assert "]"[0] == ']';
  }
}
