/** Identities of devices: their comparison, their printed form, and reading it back. */
module DeviceIdentity {
  import opened Basics
  import opened SelectionText

  /** The defaults -1 and "" stand for "not given". */
  datatype Identity = Identity(serial: Int32, address: string, name: string, position: Int32)

  const DEFAULT := Identity(-1, "", "", -1)

  /** Two identities are the same if the first field that both give is: name, serial number, address,
      position, in this order; if they give no field in common, they are compared field by field. */
  predicate Same(a: Identity, b: Identity) {
    if a.name != "" && b.name != "" then a.name == b.name
    else if a.serial != -1 && b.serial != -1 then a.serial == b.serial
    else if a.address != "" && b.address != "" then a.address == b.address
    else if a.position != -1 && b.position != -1 then a.position == b.position
    else a == b
  }

  function Printed(id: Identity): string {
    "(" + Decimal(id.serial) + ", " + id.address + ", " + id.name + ", " + Decimal(id.position) + ")"
  }

  function NoSpaces(s: string): (r: string)
    ensures |r| <= |s|
  {
    if s == "" then "" else (if s[0] == ' ' then "" else [s[0]]) + NoSpaces(s[1..])
  }

  /** Number of characters before the first comma. */
  function CommaAt(s: string): (k: nat)
    ensures k <= |s| && (k < |s| ==> s[k] == ',')
  {
    if s == "" || s[0] == ',' then 0 else 1 + CommaAt(s[1..])
  }

  function Tokens(s: string): seq<string> {
    if s == "" then [] else
    var k := CommaAt(s);
    if k == |s| then [s] else [s[..k]] + Tokens(s[k + 1..])
  }

  method Tokenize(s: string) returns (tokens: seq<string>)
    ensures tokens == Tokens(s)
  {
    hide Tokens, CommaAt;
    TokensUnfold(s);
    var rest := s;
    tokens := [];
    while rest != ""
      invariant tokens + Tokens(rest) == Tokens(s)
      decreases |rest|
    {
      TokensUnfold(rest);
      var k := CommaAt(rest);
      tokens := tokens + [rest[..k]];
      rest := if k == |rest| then "" else rest[k + 1..];
    }
    assert tokens + [] == tokens;
  }

  lemma TokensUnfold(s: string)
    ensures Tokens("") == []
    ensures s != "" ==> Tokens(s) == [s[..CommaAt(s)]] + Tokens(if CommaAt(s) == |s| then "" else s[CommaAt(s) + 1..])
  {
    if s != "" && CommaAt(s) == |s| {
      assert s[..|s|] == s;
    }
  }

  /** The identity made of four tokens: the last one, the position, is stored as the serial number, over
      the serial number of the first, and the position stays as it is by default. */
  function FromTokens(tokens: seq<string>): Option<Identity> {
    if |tokens| != 4 then Some(DEFAULT) else
    var serial, position := Stoi(tokens[0]), Stoi(tokens[3]);
    if serial.None? || position.None? then None
    else Some(Identity(position.value, tokens[1], tokens[2], -1))
  }

  /** Reads an identity: nothing if it throws, the default if the text has not the right form. */
  function Parsed(text: string): Option<Identity> {
    if text == "" then None
    else if text[0] != '(' then Some(DEFAULT)
    else if |text| == 1 then None
    else if text[|text| - 1] != ')' then Some(DEFAULT)
    else FromTokens(Tokens(NoSpaces(text[1..|text| - 1])))
  }

  method ParseIdentity(text: string) returns (id: Option<Identity>)
    ensures id == Parsed(text)
  {
    hide FromTokens, Tokens, NoSpaces;
    if text == "" { return None; }
    if text[0] != '(' { return Some(DEFAULT); }
    var s := text[1..];
    if s == "" { return None; }
    if s[|s| - 1] != ')' { return Some(DEFAULT); }
    s := NoSpaces(s[..|s| - 1]);
    assert text[1..|text| - 1] == text[1..][..|text| - 2];
    var tokens := Tokenize(s);
    id := FromTokens(tokens);
  }

  /* ---------- reading back what was printed ---------- */

  predicate NoComma(s: string) { forall i :: 0 <= i < |s| ==> s[i] != ',' }

  lemma {:induction false} NoSpacesConcat(a: string, b: string)
    ensures NoSpaces(a + b) == NoSpaces(a) + NoSpaces(b)
  {
    if a == "" {
      assert a + b == b;
    } else {
      assert (a + b)[1..] == a[1..] + b;
      NoSpacesConcat(a[1..], b);
    }
  }

  lemma {:induction false} NothingToRemove(s: string)
    requires forall i :: 0 <= i < |s| ==> s[i] != ' '
    ensures NoSpaces(s) == s
  {
    if s != "" { NothingToRemove(s[1..]); }
  }

  lemma {:induction false} NoSpacesKeepsCommasOut(s: string)
    requires NoComma(s)
    ensures NoComma(NoSpaces(s))
  {
    if s != "" { NoSpacesKeepsCommasOut(s[1..]); }
  }

  lemma {:induction false} CommaAfter(w: string, rest: string)
    requires NoComma(w)
    ensures CommaAt(w + "," + rest) == |w|
    ensures CommaAt(w) == |w|
  {
    if w != "" {
      assert (w + "," + rest)[1..] == w[1..] + "," + rest;
      CommaAfter(w[1..], rest);
    }
  }

  lemma TokensCons(w: string, rest: string)
    requires NoComma(w)
    ensures Tokens(w + "," + rest) == [w] + Tokens(rest)
    ensures w != "" ==> Tokens(w) == [w]
  {
    CommaAfter(w, rest);
    assert (w + "," + rest)[..|w|] == w && (w + "," + rest)[|w| + 1..] == rest;
  }

  lemma DecimalIsPlain(i: int)
    ensures Decimal(i) != "" && NoComma(Decimal(i)) && NoSpaces(Decimal(i)) == Decimal(i)
  {
    DecimalIsWord(i);
    var d := Decimal(i);
    forall k | 0 <= k < |d| ensures d[k] != ',' && d[k] != ' ' {
      assert !IsDelimiter(d[k]);
    }
    NothingToRemove(d);
  }

  lemma SeparatorLosesSpace(a: string, b: string)
    ensures NoSpaces(a + (", " + b)) == NoSpaces(a) + ("," + NoSpaces(b))
  {
    NoSpacesConcat(a, ", " + b);
    assert (", " + b)[0] == ',' && (", " + b)[1..][0] == ' ' && (", " + b)[1..][1..] == b;
  }

  lemma SpacesGone(s: string, address: string, name: string, p: string)
    requires NoSpaces(s) == s && NoSpaces(p) == p
    ensures NoSpaces(s + (", " + (address + (", " + (name + (", " + p))))))
            == s + ("," + (NoSpaces(address) + ("," + (NoSpaces(name) + ("," + p)))))
  {
    hide NoSpaces;
    SeparatorLosesSpace(name, p);
    SeparatorLosesSpace(address, name + (", " + p));
    SeparatorLosesSpace(s, address + (", " + (name + (", " + p))));
  }

  lemma FourTokens(s: string, a: string, n: string, p: string)
    requires NoComma(s) && NoComma(a) && NoComma(n) && NoComma(p) && p != ""
    ensures Tokens(s + ("," + (a + ("," + (n + ("," + p)))))) == [s, a, n, p]
  {
    hide Tokens, NoComma;
    assert s + ("," + (a + ("," + (n + ("," + p))))) == s + "," + (a + ("," + (n + ("," + p))));
    assert a + ("," + (n + ("," + p))) == a + "," + (n + ("," + p));
    assert n + ("," + p) == n + "," + p;
    TokensCons(s, a + ("," + (n + ("," + p))));
    TokensCons(a, n + ("," + p));
    TokensCons(n, p);
    TokensCons(p, "");
  }

  lemma PrintedTokens(id: Identity)
    requires NoComma(id.address) && NoComma(id.name)
    ensures var text := Printed(id);
            Tokens(NoSpaces(text[1..|text| - 1]))
            == [Decimal(id.serial), NoSpaces(id.address), NoSpaces(id.name), Decimal(id.position)]
  {
    hide Decimal, Tokens, NoSpaces, NoComma;
    var text := Printed(id);
    var s, p := Decimal(id.serial), Decimal(id.position);
    DecimalIsPlain(id.serial);
    DecimalIsPlain(id.position);
    NoSpacesKeepsCommasOut(id.address);
    NoSpacesKeepsCommasOut(id.name);
    assert text[1..|text| - 1] == s + (", " + (id.address + (", " + (id.name + (", " + p)))));
    SpacesGone(s, id.address, id.name, p);
    FourTokens(s, NoSpaces(id.address), NoSpaces(id.name), p);
  }

  /** What comes back from a printed identity: the position in place of the serial number, no position, and
      address and name without their spaces. */
  lemma ParsedOfPrinted(id: Identity)
    requires NoComma(id.address) && NoComma(id.name)
    ensures Parsed(Printed(id)) == Some(Identity(id.position, NoSpaces(id.address), NoSpaces(id.name), -1))
  {
    hide Decimal, Tokens, NoSpaces, Stoi, NoComma;
    PrintedTokens(id);
    StoiOfDecimal(id.serial, "");
    StoiOfDecimal(id.position, "");
    assert Decimal(id.serial) + "" == Decimal(id.serial) && Decimal(id.position) + "" == Decimal(id.position);
  }

  /** A field in which removing spaces changes nothing. */
  predicate Compact(s: string) { NoSpaces(s) == s }

  /** When the identity read back counts as the same: for a device with a name, when the name has no spaces;
      without one, when serial number and position agree, or else when the address has no spaces. */
  predicate ComesBack(id: Identity) {
    if NoSpaces(id.name) != "" then Compact(id.name)
    else if id.serial != -1 && id.position != -1 then id.serial == id.position
    else if NoSpaces(id.address) != "" then Compact(id.address)
    else id == DEFAULT
  }

  lemma SameAfterPrinting(id: Identity)
    requires NoComma(id.address) && NoComma(id.name)
    ensures Parsed(Printed(id)).Some?
    ensures Same(Parsed(Printed(id)).value, id) <==> ComesBack(id)
    ensures Parsed(Printed(id)) == Some(id) <==> id.serial == id.position == -1 && Compact(id.address) && Compact(id.name)
  {
    ParsedOfPrinted(id);
    hide Parsed, Printed;
    assert NoSpaces("") == "";
  }

  /** Devices with names without spaces are told apart by their names, and printing keeps them apart: what is
      read back from one is the same as another exactly when they have one name. */
  lemma NamesSurvive(id: Identity, other: Identity)
    requires NoComma(id.address) && NoComma(id.name)
    requires id.name != "" && Compact(id.name) && other.name != ""
    ensures Parsed(Printed(id)).Some?
    ensures Same(Parsed(Printed(id)).value, other) <==> id.name == other.name
    ensures Parsed(Printed(id)).value.name == id.name
  {
    ParsedOfPrinted(id);
    hide Parsed, Printed;
  }

  /* ---------- the comparison ---------- */

  lemma SameIsSymmetric(a: Identity, b: Identity)
    ensures Same(a, a) && (Same(a, b) <==> Same(b, a))
  {
  }

  /** The comparison is not transitive: an identity that lacks a field is the same as two that differ in it, if
      they agree in a later one. A name is looked at before a serial number, that before an address, and that
      before a position. */
  lemma SameIsNotTransitive(a: Identity, b: Identity)
    ensures a.name != "" && b.name != "" && a.name != b.name && a.serial == b.serial != -1 ==>
              !Same(a, b) && Same(a, a.(name := "")) && Same(a.(name := ""), b)
    ensures a.name == b.name == "" && a.serial != -1 && b.serial != -1 && a.serial != b.serial && a.address == b.address != "" ==>
              !Same(a, b) && Same(a, a.(serial := -1)) && Same(a.(serial := -1), b)
    ensures (&& a.name == b.name == "" && a.serial == b.serial == -1 && a.address != "" && b.address != "" && a.address != b.address
             && a.position == b.position != -1) ==>
              !Same(a, b) && Same(a, a.(address := "")) && Same(a.(address := ""), b)
  {
  }
}
