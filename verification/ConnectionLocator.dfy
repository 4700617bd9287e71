/** Connection locators: host:port:user:password:identifier[name=value,...], parsed and printed. */
module ConnectionLocator {
  import opened Wrappers
  import opened Strings
  import opened Decimals

  type Properties = map<string, string>

  datatype Locator = Locator(
    host: string, port: int, userName: string, password: string, identifier: string,
    properties: Properties)

  datatype ParseError =
    | NoOpeningBracket
    | BadPort(text: string)
    | BadProperty(definition: string)
    | ReservedName(name: string)
    | DuplicateProperty(name: string)

  function ToUpper(s: string): string {
    seq(|s|, i requires 0 <= i < |s| => if 'a' <= s[i] <= 'z' then s[i] - 'a' + 'A' else s[i])
  }

  predicate Reserved(name: string) {
    ToUpper(name) in {"HOST", "PORT", "USERNAME", "USER", "PASSWORD", "PASSWD", "IDENTIFIER"}
  }

  // ------------------------------------------------------------ parsing

  function AddProperty(p: string, known: Properties): Result<Properties, ParseError> {
    var nameAndValue := Split(p, '=');
    if |nameAndValue| > 2 then Failure(BadProperty(p))
    else
      var name := Trim(nameAndValue[0]);
      var value := if |nameAndValue| > 1 then Trim(nameAndValue[1]) else "";
      if Reserved(name) then Failure(ReservedName(name))
      else if name in known then Failure(DuplicateProperty(name))
      else Success(known[name := value])
  }

  function AddProperties(ps: seq<string>, known: Properties): Result<Properties, ParseError> {
    if ps == [] then Success(known)
    else
      match AddProperty(ps[0], known)
      case Failure(e) => Failure(e)
      case Success(more) => AddProperties(ps[1..], more)
  }

  predicate EndsWithBracket(s: string) {
    s != [] && s[|s| - 1] == ']'
  }

  /** The part before the last '[' and the part inside the brackets. */
  function Portions(x: string): Result<(string, string), ParseError> {
    if !EndsWithBracket(x) then Success((x, ""))
    else
      match RFind(x, '[')
      case None => Failure(NoOpeningBracket)
      case Some(k) => Success((Trim(x[..k]), Trim(x[k + 1..|x| - 1])))
  }

  function Field(parts: seq<string>, k: nat): string {
    if k < |parts| then parts[k] else ""
  }

  function PortOf(parts: seq<string>): Result<int, ParseError> {
    var text := Trim(Field(parts, 1));
    if text == "" then Success(0)
    else
      match ParseInt(text)
      case None => Failure(BadPort(Field(parts, 1)))
      case Some(n) => Success(n)
  }

  /** Everything after the fourth colon, colons included. */
  function IdentifierOf(parts: seq<string>): string {
    if |parts| >= 5 then Trim(Join(parts[4..], ':')) else ""
  }

  function PropertiesOf(portion: string): Result<Properties, ParseError> {
    if portion == "" then Success(map[]) else AddProperties(Split(portion, ','), map[])
  }

  function Parsed(input: string): Result<Locator, ParseError> {
    match Portions(Trim(input))
    case Failure(e) => Failure(e)
    case Success((main, portion)) =>
      var parts := Split(main, ':');
      match PortOf(parts)
      case Failure(e) => Failure(e)
      case Success(port) =>
        match PropertiesOf(portion)
        case Failure(e) => Failure(e)
        case Success(properties) =>
          Success(Locator(Trim(parts[0]), port, Trim(Field(parts, 2)), Field(parts, 3), IdentifierOf(parts),
                          properties))
  }

  // ------------------------------------------------------------ printing

  function Entry(m: Properties, name: string): string
    requires name in m
  {
    name + "=" + m[name]
  }

  function Entries(m: Properties, order: seq<string>): (r: seq<string>)
    requires forall k <- order :: k in m
    ensures |r| == |order| && forall i :: 0 <= i < |order| ==> r[i] == Entry(m, order[i])
  {
    if order == [] then [] else [Entry(m, order[0])] + Entries(m, order[1..])
  }

  function MainText(l: Locator): string {
    l.host + [':'] + (PrintInt(l.port) + [':'] + (l.userName + [':'] + (l.password + [':'] + l.identifier)))
  }

  predicate Distinct(order: seq<string>) {
    order != [] ==> order[0] !in order[1..] && Distinct(order[1..])
  }

  ghost predicate Enumerates(order: seq<string>, m: Properties) {
    (forall k :: k in order <==> k in m) && Distinct(order)
  }

  /** The printed form when the properties come in the given order. */
  ghost function Printed(l: Locator, order: seq<string>): string
    requires Enumerates(order, l.properties)
  {
    MainText(l) + if order == [] then "" else "[" + Join(Entries(l.properties, order), ',') + "]"
  }

  // ------------------------------------------------------------ what parsing accepts

  ghost predicate NameOrValueOk(s: string) {
    Trimmed(s) && ',' !in s && '=' !in s && '[' !in s
  }

  ghost predicate PropertiesOk(m: Properties) {
    forall k <- m :: NameOrValueOk(k) && NameOrValueOk(m[k]) && !Reserved(k)
  }

  ghost predicate WellFormed(l: Locator) {
    && Trimmed(l.host) && ':' !in l.host
    && IsInt32(l.port)
    && Trimmed(l.userName) && ':' !in l.userName
    && ':' !in l.password
    && Trimmed(l.identifier)
    && PropertiesOk(l.properties)
  }

  lemma AddPropertyIsOk(p: string, known: Properties)
    requires PropertiesOk(known) && ',' !in p && '[' !in p
    ensures AddProperty(p, known).Success? ==> PropertiesOk(AddProperty(p, known).value)
  {
    var parts := Split(p, '=');
    PartsLackDelimiter(p, '=');
    assert parts[0] in parts;
    TrimSpec(parts[0]);
    if |parts| > 1 {
      assert parts[1] in parts;
      TrimSpec(parts[1]);
    }
  }

  lemma {:induction false} AddPropertiesIsOk(ps: seq<string>, known: Properties)
    requires PropertiesOk(known) && forall p <- ps :: ',' !in p && '[' !in p
    ensures AddProperties(ps, known).Success? ==> PropertiesOk(AddProperties(ps, known).value)
  {
    if ps != [] {
      var p := ps[0];
      assert p in ps;
      AddPropertyIsOk(p, known);
      if AddProperty(p, known).Success? {
        AddPropertiesIsOk(ps[1..], AddProperty(p, known).value);
      }
    }
  }

  lemma PropertiesOfIsOk(portion: string)
    requires '[' !in portion
    ensures PropertiesOf(portion).Success? ==> PropertiesOk(PropertiesOf(portion).value)
  {
    PartsLackDelimiter(portion, ',');
    AddPropertiesIsOk(Split(portion, ','), map[]);
  }

  lemma PortionsLackBracket(x: string)
    ensures Portions(x).Success? ==> '[' !in Portions(x).value.1
  {
    if EndsWithBracket(x) && RFind(x, '[').Some? {
      var k := RFind(x, '[').value;
      var inner := x[k + 1..|x| - 1];
      assert forall c <- inner :: c in x[k + 1..];
      TrimSpec(inner);
    }
  }

  /** Every accepted text gives a well-formed locator. */
  lemma ParsedIsWellFormed(input: string)
    ensures Parsed(input).Success? ==> WellFormed(Parsed(input).value)
  {
    var x := Trim(input);
    if Parsed(input).Success? {
      PortionsLackBracket(x);
      var (main, portion) := Portions(x).value;
      PropertiesOfIsOk(portion);
      var parts := Split(main, ':');
      PartsLackDelimiter(main, ':');
      assert forall k :: 0 <= k < |parts| ==> parts[k] in parts;
      TrimSpec(parts[0]);
      TrimSpec(Field(parts, 2));
      if |parts| >= 5 { TrimSpec(Join(parts[4..], ':')); }
    }
    hide Portions, PropertiesOf, PropertiesOk, Split, Trim, Trimmed;
  }

  // ------------------------------------------------------------ the round trip

  lemma EntryRoundTrip(m: Properties, name: string, known: Properties)
    requires PropertiesOk(m) && name in m && name !in known
    ensures AddProperty(Entry(m, name), known) == Success(known[name := m[name]])
  {
    SplitFirst(name, m[name], '=');
    SplitNone(m[name], '=');
    TrimSpec(name);
    TrimSpec(m[name]);
    hide Trim, Trimmed, Reserved;
  }

  function Chosen(m: Properties, order: seq<string>): Properties
    requires forall k <- order :: k in m
  {
    map k | k in order :: m[k]
  }

  lemma ChosenFirst(m: Properties, order: seq<string>, known: Properties)
    requires order != [] && forall k <- order :: k in m
    ensures order[0] in order && forall k <- order[1..] :: k in order
    ensures known[order[0] := m[order[0]]] + Chosen(m, order[1..]) == known + Chosen(m, order)
  {
    var k, rest := order[0], order[1..];
    assert order == [k] + rest;
  }

  lemma {:induction false} EntriesRoundTrip(m: Properties, order: seq<string>, known: Properties)
    requires PropertiesOk(m) && Distinct(order) && forall k <- order :: k in m && k !in known
    ensures AddProperties(Entries(m, order), known) == Success(known + Chosen(m, order))
  {
    if order == [] {
      assert known + Chosen(m, order) == known;
    } else {
      var k, rest := order[0], order[1..];
      ChosenFirst(m, order, known);
      hide Chosen;
      EntryRoundTrip(m, k, known);
      hide PropertiesOk, AddProperty, Entry;
      EntriesRoundTrip(m, rest, known[k := m[k]]);
      assert Entries(m, order)[1..] == Entries(m, rest);
    }
  }

  /** One printed property: not empty, nothing to trim, no comma and no opening bracket. */
  ghost predicate EntryOk(p: string) {
    p != [] && Trimmed(p) && ',' !in p && '[' !in p
  }

  lemma EntryIsOk(m: Properties, name: string)
    requires PropertiesOk(m) && name in m
    ensures EntryOk(Entry(m, name))
  {
  }

  ghost function PropertyText(m: Properties, order: seq<string>): string
    requires Enumerates(order, m) && order != []
  {
    Join(Entries(m, order), ',')
  }

  lemma {:induction false} JoinedEntries(entries: seq<string>)
    requires entries != [] && forall p <- entries :: EntryOk(p)
    ensures var text := Join(entries, ',');
            text != [] && Trimmed(text) && '[' !in text && Split(text, ',') == entries
  {
    var first, rest := entries[0], entries[1..];
    assert first in entries;
    if rest == [] {
      SplitNone(first, ',');
    } else {
      assert forall p <- rest :: p in entries;
      JoinedEntries(rest);
      SplitFirst(first, Join(rest, ','), ',');
    }
  }

  lemma EntriesAreOk(m: Properties, order: seq<string>)
    requires PropertiesOk(m) && forall k <- order :: k in m
    ensures forall p <- Entries(m, order) :: EntryOk(p)
  {
    var entries := Entries(m, order);
    hide PropertiesOk, EntryOk;
    forall p <- entries ensures EntryOk(p) {
      var i :| 0 <= i < |entries| && entries[i] == p;
      var k := order[i];
      assert k in order;
      EntryIsOk(m, k);
    }
  }

  lemma PropertyTextRoundTrip(m: Properties, order: seq<string>)
    requires PropertiesOk(m) && Enumerates(order, m) && order != []
    ensures var text := PropertyText(m, order);
            Trim(text) == text && text != "" && '[' !in text && PropertiesOf(text) == Success(m)
  {
    EntriesAreOk(m, order);
    EntriesRoundTrip(m, order, map[]);
    assert map[] + Chosen(m, order) == m;
    hide Chosen, Enumerates, PropertiesOk, AddProperties, EntryOk;
    JoinedEntries(Entries(m, order));
    TrimSpec(Join(Entries(m, order), ','));
    hide Entries, Split, Join, Trim, Trimmed;
  }

  lemma FieldsSplit(l: Locator)
    requires ':' !in l.host && ':' !in l.userName && ':' !in l.password
    ensures Split(MainText(l), ':') ==
            [l.host, PrintInt(l.port), l.userName, l.password] + Split(l.identifier, ':')
  {
    var port := PrintInt(l.port);
    PrintedIntIsPlain(l.port);
    hide Split, PrintInt;
    var tail3 := l.password + [':'] + l.identifier;
    var tail2 := l.userName + [':'] + tail3;
    var tail1 := port + [':'] + tail2;
    SplitFirst(l.password, l.identifier, ':');
    SplitFirst(l.userName, tail3, ':');
    SplitFirst(port, tail2, ':');
    SplitFirst(l.host, tail1, ':');
  }

  lemma PortRoundTrip(parts: seq<string>, n: int)
    requires IsInt32(n) && |parts| > 1 && parts[1] == PrintInt(n)
    ensures PortOf(parts) == Success(n)
  {
    PrintedIntIsPlain(n);
    IntRoundTrip(n);
    TrimSpec(parts[1]);
    hide Trim, Trimmed, ParseInt, PrintInt;
  }

  /** The five colon-separated fields come back. */
  lemma FieldsRoundTrip(l: Locator)
    requires WellFormed(l)
    ensures var parts := Split(MainText(l), ':');
            && |parts| >= 5 && Trim(parts[0]) == l.host && PortOf(parts) == Success(l.port)
            && Trim(parts[2]) == l.userName && parts[3] == l.password && IdentifierOf(parts) == l.identifier
            && Join(parts[4..], ':') == l.identifier
  {
    FieldsSplit(l);
    TrimSpec(l.host);
    TrimSpec(l.userName);
    TrimSpec(l.identifier);
    JoinSplit(l.identifier, ':');
    hide PropertiesOk, MainText, Split, Join, Trim, Trimmed, PortOf, PrintInt, NameOrValueOk;
    var parts := Split(MainText(l), ':');
    assert parts[4..] == Split(l.identifier, ':');
    PortRoundTrip(parts, l.port);
  }

  lemma MainTextIsTrimmed(l: Locator)
    requires WellFormed(l)
    ensures Trimmed(MainText(l)) && MainText(l) != []
    ensures EndsWithBracket(MainText(l)) <==> EndsWithBracket(l.identifier)
  {
    var s := MainText(l);
    assert s[0] == if l.host == [] then ':' else l.host[0];
    assert s[|s| - 1] == if l.identifier == [] then ':' else l.identifier[|l.identifier| - 1];
    hide PropertiesOk, PrintInt;
  }

  lemma PortionsRoundTrip(main: string, text: string)
    requires main != [] && Trimmed(main) && Trimmed(text) && '[' !in text
    ensures var x := main + ['['] + (text + [']']); Trim(x) == x && Portions(x) == Success((main, text))
  {
    var x := main + ['['] + (text + [']']);
    TrimSpec(main);
    TrimSpec(text);
    hide Trim, RFind;
    assert Trimmed(x) by {
      assert x[0] == main[0] && x[|x| - 1] == ']';
    }
    TrimSpec(x);
    hide Trimmed, IsSpace;
    RFindAt(main, '[', text + [']']);
    assert x[..|main|] == main;
    BetweenBrackets(main + ['['], text, ']');
  }

  lemma BetweenBrackets(a: string, text: string, c: char)
    ensures var x := a + (text + [c]); x[|a|..|x| - 1] == text
  {
  }

  /** Once the two portions are known, the fields and the properties make up the locator. */
  lemma PartsRoundTrip(input: string, l: Locator, text: string)
    requires WellFormed(l) && Portions(Trim(input)) == Success((MainText(l), text))
    requires PropertiesOf(text) == Success(l.properties)
    ensures Parsed(input) == Success(l)
  {
    FieldsRoundTrip(l);
    hide WellFormed, Trim, Portions, PropertiesOf, MainText, Split, PortOf, IdentifierOf, Join;
  }

  lemma PrintedShape(l: Locator, order: seq<string>)
    requires Enumerates(order, l.properties) && order != []
    ensures Printed(l, order) == MainText(l) + ['['] + (PropertyText(l.properties, order) + [']'])
  {
    var text := PropertyText(l.properties, order);
    hide MainText, PropertyText, Enumerates;
    assert MainText(l) + ("[" + text + "]") == MainText(l) + ['['] + (text + [']']);
  }

  lemma WithPropertiesRoundTrip(l: Locator, order: seq<string>)
    requires WellFormed(l) && Enumerates(order, l.properties) && order != []
    ensures Parsed(Printed(l, order)) == Success(l)
  {
    hide Enumerates, Printed, PropertyText, MainText, Trim, Trimmed, Portions, PropertiesOf, PropertiesOk, Parsed;
    var text := PropertyText(l.properties, order);
    PrintedShape(l, order);
    MainTextIsTrimmed(l);
    PropertyTextRoundTrip(l.properties, order);
    TrimSpec(text);
    PortionsRoundTrip(MainText(l), text);
    PartsRoundTrip(Printed(l, order), l, text);
  }

  lemma WithoutPropertiesRoundTrip(l: Locator)
    requires WellFormed(l) && l.properties == map[] && !EndsWithBracket(l.identifier)
    ensures Parsed(MainText(l)) == Success(l)
  {
    MainTextIsTrimmed(l);
    TrimSpec(MainText(l));
    hide WellFormed, MainText, Trim, Parsed;
    PartsRoundTrip(MainText(l), l, "");
  }

  /** An identifier that ends in a bracket is cut off when nothing follows it. */
  lemma BracketIsTakenForProperties(l: Locator)
    requires WellFormed(l) && l.properties == map[] && EndsWithBracket(l.identifier)
    ensures Parsed(MainText(l)) != Success(l)
  {
    var text := MainText(l);
    MainTextIsTrimmed(l);
    TrimSpec(text);
    if Parsed(text) == Success(l) {
      var k := RFind(text, '[').value;
      var main := Trim(text[..k]);
      TrimIsPrefix(text[..k]);
      var parts := Split(main, ':');
      TrimSpec(Join(parts[4..], ':'));
      RestIsJoin(main, ':', 4);
      RestIsJoin(text, ':', 4);
      RestOfPrefix(main, text, ':', 4);
      FieldsRoundTrip(l);
      assert false;
    }
  }

  lemma BracketExample()
    ensures var l := Locator("h", 1, "", "", "[]", map[]);
            WellFormed(l) && Parsed(MainText(l)) != Success(l)
  {
    BracketIsTakenForProperties(Locator("h", 1, "", "", "[]", map[]));
  }

  /** Printing and parsing give a locator back exactly when it is well formed and, if it has no
      properties, its identifier does not end in ']'. The order of the properties is immaterial. */
  lemma RoundTripIff(l: Locator, order: seq<string>)
    requires Enumerates(order, l.properties)
    ensures Parsed(Printed(l, order)) == Success(l)
            <==> WellFormed(l) && (l.properties == map[] ==> !EndsWithBracket(l.identifier))
  {
    ParsedIsWellFormed(Printed(l, order));
    if WellFormed(l) {
      if order != [] {
        var k := order[0];
        assert k in l.properties;
        WithPropertiesRoundTrip(l, order);
      } else {
        assert l.properties == map[];
        assert Printed(l, order) == MainText(l);
        if EndsWithBracket(l.identifier) {
          BracketIsTakenForProperties(l);
        } else {
          WithoutPropertiesRoundTrip(l);
        }
      }
    }
    hide Parsed, Printed, WellFormed, MainText;
  }

  /** Parsing, printing and parsing again is parsing, unless the identifier is cut off. */
  lemma ParsePrintParse(input: string, order: seq<string>)
    requires Parsed(input).Success? && Enumerates(order, Parsed(input).value.properties)
    ensures var l := Parsed(input).value;
            Parsed(Printed(l, order)) == Parsed(input)
            <==> (l.properties == map[] ==> !EndsWithBracket(l.identifier))
  {
    ParsedIsWellFormed(input);
    RoundTripIff(Parsed(input).value, order);
    hide Parsed, Printed, WellFormed;
  }
}
