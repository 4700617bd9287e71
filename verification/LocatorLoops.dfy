/** The parser and the printer of connection locators, with the loops over parts and properties. */
module LocatorLoops {
  import opened Wrappers
  import opened Strings
  import opened Decimals
  import opened ConnectionLocator
  import opened LocatorMeaning
  import opened LocatorErrors
  import opened LocatorParsing

  lemma SliceGrows<T>(s: seq<T>, i: nat, j: nat)
    requires i <= j < |s|
    ensures s[i..j] + [s[j]] == s[i..j + 1]
  {
  }

  /** The loop that puts an identifier with colons together again. */
  method JoinIdentifier(parts: seq<string>) returns (joined: seq<string>)
    ensures |parts| <= 5 ==> joined == parts
    ensures |parts| > 5 ==> joined == parts[..4] + [Join(parts[4..], ':')]
  {
    joined := parts;
    if |parts| > 5 {
      var idPart := parts[4];
      for ii := 5 to |parts|
        invariant idPart == Join(parts[4..ii], ':')
      {
        SliceGrows(parts, 4, ii);
        JoinSnoc(parts[4..ii], parts[ii], ':');
        idPart := idPart + [':'] + parts[ii];
      }
      assert parts[4..|parts|] == parts[4..];
      joined := parts[..4] + [idPart];
    }
  }

  lemma PropertiesMeaning(portion: string)
    ensures forall m :: PropertiesOf(portion) == Success(m) <==> PropertiesMean(portion, m)
    ensures forall e :: PropertiesOf(portion) == Failure(e) <==> PropertiesFail(portion, e)
  {
    hide PropertiesOf, PropertiesMean, PropertiesFail;
    forall m ensures PropertiesOf(portion) == Success(m) <==> PropertiesMean(portion, m) {
      PropertiesIff(portion, m);
    }
    forall e ensures PropertiesOf(portion) == Failure(e) <==> PropertiesFail(portion, e) {
      PropertiesFailIff(portion, e);
    }
  }

  lemma TextMeaning(input: string)
    ensures forall l :: Parsed(input) == Success(l) <==> Means(input, l)
    ensures forall e :: Parsed(input) == Failure(e) <==> Fails(input, e)
  {
    hide Parsed, Means, Fails;
    forall l ensures Parsed(input) == Success(l) <==> Means(input, l) {
      ParsedIff(input, l);
    }
    forall e ensures Parsed(input) == Failure(e) <==> Fails(input, e) {
      ParsedFailsIff(input, e);
    }
  }

  method ParseProperties(portion: string) returns (r: Result<Properties, ParseError>)
    ensures r == PropertiesOf(portion)
    ensures forall m :: r == Success(m) <==> PropertiesMean(portion, m)
    ensures forall e :: r == Failure(e) <==> PropertiesFail(portion, e)
  {
    PropertiesMeaning(portion);
    hide PropertiesMean, PropertiesFail, IsReserved;
    var properties: Properties := map[];
    if portion != "" {
      var propertyParts := Split(portion, ',');
      for k := 0 to |propertyParts|
        invariant AddProperties(propertyParts[k..], properties) == AddProperties(propertyParts, map[])
      {
        var p := propertyParts[k];
        assert propertyParts[k..][0] == p && propertyParts[k..][1..] == propertyParts[k + 1..];
        var nameAndValue := Split(p, '=');
        if |nameAndValue| > 2 {
          return Failure(BadProperty(p));
        }
        var name := Trim(nameAndValue[0]);
        var value := "";
        if |nameAndValue| > 1 {
          value := Trim(nameAndValue[1]);
        }
        if Reserved(name) {
          return Failure(ReservedName(name));
        }
        if name in properties {
          return Failure(DuplicateProperty(name));
        }
        properties := properties[name := value];
      }
    }
    r := Success(properties);
  }

  /** A text is accepted exactly if it has a meaning, and refused for its first fault. */
  method Parse(input: string) returns (r: Result<Locator, ParseError>)
    ensures forall l :: r == Success(l) <==> Means(input, l)
    ensures forall e :: r == Failure(e) <==> Fails(input, e)
    ensures r == Parsed(input)
    ensures r.Success? ==> WellFormed(r.value)
  {
    TextMeaning(input);
    ParsedIsWellFormed(input);
    r := ParseParts(input);
    hide Parsed, Means, Fails, WellFormed;
  }

  method ParseParts(input: string) returns (r: Result<Locator, ParseError>)
    ensures r == Parsed(input)
  {
    assert Trim("") == "";
    hide PropertiesMean, PropertiesFail, WellFormed, PropertiesOf, Split, Trim, ParseInt;
    var x := Trim(input);
    var main, portion := x, "";
    if EndsWithBracket(x) {
      var propStart := RFind(x, '[');
      if propStart.None? {
        return Failure(NoOpeningBracket);
      }
      main := Trim(x[..propStart.value]);
      portion := Trim(x[propStart.value + 1..|x| - 1]);
    }
    assert Portions(x) == Success((main, portion));
    var whole := Split(main, ':');
    var parts := JoinIdentifier(whole);
    var l := Locator(Trim(parts[0]), 0, "", "", "", map[]);
    if |parts| >= 2 {
      var text := Trim(parts[1]);
      if text != "" {
        var port := ParseInt(text);
        if port.None? {
          return Failure(BadPort(parts[1]));
        }
        l := l.(port := port.value);
      }
    }
    assert PortOf(whole) == Success(l.port);
    if |parts| >= 3 {
      l := l.(userName := Trim(parts[2]));
    }
    if |parts| >= 4 {
      l := l.(password := parts[3]);
    }
    if |parts| >= 5 {
      if |parts| == |whole| { assert whole[4..] == [whole[4]]; }
      l := l.(identifier := Trim(parts[4]));
    }
    var properties := ParseProperties(portion);
    if properties.Failure? {
      return Failure(properties.error);
    }
    r := Success(l.(properties := properties.value));
  }

  /** The order in which the map hands out its entries: ascending names. */
  ghost predicate Ascending(order: seq<string>) {
    forall i, j :: 0 <= i < j < |order| ==> Less(order[i], order[j])
  }

  lemma {:induction false} AscendingIsDistinct(order: seq<string>)
    requires Ascending(order)
    ensures Distinct(order)
  {
    if order != [] {
      var first, rest := order[0], order[1..];
      if first in rest {
        var j :| 0 <= j < |rest| && rest[j] == first;
        assert Less(order[0], order[j + 1]);
        LessIsStrict(first);
        assert false;
      }
      AscendingIsDistinct(rest);
    }
  }

  lemma EntriesSnoc(m: Properties, order: seq<string>, k: string)
    requires k in m && forall i <- order :: i in m
    ensures Entries(m, order + [k]) == Entries(m, order) + [Entry(m, k)]
  {
    hide Entry;
  }

  /** The entries of some names, separated by commas. */
  ghost function Listed(m: Properties, order: seq<string>): string
    requires forall k <- order :: k in m
  {
    if order == [] then "" else Join(Entries(m, order), ',')
  }

  lemma ListedSnoc(m: Properties, order: seq<string>, k: string)
    requires k in m && forall i <- order :: i in m
    ensures Listed(m, order + [k]) == Listed(m, order) + (if order == [] then "" else ",") + Entry(m, k)
  {
    EntriesSnoc(m, order, k);
    hide Entry;
    if order != [] {
      JoinSnoc(Entries(m, order), Entry(m, k), ',');
    }
  }

  /** The names printed so far ascend and come before all that are left. */
  ghost predicate Listing(m: Properties, order: seq<string>, rest: set<string>) {
    && rest <= m.Keys
    && (forall k :: k in order <==> k in m && k !in rest)
    && Ascending(order)
    && (forall a <- order, b <- rest :: Less(a, b))
  }

  lemma ListingGrows(m: Properties, order: seq<string>, rest: set<string>, k: string)
    requires Listing(m, order, rest) && IsLeast(k, rest)
    ensures Listing(m, order + [k], rest - {k})
  {
    hide Less;
  }

  method PrintText(l: Locator) returns (s: string, ghost order: seq<string>)
    ensures Enumerates(order, l.properties) && Ascending(order)
    ensures s == Printed(l, order)
  {
    hide Parsed, WellFormed, MainText, Entry, Less, IsLeast;
    var m := l.properties;
    s := MainText(l);
    order := [];
    if |m| > 0 {
      s := s + "[";
      var first := true;
      var rest := m.Keys;
      while rest != {}
        invariant Listing(m, order, rest)
        invariant first <==> order == []
        invariant s == MainText(l) + "[" + Listed(m, order)
        decreases rest
      {
        LeastExists(rest);
        var name :| name in rest && IsLeast(name, rest);
        ListingGrows(m, order, rest, name);
        ListedSnoc(m, order, name);
        if !first {
          s := s + ",";
        }
        s := s + Entry(m, name);
        order := order + [name];
        first := false;
        rest := rest - {name};
      }
      s := s + "]";
      assert s == MainText(l) + ("[" + Listed(m, order) + "]");
    }
    AscendingIsDistinct(order);
  }

  /** The five fields between colons. */
  function FiveFields(l: Locator): string {
    Join([l.host, PrintInt(l.port), l.userName, l.password, l.identifier], ':')
  }

  /** The text: five fields, and in brackets the properties in this order, each as name=value. */
  ghost predicate PrintedAs(s: string, l: Locator, order: seq<string>, entries: seq<string>) {
    && |entries| == |order|
    && (forall i :: 0 <= i < |order| ==>
          order[i] in l.properties && entries[i] == order[i] + "=" + l.properties[order[i]])
    && s == if order == [] then FiveFields(l) else FiveFields(l) + ("[" + Join(entries, ',') + "]")
  }

  /** Prints the properties by ascending name; the text means the locator again under the exact
      condition. */
  method ToSerializationFormat(l: Locator) returns (s: string, ghost order: seq<string>)
    ensures Enumerates(order, l.properties) && Ascending(order)
    ensures exists entries :: PrintedAs(s, l, order, entries)
    ensures s == Printed(l, order)
    ensures Parsed(s) == Success(l) <==> WellFormed(l) && (l.properties == map[] ==> !EndsWithBracket(l.identifier))
  {
    s, order := PrintText(l);
    RoundTripIff(l, order);
    PrintedLiterally(l, order);
    hide Parsed, WellFormed, Printed, Enumerates, Ascending, PrintedAs;
  }

  lemma MainIsJoined(a: string, b: string, c: string, d: string, e: string)
    ensures Join([a, b, c, d, e], ':') == a + [':'] + (b + [':'] + (c + [':'] + (d + [':'] + e)))
  {
    var all := [a, b, c, d, e];
    assert all[1..] == [b, c, d, e] && [b, c, d, e][1..] == [c, d, e];
    assert [c, d, e][1..] == [d, e] && [d, e][1..] == [e];
    assert Join([e], ':') == e;
    assert Join([d, e], ':') == d + [':'] + e;
    assert Join([c, d, e], ':') == c + [':'] + Join([d, e], ':');
    assert Join([b, c, d, e], ':') == b + [':'] + Join([c, d, e], ':');
  }

  lemma PrintedLiterally(l: Locator, order: seq<string>)
    requires Enumerates(order, l.properties)
    ensures PrintedAs(Printed(l, order), l, order, Entries(l.properties, order))
  {
    MainIsJoined(l.host, PrintInt(l.port), l.userName, l.password, l.identifier);
    forall i | 0 <= i < |order| ensures order[i] in l.properties { assert order[i] in order; }
    hide PrintInt, Join, Distinct;
  }
}
