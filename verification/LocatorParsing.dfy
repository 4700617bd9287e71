/** The parser agrees with the meaning of the text, for every text, errors included. */
module LocatorParsing {
  import opened Wrappers
  import opened Strings
  import opened Decimals
  import opened ConnectionLocator
  import opened LocatorMeaning
  import opened LocatorErrors

  /** A text is accepted exactly if it has a meaning, with that meaning. */
  lemma ParsedIff(input: string, l: Locator)
    ensures Parsed(input) == Success(l) <==> Means(input, l)
  {
    if Parsed(input) == Success(l) {
      var (main, portion) := Portions(Trim(input)).value;
      PartsMean(input, l, main, portion, Grouped(Split(main, ':')));
    }
    forall main, portion, fs | MeansWith(input, l, main, portion, fs)
      ensures Parsed(input) == Success(l)
    {
      PartsMean(input, l, main, portion, fs);
    }
    hide Trim, Portions, Split, PortOf, PropertiesOf, IdentifierOf, MeansWith;
  }

  lemma PartsMean(input: string, l: Locator, main: string, portion: string, fs: seq<string>)
    ensures MeansWith(input, l, main, portion, fs)
            <==> && Portions(Trim(input)) == Success((main, portion))
                 && fs == Grouped(Split(main, ':')) && Parsed(input) == Success(l)
  {
    var parts := Split(main, ':');
    PortionsIff(Trim(input), main, portion);
    FieldsIff(main, fs);
    FieldsMeanIff(parts, l);
    PropertiesIff(portion, l.properties);
    hide Trim, Portions, Split, PortOf, PropertiesOf, PropertiesMean, IdentifierOf, Cut, Fields, FieldsMean, Grouped;
  }

  /** The text is refused for this reason: brackets first, then the port, then the properties. */
  ghost predicate Fails(input: string, e: ParseError) {
    var x := Trim(input);
    || (x != "" && x[|x| - 1] == ']' && '[' !in x && e == NoOpeningBracket)
    || exists main, portion, fs :: FailsWith(x, e, main, portion, fs)
  }

  ghost predicate PartsFail(fs: seq<string>, portion: string, e: ParseError) {
    if NoPort(fs) then e == BadPort(fs[1]) else PropertiesFail(portion, e)
  }

  ghost predicate NoPort(fs: seq<string>) {
    |fs| > 1 && Trim(fs[1]) != "" && forall n :: !(IsInt32(n) && Spells(Trim(fs[1]), n))
  }

  lemma NoPortIff(parts: seq<string>)
    requires parts != []
    ensures PortOf(parts).Failure? <==> NoPort(Grouped(parts))
    ensures PortOf(parts).Failure? ==> PortOf(parts).error == BadPort(Grouped(parts)[1])
  {
    var text := Trim(Field(parts, 1));
    assert Trim("") == "";
    forall n ensures ParseInt(text) == Some(n) <==> IsInt32(n) && Spells(text, n) { ParseIntIff(text, n); }
    if ParseInt(text).Some? { assert IsInt32(ParseInt(text).value) && Spells(text, ParseInt(text).value); }
    hide Trim, ParseInt, Spells, Join;
  }

  lemma PartsFailIff(input: string, main: string, portion: string, e: ParseError)
    requires Portions(Trim(input)) == Success((main, portion))
    ensures Parsed(input) == Failure(e) <==> PartsFail(Grouped(Split(main, ':')), portion, e)
  {
    var parts := Split(main, ':');
    NoPortIff(parts);
    PropertiesFailIff(portion, e);
    hide Trim, Portions, Split, PortOf, PropertiesOf, PropertiesFail, NoPort, Grouped;
  }

  ghost predicate FailsWith(x: string, e: ParseError, main: string, portion: string, fs: seq<string>) {
    Cut(x, main, portion) && Fields(main, fs) && PartsFail(fs, portion, e)
  }

  lemma ParsedFailsIff(input: string, e: ParseError)
    ensures Parsed(input) == Failure(e) <==> Fails(input, e)
  {
    var x := Trim(input);
    NoBracketIff(x);
    forall main, portion, fs
      ensures FailsWith(x, e, main, portion, fs)
              <==> && Portions(x) == Success((main, portion)) && fs == Grouped(Split(main, ':'))
                   && Parsed(input) == Failure(e)
    {
      PortionsIff(x, main, portion);
      FieldsIff(main, fs);
      if Portions(x) == Success((main, portion)) { PartsFailIff(input, main, portion, e); }
    }
    hide FailsWith;
    if Portions(x).Success? {
      var (main, portion) := Portions(x).value;
      assert FailsWith(x, e, main, portion, Grouped(Split(main, ':'))) <==> Parsed(input) == Failure(e);
    } else {
      assert Parsed(input) == Failure(NoOpeningBracket);
    }
    hide Trim, Portions, Split, Grouped, Parsed;
  }

  /** A missing port and missing fields. */
  lemma HostAlone()
    ensures Means("h", Locator("h", 0, "", "", "", map[]))
  {
    assert Trim("h") == "h";
    assert Fields("h", ["h"]);
    hide Trim;
    assert MeansWith("h", Locator("h", 0, "", "", "", map[]), "h", "", ["h"]);
  }

  lemma EmptyPort()
    ensures Means("h::u:p:id", Locator("h", 0, "u", "p", "id", map[]))
  {
    var text, fs := "h::u:p:id", ["h", "", "u", "p", "id"];
    assert Trim(text) == text && Trim("h") == "h" && Trim("u") == "u" && Trim("id") == "id" && Trim("") == "";
    assert Join(fs[3..], ':') == "p:id" && Join(fs[2..], ':') == "u:p:id" && Join(fs[1..], ':') == ":u:p:id";
    assert Fields(text, fs);
    hide Trim, Fields;
    assert MeansWith(text, Locator("h", 0, "u", "p", "id", map[]), text, "", fs);
  }

  lemma OneLetterIsFree(name: string)
    requires |name| == 1
    ensures !IsReserved(name)
  {
    forall k | 0 <= k < |RESERVED| ensures !SpelledAs(name, RESERVED[k]) {
      assert |RESERVED[k]| > 1;
    }
  }

  lemma NameMeans(name: string)
    requires |name| == 1 && !IsSpace(name[0]) && name[0] != ',' && name[0] != '='
    ensures PropertiesMean(name, map[name := ""])
  {
    assert Trim(name) == name;
    hide Trim;
    OneLetterIsFree(name);
    assert Defines(name, name, "");
    assert Listed(name, [name]);
    hide Defines, IsReserved, Listed;
    var names, values, m := [name], [""], map[name := ""];
    assert names[0] == name && values[0] == "" && Distinct(names);
    assert Define(names, names, values) && MapOf(m, names, values);
    assert ListMeans(names, m);
  }

  /** Brackets alone, and a property without a value. */
  lemma NameAlone()
    ensures Means("[a]", Locator("", 0, "", "", "", map["a" := ""]))
  {
    assert Trim("[a]") == "[a]" && Trim("") == "" && Trim("a") == "a";
    NameMeans("a");
    hide Trim, PropertiesMean;
    assert CutAt("[a]", "", "a");
    assert Cut("[a]", "", "a");
    assert Fields("", [""]);
    hide Cut, CutAt, Fields;
    assert MeansWith("[a]", Locator("", 0, "", "", "", map["a" := ""]), "", "a", [""]);
  }
}
