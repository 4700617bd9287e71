/** Which definitions inside the brackets are refused, and for which reason. */
module LocatorErrors {
  import opened Wrappers
  import opened Strings
  import opened ConnectionLocator
  import opened LocatorMeaning

  /** The text inside the brackets is refused for its first bad definition. */
  ghost predicate PropertiesFail(portion: string, e: ParseError) {
    portion != "" && exists ps, k: nat :: Listed(portion, ps) && k < |ps| && FirstBad(ps, k, e)
  }

  ghost predicate FirstBad(ps: seq<string>, k: nat, e: ParseError)
    requires k < |ps|
  {
    exists names, values :: Define(ps[..k], names, values) && Bad(ps[k], Names(names), e)
  }

  lemma BadFails(p: string, known: Properties, e: ParseError)
    requires Bad(p, known.Keys, e)
    ensures AddProperty(p, known) == Failure(e)
  {
    TwoSignsIff(p);
    forall name, value | Defines(p, name, value) && BadName(name, known.Keys, e)
      ensures AddProperty(p, known) == Failure(e)
    {
      AddPropertyMeans(p, known, name, value);
    }
    hide Split, Defines, IsReserved, Reserved, Trim;
  }

  lemma {:induction false} AddPrefix(a: seq<string>, b: seq<string>, known: Properties)
    ensures AddProperties(a + b, known) ==
            match AddProperties(a, known)
            case Failure(e) => Failure(e)
            case Success(m) => AddProperties(b, m)
  {
    hide AddProperty;
    if a == [] {
      assert a + b == b;
    } else {
      assert (a + b)[1..] == a[1..] + b;
      if AddProperty(a[0], known).Success? { AddPrefix(a[1..], b, AddProperty(a[0], known).value); }
    }
  }

  lemma FirstBadFails(ps: seq<string>, k: nat, e: ParseError)
    requires k < |ps| && FirstBad(ps, k, e)
    ensures AddProperties(ps, map[]) == Failure(e)
  {
    hide AddProperty, Define, Bad;
    var names, values :| Define(ps[..k], names, values) && Bad(ps[k], Names(names), e);
    AddPrefix(ps[..k], ps[k..], map[]);
    assert ps[..k] + ps[k..] == ps && ps[k..][0] == ps[k];
    BadAfter(ps[..k], names, values, ps[k], e);
  }

  lemma BadAfter(ps: seq<string>, names: seq<string>, values: seq<string>, p: string, e: ParseError)
    requires Define(ps, names, values) && Bad(p, Names(names), e)
    ensures AddProperties(ps, map[]).Success? && AddProperty(p, AddProperties(ps, map[]).value) == Failure(e)
  {
    DefinedAreAdded(ps, names, values, map[]);
    AddedIs(map[], names, values);
    hide Define, Bad, Added, AddProperty, AddProperties;
    var m := Added(map[], names, values);
    assert m.Keys == Names(names);
    BadFails(p, m, e);
  }

  lemma ListFails(ps: seq<string>) returns (k: nat)
    requires AddProperties(ps, map[]).Failure?
    ensures k < |ps| && FirstBad(ps, k, AddProperties(ps, map[]).error)
  {
    var names, values;
    k, names, values := AddedAreDefined(ps, map[]);
    var none: Properties := map[];
    assert none.Keys + Names(names) == Names(names);
    hide AddProperties, Define, Bad, Names;
  }

  lemma PropertiesFailIff(portion: string, e: ParseError)
    ensures PropertiesOf(portion) == Failure(e) <==> PropertiesFail(portion, e)
  {
    var parts := Split(portion, ',');
    forall ps ensures Listed(portion, ps) <==> ps == parts { ListedIff(portion, ps); }
    hide AddProperties, Listed, Split, FirstBad;
    assert Listed(portion, parts);
    if AddProperties(parts, map[]) == Failure(e) {
      var k := ListFails(parts);
    }
    forall k: nat | k < |parts| && FirstBad(parts, k, e) ensures AddProperties(parts, map[]) == Failure(e) {
      FirstBadFails(parts, k, e);
    }
  }
}
