/** What the text of a connection locator means, said of the text alone: it is cut at the last
    opening bracket, at up to four colons, at commas and at equals signs, and blanks around the
    pieces do not count, except in a password that another field follows. */
module LocatorMeaning {
  import opened Wrappers
  import opened Strings
  import opened Decimals
  import opened ConnectionLocator

  // ------------------------------------------------------------ the meaning of a text

  /** The part before the brackets, and the part inside them. */
  ghost predicate Cut(x: string, main: string, portion: string) {
    || ((x != "" ==> x[|x| - 1] != ']') && main == x && portion == "")
    || exists a, b :: CutAt(x, a, b) && main == Trim(a) && portion == Trim(b)
  }

  ghost predicate CutAt(x: string, a: string, b: string) {
    x == a + ['['] + (b + [']']) && '[' !in b
  }

  /** One to five fields between colons; only the fifth may contain colons itself. */
  ghost predicate Fields(main: string, fs: seq<string>) {
    && 1 <= |fs| <= 5 && main == Join(fs, ':')
    && forall k :: 0 <= k < |fs| && k < 4 ==> ':' !in fs[k]
  }

  /** The port, and what an absent or blank one stands for. */
  ghost predicate PortMeans(fs: seq<string>, port: int) {
    if |fs| < 2 || Trim(fs[1]) == "" then port == 0 else IsInt32(port) && Spells(Trim(fs[1]), port)
  }

  ghost predicate FieldsMean(fs: seq<string>, l: Locator)
    requires fs != []
  {
    && l.host == Trim(fs[0])
    && PortMeans(fs, l.port)
    && l.userName == (if |fs| > 2 then Trim(fs[2]) else "")
    && l.password == (if |fs| > 3 then fs[3] else "")
    && l.identifier == (if |fs| > 4 then Trim(fs[4]) else "")
  }

  /** A word in capitals, written in any case. */
  ghost predicate SpelledAs(name: string, word: string) {
    && |name| == |word|
    && forall i :: 0 <= i < |name| ==> name[i] == word[i] || name[i] as int == word[i] as int + 32
  }

  const RESERVED := ["HOST", "PORT", "USERNAME", "USER", "PASSWORD", "PASSWD", "IDENTIFIER"]

  ghost predicate IsReserved(name: string) {
    exists k :: 0 <= k < |RESERVED| && SpelledAs(name, RESERVED[k])
  }

  /** One definition: a name alone has an empty value. */
  ghost predicate Defines(p: string, name: string, value: string) {
    || ('=' !in p && name == Trim(p) && value == "")
    || exists a, b :: DefinesAt(p, a, b) && name == Trim(a) && value == Trim(b)
  }

  ghost predicate DefinesAt(p: string, a: string, b: string) {
    p == a + ['='] + b && '=' !in a && '=' !in b
  }

  /** The definitions `ps` give the names and values, none reserved and none twice. */
  ghost predicate Define(ps: seq<string>, names: seq<string>, values: seq<string>) {
    && |names| == |values| == |ps|
    && (forall i :: 0 <= i < |ps| ==> Defines(ps[i], names[i], values[i]) && !IsReserved(names[i]))
    && Distinct(names)
  }

  ghost predicate MapOf(m: Properties, names: seq<string>, values: seq<string>) {
    && |names| == |values|
    && (forall k <- m :: k in names)
    && (forall i :: 0 <= i < |names| ==> names[i] in m && m[names[i]] == values[i])
  }

  ghost predicate ListMeans(ps: seq<string>, m: Properties) {
    exists names, values :: Define(ps, names, values) && MapOf(m, names, values)
  }

  ghost predicate Listed(portion: string, ps: seq<string>) {
    ps != [] && portion == Join(ps, ',') && forall p <- ps :: ',' !in p
  }

  ghost predicate PropertiesMean(portion: string, m: Properties) {
    if portion == "" then m == map[] else exists ps :: Listed(portion, ps) && ListMeans(ps, m)
  }

  /** The text stands for this locator. */
  ghost predicate Means(input: string, l: Locator) {
    exists main, portion, fs :: MeansWith(input, l, main, portion, fs)
  }

  ghost predicate MeansWith(input: string, l: Locator, main: string, portion: string, fs: seq<string>) {
    Cut(Trim(input), main, portion) && Fields(main, fs) && FieldsMean(fs, l) && PropertiesMean(portion, l.properties)
  }

  // ------------------------------------------------------------ brackets

  lemma CutIsFound(x: string, a: string, b: string)
    requires CutAt(x, a, b)
    ensures EndsWithBracket(x) && Portions(x) == Success((Trim(a), Trim(b)))
  {
    RFindAt(a, '[', b + [']']);
    hide RFind, Trim;
    assert x == a + ['['] + (b + [']']);
    assert x[..|a|] == a;
    BetweenBrackets(a + ['['], b, ']');
  }

  /** A text around the character at `k` and before its last one. */
  lemma Around(x: string, k: nat, y: string, inner: string)
    requires k < |x| - 1 && y == x[k + 1..] && inner == x[k + 1..|x| - 1]
    ensures x == x[..k] + [x[k]] + (inner + [x[|x| - 1]])
    ensures forall c <- inner :: c in y
  {
    assert y == y[..|y| - 1] + [y[|y| - 1]];
    assert y[..|y| - 1] == x[k + 1..|x| - 1];
  }

  lemma FoundIsCut(x: string)
    requires EndsWithBracket(x) && RFind(x, '[').Some?
    ensures var k := RFind(x, '[').value;
            k < |x| - 1 && CutAt(x, x[..k], x[k + 1..|x| - 1])
  {
    var k := RFind(x, '[').value;
    hide RFind;
    assert k != |x| - 1;
    Around(x, k, x[k + 1..], x[k + 1..|x| - 1]);
  }

  lemma PortionsIff(x: string, main: string, portion: string)
    ensures Portions(x) == Success((main, portion)) <==> Cut(x, main, portion)
  {
    if EndsWithBracket(x) && RFind(x, '[').Some? {
      FoundIsCut(x);
    }
    forall a, b | CutAt(x, a, b)
      ensures EndsWithBracket(x) && Portions(x) == Success((Trim(a), Trim(b)))
    {
      CutIsFound(x, a, b);
    }
    hide Trim, RFind, CutAt;
  }

  /** A closing bracket at the end needs an opening one somewhere. */
  lemma NoBracketIff(x: string)
    ensures Portions(x) == Failure(NoOpeningBracket) <==> x != "" && x[|x| - 1] == ']' && '[' !in x
    ensures Portions(x).Failure? ==> Portions(x) == Failure(NoOpeningBracket)
  {
  }

  // ------------------------------------------------------------ fields

  /** The first four parts, and all the rest as one. */
  function Grouped(parts: seq<string>): seq<string> {
    if |parts| < 5 then parts else parts[..4] + [Join(parts[4..], ':')]
  }

  lemma {:induction false} SplitJoinLast(first: seq<string>, last: string, d: char)
    requires forall p <- first :: d !in p
    ensures Split(Join(first + [last], d), d) == first + Split(last, d)
  {
    hide Split;
    if first == [] {
      assert first + [last] == [last] && first + Split(last, d) == Split(last, d);
    } else {
      var p, rest := first[0], first[1..];
      assert p in first && first + [last] == [p] + (rest + [last]);
      assert (first + [last])[1..] == rest + [last];
      SplitJoinLast(rest, last, d);
      SplitFirst(p, Join(rest + [last], d), d);
      assert first + Split(last, d) == [p] + (rest + Split(last, d));
    }
  }

  lemma {:induction false} JoinGroups(a: seq<string>, b: seq<string>, d: char)
    requires b != []
    ensures Join(a + [Join(b, d)], d) == Join(a + b, d)
  {
    if a == [] {
      assert a + b == b && a + [Join(b, d)] == [Join(b, d)];
    } else {
      assert (a + b)[1..] == a[1..] + b && (a + [Join(b, d)])[1..] == a[1..] + [Join(b, d)];
      JoinGroups(a[1..], b, d);
    }
  }

  lemma FieldsIff(main: string, fs: seq<string>)
    ensures Fields(main, fs) <==> fs == Grouped(Split(main, ':'))
  {
    var parts := Split(main, ':');
    JoinSplit(main, ':');
    PartsLackDelimiter(main, ':');
    if |parts| >= 5 {
      JoinGroups(parts[..4], parts[4..], ':');
      assert parts[..4] + parts[4..] == parts;
    }
    assert Fields(main, Grouped(parts)) by {
      forall k | 0 <= k < |Grouped(parts)| && k < 4 ensures ':' !in Grouped(parts)[k] {
        assert parts[k] in parts;
      }
    }
    if Fields(main, fs) {
      if |fs| < 5 {
        SplitJoin(fs, ':');
      } else {
        assert fs == fs[..4] + [fs[4]];
        SplitJoinLast(fs[..4], fs[4], ':');
        JoinSplit(fs[4], ':');
        assert parts[..4] == fs[..4] && parts[4..] == Split(fs[4], ':');
      }
    }
    hide Split, Join;
  }

  lemma PortIff(parts: seq<string>, port: int)
    requires parts != []
    ensures PortOf(parts) == Success(port) <==> PortMeans(Grouped(parts), port)
  {
    var text := Trim(Field(parts, 1));
    assert Trim("") == "";
    ParseIntIff(text, port);
    hide Trim, ParseInt, Spells, Join;
  }

  lemma FieldsMeanIff(parts: seq<string>, l: Locator)
    requires parts != []
    ensures FieldsMean(Grouped(parts), l)
            <==> && PortOf(parts) == Success(l.port)
                 && l.host == Trim(parts[0]) && l.userName == Trim(Field(parts, 2))
                 && l.password == Field(parts, 3) && l.identifier == IdentifierOf(parts)
  {
    PortIff(parts, l.port);
    assert Trim("") == "";
    hide Trim, PortOf, PortMeans, Join;
  }

  // ------------------------------------------------------------ properties

  lemma ReservedIff(name: string)
    ensures Reserved(name) <==> IsReserved(name)
  {
    var up := ToUpper(name);
    forall k | 0 <= k < |RESERVED| ensures up == RESERVED[k] <==> SpelledAs(name, RESERVED[k]) {
      UpperIff(name, RESERVED[k]);
    }
    assert Reserved(name) <==> exists k :: 0 <= k < |RESERVED| && up == RESERVED[k] by {
      var words := RESERVED;
      assert words[0] == "HOST" && words[1] == "PORT" && words[2] == "USERNAME" && words[3] == "USER";
      assert words[4] == "PASSWORD" && words[5] == "PASSWD" && words[6] == "IDENTIFIER";
    }
    hide ToUpper, SpelledAs;
  }

  lemma UpperIff(name: string, word: string)
    requires forall c <- word :: 'A' <= c <= 'Z'
    ensures ToUpper(name) == word <==> SpelledAs(name, word)
  {
    var up := ToUpper(name);
    forall i | 0 <= i < |name| && i < |word|
      ensures up[i] == word[i] <==> name[i] == word[i] || name[i] as int == word[i] as int + 32
    {
      assert word[i] in word;
    }
  }

  /** The name and value of a definition, read off its parts. */
  lemma DefinesIff(p: string, name: string, value: string)
    ensures Defines(p, name, value)
            <==> && |Split(p, '=')| <= 2 && name == Trim(Split(p, '=')[0])
                 && value == if |Split(p, '=')| > 1 then Trim(Split(p, '=')[1]) else ""
  {
    var parts := Split(p, '=');
    JoinSplit(p, '=');
    PartsLackDelimiter(p, '=');
    if '=' !in p {
      SplitNone(p, '=');
    } else if |parts| == 2 {
      assert parts[0] in parts && parts[1] in parts;
      assert DefinesAt(p, parts[0], parts[1]);
    }
    forall a, b | DefinesAt(p, a, b) ensures parts == [a, b] {
      SplitFirst(a, b, '=');
      SplitNone(b, '=');
    }
    hide Split, Join, Trim;
  }

  /** What is wrong with a definition after those names: a second equals sign, a reserved name, or
      a name that is there already. */
  ghost predicate Bad(p: string, taken: set<string>, e: ParseError) {
    || ((exists a, b, c :: p == a + ['='] + (b + ['='] + c)) && e == BadProperty(p))
    || exists name, value :: Defines(p, name, value) && BadName(name, taken, e)
  }

  ghost predicate BadName(name: string, taken: set<string>, e: ParseError) {
    if IsReserved(name) then e == ReservedName(name) else name in taken && e == DuplicateProperty(name)
  }

  function Names(names: seq<string>): set<string> {
    set x | x in names
  }

  lemma TwoSignsIff(p: string)
    ensures |Split(p, '=')| > 2 <==> exists a, b, c :: p == a + ['='] + (b + ['='] + c)
  {
    var parts := Split(p, '=');
    JoinSplit(p, '=');
    if |parts| > 2 {
      assert p == parts[0] + ['='] + Join(parts[1..], '=');
      assert Join(parts[1..], '=') == parts[1] + ['='] + Join(parts[2..], '=');
      assert parts[1..][1..] == parts[2..];
      assert p == parts[0] + ['='] + (parts[1] + ['='] + Join(parts[2..], '='));
    }
    forall a, b, c | p == a + ['='] + (b + ['='] + c) ensures |parts| > 2 {
      SplitAdds(a, b + ['='] + c, '=');
      SplitAdds(b, c, '=');
    }
    hide Split;
  }

  /** A delimiter adds at least one part. */
  lemma {:induction false} SplitAdds(a: string, b: string, d: char)
    ensures |Split(a + [d] + b, d)| >= 1 + |Split(b, d)|
  {
    var s := a + [d] + b;
    if a == [] {
      assert s[0] == d && s[1..] == b;
    } else {
      assert s[0] == a[0] && s[1..] == a[1..] + [d] + b;
      SplitAdds(a[1..], b, d);
    }
  }

  lemma AddPropertyMeans(p: string, known: Properties, name: string, value: string)
    requires Defines(p, name, value)
    ensures AddProperty(p, known) ==
            if IsReserved(name) then Failure(ReservedName(name))
            else if name in known then Failure(DuplicateProperty(name))
            else Success(known[name := value])
  {
    DefinesIff(p, name, value);
    ReservedIff(name);
    hide Split, Trim, Reserved, IsReserved, Defines;
  }

  lemma AddPropertyDefines(p: string, known: Properties) returns (name: string, value: string)
    ensures |Split(p, '=')| <= 2 ==> Defines(p, name, value)
    ensures |Split(p, '=')| > 2 ==> AddProperty(p, known) == Failure(BadProperty(p))
  {
    var parts := Split(p, '=');
    name := Trim(parts[0]);
    value := if |parts| > 1 then Trim(parts[1]) else "";
    DefinesIff(p, name, value);
    hide Split, Trim, Defines;
  }

  function Added(known: Properties, names: seq<string>, values: seq<string>): Properties
    requires |names| == |values|
    decreases |names|
  {
    if names == [] then known else Added(known[names[0] := values[0]], names[1..], values[1..])
  }

  lemma {:induction false} AddedIs(known: Properties, names: seq<string>, values: seq<string>)
    requires |names| == |values| && Distinct(names) && forall k <- names :: k !in known
    ensures var m := Added(known, names, values);
            && m.Keys == known.Keys + Names(names)
            && (forall k <- known :: m[k] == known[k])
            && (forall i :: 0 <= i < |names| ==> m[names[i]] == values[i])
    decreases |names|
  {
    if names != [] {
      var n, rest := names[0], names[1..];
      assert names == [n] + rest;
      AddedIs(known[n := values[0]], rest, values[1..]);
      var m := Added(known, names, values);
      forall i | 0 <= i < |names| ensures m[names[i]] == values[i] {
        if i > 0 { assert names[i] == rest[i - 1] && values[i] == values[1..][i - 1]; }
      }
    }
  }

  lemma MapOfIsAdded(m: Properties, names: seq<string>, values: seq<string>)
    requires |names| == |values| && Distinct(names)
    ensures MapOf(m, names, values) <==> m == Added(map[], names, values)
  {
    AddedIs(map[], names, values);
    var n := Added(map[], names, values);
    if MapOf(m, names, values) {
      forall k <- m ensures m[k] == n[k] {
        var i :| 0 <= i < |names| && names[i] == k;
      }
      assert m.Keys == n.Keys;
      assert m == n;
    }
    hide Added, Distinct;
  }

  lemma DefineCons(ps: seq<string>, names: seq<string>, values: seq<string>)
    requires ps != []
    ensures Define(ps, names, values)
            <==> && |names| == |values| == |ps|
                 && Defines(ps[0], names[0], values[0]) && !IsReserved(names[0])
                 && names[0] !in names[1..] && Define(ps[1..], names[1..], values[1..])
  {
    hide Defines, IsReserved;
    if |names| == |values| == |ps| {
      forall i | 0 <= i < |ps| - 1
        ensures ps[1..][i] == ps[i + 1] && names[1..][i] == names[i + 1] && values[1..][i] == values[i + 1]
      {
      }
      if Define(ps[1..], names[1..], values[1..]) && Defines(ps[0], names[0], values[0]) && !IsReserved(names[0]) {
        forall i | 0 <= i < |ps| ensures Defines(ps[i], names[i], values[i]) && !IsReserved(names[i]) {
          if i > 0 { assert Defines(ps[1..][i - 1], names[1..][i - 1], values[1..][i - 1]); }
        }
      }
    }
  }

  /** Definitions that are all fine are all added. */
  lemma {:induction false} DefinedAreAdded(ps: seq<string>, names: seq<string>, values: seq<string>, known: Properties)
    requires Define(ps, names, values) && forall k <- names :: k !in known
    ensures AddProperties(ps, known) == Success(Added(known, names, values))
  {
    if ps != [] {
      var n := names[0];
      assert n in names && names == [n] + names[1..];
      DefineCons(ps, names, values);
      AddPropertyMeans(ps[0], known, n, values[0]);
      hide AddProperty, Define, Defines, IsReserved;
      DefinedAreAdded(ps[1..], names[1..], values[1..], known[n := values[0]]);
    }
  }

  /** Names and values as far as the definitions are fine, and what is wrong with the next one. */
  lemma {:induction false} AddedAreDefined(ps: seq<string>, known: Properties)
    returns (k: nat, names: seq<string>, values: seq<string>)
    ensures k <= |ps| && Define(ps[..k], names, values) && forall x <- names :: x !in known
    ensures AddProperties(ps, known).Success? ==> k == |ps|
    ensures AddProperties(ps, known).Failure? ==>
              k < |ps| && Bad(ps[k], known.Keys + Names(names), AddProperties(ps, known).error)
  {
    k, names, values := 0, [], [];
    if ps != [] {
      var n, v := AddPropertyDefines(ps[0], known);
      TwoSignsIff(ps[0]);
      if |Split(ps[0], '=')| <= 2 {
        AddPropertyMeans(ps[0], known, n, v);
        if !IsReserved(n) && n !in known {
          hide AddProperty, Split, Defines, IsReserved, Define, Bad;
          var j, ns, vs := AddedAreDefined(ps[1..], known[n := v]);
          k, names, values := j + 1, [n] + ns, [v] + vs;
          assert ps[..k][1..] == ps[1..][..j] && names[1..] == ns && values[1..] == vs;
          DefineCons(ps[..k], names, values);
          assert known[n := v].Keys + Names(ns) == known.Keys + Names(names);
        }
      }
    }
  }

  lemma ListIff(ps: seq<string>, m: Properties)
    ensures AddProperties(ps, map[]) == Success(m) <==> ListMeans(ps, m)
  {
    hide AddProperties, Defines, IsReserved, MapOf;
    if AddProperties(ps, map[]) == Success(m) {
      var k, names, values := AddedAreDefined(ps, map[]);
      assert ps[..k] == ps;
      DefinedAreAdded(ps, names, values, map[]);
      MapOfIsAdded(m, names, values);
    }
    if ListMeans(ps, m) {
      var names, values :| Define(ps, names, values) && MapOf(m, names, values);
      DefinedAreAdded(ps, names, values, map[]);
      MapOfIsAdded(m, names, values);
    }
  }

  lemma ListedIff(portion: string, ps: seq<string>)
    ensures Listed(portion, ps) <==> ps == Split(portion, ',')
  {
    JoinSplit(portion, ',');
    PartsLackDelimiter(portion, ',');
    if Listed(portion, ps) { SplitJoin(ps, ','); }
    hide Split, Join;
  }

  lemma PropertiesIff(portion: string, m: Properties)
    ensures PropertiesOf(portion) == Success(m) <==> PropertiesMean(portion, m)
  {
    var parts := Split(portion, ',');
    ListIff(parts, m);
    forall ps ensures Listed(portion, ps) <==> ps == parts { ListedIff(portion, ps); }
    hide AddProperties, Listed, ListMeans, Split;
    assert Listed(portion, parts);
  }
}
