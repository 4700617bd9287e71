/** The printed keys of a chain: a prefix, a colon and an id that may itself contain colons. */
module KeySpace {
  import opened EtcdStore

  datatype Prefixes = Prefixes(chain: string, data: string, extra: string)

  function Printed(prefix: string, id: string): string {
    prefix + ":" + id
  }

  function Render(p: Prefixes, k: Key): string {
    match k
    case ChainKey(id) => Printed(p.chain, id)
    case DataKey(id) => Printed(p.data, id)
    case ExtraKey(id) => Printed(p.extra, id)
  }

  /** What a chain locator without explicit prefixes selects. */
  function LocatorPrefixes(identifier: string): Prefixes {
    Prefixes(identifier, identifier + "_data", identifier + "_extra_data")
  }

  /** The default configurations, whose middle part is a date or empty. */
  function DefaultPrefixes(common: string, date: string): Prefixes {
    var stem := common + "_" + date;
    Prefixes(stem + "_chain", stem + "_data", stem + "_extra_data")
  }

  /** Neither prefix with its colon begins the other. */
  predicate Apart(p: string, q: string) {
    !(p + ":" <= q + ":") && !(q + ":" <= p + ":")
  }

  lemma PrintedInjective(prefix: string, a: string, b: string)
    requires Printed(prefix, a) == Printed(prefix, b)
    ensures a == b
  {
    assert a == Printed(prefix, a)[|prefix| + 1..];
    assert b == Printed(prefix, b)[|prefix| + 1..];
  }

  lemma CollideIff(p: string, q: string)
    ensures (exists a, b :: Printed(p, a) == Printed(q, b)) <==> !Apart(p, q)
  {
    var pc, qc := p + ":", q + ":";
    if pc <= qc {
      assert Printed(p, qc[|pc|..]) == Printed(q, "");
    } else if qc <= pc {
      assert Printed(p, "") == Printed(q, pc[|qc|..]);
    }
    forall a, b | Printed(p, a) == Printed(q, b) ensures !Apart(p, q) {
      var s := Printed(p, a);
      assert s[..|pc|] == pc && s[..|qc|] == qc;
      if |pc| <= |qc| {
        assert qc[..|pc|] == pc;
      } else {
        assert pc[..|qc|] == qc;
      }
    }
  }

  /** Distinct roles and distinct ids never share a printed key, whatever the ids contain,
      exactly when the three prefixes are pairwise apart. */
  lemma RenderInjectiveIff(p: Prefixes)
    ensures (forall k: Key, l: Key :: Render(p, k) == Render(p, l) ==> k == l)
            <==> Apart(p.chain, p.data) && Apart(p.chain, p.extra) && Apart(p.data, p.extra)
  {
    CollideIff(p.chain, p.data);
    CollideIff(p.chain, p.extra);
    CollideIff(p.data, p.extra);
    if forall k: Key, l: Key :: Render(p, k) == Render(p, l) ==> k == l {
      forall a, b ensures Printed(p.chain, a) != Printed(p.data, b) {
        assert Render(p, ChainKey(a)) != Render(p, DataKey(b));
      }
      forall a, b ensures Printed(p.chain, a) != Printed(p.extra, b) {
        assert Render(p, ChainKey(a)) != Render(p, ExtraKey(b));
      }
      forall a, b ensures Printed(p.data, a) != Printed(p.extra, b) {
        assert Render(p, DataKey(a)) != Render(p, ExtraKey(b));
      }
    }
    if Apart(p.chain, p.data) && Apart(p.chain, p.extra) && Apart(p.data, p.extra) {
      forall k: Key, l: Key | Render(p, k) == Render(p, l) ensures k == l {
        match (k, l)
        case (ChainKey(a), ChainKey(b)) => PrintedInjective(p.chain, a, b);
        case (DataKey(a), DataKey(b)) => PrintedInjective(p.data, a, b);
        case (ExtraKey(a), ExtraKey(b)) => PrintedInjective(p.extra, a, b);
        case (_, _) =>
      }
    }
  }

  /** Stems that differ in the same place stay apart whatever follows. */
  lemma ApartAt(p: string, q: string, i: nat)
    requires i < |p + ":"| && i < |q + ":"| && (p + ":")[i] != (q + ":")[i]
    ensures Apart(p, q)
  {
  }

  /** The printed keys written out. */
  lemma PrintedKeys(identifier: string, common: string, date: string, id: string)
    ensures var p := LocatorPrefixes(identifier);
            && Render(p, ChainKey(id)) == identifier + ":" + id
            && Render(p, DataKey(id)) == identifier + "_data:" + id
            && Render(p, ExtraKey(id)) == identifier + "_extra_data:" + id
    ensures var p := DefaultPrefixes(common, date);
            && Render(p, ChainKey(id)) == common + "_" + date + "_chain:" + id
            && Render(p, DataKey(id)) == common + "_" + date + "_data:" + id
            && Render(p, ExtraKey(id)) == common + "_" + date + "_extra_data:" + id
  {
    var stem := common + "_" + date;
    forall a: string, b: string ensures (a + b) + ":" + id == a + (b + ":") + id {
    }
    assert "_data" + ":" == "_data:" && "_extra_data" + ":" == "_extra_data:" && "_chain" + ":" == "_chain:";
  }

  lemma DefaultKeysNeverCollide(identifier: string, common: string, date: string)
    ensures forall k: Key, l: Key ::
              Render(LocatorPrefixes(identifier), k) == Render(LocatorPrefixes(identifier), l) ==> k == l
    ensures forall k: Key, l: Key ::
              Render(DefaultPrefixes(common, date), k) == Render(DefaultPrefixes(common, date), l) ==> k == l
  {
    var p, n := LocatorPrefixes(identifier), |identifier|;
    ApartAt(p.chain, p.data, n);
    ApartAt(p.chain, p.extra, n);
    ApartAt(p.data, p.extra, n + 1);
    RenderInjectiveIff(p);
    var q, m := DefaultPrefixes(common, date), |common + "_" + date|;
    ApartAt(q.chain, q.data, m + 1);
    ApartAt(q.chain, q.extra, m + 1);
    ApartAt(q.data, q.extra, m + 1);
    RenderInjectiveIff(q);
  }
}
