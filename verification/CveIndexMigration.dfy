/** The migration that fills the CVE product index from stored records. */
module CveIndexMigration {
  import opened Wrappers
  import opened Versions
  import opened CveMatching

  const BATCH_SIZE := 1000

  /** `_products` of one match: frozen in the migration, and for the 2.3 notation only. */
  function FrozenProduct(m: CpeMatch): Option<string> {
    if m.criteria.None? || !StartsWith(m.criteria.value, "cpe:2.3:") then None
    else
      var f := Split(m.criteria.value, ':');
      if |f| < 6 then None
      else
        var part, product := f[2], Lower(f[4]);
        if (part == "a" || part == "o") && !Wildcard(product) then Some(product) else None
  }

  /** The frozen copy finds what the application would index, except under the 2.2 notation. */
  lemma FrozenAgreesOn23(m: CpeMatch)
    ensures FrozenProduct(m) == IndexedUnder(m)
      <==> IndexedUnder(m).None? || StartsWith(m.criteria.value, "cpe:2.3:")
  {
  }

  /** A match in the 2.2 notation is matched but not indexed by the migration. */
  lemma ShortNotationIsMissed()
    ensures var m := CpeMatch(true, Some("cpe:/a:v:p"), Bounds(None, None, None, None));
      && MatchOne(m, Service("p", "", None)) == Some(Low)
      && IndexedUnder(m) == Some("p")
      && FrozenProduct(m) == None
  {
    hide ParseCpe, Compare;
    ParseExample();
  }

  lemma ParseExample()
    ensures !StartsWith("cpe:/a:v:p", "cpe:2.3:")
    ensures ParseCpe(Some("cpe:/a:v:p")) == Some(Cpe("a", "v", "p", "*"))
  {
    assert "cpe:/a:v:p"[4] == '/' && "cpe:2.3:"[4] == '2';
    hide ParseCpe, SplitUnescaped, Split;
    assert "cpe:/" + "a:v:p" == "cpe:/a:v:p";
    ParseShort("a:v:p");
    SplitExample();
    assert Lower("v") == "v" && Lower("p") == "p" && Lower("*") == "*";
  }

  lemma SplitExample()
    ensures SplitUnescaped("a:v:p", false) == ["a", "v", "p"]
  {
    NoBackslashNoEscape("a:v:p");
    assert "a:v:p" == "a" + [':'] + ("v" + [':'] + "p");
    SplitPrefixed("a", "v" + [':'] + "p");
    SplitPrefixed("v", "p");
    SplitOfJoin(["p"], ':');
    assert Join(["p"], ':') == "p";
  }

  // ----- The backfill -----

  datatype Record = Record(id: string, matches: seq<CpeMatch>)

  datatype Entry = Entry(product: string, id: string)

  ghost predicate Wanted(rows: seq<Record>, e: Entry) {
    exists i, j :: 0 <= i < |rows| && 0 <= j < |rows[i].matches|
      && rows[i].id == e.id && FrozenProduct(rows[i].matches[j]) == Some(e.product)
  }

  function Flat(batches: seq<seq<Entry>>): seq<Entry> {
    if batches == [] then [] else Flat(batches[..|batches| - 1]) + batches[|batches| - 1]
  }

  ghost predicate NoRepeats(s: seq<Entry>) { forall i, j :: 0 <= i < j < |s| ==> s[i] != s[j] }

  method Products(matches: seq<CpeMatch>) returns (products: set<string>)
    ensures forall p :: p in products <==> exists j :: 0 <= j < |matches| && FrozenProduct(matches[j]) == Some(p)
  {
    hide FrozenProduct;
    products := {};
    for i := 0 to |matches|
      invariant forall p :: p in products <==> exists k :: 0 <= k < i && FrozenProduct(matches[k]) == Some(p)
    {
      var p := FrozenProduct(matches[i]);
      if p.Some? { products := products + {p.value}; }
    }
  }

  /** What has been flushed and what is waiting, together, are the entries seen, each once. */
  ghost predicate Written(executed: seq<seq<Entry>>, batch: seq<Entry>, seen: set<Entry>) {
    && NoRepeats(Flat(executed) + batch)
    && (forall e :: e in seen <==> e in Flat(executed) + batch)
    && (forall k :: 0 <= k < |executed| ==> |executed[k]| == BATCH_SIZE)
    && |batch| < BATCH_SIZE
  }

  method AddProduct(executed: seq<seq<Entry>>, batch: seq<Entry>, seen: set<Entry>, e: Entry)
    returns (executed': seq<seq<Entry>>, batch': seq<Entry>, seen': set<Entry>)
    requires Written(executed, batch, seen)
    ensures Written(executed', batch', seen') && seen' == seen + {e}
  {
    executed', batch', seen' := executed, batch, seen;
    if e in seen { return; }
    seen' := seen + {e};
    batch' := batch + [e];
    assert Flat(executed) + batch' == Flat(executed) + batch + [e];
    if |batch'| >= BATCH_SIZE {
      executed' := executed + [batch'];
      assert executed'[..|executed|] == executed;
      assert Flat(executed') == Flat(executed) + batch';
      batch' := [];
      assert Flat(executed') + [] == Flat(executed');
    }
  }

  /** The loop of `upgrade`: every (product, CVE) pair is inserted exactly once, a thousand at a time. */
  method Backfill(rows: seq<Record>) returns (executed: seq<seq<Entry>>)
    ensures NoRepeats(Flat(executed))
    ensures forall e :: e in Flat(executed) <==> Wanted(rows, e)
    ensures forall k :: 0 <= k < |executed| ==> 0 < |executed[k]| <= 1000
    ensures forall k :: 0 <= k < |executed| - 1 ==> |executed[k]| == 1000
  {
    var batch, seen := [], {};
    executed := [];
    for i := 0 to |rows|
      invariant Written(executed, batch, seen)
      invariant forall e :: e in seen <==> Wanted(rows[..i], e)
    {
      executed, batch, seen := AddRecord(executed, batch, seen, rows[i]);
      assert rows[..i + 1] == rows[..i] + [rows[i]];
      forall e ensures e in seen <==> Wanted(rows[..i + 1], e) {
        WantedStep(rows[..i], rows[i], e);
      }
    }
    assert rows[..|rows|] == rows;
    ghost var before := executed;
    if |batch| > 0 {
      executed := executed + [batch];
      assert executed[..|before|] == before;
    } else {
      assert Flat(before) + batch == Flat(before);
    }
  }

  lemma WantedStep(rows: seq<Record>, r: Record, e: Entry)
    ensures Wanted(rows + [r], e) <==>
      Wanted(rows, e) ||
        (r.id == e.id && exists j :: 0 <= j < |r.matches| && FrozenProduct(r.matches[j]) == Some(e.product))
  {
    hide FrozenProduct;
    var all := rows + [r];
    if Wanted(rows, e) {
      var i, j :| 0 <= i < |rows| && 0 <= j < |rows[i].matches| && rows[i].id == e.id
        && FrozenProduct(rows[i].matches[j]) == Some(e.product);
      assert all[i] == rows[i];
    }
    if r.id == e.id && exists j :: 0 <= j < |r.matches| && FrozenProduct(r.matches[j]) == Some(e.product) {
      assert all[|rows|] == r;
    }
  }

  method AddRecord(executed0: seq<seq<Entry>>, batch0: seq<Entry>, seen0: set<Entry>, r: Record)
    returns (executed: seq<seq<Entry>>, batch: seq<Entry>, seen: set<Entry>)
    requires Written(executed0, batch0, seen0)
    ensures Written(executed, batch, seen)
    ensures forall e :: e in seen <==>
      e in seen0 || (e.id == r.id && exists j :: 0 <= j < |r.matches| && FrozenProduct(r.matches[j]) == Some(e.product))
  {
    hide FrozenProduct;
    executed, batch, seen := executed0, batch0, seen0;
    var all := Products(r.matches);
    var products := all;
    while products != {}
      invariant products <= all
      invariant Written(executed, batch, seen)
      invariant forall e :: e in seen <==> e in seen0 || (e.id == r.id && e.product in all - products)
      decreases products
    {
      var p :| p in products;
      executed, batch, seen := AddProduct(executed, batch, seen, Entry(p, r.id));
      products := products - {p};
    }
  }

  // ----- What the filled table finds -----

  predicate InLongNotation(m: CpeMatch) {
    m.criteria.Some? && StartsWith(m.criteria.value, "cpe:2.3:")
  }

  /** Some record of this CVE names the product in the 2.3 notation. */
  ghost predicate NamedIn23(rows: seq<Record>, id: string, product: string) {
    exists i, j :: 0 <= i < |rows| && 0 <= j < |rows[i].matches| && rows[i].id == id
      && IndexedUnder(rows[i].matches[j]) == Some(product) && InLongNotation(rows[i].matches[j])
  }

  ghost predicate Filled(rows: seq<Record>, table: set<Entry>) {
    forall e :: e in table <==> Wanted(rows, e)
  }

  lemma FrozenMeans(m: CpeMatch, p: string)
    ensures FrozenProduct(m) == Some(p) <==> IndexedUnder(m) == Some(p) && InLongNotation(m)
  {
    hide Split, Lower, SplitUnescaped;
  }

  lemma WantedMeans(rows: seq<Record>, id: string, product: string)
    ensures Wanted(rows, Entry(product, id)) <==> NamedIn23(rows, id, product)
  {
    hide FrozenProduct, ParseCpe;
    if Wanted(rows, Entry(product, id)) {
      var i, j :| 0 <= i < |rows| && 0 <= j < |rows[i].matches| && rows[i].id == id
        && FrozenProduct(rows[i].matches[j]) == Some(product);
      FrozenMeans(rows[i].matches[j], product);
    }
    if NamedIn23(rows, id, product) {
      var i, j :| 0 <= i < |rows| && 0 <= j < |rows[i].matches| && rows[i].id == id
        && IndexedUnder(rows[i].matches[j]) == Some(product) && InLongNotation(rows[i].matches[j]);
      FrozenMeans(rows[i].matches[j], product);
    }
  }

  /** Every service the matcher matches against a record is found through the table, wildcard products
      aside. */
  ghost predicate FindsMatches(rows: seq<Record>, table: set<Entry>) {
    forall i, s :: 0 <= i < |rows| && Best(rows[i].matches, s).Some? && !Wildcard(s.product) ==>
      Entry(s.product, rows[i].id) in table
  }

  /** The match names a product that some service can match: it is vulnerable, an application or an
      operating system, no wildcard, and has a version, or no bounds, or bounds that some version meets. */
  predicate Matchable(m: CpeMatch, product: string, version: string) {
    && Concerns(m, product) && !Wildcard(product)
    && (!Wildcard(ParseCpe(m.criteria).value.version) || !HasRange(m.bounds)
        || (version != "" && InRange(version, m.bounds)))
  }

  /** Every product such a match names in the 2.2 notation is also named in the 2.3 notation for the CVE. */
  ghost predicate ShortNotationIsRedundant(rows: seq<Record>) {
    forall i, j, product, version ::
      (0 <= i < |rows| && 0 <= j < |rows[i].matches| && Matchable(rows[i].matches[j], product, version)
        && !InLongNotation(rows[i].matches[j]))
      ==> NamedIn23(rows, rows[i].id, product)
  }

  /** The match's own fields say whether any service matches it: one that does has the product, and a
      version that meets the bounds if the match needs one. */
  lemma SomeServiceMatches(m: CpeMatch, product: string)
    ensures (exists version :: Matchable(m, product, version))
      <==> !Wildcard(product) && exists s: Service :: s.product == product && MatchOne(m, s).Some?
  {
    hide Compare, ParseCpe;
    if version :| Matchable(m, product, version) {
      var own := ParseCpe(m.criteria).value.version;
      CompareIsTotalPreorder(own, own, own);
      var s := Service(product, if !Wildcard(own) then own else if HasRange(m.bounds) then version else "", None);
      assert MatchOne(m, s).Some?;
    }
    if s: Service :| s.product == product && MatchOne(m, s).Some? && !Wildcard(product) {
      assert Matchable(m, product, s.version);
    }
  }

  lemma MatchedIsIndexed(m: CpeMatch, s: Service)
    requires MatchOne(m, s).Some? && !Wildcard(s.product)
    ensures m.criteria.Some? && IndexedUnder(m) == Some(s.product)
  {
    hide Compare, Split, SplitUnescaped, Lower;
  }

  /** After the migration the table finds every product the matcher matches, if and only if no product is
      named for matching in the 2.2 notation alone. */
  lemma TableIsComplete(rows: seq<Record>, table: set<Entry>)
    requires Filled(rows, table)
    ensures FindsMatches(rows, table) <==> ShortNotationIsRedundant(rows)
  {
    hide MatchOne, IndexedUnder, FrozenProduct, Matchable;
    if FindsMatches(rows, table) {
      forall i, j, product, version |
        0 <= i < |rows| && 0 <= j < |rows[i].matches| && Matchable(rows[i].matches[j], product, version)
        ensures NamedIn23(rows, rows[i].id, product)
      {
        SomeServiceMatches(rows[i].matches[j], product);
        var s: Service :| s.product == product && MatchOne(rows[i].matches[j], s).Some?;
        SomeBest(rows[i].matches, s, j);
        WantedMeans(rows, rows[i].id, product);
      }
    }
    if ShortNotationIsRedundant(rows) {
      forall i, s | 0 <= i < |rows| && Best(rows[i].matches, s).Some? && !Wildcard(s.product)
        ensures Entry(s.product, rows[i].id) in table
      {
        var j :| 0 <= j < |rows[i].matches| && MatchOne(rows[i].matches[j], s).Some?;
        MatchedIsIndexed(rows[i].matches[j], s);
        SomeServiceMatches(rows[i].matches[j], s.product);
        WantedMeans(rows, rows[i].id, s.product);
      }
    }
  }
}
