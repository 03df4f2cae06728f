/** Matching a service against a CVE's CPE criteria, and the product index that must not miss a match. */
module CveMatching {
  import opened Wrappers
  import opened Versions

  datatype Cpe = Cpe(part: string, vendor: string, product: string, version: string)

  // ----- Strings -----

  function LowerChar(c: char): char {
    if 'A' <= c <= 'Z' then (c as int + 32) as char else c
  }

  function Lower(s: string): (r: string)
    ensures |r| == |s|
    ensures forall i :: 0 <= i < |s| ==> r[i] == LowerChar(s[i])
  {
    seq(|s|, i requires 0 <= i < |s| => LowerChar(s[i]))
  }

  /** The twenty-six capitals become their small letters, in order, and nothing else changes. */
  lemma LowerMeans(c: char)
    ensures LowerChar(c) != c <==> 'A' <= c <= 'Z'
    ensures forall k :: 0 <= k < 26 ==>
      LowerChar("ABCDEFGHIJKLMNOPQRSTUVWXYZ"[k]) == "abcdefghijklmnopqrstuvwxyz"[k]
  {
  }

  predicate StartsWith(s: string, prefix: string) { |prefix| <= |s| && s[..|prefix|] == prefix }

  /** `str.split` on one character: never empty. */
  function Split(s: string, sep: char): (r: seq<string>)
    ensures r != []
  {
    if s == "" then [""]
    else if s[0] == sep then [""] + Split(s[1..], sep)
    else
      var rest := Split(s[1..], sep);
      [[s[0]] + rest[0]] + rest[1..]
  }

  function Join(fields: seq<string>, sep: char): string
    requires fields != []
  {
    if |fields| == 1 then fields[0] else fields[0] + [sep] + Join(fields[1..], sep)
  }

  /** Splitting at colons that no backslash precedes. */
  function SplitUnescaped(s: string, escaped: bool): (r: seq<string>)
    ensures r != []
  {
    if s == "" then [""]
    else if s[0] == ':' && !escaped then [""] + SplitUnescaped(s[1..], false)
    else
      var rest := SplitUnescaped(s[1..], s[0] == '\\');
      [[s[0]] + rest[0]] + rest[1..]
  }

  /** Splitting takes apart what joining put together. */
  lemma {:induction false} SplitOfJoin(fields: seq<string>, sep: char)
    requires fields != [] && forall f :: f in fields ==> sep !in f
    ensures Split(Join(fields, sep), sep) == fields
    decreases |fields|, |fields[0]|
  {
    var f := fields[0];
    assert f in fields;
    if f == "" {
      if |fields| > 1 {
        SplitOfJoin(fields[1..], sep);
        assert Join(fields, sep) == [sep] + Join(fields[1..], sep);
      }
    } else {
      var shorter := [f[1..]] + fields[1..];
      assert shorter[1..] == fields[1..];
      forall g | g in shorter ensures sep !in g {
        assert g == f[1..] || g in fields;
      }
      SplitOfJoin(shorter, sep);
      assert Join(fields, sep) == [f[0]] + Join(shorter, sep);
      assert f[0] in f;
      assert [f[0]] + f[1..] == f;
    }
  }

  /** `parse_cpe`: the 2.3 form of NVD, or the 2.2 form of Nmap; anything else, or a non-string, is nothing. */
  function ParseCpe(criteria: Option<string>): Option<Cpe> {
    if criteria.None? then None
    else if StartsWith(criteria.value, "cpe:2.3:") then
      var f := Split(criteria.value, ':');
      if |f| < 6 then None else Some(Cpe(f[2], Lower(f[3]), Lower(f[4]), Lower(f[5])))
    else if StartsWith(criteria.value, "cpe:/") then
      var f := SplitUnescaped(criteria.value[5..], false);
      if |f| < 3 then None
      else Some(Cpe(f[0], Lower(f[1]), Lower(f[2]), Lower(if |f| > 3 then f[3] else "*")))
    else None
  }

  lemma {:induction false} NoBackslashNoEscape(s: string)
    requires '\\' !in s
    ensures SplitUnescaped(s, false) == Split(s, ':')
  {
    if s != "" {
      assert s[0] in s;
      NoBackslashNoEscape(s[1..]);
    }
  }

  /** The two notations of the same plain name parse to the same identity. */
  lemma BothNotationsAgree(part: string, vendor: string, product: string, version: string)
    requires forall f :: f in [part, vendor, product, version] ==> ':' !in f && '\\' !in f
    ensures var name := Join([part, vendor, product, version], ':');
      && ParseCpe(Some("cpe:2.3:" + name)) == Some(Cpe(part, Lower(vendor), Lower(product), Lower(version)))
      && ParseCpe(Some("cpe:/" + name)) == ParseCpe(Some("cpe:2.3:" + name))
  {
    var fields := [part, vendor, product, version];
    var name := Join(fields, ':');
    SplitOfJoin(fields, ':');
    JoinHasNoBackslash(fields);
    NoBackslashNoEscape(name);
    hide Join, SplitUnescaped;
    ParseLong(name);
    ParseShort(name);
  }

  lemma ParseLong(name: string)
    ensures ParseCpe(Some("cpe:2.3:" + name)) ==
      var f := Split(name, ':');
      if |f| < 4 then None else Some(Cpe(f[0], Lower(f[1]), Lower(f[2]), Lower(f[3])))
  {
    hide Split;
    LongText(name);
    SplitPrefixed("2.3", name);
    SplitPrefixed("cpe", "2.3" + [':'] + name);
  }

  lemma LongText(name: string)
    ensures "cpe:2.3:" + name == "cpe" + [':'] + ("2.3" + [':'] + name)
    ensures StartsWith("cpe:2.3:" + name, "cpe:2.3:")
  {
    assert "cpe:2.3:" == "cpe" + [':'] + "2.3" + [':'];
  }

  lemma ParseShort(name: string)
    ensures ParseCpe(Some("cpe:/" + name)) ==
      var f := SplitUnescaped(name, false);
      if |f| < 3 then None else Some(Cpe(f[0], Lower(f[1]), Lower(f[2]), Lower(if |f| > 3 then f[3] else "*")))
  {
    hide SplitUnescaped, Split;
    var short := "cpe:/" + name;
    assert short[..5] == "cpe:/" && short[5..] == name;
    assert short[4] == '/' && "cpe:2.3:"[4] == '2';
  }

  lemma SplitPrefixed(f: string, rest: string)
    requires ':' !in f
    ensures Split(f + [':'] + rest, ':') == [f] + Split(rest, ':')
  {
    var s := f + [':'] + rest;
    if f == "" {
      assert s[1..] == rest;
    } else {
      assert s[1..] == f[1..] + [':'] + rest;
      assert f[0] in f;
      SplitPrefixed(f[1..], rest);
      assert [f[0]] + f[1..] == f;
    }
  }

  lemma {:induction false} JoinHasNoBackslash(fields: seq<string>)
    requires fields != [] && forall f :: f in fields ==> '\\' !in f
    ensures '\\' !in Join(fields, ':')
  {
    assert fields[0] in fields;
    if |fields| > 1 {
      forall f | f in fields[1..] ensures '\\' !in f { assert f in fields; }
      JoinHasNoBackslash(fields[1..]);
    }
  }

  predicate Wildcard(s: string) { s == "*" || s == "-" || s == "" }

  // ----- Confidence -----

  datatype Confidence = Low | Medium | High

  function Rank(c: Confidence): int {
    match c
    case Low => 1
    case Medium => 2
    case High => 3
  }

  datatype CpeMatch = CpeMatch(vulnerable: bool, criteria: Option<string>, bounds: Bounds)

  /** What discovery knows of a service; the product is lower-cased already. */
  datatype Service = Service(product: string, version: string, identity: Option<Cpe>)

  /** The match names this product, in an application or operating system. */
  predicate Concerns(m: CpeMatch, product: string) {
    var cpe := ParseCpe(m.criteria);
    m.vulnerable && cpe.Some? && (cpe.value.part == "a" || cpe.value.part == "o") && cpe.value.product == product
  }

  /** A known service identity must agree on the part, and on the vendor where both name one. */
  predicate Compatible(cpe: Cpe, s: Service) {
    s.identity.Some? ==>
      && s.identity.value.part == cpe.part
      && (Wildcard(s.identity.value.vendor) || Wildcard(cpe.vendor) || s.identity.value.vendor == cpe.vendor)
  }

  predicate VersionFits(m: CpeMatch, cpe: Cpe, version: string) {
    (!Wildcard(cpe.version) && Compare(version, cpe.version) == 0) || InRange(version, m.bounds)
  }

  predicate SameProduct(a: Cpe, b: Cpe) { a.part == b.part && a.vendor == b.vendor && a.product == b.product }

  /** The confidence a single CPE match gives on its own. */
  function MatchOne(m: CpeMatch, s: Service): Option<Confidence> {
    if !Concerns(m, s.product) then None
    else
      var cpe := ParseCpe(m.criteria).value;
      if !Compatible(cpe, s) then None
      else if s.version != "" && VersionFits(m, cpe, s.version) then
        Some(if s.identity.Some? && SameProduct(s.identity.value, cpe) then High else Medium)
      else if Wildcard(cpe.version) && !HasRange(m.bounds) then Some(Low)
      else None
  }

  /** The exact version, or a version within the bounds. */
  ghost predicate NamesVersion(m: CpeMatch, cpe: Cpe, version: string) {
    && version != ""
    && (InRange(version, m.bounds) || (cpe.version !in {"*", "-", ""} && Tokens(version) == Tokens(cpe.version)))
  }

  /** When a single match applies, and how much it says: high if the version is named and the service's own
      identity is that product, medium if only the version is, and low if the match names no version. */
  lemma SingleMatch(m: CpeMatch, s: Service)
    ensures var c := ParseCpe(m.criteria);
      var applies := m.vulnerable && c.Some? && c.value.part in {"a", "o"} && c.value.product == s.product
        && (s.identity.Some? ==>
              && s.identity.value.part == c.value.part
              && (s.identity.value.vendor == c.value.vendor || s.identity.value.vendor in {"*", "-", ""}
                  || c.value.vendor in {"*", "-", ""}));
      var own := applies && s.identity.Some? && s.identity.value.vendor == c.value.vendor
        && s.identity.value.product == c.value.product;
      && (MatchOne(m, s) == Some(High) <==> own && NamesVersion(m, c.value, s.version))
      && (MatchOne(m, s) == Some(Medium) <==> applies && !own && NamesVersion(m, c.value, s.version))
      && (MatchOne(m, s) == Some(Low) <==>
            applies && !NamesVersion(m, c.value, s.version) && c.value.version in {"*", "-", ""} && !HasRange(m.bounds))
  {
    hide ParseCpe, Compare, Tokens;
    var c := ParseCpe(m.criteria);
    if c.Some? { CompareIsTotalPreorder(s.version, c.value.version, c.value.version); }
  }

  /** Some match alone gives `c`. */
  ghost predicate Gives(ms: seq<CpeMatch>, s: Service, c: Confidence) {
    exists i :: 0 <= i < |ms| && MatchOne(ms[i], s) == Some(c)
  }

  /** The best that some match alone gives, or nothing if there is none. */
  ghost function Best(ms: seq<CpeMatch>, s: Service): Option<Confidence> {
    if Gives(ms, s, High) then Some(High)
    else if Gives(ms, s, Medium) then Some(Medium)
    else if Gives(ms, s, Low) then Some(Low)
    else None
  }

  /** The body of the loop in `match_confidence`. */
  method Judge(m: CpeMatch, s: Service) returns (confidence: Option<Confidence>)
    ensures confidence == MatchOne(m, s)
  {
    hide Compare;
    confidence := None;
    if !m.vulnerable { return; }
    var parsed := ParseCpe(m.criteria);
    if parsed.None? { return; }
    var cpe := parsed.value;
    if cpe.part != "a" && cpe.part != "o" { return; }
    if cpe.product != s.product { return; }
    if s.identity.Some? {
      var id := s.identity.value;
      if id.part != cpe.part || (!Wildcard(id.vendor) && !Wildcard(cpe.vendor) && id.vendor != cpe.vendor) { return; }
    }
    var hasRange := HasRange(m.bounds);
    var specific := !Wildcard(cpe.version);
    if s.version != "" {
      var exact := false;
      if specific {
        var c := Cmp(s.version, cpe.version);
        exact := c == 0;
      }
      var inRange := false;
      if hasRange { inRange := VersionInRange(s.version, m.bounds); }
      if exact || inRange { confidence := Some(Medium); }
      if confidence.Some? && s.identity.Some? && SameProduct(s.identity.value, cpe) { confidence := Some(High); }
    }
    if confidence.None? && !specific && !hasRange { confidence := Some(Low); }
  }

  /** `match_confidence`; an empty product or version stands for an absent one. */
  method MatchConfidence(ms: seq<CpeMatch>, product: string, version: string, serviceCpe: string)
    returns (best: Option<Confidence>)
    ensures product == "" ==> best.None?
    ensures product != "" ==>
      best == Best(ms, Service(Lower(product), Lower(version),
                               if serviceCpe == "" then None else ParseCpe(Some(serviceCpe))))
  {
    hide MatchOne;
    best := None;
    if product == "" { return; }
    var s := Service(Lower(product), Lower(version), if serviceCpe == "" then None else ParseCpe(Some(serviceCpe)));
    for i := 0 to |ms|
      invariant best == Best(ms[..i], s)
    {
      BestSoFar(ms, i, s);
      var confidence := Judge(ms[i], s);
      if confidence.Some? && (best.None? || Rank(confidence.value) > Rank(best.value)) { best := confidence; }
    }
    assert ms[..|ms|] == ms;
  }

  /** One more match counts if it ranks higher. */
  lemma BestSoFar(ms: seq<CpeMatch>, i: nat, s: Service)
    requires i < |ms|
    ensures var best, next := Best(ms[..i], s), MatchOne(ms[i], s);
      Best(ms[..i + 1], s) == if next.Some? && (best.None? || Rank(next.value) > Rank(best.value)) then next else best
  {
    hide MatchOne;
    forall c ensures Gives(ms[..i + 1], s, c) <==> Gives(ms[..i], s, c) || MatchOne(ms[i], s) == Some(c) {
      if Gives(ms[..i], s, c) {
        var k :| 0 <= k < i && MatchOne(ms[..i][k], s) == Some(c);
        assert MatchOne(ms[..i + 1][k], s) == Some(c);
      }
      if Gives(ms[..i + 1], s, c) {
        var k :| 0 <= k <= i && MatchOne(ms[..i + 1][k], s) == Some(c);
        assert k < i ==> MatchOne(ms[..i][k], s) == Some(c);
      }
      assert ms[..i + 1][i] == ms[i];
    }
    var next := MatchOne(ms[i], s);
    assert next.Some? ==> next.value.Low? || next.value.Medium? || next.value.High?;
  }

  lemma SomeBest(ms: seq<CpeMatch>, s: Service, i: nat)
    requires i < |ms| && MatchOne(ms[i], s).Some?
    ensures Best(ms, s).Some?
  {
    hide MatchOne;
    var c := MatchOne(ms[i], s).value;
    assert Gives(ms, s, c) && (c.Low? || c.Medium? || c.High?);
  }

  /** The best confidence depends on which matches there are, not on their order or number. */
  lemma BestIgnoresOrder(ms: seq<CpeMatch>, ms': seq<CpeMatch>, s: Service)
    requires forall m :: m in ms <==> m in ms'
    ensures Best(ms, s) == Best(ms', s)
  {
    hide MatchOne;
    SameGiven(ms, ms', s);
  }

  lemma SameGiven(ms: seq<CpeMatch>, ms': seq<CpeMatch>, s: Service)
    requires forall m :: m in ms <==> m in ms'
    ensures forall c :: Gives(ms, s, c) <==> Gives(ms', s, c)
  {
    hide MatchOne;
    forall c ensures Gives(ms, s, c) <==> Gives(ms', s, c) {
      if Gives(ms, s, c) {
        var i :| 0 <= i < |ms| && MatchOne(ms[i], s) == Some(c);
        assert ms[i] in ms';
      }
      if Gives(ms', s, c) {
        var i :| 0 <= i < |ms'| && MatchOne(ms'[i], s) == Some(c);
        assert ms'[i] in ms;
      }
    }
  }

  // ----- The product index -----

  /** The product a match is indexed under, if any. */
  function IndexedUnder(m: CpeMatch): Option<string> {
    var cpe := ParseCpe(m.criteria);
    if cpe.Some? && (cpe.value.part == "a" || cpe.value.part == "o") && !Wildcard(cpe.value.product)
    then Some(cpe.value.product) else None
  }

  /** `products_from_cpe_matches`. */
  method ProductsFromCpeMatches(ms: seq<CpeMatch>) returns (products: set<string>)
    ensures forall p :: p in products <==> exists i :: 0 <= i < |ms| && IndexedUnder(ms[i]) == Some(p)
  {
    hide ParseCpe;
    products := {};
    for i := 0 to |ms|
      invariant forall p :: p in products <==> exists k :: 0 <= k < i && IndexedUnder(ms[k]) == Some(p)
    {
      var cpe := ParseCpe(ms[i].criteria);
      if cpe.Some? && (cpe.value.part == "a" || cpe.value.part == "o") && !Wildcard(cpe.value.product) {
        products := products + {cpe.value.product};
        assert IndexedUnder(ms[i]) == Some(cpe.value.product);
      }
    }
  }

  /** Index completeness: a service the matcher would match is found through the index exactly when its
      product is not a wildcard. */
  lemma IndexIsComplete(ms: seq<CpeMatch>, s: Service, products: set<string>)
    requires Best(ms, s).Some? && s.product != ""
    requires forall p :: p in products <==> exists i :: 0 <= i < |ms| && IndexedUnder(ms[i]) == Some(p)
    ensures s.product in products <==> !Wildcard(s.product)
  {
  }
}
