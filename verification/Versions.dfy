/** Version strings: the tokenizer, the comparator, and the ranges they decide. Versions are ASCII. */
module Versions {
  import opened Wrappers
  import opened Ordering

  datatype Token = Num(n: nat) | Text(s: string)

  predicate IsDigit(c: char) { '0' <= c <= '9' }

  predicate IsLetter(c: char) { 'a' <= c <= 'z' || 'A' <= c <= 'Z' }

  predicate IsSeparator(c: char) { !IsDigit(c) && !IsLetter(c) }

  /** Letters are the twenty-six of either case. */
  lemma LettersMean(c: char, k: nat)
    ensures k < 26 ==> IsLetter("abcdefghijklmnopqrstuvwxyz"[k]) && IsLetter("ABCDEFGHIJKLMNOPQRSTUVWXYZ"[k])
    ensures IsLetter(c) <==> 'A' as int <= c as int < 'A' as int + 26 || 'a' as int <= c as int < 'a' as int + 26
  {
  }

  ghost predicate AllDigits(s: string) { forall i :: 0 <= i < |s| ==> IsDigit(s[i]) }

  ghost predicate AllLetters(s: string) { forall i :: 0 <= i < |s| ==> IsLetter(s[i]) }

  /** The value of a string of digits. */
  function Value(s: string): nat {
    if s == "" then 0
    else Value(s[..|s| - 1]) * 10 + if IsDigit(s[|s| - 1]) then s[|s| - 1] as int - '0' as int else 0
  }

  // ----- What the tokens of a version are: its maximal runs of digits and of letters -----

  predicate SameKind(c: char, d: char) {
    (IsDigit(c) && IsDigit(d)) || (IsLetter(c) && IsLetter(d))
  }

  /** The length of the maximal run at the front. */
  function RunLength(v: string): (n: nat)
    ensures n <= |v|
    ensures v != "" && !IsSeparator(v[0]) ==> n > 0
    ensures forall i :: 0 <= i < n ==> SameKind(v[0], v[i])
    ensures n < |v| && n > 0 ==> !SameKind(v[0], v[n])
  {
    if v == "" || IsSeparator(v[0]) then 0
    else if |v| > 1 && SameKind(v[0], v[1]) then 1 + RunLength(v[1..])
    else 1
  }

  function TokenOf(run: string): Token {
    if run != "" && IsDigit(run[0]) then Num(Value(run)) else Text(run)
  }

  function Tokens(v: string): seq<Token>
    decreases |v|
  {
    if v == "" then []
    else if IsSeparator(v[0]) then Tokens(v[1..])
    else
      var n := RunLength(v);
      [TokenOf(v[..n])] + Tokens(v[n..])
  }

  /** A run is found whatever follows it, if it ends there. */
  lemma {:induction false} RunIs(run: string, rest: string)
    requires run != "" && (AllDigits(run) || AllLetters(run))
    requires rest == "" || !SameKind(run[0], rest[0])
    ensures RunLength(run + rest) == |run|
  {
    var v := run + rest;
    if |run| > 1 {
      assert v[1..] == run[1..] + rest;
      RunIs(run[1..], rest);
    }
  }

  lemma TokensOfRun(run: string, rest: string)
    requires run != "" && (AllDigits(run) || AllLetters(run))
    requires rest == "" || !SameKind(run[0], rest[0])
    ensures Tokens(run + rest) == [TokenOf(run)] + Tokens(rest)
  {
    RunIs(run, rest);
    assert (run + rest)[..|run|] == run && (run + rest)[|run|..] == rest;
  }

  /** The open token of the pass below: digits or letters, as the flag says. */
  ghost predicate Open(token: string, isDigit: bool) {
    (token == "" ==> !isDigit) && (if isDigit then AllDigits(token) else AllLetters(token))
  }

  function Closed(token: string, isDigit: bool): seq<Token> {
    if token == "" then [] else [if isDigit then Num(Value(token)) else Text(token)]
  }

  lemma CloseBefore(token: string, isDigit: bool, tail: string)
    requires Open(token, isDigit)
    requires tail == "" || IsSeparator(tail[0]) || (isDigit && IsLetter(tail[0])) || (!isDigit && IsDigit(tail[0]))
    ensures Tokens(token + tail) == Closed(token, isDigit) + Tokens(tail)
  {
    if token == "" {
      assert token + tail == tail;
    } else {
      TokensOfRun(token, tail);
    }
  }

  lemma SkipSeparator(c: char, rest: string)
    requires IsSeparator(c)
    ensures Tokens([c] + rest) == Tokens(rest)
  {
    assert ([c] + rest)[1..] == rest;
  }

  /** One character of the pass. */
  method Feed(parts: seq<Token>, token: string, isDigit: bool, ch: char, ghost rest: string)
    returns (parts': seq<Token>, token': string, isDigit': bool)
    requires Open(token, isDigit)
    ensures Open(token', isDigit')
    ensures parts' + Tokens(token' + rest) == parts + Tokens(token + ([ch] + rest))
  {
    hide Tokens, Value;
    ghost var tail := [ch] + rest;
    parts', token', isDigit' := parts, token, isDigit;
    if IsDigit(ch) {
      if token != "" && !isDigit {
        CloseBefore(token, isDigit, tail);
        parts' := parts + [Text(token)];
        token' := "";
      }
      isDigit' := true;
      assert token' + tail == token' + [ch] + rest;
      assert "" + tail == tail;
      token' := token' + [ch];
    } else if IsLetter(ch) {
      if token != "" && isDigit {
        CloseBefore(token, isDigit, tail);
        parts' := parts + [Num(Value(token))];
        token' := "";
      }
      isDigit' := false;
      assert token' + tail == token' + [ch] + rest;
      assert "" + tail == tail;
      token' := token' + [ch];
    } else {
      CloseBefore(token, isDigit, tail);
      SkipSeparator(ch, rest);
      if token != "" {
        parts' := parts + [if isDigit then Num(Value(token)) else Text(token)];
        token' := "";
      }
      isDigit' := false;
      assert "" + rest == rest;
    }
  }

  /** `_version_tuple`: one pass, with the open token and its kind. */
  method VersionTuple(version: string) returns (parts: seq<Token>)
    ensures parts == Tokens(version)
  {
    hide Tokens, Value, Open;
    parts := [];
    var token, isDigit := "", false;
    NothingOpen();
    assert "" + version[0..] == version;
    for i := 0 to |version|
      invariant Open(token, isDigit)
      invariant parts + Tokens(token + version[i..]) == Tokens(version)
    {
      assert version[i..] == [version[i]] + version[i + 1..];
      parts, token, isDigit := Feed(parts, token, isDigit, version[i], version[i + 1..]);
    }
    assert version[|version|..] == "";
    CloseBefore(token, isDigit, "");
    if token != "" {
      parts := parts + [if isDigit then Num(Value(token)) else Text(token)];
    }
  }

  lemma NothingOpen()
    ensures Open("", false) && Tokens("") == []
  {
  }

  /** What the tokenizer can produce. */
  ghost predicate WellFormed(t: Token) {
    t.Text? ==> t.s != "" && AllLetters(t.s)
  }

  lemma {:induction false} TokensWellFormed(v: string)
    ensures forall i :: 0 <= i < |Tokens(v)| ==> WellFormed(Tokens(v)[i])
    decreases |v|
  {
    if v != "" {
      if IsSeparator(v[0]) {
        TokensWellFormed(v[1..]);
      } else {
        TokensWellFormed(v[RunLength(v)..]);
      }
    }
  }

  // ----- Comparison -----

  function Sign(less: bool, greater: bool): int {
    if less then -1 else if greater then 1 else 0
  }

  /** Numbers by value, texts byte-wise, and a mixed pair as strings. */
  function CompareToken(x: Token, y: Token): int {
    match (x, y)
    case (Num(m), Num(n)) => Sign(m < n, m > n)
    case (Text(s), Text(t)) => Sign(StringLess(s, t), StringLess(t, s))
    case (Num(m), Text(t)) => Sign(StringLess(Decimal(m), t), StringLess(t, Decimal(m)))
    case (Text(s), Num(n)) => Sign(StringLess(s, Decimal(n)), StringLess(Decimal(n), s))
  }

  function CompareTuples(a: seq<Token>, b: seq<Token>): int {
    if a == [] || b == [] then Sign(|a| < |b|, |a| > |b|)
    else if CompareToken(a[0], b[0]) != 0 then CompareToken(a[0], b[0])
    else CompareTuples(a[1..], b[1..])
  }

  function Compare(a: string, b: string): int {
    CompareTuples(Tokens(a), Tokens(b))
  }

  /** `_cmp`. */
  method Cmp(a: string, b: string) returns (r: int)
    ensures r == Compare(a, b)
  {
    var ta := VersionTuple(a);
    var tb := VersionTuple(b);
    var i := 0;
    while i < |ta| && i < |tb|
      invariant i <= |ta| && i <= |tb|
      invariant CompareTuples(ta[i..], tb[i..]) == CompareTuples(ta, tb)
      decreases |ta| - i
    {
      var x, y := ta[i], tb[i];
      assert ta[i..][0] == x && tb[i..][0] == y && ta[i..][1..] == ta[i + 1..] && tb[i..][1..] == tb[i + 1..];
      if x.Num? && y.Num? {
        if x.n < y.n { return -1; }
        if x.n > y.n { return 1; }
      } else if x.Text? && y.Text? {
        if StringLess(x.s, y.s) { return -1; }
        if StringLess(y.s, x.s) { return 1; }
      } else {
        var sx := if x.Num? then Decimal(x.n) else x.s;
        var sy := if y.Num? then Decimal(y.n) else y.s;
        if StringLess(sx, sy) { return -1; }
        if StringLess(sy, sx) { return 1; }
      }
      i := i + 1;
    }
    if |ta| < |tb| { return -1; }
    if |ta| > |tb| { return 1; }
    return 0;
  }

  /** A number sorts before a text, because digits sort before letters. */
  lemma MixedPair(n: nat, s: string)
    requires s != "" && AllLetters(s)
    ensures StringLess(Decimal(n), s) && !StringLess(s, Decimal(n))
  {
    DecimalNatural(n);
    assert Decimal(n)[0] in Decimal(n);
    assert IsLetter(s[0]);
    StringLessTotal(Decimal(n), s);
  }

  lemma TokenOrder(x: Token, y: Token, z: Token)
    requires WellFormed(x) && WellFormed(y) && WellFormed(z)
    ensures CompareToken(y, x) == -CompareToken(x, y)
    ensures CompareToken(x, y) == 0 <==> x == y
    ensures CompareToken(x, y) <= 0 && CompareToken(y, z) <= 0 ==> CompareToken(x, z) <= 0
  {
    TokenPair(x, y);
    TokenPair(y, z);
    TokenPair(x, z);
    if x.Text? && y.Text? && z.Text? && StringLess(x.s, y.s) && StringLess(y.s, z.s) {
      StringLessTransitive(x.s, y.s, z.s);
    }
  }

  lemma TokenPair(x: Token, y: Token)
    requires WellFormed(x) && WellFormed(y)
    ensures CompareToken(y, x) == -CompareToken(x, y)
    ensures CompareToken(x, y) == 0 <==> x == y
    ensures CompareToken(x, y) < 0 <==>
      (x.Num? && y.Text?) || (x.Num? && y.Num? && x.n < y.n) || (x.Text? && y.Text? && StringLess(x.s, y.s))
  {
    match (x, y)
    case (Num(_), Num(_)) =>
    case (Text(s), Text(t)) => StringLessTotal(s, t);
    case (Num(m), Text(t)) => MixedPair(m, t);
    case (Text(s), Num(n)) => MixedPair(n, s);
  }

  ghost predicate AllWellFormed(a: seq<Token>) {
    forall i :: 0 <= i < |a| ==> WellFormed(a[i])
  }

  lemma {:induction false} TupleOrder(a: seq<Token>, b: seq<Token>, c: seq<Token>)
    requires AllWellFormed(a) && AllWellFormed(b) && AllWellFormed(c)
    ensures CompareTuples(b, a) == -CompareTuples(a, b)
    ensures CompareTuples(a, b) == 0 <==> a == b
    ensures CompareTuples(a, b) <= 0 && CompareTuples(b, c) <= 0 ==> CompareTuples(a, c) <= 0
  {
    hide CompareToken, WellFormed;
    if a != [] && b != [] {
      assert a == [a[0]] + a[1..] && b == [b[0]] + b[1..];
      if c != [] {
        TokenOrder(a[0], b[0], c[0]);
        TokenOrder(b[0], c[0], a[0]);
        TokenOrder(c[0], b[0], a[0]);
        TokenOrder(a[0], c[0], b[0]);
        TupleOrder(a[1..], b[1..], c[1..]);
      } else {
        TokenOrder(a[0], b[0], a[0]);
        TupleOrder(a[1..], b[1..], []);
      }
    }
  }

  /** The comparator is a total preorder on all versions, mixed components included, and two versions
      compare equal exactly when their components are equal. */
  lemma CompareIsTotalPreorder(a: string, b: string, c: string)
    ensures Compare(a, a) == 0
    ensures Compare(b, a) == -Compare(a, b)
    ensures Compare(a, b) == 0 <==> Tokens(a) == Tokens(b)
    ensures Compare(a, b) <= 0 && Compare(b, c) <= 0 ==> Compare(a, c) <= 0
  {
    TokensWellFormed(a);
    TokensWellFormed(b);
    TokensWellFormed(c);
    TupleOrder(Tokens(a), Tokens(b), Tokens(c));
    TupleOrder(Tokens(a), Tokens(a), Tokens(a));
  }

  /** Numbers by value, texts by their order, and numbers before texts. */
  ghost predicate Lesser(x: Token, y: Token) {
    match (x, y)
    case (Num(m), Num(n)) => m < n
    case (Text(s), Text(t)) => StringLess(s, t)
    case (Num(_), Text(_)) => true
    case (Text(_), Num(_)) => false
  }

  /** The first component in which they differ decides, or the shorter version comes first. */
  ghost predicate Precedes(a: seq<Token>, b: seq<Token>) {
    exists i :: 0 <= i <= |a| && i < |b| && a[..i] == b[..i] && (i == |a| || Lesser(a[i], b[i]))
  }

  lemma {:induction false} TuplesMean(a: seq<Token>, b: seq<Token>)
    requires AllWellFormed(a) && AllWellFormed(b)
    ensures CompareTuples(a, b) < 0 <==> Precedes(a, b)
  {
    hide CompareToken, WellFormed, Lesser;
    if a != [] && b != [] {
      var a', b' := a[1..], b[1..];
      TokensMean(a[0], b[0]);
      TuplesMean(a', b');
      if a[0] == b[0] {
        if i :| 0 <= i <= |a'| && i < |b'| && a'[..i] == b'[..i] && (i == |a'| || Lesser(a'[i], b'[i])) {
          assert a[..i + 1] == [a[0]] + a'[..i] && b[..i + 1] == [b[0]] + b'[..i];
        }
        if i :| 0 <= i <= |a| && i < |b| && a[..i] == b[..i] && (i == |a| || Lesser(a[i], b[i])) {
          assert i > 0;
          assert a'[..i - 1] == a[..i][1..] && b'[..i - 1] == b[..i][1..];
        }
      } else {
        assert a[..0] == b[..0];
        assert forall i :: 0 < i <= |a| && i < |b| ==> a[..i][0] != b[..i][0];
      }
    } else {
      assert a[..0] == b[..0];
    }
  }

  lemma TokensMean(x: Token, y: Token)
    requires WellFormed(x) && WellFormed(y)
    ensures CompareToken(x, y) < 0 <==> Lesser(x, y)
    ensures CompareToken(x, y) == 0 <==> x == y
    ensures !Lesser(x, x)
  {
    TokenPair(x, y);
    TokenPair(x, x);
  }

  /** What the comparator says of two versions: less, by their components; equal, if they have the same; and
      otherwise greater. */
  lemma CompareMeans(a: string, b: string)
    ensures Compare(a, b) < 0 <==> Precedes(Tokens(a), Tokens(b))
    ensures Compare(a, b) > 0 <==> Precedes(Tokens(b), Tokens(a))
    ensures Compare(a, b) == 0 <==> Tokens(a) == Tokens(b)
  {
    TokensWellFormed(a);
    TokensWellFormed(b);
    TuplesMean(Tokens(a), Tokens(b));
    TuplesMean(Tokens(b), Tokens(a));
    CompareIsTotalPreorder(a, b, a);
  }

  // ----- Printing components gives a version with those components -----

  function Render(ts: seq<Token>): string {
    if ts == [] then ""
    else (match ts[0] case Num(n) => Decimal(n) case Text(s) => s) + (if |ts| > 1 then "." + Render(ts[1..]) else "")
  }

  lemma {:induction false} ValueOfDecimal(n: nat)
    ensures Value(Decimal(n)) == n && AllDigits(Decimal(n))
  {
    DecimalNatural(n);
    var s := Decimal(n);
    forall i | 0 <= i < |s| ensures IsDigit(s[i]) { assert s[i] in s; }
    if n >= 10 {
      ValueOfDecimal(n / 10);
      assert s[..|s| - 1] == Decimal(n / 10);
    } else {
      assert s[..0] == "";
    }
  }

  lemma {:induction false} TokensOfRender(ts: seq<Token>)
    requires AllWellFormed(ts)
    ensures Tokens(Render(ts)) == ts
  {
    if ts != [] {
      var run := match ts[0] case Num(n) => Decimal(n) case Text(s) => s;
      if ts[0].Num? { ValueOfDecimal(ts[0].n); }
      assert TokenOf(run) == ts[0];
      TokensOfRender(ts[1..]);
      if |ts| > 1 {
        var rest := "." + Render(ts[1..]);
        assert rest[0] == '.' && rest[1..] == Render(ts[1..]);
        TokensOfRun(run, rest);
      } else {
        TokensOfRun(run, "");
      }
    }
  }

  // ----- Ranges -----

  /** The four bounds of a CPE match; an absent or empty bound constrains nothing. */
  datatype Bounds = Bounds(startIncluding: Option<string>, startExcluding: Option<string>,
                           endIncluding: Option<string>, endExcluding: Option<string>)

  predicate Present(b: Option<string>) { b.Some? && b.value != "" }

  predicate HasRange(m: Bounds) {
    Present(m.startIncluding) || Present(m.startExcluding) || Present(m.endIncluding) || Present(m.endExcluding)
  }

  /** Every bound that is there holds, and one is. */
  predicate InRange(v: string, m: Bounds) {
    && HasRange(m)
    && (Present(m.startIncluding) ==> Compare(v, m.startIncluding.value) >= 0)
    && (Present(m.startExcluding) ==> Compare(v, m.startExcluding.value) > 0)
    && (Present(m.endIncluding) ==> Compare(v, m.endIncluding.value) <= 0)
    && (Present(m.endExcluding) ==> Compare(v, m.endExcluding.value) < 0)
  }

  datatype Check = AtLeast | Above | AtMost | Below

  /** `_version_in_range`: the checks in turn. */
  method VersionInRange(version: string, m: Bounds) returns (r: bool)
    ensures r == InRange(version, m)
  {
    var checks := [(m.startIncluding, AtLeast), (m.startExcluding, Above), (m.endIncluding, AtMost),
                   (m.endExcluding, Below)];
    var sawBound := false;
    for i := 0 to |checks|
      invariant sawBound <==> exists k :: 0 <= k < i && Present(checks[k].0)
      invariant forall k :: 0 <= k < i && Present(checks[k].0) ==>
        Holds(checks[k].1, Compare(version, checks[k].0.value))
    {
      var (bound, check) := checks[i];
      if Present(bound) {
        sawBound := true;
        var c := Cmp(version, bound.value);
        if !Holds(check, c) {
          assert Present(checks[i].0);
          FailedCheck(version, m, i);
          return false;
        }
      }
    }
    assert Present(checks[0].0) ==> Holds(AtLeast, Compare(version, checks[0].0.value));
    assert Present(checks[1].0) ==> Holds(Above, Compare(version, checks[1].0.value));
    assert Present(checks[2].0) ==> Holds(AtMost, Compare(version, checks[2].0.value));
    assert Present(checks[3].0) ==> Holds(Below, Compare(version, checks[3].0.value));
    return sawBound;
  }

  predicate Holds(check: Check, c: int) {
    match check
    case AtLeast => c >= 0
    case Above => c > 0
    case AtMost => c <= 0
    case Below => c < 0
  }

  lemma FailedCheck(version: string, m: Bounds, i: nat)
    requires i < 4
    requires var (b, k) := [(m.startIncluding, AtLeast), (m.startExcluding, Above), (m.endIncluding, AtMost),
                            (m.endExcluding, Below)][i];
      Present(b) && !Holds(k, Compare(version, b.value))
    ensures !InRange(version, m)
  {
  }

  /** An included bound admits the versions with its own components, an excluded one does not. */
  lemma RangeMeans(v: string, m: Bounds)
    ensures var (si, se, ei, ee) := (m.startIncluding, m.startExcluding, m.endIncluding, m.endExcluding);
      InRange(v, m) <==>
        && (si.Some? && si.value != "" ==> !Precedes(Tokens(v), Tokens(si.value)))
        && (se.Some? && se.value != "" ==> Precedes(Tokens(se.value), Tokens(v)))
        && (ei.Some? && ei.value != "" ==> !Precedes(Tokens(ei.value), Tokens(v)))
        && (ee.Some? && ee.value != "" ==> Precedes(Tokens(v), Tokens(ee.value)))
        && exists b :: b in {si, se, ei, ee} && b.Some? && b.value != ""
  {
    hide Compare, Precedes, Tokens;
    if Present(m.startIncluding) { CompareMeans(v, m.startIncluding.value); }
    if Present(m.startExcluding) { CompareMeans(v, m.startExcluding.value); }
    if Present(m.endIncluding) { CompareMeans(v, m.endIncluding.value); }
    if Present(m.endExcluding) { CompareMeans(v, m.endExcluding.value); }
    var all := {m.startIncluding, m.startExcluding, m.endIncluding, m.endExcluding};
    assert HasRange(m) <==> exists b :: b in all && Present(b) by {
      assert m.startIncluding in all && m.startExcluding in all && m.endIncluding in all && m.endExcluding in all;
    }
  }

  /** Ranges are convex: whatever lies between two versions in the range is in the range. */
  lemma RangeIsConvex(u: string, v: string, w: string, m: Bounds)
    requires InRange(u, m) && InRange(w, m) && Compare(u, v) <= 0 && Compare(v, w) <= 0
    ensures InRange(v, m)
  {
    hide Compare;
    if Present(m.startIncluding) { RaisesAbove(m.startIncluding.value, u, v); }
    if Present(m.startExcluding) { RaisesAbove(m.startExcluding.value, u, v); }
    if Present(m.endIncluding) { LowersBelow(v, w, m.endIncluding.value); }
    if Present(m.endExcluding) { LowersBelow(v, w, m.endExcluding.value); }
  }

  lemma RaisesAbove(b: string, u: string, v: string)
    requires Compare(u, v) <= 0
    ensures Compare(u, b) >= 0 ==> Compare(v, b) >= 0
    ensures Compare(u, b) > 0 ==> Compare(v, b) > 0
  {
    CompareIsTotalPreorder(b, u, v);
    CompareIsTotalPreorder(u, v, b);
    CompareIsTotalPreorder(v, b, u);
  }

  lemma LowersBelow(v: string, w: string, b: string)
    requires Compare(v, w) <= 0
    ensures Compare(w, b) <= 0 ==> Compare(v, b) <= 0
    ensures Compare(w, b) < 0 ==> Compare(v, b) < 0
  {
    CompareIsTotalPreorder(v, w, b);
    CompareIsTotalPreorder(b, v, w);
    CompareIsTotalPreorder(w, b, v);
  }
}
