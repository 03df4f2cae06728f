/** The environment file of a deployment: its printer and parser, and the installer that rewrites it.
    A Go string is a sequence of characters. */
module EnvFile {
  import opened Wrappers
  import opened Ordering

  type Env = map<string, string>

  /** `unicode.IsSpace`. */
  predicate IsSpace(c: char) {
    var x := c as int;
    9 <= x <= 13 || x == 0x20 || x == 0x85 || x == 0xA0 || x == 0x1680 || 0x2000 <= x <= 0x200A
    || x == 0x2028 || x == 0x2029 || x == 0x202F || x == 0x205F || x == 0x3000
  }

  /** Tab to carriage return, space, next line, the no-break space, and the separators of Unicode. */
  lemma SpaceMeans(c: char)
    ensures IsSpace(c) <==>
      || c in {'\t', '\n', '\U{0B}', '\U{0C}', '\r', ' ', '\U{85}', '\U{A0}', '\U{1680}', '\U{2028}', '\U{2029}'}
      || c in {'\U{202F}', '\U{205F}', '\U{3000}'} || '\U{2000}' <= c <= '\U{200A}'
  {
  }

  // ----- Trimming, splitting, cutting -----

  predicate Trimmed(s: string) {
    s == "" || (!IsSpace(s[0]) && !IsSpace(s[|s| - 1]))
  }

  /** `strings.TrimSpace`. */
  function Trim(s: string): (r: string)
    ensures Trimmed(r)
    ensures Trimmed(s) ==> r == s
    ensures forall c :: c in r ==> c in s
    ensures s != "" && !IsSpace(s[0]) ==> r != "" && r[0] == s[0]
  {
    if s == "" then s
    else if IsSpace(s[0]) then Trim(s[1..])
    else if IsSpace(s[|s| - 1]) then Trim(s[..|s| - 1])
    else s
  }

  /** Nothing but space is trimmed: what is left is the text between some leading and trailing space. */
  lemma {:induction false} TrimRemovesOnlySpace(s: string) returns (i: nat, j: nat)
    ensures i <= j <= |s| && Trim(s) == s[i..j]
    ensures forall k :: 0 <= k < i || j <= k < |s| ==> IsSpace(s[k])
  {
    hide IsSpace;
    i, j := 0, |s|;
    if s != "" && IsSpace(s[0]) {
      var i', j' := TrimRemovesOnlySpace(s[1..]);
      i, j := i' + 1, j' + 1;
      assert s[1..][i'..j'] == s[i..j];
      assert forall k :: 0 < k < |s| ==> s[k] == s[1..][k - 1];
    } else if s != "" && IsSpace(s[|s| - 1]) {
      i, j := TrimRemovesOnlySpace(s[..|s| - 1]);
      assert s[..|s| - 1][i..j] == s[i..j];
    } else {
      assert s[0..|s|] == s;
    }
  }

  /** `strings.Split(s, "\n")`. */
  function Lines(s: string): (r: seq<string>)
    ensures r != []
  {
    if s == "" then [""]
    else
      var rest := Lines(s[1..]);
      if s[0] == '\n' then [""] + rest else [[s[0]] + rest[0]] + rest[1..]
  }

  function Unlines(lines: seq<string>): string
    requires lines != []
  {
    if |lines| == 1 then lines[0] else lines[0] + "\n" + Unlines(lines[1..])
  }

  /** The lines, with a newline between any two, are the text. */
  lemma {:induction false} LinesJoin(s: string)
    ensures Unlines(Lines(s)) == s
    ensures forall l :: l in Lines(s) ==> '\n' !in l
  {
    if s != "" {
      LinesJoin(s[1..]);
      var rest, r := Lines(s[1..]), Lines(s);
      if s[0] == '\n' {
        assert r[1..] == rest;
      } else {
        assert r[1..] == rest[1..];
        assert |rest| > 1 ==> Unlines(r) == [s[0]] + rest[0] + "\n" + Unlines(rest[1..]);
      }
    }
  }

  lemma {:induction false} LinesAppend(a: string, b: string)
    requires '\n' !in a
    ensures Lines(a + "\n" + b) == [a] + Lines(b)
  {
    var s := a + "\n" + b;
    if a == "" {
      assert s[1..] == b;
    } else {
      assert a[0] in a;
      assert s[1..] == a[1..] + "\n" + b;
      LinesAppend(a[1..], b);
      assert [a[0]] + a[1..] == a;
    }
  }

  function IndexOf(s: string, c: char): (i: nat)
    ensures i <= |s|
    ensures i < |s| ==> s[i] == c
    ensures forall k :: 0 <= k < i ==> s[k] != c
  {
    if s == "" || s[0] == c then 0 else 1 + IndexOf(s[1..], c)
  }

  // ----- Parsing -----

  /** What one line says: blank lines, comments and lines without `=` say nothing. */
  function Entry(line: string): Option<(string, string)> {
    var t := Trim(line);
    if t == "" || t[0] == '#' then None
    else
      var i := IndexOf(t, '=');
      if i == |t| then None else Some((Trim(t[..i]), Trim(t[i + 1..])))
  }

  function Apply(m: Env, line: string): Env {
    if Entry(line).Some? then m[Entry(line).value.0 := Entry(line).value.1] else m
  }

  ghost function ParseFrom(m: Env, lines: seq<string>): Env
    decreases |lines|
  {
    if lines == [] then m else ParseFrom(Apply(m, lines[0]), lines[1..])
  }

  ghost function Parse(text: string): Env {
    ParseFrom(map[], Lines(text))
  }

  /** The body of `ReadEnv` once the file has been read. */
  method ReadLines(text: string) returns (m: Env)
    ensures m == Parse(text)
  {
    var lines := Lines(text);
    m := map[];
    for i := 0 to |lines|
      invariant ParseFrom(m, lines[i..]) == Parse(text)
    {
      var t := Trim(lines[i]);
      assert lines[i..][1..] == lines[i + 1..];
      if t == "" || t[0] == '#' {
        continue;
      }
      var cut := IndexOf(t, '=');
      if cut == |t| {
        continue;
      }
      m := m[Trim(t[..cut]) := Trim(t[cut + 1..])];
    }
  }

  // ----- Printing -----

  predicate Comment(s: string) {
    s != "" && s[0] == '#' && '\n' !in s
  }

  function Comment1(): (s: string)
    ensures Comment(s)
  {
    var a, b, c, d := "# Generated by ", "`vulna install`. ", "Contains secrets", " \U{2014} keep 0600.";
    assert '\n' !in a;
    assert '\n' !in b;
    assert '\n' !in c;
    assert '\n' !in d;
    a + b + c + d
  }

  function Comment2(): (s: string)
    ensures Comment(s)
  {
    var a, b, c, d := "# Re-running ", "the installer ", "never rotates ", "existing secrets.";
    assert '\n' !in a;
    assert '\n' !in b;
    assert '\n' !in c;
    assert '\n' !in d;
    a + b + c + d
  }

  function Header(): string {
    Comment1() + "\n" + Comment2() + "\n"
  }

  ghost predicate SortedKeys(env: Env, keys: seq<string>) {
    StrictlySorted(StringLess, keys) && forall k :: k in keys <==> k in env
  }

  function Body(env: Env, keys: seq<string>): string
    requires forall k :: k in keys ==> k in env
  {
    if keys == [] then "" else keys[0] + "=" + env[keys[0]] + "\n" + Body(env, keys[1..])
  }

  /** The file holds these settings: two comment lines and one line per key, sorted. */
  ghost predicate Written(env: Env, text: string) {
    exists keys :: SortedKeys(env, keys) && text == Header() + Body(env, keys)
  }

  /** The text is determined by the settings, whatever order the map is walked in. */
  lemma WrittenIsStable(env: Env, t: string, t': string)
    requires Written(env, t) && Written(env, t')
    ensures t == t'
  {
    var keys :| SortedKeys(env, keys) && t == Header() + Body(env, keys);
    var keys' :| SortedKeys(env, keys') && t' == Header() + Body(env, keys');
    StringLessIsStrictOrder({});
    SortedUnique(StringLess, keys, keys');
  }

  /** `WriteEnv` up to the write: the keys in any order, sorted, then one line each. */
  method Render(env: Env) returns (text: string)
    ensures Written(env, text)
  {
    hide Comment1, Comment2, Header;
    var keys := SortKeys(env);
    text := Header();
    for i := 0 to |keys|
      invariant text + Body(env, keys[i..]) == Header() + Body(env, keys)
    {
      var line := keys[i] + "=" + env[keys[i]] + "\n";
      assert keys[i..][0] == keys[i] && keys[i..][1..] == keys[i + 1..];
      assert text + (line + Body(env, keys[i + 1..])) == (text + line) + Body(env, keys[i + 1..]);
      text := text + line;
    }
    assert text + Body(env, keys[|keys|..]) == text;
  }

  method SortKeys(env: Env) returns (keys: seq<string>)
    ensures SortedKeys(env, keys)
  {
    keys := [];
    var rest := env.Keys;
    while rest != {}
      invariant rest <= env.Keys
      invariant forall k :: k in keys <==> k in env && k !in rest
      invariant forall i, j :: 0 <= i < j < |keys| ==> keys[i] != keys[j]
      decreases |rest|
    {
      var k :| k in rest;
      keys, rest := keys + [k], rest - {k};
    }
    StringLessIsStrictOrder(set k | k in keys);
    SortSorts(StringLess, keys);
    keys := Sort(StringLess, keys);
  }

  // ----- Round trip -----

  predicate CleanKey(k: string) {
    Trimmed(k) && '\n' !in k && '=' !in k && (k == "" || k[0] != '#')
  }

  predicate CleanValue(v: string) {
    Trimmed(v) && '\n' !in v
  }

  predicate Clean(env: Env) {
    forall k :: k in env ==> CleanKey(k) && CleanValue(env[k])
  }

  /** Whatever the file says, what is read from it is clean. */
  lemma ParseIsClean(text: string)
    ensures Clean(Parse(text))
  {
    LinesJoin(text);
    ParseFromIsClean(map[], Lines(text));
  }

  lemma {:induction false} ParseFromIsClean(m: Env, lines: seq<string>)
    requires Clean(m) && forall l :: l in lines ==> '\n' !in l
    ensures Clean(ParseFrom(m, lines))
    decreases |lines|
  {
    if lines != [] {
      if Entry(lines[0]).Some? {
        EntryIsClean(lines[0]);
      }
      ParseFromIsClean(Apply(m, lines[0]), lines[1..]);
    }
  }

  lemma EntryIsClean(line: string)
    requires '\n' !in line && Entry(line).Some?
    ensures CleanKey(Entry(line).value.0) && CleanValue(Entry(line).value.1)
  {
    var t := Trim(line);
    var i := IndexOf(t, '=');
    assert forall c :: c in t[..i] || c in t[i + 1..] ==> c in t;
    assert '=' !in t[..i];
    assert i > 0 ==> t[..i][0] == t[0];
  }

  lemma EntryOfLine(k: string, v: string)
    requires CleanKey(k) && CleanValue(v)
    ensures Entry(k + "=" + v) == Some((k, v))
    ensures '\n' !in k + "=" + v
  {
    var s := k + "=" + v;
    LineIsTrimmed(k, v);
    hide IsSpace;
    assert s[|k|] == '=' && s[..|k|] == k && s[|k| + 1..] == v;
    assert IndexOf(s, '=') == |k| by {
      assert forall j :: 0 <= j < |k| ==> s[j] == k[j] && k[j] in k;
    }
  }

  lemma LineIsTrimmed(k: string, v: string)
    requires CleanKey(k) && CleanValue(v)
    ensures var s := k + "=" + v; Trim(s) == s && s[0] != '#'
  {
    assert !IsSpace('=');
    hide IsSpace;
    var s := k + "=" + v;
    assert s[0] == (if k == "" then '=' else k[0]);
    assert s[|s| - 1] == (if v == "" then '=' else v[|v| - 1]);
    assert Trimmed(s);
  }

  function Only(env: Env, keys: seq<string>): Env
    requires forall k :: k in keys ==> k in env
  {
    map k | k in keys :: env[k]
  }

  lemma OnlyFirst(env: Env, keys: seq<string>, m: Env)
    requires keys != [] && forall k :: k in keys ==> k in env
    ensures m[keys[0] := env[keys[0]]] + Only(env, keys[1..]) == m + Only(env, keys)
  {
    assert keys == [keys[0]] + keys[1..];
  }

  /** Reading the lines of a body after `m` puts its settings over `m`. */
  lemma {:induction false} BodyParses(env: Env, keys: seq<string>, m: Env)
    requires Clean(env) && forall k :: k in keys ==> k in env
    ensures ParseFrom(m, Lines(Body(env, keys))) == m + Only(env, keys)
  {
    hide Entry, Lines, Only, CleanKey, CleanValue, Apply;
    if keys == [] {
      assert Only(env, keys) == map[] by { OnlyNone(env, keys); }
      NothingToRead(m);
    } else {
      var k, v, rest := keys[0], env[keys[0]], Body(env, keys[1..]);
      EntryOfLine(k, v);
      LinesAppend(k + "=" + v, rest);
      assert Body(env, keys) == (k + "=" + v) + "\n" + rest;
      var lines := [k + "=" + v] + Lines(rest);
      assert lines[1..] == Lines(rest);
      assert Apply(m, lines[0]) == m[k := v] by { ApplyEntry(m, lines[0]); }
      BodyParses(env, keys[1..], m[k := v]);
      OnlyFirst(env, keys, m);
    }
  }

  lemma ApplyEntry(m: Env, line: string)
    requires Entry(line).Some?
    ensures Apply(m, line) == m[Entry(line).value.0 := Entry(line).value.1]
  {}

  lemma OnlyNone(env: Env, keys: seq<string>)
    requires keys == []
    ensures Only(env, keys) == map[]
  {}

  lemma NothingToRead(m: Env)
    ensures ParseFrom(m, Lines("")) == m
  {
    assert Entry("").None?;
    assert Lines("")[1..] == [];
  }

  lemma HeaderSaysNothing(m: Env, body: string)
    ensures ParseFrom(m, Lines(Header() + body)) == ParseFrom(m, Lines(body))
  {
    hide Comment1, Comment2, Lines;
    var a, b := Comment1(), Comment2();
    assert Header() + body == a + "\n" + (b + "\n" + body);
    LinesAppend(a, b + "\n" + body);
    LinesAppend(b, body);
    CommentSaysNothing(a);
    CommentSaysNothing(b);
    var rest := [b] + Lines(body);
    assert ([a] + rest)[1..] == rest && rest[1..] == Lines(body);
    assert ParseFrom(m, [a] + rest) == ParseFrom(m, rest);
    assert ParseFrom(m, rest) == ParseFrom(m, Lines(body));
  }

  lemma CommentSaysNothing(line: string)
    requires Comment(line)
    ensures Entry(line).None?
  {
    assert Trim(line)[0] == '#';
  }

  /** Reading gives back what was written exactly when every key and value is trimmed and on one line
      and no key contains `=` or looks like a comment. */
  lemma RoundTrip(env: Env, text: string)
    requires Written(env, text)
    ensures Parse(text) == env <==> Clean(env)
  {
    hide Header, Body, Lines, ParseFrom, CleanKey, CleanValue, StrictlySorted;
    ParseIsClean(text);
    if Clean(env) {
      var keys :| SortedKeys(env, keys) && text == Header() + Body(env, keys);
      HeaderSaysNothing(map[], Body(env, keys));
      BodyParses(env, keys, map[]);
      assert Only(env, keys) == env;
    }
  }
}
