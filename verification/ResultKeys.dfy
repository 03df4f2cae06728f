/** Content-derived idempotency keys. The hash is abstract: a function from byte strings to
    hexadecimal digests, injective where a property needs it. A byte is one character. */
module ResultKeys {
  import opened Ordering

  const NUL := '\0'

  ghost predicate IdealHash(h: string -> string) {
    && (forall x, y :: h(x) == h(y) ==> x == y)
    && (forall x :: NUL !in h(x))
  }

  function Framed(jobID: string, stage: string, scanner: string, raw: string, complete: bool): string {
    jobID + [NUL] + stage + [NUL] + scanner + [NUL] + (if complete then "1" else "0") + [NUL] + raw
  }

  /** `queue.Key` and `api.ResultKey`. */
  function Key(h: string -> string, jobID: string, stage: string, scanner: string, raw: string,
               complete: bool): string {
    h(Framed(jobID, stage, scanner, raw, complete))
  }

  /** `queue.itemKey`: the fence of the attempt, when there is one, goes in front of the key. */
  function FencedKey(h: string -> string, attemptID: string, fencingToken: int, key: string): string {
    h(Fence(attemptID, fencingToken) + key)
  }

  function Fence(attemptID: string, fencingToken: int): string {
    if attemptID == "" then "" else attemptID + [NUL] + Decimal(fencingToken) + [NUL]
  }

  lemma CutUnique(a: string, x: string, b: string, y: string)
    requires NUL !in a && NUL !in b
    requires a + [NUL] + x == b + [NUL] + y
    ensures a == b && x == y
  {
    var s := a + [NUL] + x;
    FirstNul(a, x);
    FirstNul(b, y);
    assert |a| == |b|;
    assert s[..|a|] == a && s[..|b|] == b;
    assert s[|a| + 1..] == x && s[|b| + 1..] == y;
  }

  lemma FirstNul(a: string, x: string)
    requires NUL !in a
    ensures (a + [NUL] + x)[|a|] == NUL
    ensures forall i :: 0 <= i < |a| ==> (a + [NUL] + x)[i] != NUL
  {
    forall i | 0 <= i < |a| ensures (a + [NUL] + x)[i] != NUL {
      assert a[i] in a;
    }
  }

  lemma FramedInjective(j: string, st: string, sc: string, raw: string, c: bool,
                        j': string, st': string, sc': string, raw': string, c': bool)
    requires NUL !in j + st + sc && NUL !in j' + st' + sc'
    requires Framed(j, st, sc, raw, c) == Framed(j', st', sc', raw', c')
    ensures j == j' && st == st' && sc == sc' && raw == raw' && c == c'
  {
    var f := if c then "1" else "0";
    var f' := if c' then "1" else "0";
    var r3, r3' := f + [NUL] + raw, f' + [NUL] + raw';
    var r2, r2' := sc + [NUL] + r3, sc' + [NUL] + r3';
    var r1, r1' := st + [NUL] + r2, st' + [NUL] + r2';
    assert Framed(j, st, sc, raw, c) == j + [NUL] + r1;
    assert Framed(j', st', sc', raw', c') == j' + [NUL] + r1';
    CutUnique(j, r1, j', r1');
    CutUnique(st, r2, st', r2');
    CutUnique(sc, r3, sc', r3');
    CutUnique(f, raw, f', raw');
    assert f == f';
    assert f[0] == f'[0];
  }

  /** Equal keys mean equal content: nothing is mistaken for a duplicate. */
  lemma KeyInjective(h: string -> string, j: string, st: string, sc: string, raw: string, c: bool,
                     j': string, st': string, sc': string, raw': string, c': bool)
    requires IdealHash(h)
    requires NUL !in j + st + sc && NUL !in j' + st' + sc'
    ensures Key(h, j, st, sc, raw, c) == Key(h, j', st', sc', raw', c')
       <==> j == j' && st == st' && sc == sc' && raw == raw' && c == c'
  {
    if Key(h, j, st, sc, raw, c) == Key(h, j', st', sc', raw', c') {
      FramedInjective(j, st, sc, raw, c, j', st', sc', raw', c');
    }
  }

  /** Two queue keys agree exactly when key and fence agree; without an attempt there is no fence. */
  lemma FencedKeyInjective(h: string -> string, a: string, t: int, k: string, a': string, t': int, k': string)
    requires IdealHash(h)
    requires NUL !in a && NUL !in a' && NUL !in k && NUL !in k'
    ensures FencedKey(h, a, t, k) == FencedKey(h, a', t', k')
       <==> a == a' && k == k' && (a == "" || t == t')
  {
    FenceStart(a, t, k);
    FenceStart(a', t', k');
    if Fence(a, t) + k == Fence(a', t') + k' {
      if a != "" && a' != "" {
        CutUnique(a, Decimal(t) + [NUL] + k, a', Decimal(t') + [NUL] + k');
        CutUnique(Decimal(t), k, Decimal(t'), k');
        DecimalInjective(t, t');
      }
    }
  }

  lemma FenceStart(a: string, t: int, k: string)
    requires NUL !in a && NUL !in k
    ensures a == "" ==> Fence(a, t) + k == k
    ensures a != "" ==> Fence(a, t) + k == a + [NUL] + (Decimal(t) + [NUL] + k)
    ensures a != "" ==> NUL in Fence(a, t) + k
    ensures NUL !in Decimal(t)
  {
    if a != "" {
      assert Fence(a, t) + k == a + [NUL] + (Decimal(t) + [NUL] + k);
      assert (Fence(a, t) + k)[|a|] == NUL;
    }
  }
}
