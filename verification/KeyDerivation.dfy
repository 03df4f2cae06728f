/** Key derivation and framing of encrypted backups. The pseudorandom function (HMAC-SHA-256 keyed with
    the passphrase) and the authenticated cipher are abstract. */
module KeyDerivation {
  import opened Wrappers
  import opened Arithmetic

  type Octet = x: nat | x < 256

  type Bytes = seq<Octet>

  type Prf = Bytes -> Bytes

  ghost predicate FixedLength(prf: Prf, hLen: nat) {
    hLen > 0 && forall x :: |prf(x)| == hLen
  }

  // ----- PBKDF2, section 5.2 of RFC 8018 -----

  /** The low octets of a number, most significant first. */
  function Octets(n: nat, count: nat): (r: Bytes)
    ensures |r| == count
  {
    if count == 0 then [] else Octets(n / 256, count - 1) + [n % 256]
  }

  /** INT (i) is four octets; Go's `uint32(block)` takes the counter modulo 2^32. */
  function Int(i: nat): (r: Bytes)
    ensures |r| == 4
  {
    Octets(i, 4)
  }

  /** U_c of block i. */
  ghost function U(prf: Prf, salt: Bytes, i: nat, c: nat): Bytes
    requires c >= 1
  {
    if c == 1 then prf(salt + Int(i)) else prf(U(prf, salt, i, c - 1))
  }

  /** Exclusive or, bit by bit. */
  function XorBits(a: nat, b: nat, bits: nat): (r: nat)
    ensures r < Pow2(bits)
  {
    if bits == 0 then 0 else 2 * XorBits(a / 2, b / 2, bits - 1) + (a + b) % 2
  }

  function XorOctet(a: Octet, b: Octet): Octet {
    assert Pow2(8) == 2 * Pow2(7) == 4 * Pow2(6) == 8 * Pow2(5) == 16 * Pow2(4) == 256;
    XorBits(a, b, 8)
  }

  ghost function Xor(a: Bytes, b: Bytes): Bytes
    requires |a| == |b|
  {
    seq(|a|, k requires 0 <= k < |a| => XorOctet(a[k], b[k]))
  }

  /** F (P, S, c, i) = U_1 \xor U_2 \xor ... \xor U_c. */
  ghost function F(prf: Prf, hLen: nat, salt: Bytes, c: nat, i: nat): (r: Bytes)
    requires FixedLength(prf, hLen) && c >= 1
    ensures |r| == hLen
  {
    if c == 1 then U(prf, salt, i, 1) else Xor(F(prf, hLen, salt, c - 1, i), U(prf, salt, i, c))
  }

  /** T_1 || T_2 || ... || T_n. */
  ghost function Blocks(prf: Prf, hLen: nat, salt: Bytes, c: nat, n: nat): (r: Bytes)
    requires FixedLength(prf, hLen) && c >= 1
    ensures |r| == n * hLen
  {
    if n == 0 then [] else Blocks(prf, hLen, salt, c, n - 1) + F(prf, hLen, salt, c, n)
  }

  function Ceiling(dkLen: nat, hLen: nat): (l: nat)
    requires hLen > 0
    ensures dkLen <= l * hLen < dkLen + hLen
  {
    (dkLen + hLen - 1) / hLen
  }

  ghost function Pbkdf2(prf: Prf, hLen: nat, salt: Bytes, c: nat, dkLen: nat): (dk: Bytes)
    requires FixedLength(prf, hLen) && c >= 1
    ensures |dk| == dkLen
  {
    Blocks(prf, hLen, salt, c, Ceiling(dkLen, hLen))[..dkLen]
  }

  // ----- The program -----

  /** `pbkdf2SHA256`: exclusive-or in place, block by block. An iteration count below one counts as one. */
  method DeriveKey(prf: Prf, hLen: nat, salt: Bytes, iter: int, keyLength: nat) returns (dk: Bytes)
    requires FixedLength(prf, hLen)
    ensures dk == Pbkdf2(prf, hLen, salt, if iter < 1 then 1 else iter, keyLength)
  {
    var numBlocks := Ceiling(keyLength, hLen);
    var c := if iter < 1 then 1 else iter;
    dk := [];
    var block := 1;
    while block <= numBlocks
      invariant 1 <= block <= numBlocks + 1
      invariant dk == Blocks(prf, hLen, salt, c, block - 1)
    {
      var t := DeriveBlock(prf, hLen, salt, iter, block);
      dk := dk + t;
      block := block + 1;
    }
    dk := dk[..keyLength];
  }

  method DeriveBlock(prf: Prf, hLen: nat, salt: Bytes, iter: int, block: nat) returns (r: Bytes)
    requires FixedLength(prf, hLen)
    ensures r == F(prf, hLen, salt, if iter < 1 then 1 else iter, block)
  {
    hide Octets, Int, Xor, XorOctet, XorBits, Bit;
    var u := prf(salt + Int(block));
    var t := new Octet[|u|](k requires 0 <= k < |u| => u[k]);
    assert t[..] == u;
    var n := 2;
    while n <= iter
      invariant n == 2 || n <= iter + 1
      invariant u == U(prf, salt, block, n - 1) && t.Length == hLen
      invariant t[..] == F(prf, hLen, salt, n - 1, block)
      decreases iter + 1 - n
    {
      u := prf(u);
      XorInto(t, u);
      n := n + 1;
    }
    r := t[..];
  }

  method XorInto(t: array<Octet>, u: Bytes)
    requires t.Length == |u|
    modifies t
    ensures t[..] == Xor(old(t[..]), u)
    ensures forall k, j: nat :: 0 <= k < t.Length && j < 8 ==> (Bit(t[k], j) <==> Bit(old(t[k]), j) != Bit(u[k], j))
  {
    for x := 0 to t.Length
      invariant forall k :: 0 <= k < x ==> t[k] == XorOctet(old(t[k]), u[k])
      invariant forall k :: x <= k < t.Length ==> t[k] == old(t[k])
    {
      t[x] := XorOctet(t[x], u[x]);
    }
    forall k, j: nat | 0 <= k < t.Length && j < 8 ensures Bit(t[k], j) <==> Bit(old(t[k]), j) != Bit(u[k], j) {
      XorOctetMeans(old(t[k]), u[k], j);
    }
  }

  // ----- What the derived key is, bit by bit -----

  ghost predicate Bit(x: nat, j: nat) { x / Pow2(j) % 2 == 1 }

  lemma {:induction false} XorBitsMean(a: nat, b: nat, bits: nat, j: nat)
    requires j < bits
    ensures Bit(XorBits(a, b, bits), j) <==> Bit(a, j) != Bit(b, j)
  {
    var x, rest := XorBits(a, b, bits), XorBits(a / 2, b / 2, bits - 1);
    assert x / 2 == rest && x % 2 == (a + b) % 2;
    if j == 0 {
      assert Pow2(0) == 1;
    } else {
      XorBitsMean(a / 2, b / 2, bits - 1, j - 1);
      assert Pow2(j) == 2 * Pow2(j - 1);
      QuotientTwice(x, 2, Pow2(j - 1));
      QuotientTwice(a, 2, Pow2(j - 1));
      QuotientTwice(b, 2, Pow2(j - 1));
    }
  }

  /** A bit of the exclusive or is set exactly if it is set in one of the two octets, and not in both. */
  lemma XorOctetMeans(a: Octet, b: Octet, j: nat)
    requires j < 8
    ensures Bit(XorOctet(a, b), j) <==> Bit(a, j) != Bit(b, j)
  {
    XorBitsMean(a, b, 8, j);
  }

  /** A number below a power of two is its bits, the lowest of which tells odd from even. */
  lemma {:induction false} BitsDetermine(a: nat, b: nat, n: nat)
    requires a < Pow2(n) && b < Pow2(n)
    ensures a == b <==> forall j: nat :: j < n ==> (Bit(a, j) <==> Bit(b, j))
    ensures Bit(a, 0) <==> a % 2 == 1
  {
    assert Pow2(0) == 1;
    if n > 0 {
      BitsDetermine(a / 2, b / 2, n - 1);
      forall j: nat | 0 < j < n ensures (Bit(a, j) <==> Bit(a / 2, j - 1)) && (Bit(b, j) <==> Bit(b / 2, j - 1)) {
        assert Pow2(j) == 2 * Pow2(j - 1);
        QuotientTwice(a, 2, Pow2(j - 1));
        QuotientTwice(b, 2, Pow2(j - 1));
      }
      if forall j: nat :: j < n ==> (Bit(a, j) <==> Bit(b, j)) {
        assert Bit(a, 0) <==> Bit(b, 0);
        forall j: nat | j < n - 1 ensures Bit(a / 2, j) <==> Bit(b / 2, j) {
          assert Bit(a, j + 1) <==> Bit(b, j + 1);
        }
      }
    }
  }

  /** The iterations up to `c` whose output has bit j set in octet r. */
  ghost function Having(prf: Prf, hLen: nat, salt: Bytes, c: nat, i: nat, r: nat, j: nat): set<nat>
    requires FixedLength(prf, hLen) && r < hLen
  {
    set k: nat | 1 <= k <= c && HasBit(prf, hLen, salt, i, k, r, j)
  }

  ghost predicate HasBit(prf: Prf, hLen: nat, salt: Bytes, i: nat, k: nat, r: nat, j: nat)
    requires FixedLength(prf, hLen) && k >= 1 && r < hLen
  {
    ULength(prf, hLen, salt, i, k);
    Bit(U(prf, salt, i, k)[r], j)
  }

  lemma ULength(prf: Prf, hLen: nat, salt: Bytes, i: nat, k: nat)
    requires FixedLength(prf, hLen) && k >= 1
    ensures |U(prf, salt, i, k)| == hLen
  {
  }

  /** A bit of a block is set exactly if an odd number of the iterations' outputs have it set. */
  lemma {:induction false} BlockBit(prf: Prf, hLen: nat, salt: Bytes, c: nat, i: nat, r: nat, j: nat)
    requires FixedLength(prf, hLen) && c >= 1 && r < hLen && j < 8
    ensures Bit(F(prf, hLen, salt, c, i)[r], j) <==> |Having(prf, hLen, salt, c, i, r, j)| % 2 == 1
  {
    hide Bit, XorOctet, U, FixedLength;
    var now := HasBit(prf, hLen, salt, i, c, r, j);
    ULength(prf, hLen, salt, i, c);
    if c == 1 {
      assert Having(prf, hLen, salt, 1, i, r, j) == if now then {1} else {};
    } else {
      BlockBit(prf, hLen, salt, c - 1, i, r, j);
      var before := Having(prf, hLen, salt, c - 1, i, r, j);
      assert Having(prf, hLen, salt, c, i, r, j) == if now then before + {c} else before;
      XorOctetMeans(F(prf, hLen, salt, c - 1, i)[r], U(prf, salt, i, c)[r], j);
    }
  }

  /** The counter's octets, most significant first. */
  lemma CounterOctets(i: nat)
    ensures Int(i) == [i / 0x100_0000 % 256, i / 0x1_0000 % 256, i / 0x100 % 256, i % 256]
  {
    QuotientTwice(i, 256, 256);
    QuotientTwice(i, 0x1_0000, 256);
    assert Octets(i / 256 / 256 / 256, 1) == [i / 256 / 256 / 256 % 256];
    assert Octets(i / 256 / 256, 2) == Octets(i / 256 / 256 / 256, 1) + [i / 256 / 256 % 256];
    assert Octets(i / 256, 3) == Octets(i / 256 / 256, 2) + [i / 256 % 256];
    assert Octets(i, 4) == Octets(i / 256, 3) + [i % 256];
  }

  // ----- What the derived key is, octet by octet -----

  /** Octet k of the key depends on k alone: it is octet k mod hLen of block k / hLen + 1. */
  lemma KeyAt(prf: Prf, hLen: nat, salt: Bytes, c: nat, dkLen: nat, k: nat)
    requires FixedLength(prf, hLen) && c >= 1 && k < dkLen
    ensures Pbkdf2(prf, hLen, salt, c, dkLen)[k] == F(prf, hLen, salt, c, k / hLen + 1)[k % hLen]
  {
    hide F, Blocks;
    var n, b := Ceiling(dkLen, hLen), k / hLen;
    assert k == b * hLen + k % hLen;
    if b >= n {
      Scale(n, b, hLen);
    }
    BlockAt(prf, hLen, salt, c, n, b, k % hLen);
  }

  lemma {:induction false} BlockAt(prf: Prf, hLen: nat, salt: Bytes, c: nat, n: nat, b: nat, r: nat)
    requires FixedLength(prf, hLen) && c >= 1 && b < n && r < hLen
    ensures b * hLen + r < n * hLen
    ensures Blocks(prf, hLen, salt, c, n)[b * hLen + r] == F(prf, hLen, salt, c, b + 1)[r]
  {
    hide F;
    Scale(b + 1, n, hLen);
    assert (b + 1) * hLen == b * hLen + hLen;
    if b < n - 1 {
      BlockAt(prf, hLen, salt, c, n - 1, b, r);
    }
  }

  /** A shorter key is a prefix of every longer one. */
  lemma ShorterKeysArePrefixes(prf: Prf, hLen: nat, salt: Bytes, c: nat, short: nat, long: nat)
    requires FixedLength(prf, hLen) && c >= 1 && short <= long
    ensures Pbkdf2(prf, hLen, salt, c, short) == Pbkdf2(prf, hLen, salt, c, long)[..short]
  {
    forall k | 0 <= k < short
      ensures Pbkdf2(prf, hLen, salt, c, short)[k] == Pbkdf2(prf, hLen, salt, c, long)[..short][k]
    {
      KeyAt(prf, hLen, salt, c, short, k);
      KeyAt(prf, hLen, salt, c, long, k);
    }
  }

  /** The counter tells two blocks apart exactly when they are not a multiple of 2^32 apart. Up to the
      length limit of the standard every block therefore has an input of its own. */
  lemma CounterWraps(i: nat, j: nat)
    ensures Int(i) == Int(j) <==> i % 0x1_0000_0000 == j % 0x1_0000_0000
  {
    SameOctets(i, j, 4);
  }

  function Span(count: nat): (m: nat)
    ensures m > 0
    ensures count == 4 ==> m == 0x1_0000_0000
  {
    if count == 0 then 1 else if count == 1 then 256 else if count == 2 then 0x1_0000
      else if count == 3 then 0x100_0000 else 256 * Span(count - 1)
  }

  lemma {:induction false} SameOctets(i: nat, j: nat, count: nat)
    ensures Octets(i, count) == Octets(j, count) <==> i % Span(count) == j % Span(count)
  {
    if count > 0 {
      var a, b := Octets(i / 256, count - 1), Octets(j / 256, count - 1);
      SameOctets(i / 256, j / 256, count - 1);
      LowOctet(i, Span(count - 1));
      LowOctet(j, Span(count - 1));
      assert Octets(i, count)[..count - 1] == a && Octets(j, count)[..count - 1] == b;
      assert Octets(i, count)[count - 1] == i % 256 && Octets(j, count)[count - 1] == j % 256;
      assert Span(count) == 256 * Span(count - 1);
    }
  }

  lemma LowOctet(n: nat, m: nat)
    requires m > 0
    ensures n % (256 * m) == n / 256 % m * 256 + n % 256
  {
    var q, c := n / 256, n / 256 / m;
    QuotientTwice(n, 256, m);
    assert n == (256 * m) * c + n % (256 * m);
    assert q == m * c + q % m;
    assert n == 256 * q + n % 256;
    Associate(256, m, c);
  }

  // ----- Framing -----

  const SALT_LENGTH := 16
  const NONCE_LENGTH := 12
  const KEY_LENGTH := 32
  const ITERATIONS := 200_000

  datatype Error = NoPassphrase | NoRandomness | Truncated | DecryptionFailed

  /** An authenticated cipher: sealing and opening with a key and a nonce. */
  datatype Cipher = Cipher(seal: (Bytes, Bytes, Bytes) -> Bytes, open: (Bytes, Bytes, Bytes) -> Option<Bytes>)

  /** What was sealed opens, and nothing else does. */
  ghost predicate Authentic(aead: Cipher) {
    forall key, nonce, c, p :: aead.open(key, nonce, c) == Some(p) <==> c == aead.seal(key, nonce, p)
  }

  /** HMAC of one passphrase is a pseudorandom function. */
  type Hmac = Bytes -> Prf

  ghost predicate Hashes(hmac: Hmac) {
    forall passphrase :: FixedLength(hmac(passphrase), 32)
  }

  ghost function Key(hmac: Hmac, passphrase: Bytes, salt: Bytes): Bytes
    requires Hashes(hmac)
  {
    Pbkdf2(hmac(passphrase), 32, salt, ITERATIONS, KEY_LENGTH)
  }

  /** Salt, nonce and sealed text. */
  ghost function Framed(hmac: Hmac, aead: Cipher, plaintext: Bytes, passphrase: Bytes, salt: Bytes, nonce: Bytes): Bytes
    requires Hashes(hmac)
  {
    salt + nonce + aead.seal(Key(hmac, passphrase, salt), nonce, plaintext)
  }

  /** The salt and the nonce are what the random source yields, if it does. */
  ghost function Encrypted(hmac: Hmac, aead: Cipher, plaintext: Bytes, passphrase: Bytes, salt: Option<Bytes>,
                           nonce: Option<Bytes>)
    : Result<Bytes, Error>
    requires Hashes(hmac)
  {
    if passphrase == [] then Failure(NoPassphrase)
    else if salt.None? || nonce.None? then Failure(NoRandomness)
    else Success(Framed(hmac, aead, plaintext, passphrase, salt.value, nonce.value))
  }

  method Encrypt(hmac: Hmac, aead: Cipher, plaintext: Bytes, passphrase: Bytes, salt: Option<Bytes>,
                 nonce: Option<Bytes>)
    returns (r: Result<Bytes, Error>)
    requires Hashes(hmac)
    requires salt.Some? ==> |salt.value| == 16
    requires nonce.Some? ==> |nonce.value| == 12
    ensures r == Encrypted(hmac, aead, plaintext, passphrase, salt, nonce)
    ensures r.Success? ==>
      var key := Pbkdf2(hmac(passphrase), 32, salt.value, 200_000, 32);
      r.value == salt.value + nonce.value + aead.seal(key, nonce.value, plaintext)
  {
    if passphrase == [] {
      return Failure(NoPassphrase);
    }
    if salt.None? || nonce.None? {
      return Failure(NoRandomness);
    }
    var key := DeriveKey(hmac(passphrase), 32, salt.value, ITERATIONS, KEY_LENGTH);
    var ct := aead.seal(key, nonce.value, plaintext);
    var out := [];
    out := out + salt.value;
    out := out + nonce.value;
    out := out + ct;
    assert out == salt.value + nonce.value + ct;
    return Success(out);
  }

  ghost function Opened(hmac: Hmac, aead: Cipher, data: Bytes, passphrase: Bytes): Result<Bytes, Error>
    requires Hashes(hmac)
  {
    if |data| < SALT_LENGTH + NONCE_LENGTH then Failure(Truncated)
    else
      var salt, nonce := data[..SALT_LENGTH], data[SALT_LENGTH..SALT_LENGTH + NONCE_LENGTH];
      var pt := aead.open(Key(hmac, passphrase, salt), nonce, data[SALT_LENGTH + NONCE_LENGTH..]);
      if pt.Some? then Success(pt.value) else Failure(DecryptionFailed)
  }

  method Decrypt(hmac: Hmac, aead: Cipher, data: Bytes, passphrase: Bytes) returns (r: Result<Bytes, Error>)
    requires Hashes(hmac)
    ensures r == Opened(hmac, aead, data, passphrase)
    ensures |data| < 28 <==> r == Failure(Truncated)
    ensures |data| >= 28 ==>
      var plain := aead.open(Pbkdf2(hmac(passphrase), 32, data[..16], 200_000, 32), data[16..28], data[28..]);
      r == if plain.Some? then Success(plain.value) else Failure(DecryptionFailed)
  {
    if |data| < SALT_LENGTH + NONCE_LENGTH {
      return Failure(Truncated);
    }
    var salt := data[..SALT_LENGTH];
    var nonce := data[SALT_LENGTH..SALT_LENGTH + NONCE_LENGTH];
    var ct := data[SALT_LENGTH + NONCE_LENGTH..];
    var key := DeriveKey(hmac(passphrase), 32, salt, ITERATIONS, KEY_LENGTH);
    var pt := aead.open(key, nonce, ct);
    if pt.None? {
      return Failure(DecryptionFailed);
    }
    return Success(pt.value);
  }

  ghost predicate Frames(hmac: Hmac, aead: Cipher, data: Bytes, passphrase: Bytes, plaintext: Bytes, salt: Bytes,
                         nonce: Bytes)
    requires Hashes(hmac)
  {
    |salt| == SALT_LENGTH && |nonce| == NONCE_LENGTH && data == Framed(hmac, aead, plaintext, passphrase, salt, nonce)
  }

  /** What decryption accepts is what is framed and sealed under the passphrase, the empty one included. */
  lemma DecryptOpensFrames(hmac: Hmac, aead: Cipher, data: Bytes, passphrase: Bytes, plaintext: Bytes)
    requires Hashes(hmac) && Authentic(aead)
    ensures Opened(hmac, aead, data, passphrase) == Success(plaintext) <==>
      exists salt, nonce :: Frames(hmac, aead, data, passphrase, plaintext, salt, nonce)
  {
    hide Key, Hashes;
    var n := SALT_LENGTH + NONCE_LENGTH;
    if |data| >= n {
      var salt, nonce := data[..SALT_LENGTH], data[SALT_LENGTH..n];
      assert data == salt + nonce + data[n..];
      if Opened(hmac, aead, data, passphrase) == Success(plaintext) {
        assert Frames(hmac, aead, data, passphrase, plaintext, salt, nonce);
      }
    }
    if exists salt, nonce :: Frames(hmac, aead, data, passphrase, plaintext, salt, nonce) {
      var salt, nonce :| Frames(hmac, aead, data, passphrase, plaintext, salt, nonce);
      assert data[..SALT_LENGTH] == salt && data[SALT_LENGTH..n] == nonce;
      assert data[n..] == aead.seal(Key(hmac, passphrase, salt), nonce, plaintext);
      assert aead.open(Key(hmac, passphrase, salt), nonce, data[n..]) == Some(plaintext);
    }
  }

  /** Encrypting this plaintext can produce this bundle. */
  ghost predicate Bundle(hmac: Hmac, aead: Cipher, data: Bytes, passphrase: Bytes, plaintext: Bytes, salt: Bytes,
                         nonce: Bytes)
    requires Hashes(hmac)
  {
    && |salt| == SALT_LENGTH && |nonce| == NONCE_LENGTH
    && Encrypted(hmac, aead, plaintext, passphrase, Some(salt), Some(nonce)) == Success(data)
  }

  /** What Decrypt does with an empty passphrase: it opens a bundle that Encrypt would never have made. */
  lemma EmptyPassphraseOpens(hmac: Hmac, aead: Cipher, plaintext: Bytes, salt: Bytes, nonce: Bytes)
    requires Hashes(hmac) && Authentic(aead) && |salt| == SALT_LENGTH && |nonce| == NONCE_LENGTH
    ensures Opened(hmac, aead, Framed(hmac, aead, plaintext, [], salt, nonce), []) == Success(plaintext)
    ensures Encrypted(hmac, aead, plaintext, [], Some(salt), Some(nonce)) == Failure(NoPassphrase)
  {
    hide Key, Hashes, Opened, Framed;
    assert Frames(hmac, aead, Framed(hmac, aead, plaintext, [], salt, nonce), [], plaintext, salt, nonce);
    DecryptOpensFrames(hmac, aead, Framed(hmac, aead, plaintext, [], salt, nonce), [], plaintext);
  }

  /** Decryption yields a plaintext exactly for the bundles that encrypting it can produce. */
  ghost predicate Inverts(hmac: Hmac, aead: Cipher, passphrase: Bytes)
    requires Hashes(hmac)
  {
    forall data, plaintext :: Opened(hmac, aead, data, passphrase) == Success(plaintext)
      <==> exists salt, nonce :: Bundle(hmac, aead, data, passphrase, plaintext, salt, nonce)
  }

  /** Decrypt inverts Encrypt for every passphrase but the empty one, which only Encrypt refuses. */
  lemma DecryptInvertsEncrypt(hmac: Hmac, aead: Cipher, passphrase: Bytes)
    requires Hashes(hmac) && Authentic(aead)
    ensures Inverts(hmac, aead, passphrase) <==> passphrase != []
  {
    hide Key, Hashes, Opened, Framed;
    if passphrase != [] {
      forall data, plaintext ensures Opened(hmac, aead, data, passphrase) == Success(plaintext)
        <==> exists salt, nonce :: Bundle(hmac, aead, data, passphrase, plaintext, salt, nonce)
      {
        DecryptOpensFrames(hmac, aead, data, passphrase, plaintext);
        forall salt, nonce ensures Bundle(hmac, aead, data, passphrase, plaintext, salt, nonce)
          <==> Frames(hmac, aead, data, passphrase, plaintext, salt, nonce)
        {
        }
      }
    } else {
      var salt, nonce := seq(SALT_LENGTH, _ => 0), seq(NONCE_LENGTH, _ => 0);
      EmptyPassphraseOpens(hmac, aead, [], salt, nonce);
      var data := Framed(hmac, aead, [], [], salt, nonce);
      assert Opened(hmac, aead, data, passphrase) == Success([]);
      assert forall salt, nonce :: !Bundle(hmac, aead, data, passphrase, [], salt, nonce);
    }
  }
}
