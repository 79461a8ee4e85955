/** FNV-1a bucketing for percentage rollouts, in the signed arithmetic of Math.imul. */
module RolloutHash {
  const TWO31 := 0x8000_0000
  const TWO32 := 0x1_0000_0000
  const OFFSET_BASIS := 0x811c_9dc5
  const PRIME := 0x0100_0193
  /** PRIME * PRIME_INVERSE is one more than a multiple of 2^32. */
  const PRIME_INVERSE := 899433627

  type Byte = b: int | 0 <= b < 256

  // ----- 32-bit words

  predicate Word(h: int) { 0 <= h < TWO32 }

  function ToUint32(n: int): (r: int)
    ensures Word(r)
  {
    n % TWO32
  }

  function ToInt32(n: int): (r: int)
    ensures -TWO31 <= r < TWO31
    ensures ToUint32(r) == ToUint32(n)
  {
    var u := n % TWO32;
    if u >= TWO31 then u - TWO32 else u
  }

  /** Bitwise exclusive or. */
  function Xor(a: nat, b: nat): nat
  {
    if a == 0 && b == 0 then 0 else (if a % 2 == b % 2 then 0 else 1) + 2 * Xor(a / 2, b / 2)
  }

  function Pow2(n: nat): nat { if n == 0 then 1 else 2 * Pow2(n - 1) }

  lemma {:induction false} XorBound(a: nat, b: nat, n: nat)
    requires a < Pow2(n) && b < Pow2(n)
    ensures Xor(a, b) < Pow2(n)
  {
    if n > 0 { XorBound(a / 2, b / 2, n - 1); }
  }

  lemma {:induction false} XorTwice(a: nat, b: nat)
    ensures Xor(Xor(a, b), b) == a
  {
    if a != 0 || b != 0 {
      XorTwice(a / 2, b / 2);
      assert Xor(a, b) / 2 == Xor(a / 2, b / 2);
    }
  }

  lemma {:induction false} XorSymmetric(a: nat, b: nat)
    ensures Xor(a, b) == Xor(b, a)
  {
    if a != 0 || b != 0 { XorSymmetric(a / 2, b / 2); }
  }

  lemma {:induction false} Pow2Add(m: nat, n: nat)
    ensures Pow2(m + n) == Pow2(m) * Pow2(n)
  {
    if m > 0 {
      Pow2Add(m - 1, n);
      assert Pow2(m + n) == 2 * Pow2(m - 1 + n) && Pow2(m) == 2 * Pow2(m - 1);
    }
  }

  lemma Pow2Values()
    ensures Pow2(32) == TWO32
  {
    assert Pow2(4) == 16;
    Pow2Add(4, 4);
    Pow2Add(8, 8);
    Pow2Add(16, 16);
  }

  lemma XorWord(h: int, b: Byte)
    requires Word(h)
    ensures Word(Xor(h, b))
  {
    Pow2Values();
    XorBound(h, b, 32);
  }

  /** Different bytes give different words. */
  lemma XorInjective(h: nat, b: nat, c: nat)
    requires Xor(h, b) == Xor(h, c)
    ensures b == c
  {
    XorSymmetric(h, b);
    XorSymmetric(h, c);
    XorTwice(b, h);
    XorTwice(c, h);
  }

  // ----- the reference: unsigned FNV-1a over a byte string

  function Step(h: int, b: Byte): (r: int)
    requires Word(h)
    ensures Word(r)
  {
    XorWord(h, b);
    Xor(h, b) * PRIME % TWO32
  }

  function Unstep(h: int, b: Byte): (r: int)
    requires Word(h)
    ensures Word(r)
  {
    XorWord(h * PRIME_INVERSE % TWO32, b);
    Xor(h * PRIME_INVERSE % TWO32, b)
  }

  function FnvFrom(h: int, bytes: seq<Byte>): (r: int)
    requires Word(h)
    ensures Word(r)
    decreases |bytes|
  {
    if bytes == [] then h else Step(FnvFrom(h, bytes[..|bytes| - 1]), bytes[|bytes| - 1])
  }

  function Fnv(bytes: seq<Byte>): int { FnvFrom(OFFSET_BASIS, bytes) }

  lemma ModIs(n: int, k: int, r: int)
    requires Word(r) && n == r + TWO32 * k
    ensures n % TWO32 == r
  {
  }

  /** Multiplying by the prime and then by its inverse, in either order, is the identity on words. */
  lemma MultiplyUndone(x: int)
    requires Word(x)
    ensures x * PRIME % TWO32 * PRIME_INVERSE % TWO32 == x
    ensures x * PRIME_INVERSE % TWO32 * PRIME % TWO32 == x
  {
    Undone(x, PRIME, PRIME_INVERSE);
    Undone(x, PRIME_INVERSE, PRIME);
  }

  lemma Undone(x: int, p: int, q: int)
    requires Word(x) && p * q == 1 + TWO32 * 3513497
    ensures x * p % TWO32 * q % TWO32 == x
  {
    var t := x * p / TWO32;
    var y := x * p % TWO32;
    assert y == x * p - TWO32 * t;
    assert y * q == x * p * q - TWO32 * t * q;
    assert x * p * q == x * (p * q) == x + TWO32 * (3513497 * x);
    assert TWO32 * t * q == TWO32 * (t * q);
    ModIs(y * q, 3513497 * x - t * q, x);
  }

  /** Each step is a bijection on the hash state. */
  lemma StepIsBijection(h: int, b: Byte)
    requires Word(h)
    ensures Unstep(Step(h, b), b) == h && Step(Unstep(h, b), b) == h
  {
    XorWord(h, b);
    XorTwice(h, b);
    MultiplyUndone(Xor(h, b));
    var y := h * PRIME_INVERSE % TWO32;
    XorWord(y, b);
    XorTwice(y, b);
    MultiplyUndone(h);
  }

  lemma {:induction false} RestIsInjective(g: int, h: int, bytes: seq<Byte>)
    requires Word(g) && Word(h) && FnvFrom(g, bytes) == FnvFrom(h, bytes)
    ensures g == h
    decreases |bytes|
  {
    if bytes != [] {
      var init, b := bytes[..|bytes| - 1], bytes[|bytes| - 1];
      StepIsBijection(FnvFrom(g, init), b);
      StepIsBijection(FnvFrom(h, init), b);
      RestIsInjective(g, h, init);
    }
  }

  lemma {:induction false} FnvConcat(h: int, a: seq<Byte>, b: seq<Byte>)
    requires Word(h)
    ensures FnvFrom(h, a + b) == FnvFrom(FnvFrom(h, a), b)
    decreases |b|
  {
    if b == [] {
      assert a + b == a;
    } else {
      assert (a + b)[..|a + b| - 1] == a + b[..|b| - 1];
      FnvConcat(h, a, b[..|b| - 1]);
    }
  }

  /** Two byte strings that differ in exactly one byte never share a 32-bit hash. */
  lemma OneByteApart(front: seq<Byte>, b: Byte, c: Byte, back: seq<Byte>)
    requires b != c
    ensures Fnv(front + [b] + back) != Fnv(front + [c] + back)
  {
    var h := Fnv(front);
    FnvConcat(OFFSET_BASIS, front + [b], back);
    FnvConcat(OFFSET_BASIS, front + [c], back);
    FnvConcat(OFFSET_BASIS, front, [b]);
    FnvConcat(OFFSET_BASIS, front, [c]);
    assert FnvFrom(h, [b]) == Step(h, b) && FnvFrom(h, [c]) == Step(h, c) by {
      assert [b][..0] == [] && [c][..0] == [];
    }
    if Step(h, b) == Step(h, c) {
      XorWord(h, b);
      XorWord(h, c);
      MultiplyUndone(Xor(h, b));
      MultiplyUndone(Xor(h, c));
      XorInjective(h, b, c);
    }
    if Fnv(front + [b] + back) == Fnv(front + [c] + back) { RestIsInjective(Step(h, b), Step(h, c), back); }
  }

  // ----- the signed loop

  /** Math.imul: the product truncated to a signed 32-bit integer. */
  function Imul(a: int, b: int): int { ToInt32(a * b) }

  /** The `^` of a number with a byte: both as 32-bit words, the result signed. */
  function SignedXor(a: int, b: Byte): int { ToInt32(Xor(ToUint32(a), b)) }

  /** A zero byte between the parts, none at the end. */
  function Joined(parts: seq<seq<Byte>>): seq<Byte>
  {
    if parts == [] then [] else
      var n := |parts| - 1;
      Joined(parts[..n]) + (if n > 0 then [0] else []) + parts[n]
  }

  lemma SignedStep(hash: int, b: Byte)
    ensures ToUint32(Imul(SignedXor(hash, b), PRIME)) == Step(ToUint32(hash), b)
  {
    var h := ToUint32(hash);
    XorWord(h, b);
    var x := Xor(h, b);
    var s := SignedXor(hash, b);
    assert s == x || s == x - TWO32;
    assert s * PRIME == x * PRIME || s * PRIME == x * PRIME - TWO32 * PRIME;
    ShiftMod(x * PRIME, PRIME);
  }

  lemma ShiftMod(n: int, k: int)
    ensures (n - TWO32 * k) % TWO32 == n % TWO32
  {
    var q := n / TWO32;
    assert n - TWO32 * k == TWO32 * (q - k) + n % TWO32;
  }

  lemma FnvSnoc(bytes: seq<Byte>, b: Byte)
    ensures Fnv(bytes + [b]) == Step(Fnv(bytes), b)
  {
    assert (bytes + [b])[..|bytes|] == bytes;
  }

  /** The loop over signed words computes the unsigned hash of the joined parts. */
  method Fnv1a(parts: seq<seq<Byte>>) returns (r: int)
    ensures r == Fnv(Joined(parts))
  {
    var hash := OFFSET_BASIS;
    var p := 0;
    while p < |parts|
      invariant 0 <= p <= |parts|
      invariant ToUint32(hash) == Fnv(Joined(parts[..p]))
    {
      ghost var done := Joined(parts[..p]);
      if p > 0 {
        SignedStep(hash, 0);
        FnvSnoc(done, 0);
        hash := Imul(SignedXor(hash, 0), PRIME);
        done := done + [0];
      }
      assert parts[..p + 1][..p] == parts[..p];
      assert Joined(parts[..p + 1]) == done + parts[p];
      hash := HashPart(hash, parts[p], done);
      p := p + 1;
    }
    assert parts[..p] == parts;
    r := ToUint32(hash);
  }

  method HashPart(hash: int, bytes: seq<Byte>, ghost done: seq<Byte>) returns (r: int)
    requires ToUint32(hash) == Fnv(done)
    ensures ToUint32(r) == Fnv(done + bytes)
  {
    r := hash;
    var i := 0;
    assert done + bytes[..0] == done;
    while i < |bytes|
      invariant 0 <= i <= |bytes|
      invariant ToUint32(r) == Fnv(done + bytes[..i])
    {
      SignedStep(r, bytes[i]);
      assert done + bytes[..i + 1] == done + bytes[..i] + [bytes[i]];
      FnvSnoc(done + bytes[..i], bytes[i]);
      r := Imul(SignedXor(r, bytes[i]), PRIME);
      i := i + 1;
    }
    assert bytes[..i] == bytes;
  }

  // ----- UTF-8

  /** A Unicode scalar value. */
  type Scalar = c: int | 0 <= c < 0xD800 || 0xE000 <= c < 0x11_0000

  /** The UTF-8 octets of one scalar value, as section 3 of RFC 3629 lays them out. */
  function Utf8(c: Scalar): (r: seq<Byte>)
    ensures r != []
  {
    if c < 0x80 then [c]
    else if c < 0x800 then [0xC0 + c / 0x40, 0x80 + c % 0x40]
    else if c < 0x1_0000 then [0xE0 + c / 0x40 / 0x40, 0x80 + c / 0x40 % 0x40, 0x80 + c % 0x40]
    else [0xF0 + c / 0x40 / 0x40 / 0x40, 0x80 + c / 0x40 / 0x40 % 0x40, 0x80 + c / 0x40 % 0x40, 0x80 + c % 0x40]
  }

  function Encode(s: seq<Scalar>): seq<Byte>
  {
    if s == [] then [] else Utf8(s[0]) + Encode(s[1..])
  }

  lemma {:induction false} NulFree(s: seq<Scalar>)
    requires 0 !in s
    ensures 0 !in Encode(s)
  {
    if s != [] { NulFree(s[1..]); }
  }

  /** The first octet tells how many there are. */
  lemma FirstOctet(c: Scalar)
    ensures |Utf8(c)| == if Utf8(c)[0] < 0x80 then 1 else if Utf8(c)[0] < 0xE0 then 2 else if Utf8(c)[0] < 0xF0
      then 3 else 4
  {
  }

  /** The first octets of an encoding determine its first character. */
  lemma FirstScalar(c: Scalar, d: Scalar, a: seq<Byte>, b: seq<Byte>)
    requires Utf8(c) + a == Utf8(d) + b
    ensures c == d && a == b
  {
    hide Utf8;
    var x, y := Utf8(c), Utf8(d);
    assert (x + a)[0] == x[0] && (y + b)[0] == y[0];
    FirstOctet(c);
    FirstOctet(d);
    assert x == (x + a)[..|x|] == (y + b)[..|y|] == y;
    assert a == (x + a)[|x|..] && b == (y + b)[|y|..];
    SameOctets(c, d);
  }

  /** The value the payload bits spell. */
  function Payload(r: seq<Byte>): int
    requires 1 <= |r| <= 4
  {
    var at := (i: int) => if 0 <= i < |r| then r[i] as int else 0;
    match |r|
    case 1 => at(0)
    case 2 => (at(0) - 0xC0) * 0x40 + (at(1) - 0x80)
    case 3 => ((at(0) - 0xE0) * 0x40 + (at(1) - 0x80)) * 0x40 + (at(2) - 0x80)
    case _ => (((at(0) - 0xF0) * 0x40 + (at(1) - 0x80)) * 0x40 + (at(2) - 0x80)) * 0x40 + (at(3) - 0x80)
  }

  lemma PayloadOf(c: Scalar)
    ensures 1 <= |Utf8(c)| <= 4 && Payload(Utf8(c)) == c
  {
    var q := c / 0x40;
    assert c == q * 0x40 + c % 0x40;
    assert q == q / 0x40 * 0x40 + q % 0x40;
  }

  lemma SameOctets(c: Scalar, d: Scalar)
    requires Utf8(c) == Utf8(d)
    ensures c == d
  {
    PayloadOf(c);
    PayloadOf(d);
  }

  lemma {:induction false} EncodeInjective(s: seq<Scalar>, t: seq<Scalar>)
    requires Encode(s) == Encode(t)
    ensures s == t
  {
    if s != [] && t != [] {
      FirstScalar(s[0], t[0], Encode(s[1..]), Encode(t[1..]));
      EncodeInjective(s[1..], t[1..]);
      assert s == [s[0]] + s[1..] && t == [t[0]] + t[1..];
    }
  }

  lemma NoZeroBefore(a: seq<Byte>, b: seq<Byte>, i: nat)
    requires 0 !in a && i < |a|
    ensures (a + [0] + b)[i] != 0
  {
    assert a[i] in a;
  }

  lemma SplitAtZero(a: seq<Byte>, b: seq<Byte>, c: seq<Byte>, d: seq<Byte>)
    requires 0 !in a && 0 !in c && a + [0] + b == c + [0] + d
    ensures a == c && b == d
  {
    var x, y := a + [0] + b, c + [0] + d;
    if |a| < |c| { NoZeroBefore(c, d, |a|); }
    if |c| < |a| { NoZeroBefore(a, b, |c|); }
    assert a == x[..|a|] && c == y[..|c|];
    assert b == x[|a| + 1..] && d == y[|c| + 1..];
  }

  /** What is hashed for a flag key and an identifier. */
  function Hashed(key: seq<Scalar>, id: seq<Scalar>): seq<Byte> { Joined([Encode(key), Encode(id)]) }

  lemma HashedIs(key: seq<Scalar>, id: seq<Scalar>)
    ensures Hashed(key, id) == Encode(key) + [0] + Encode(id)
  {
    var parts := [Encode(key), Encode(id)];
    assert parts[..1] == [Encode(key)];
    assert Joined([Encode(key)]) == Encode(key) by { assert [Encode(key)][..0] == []; }
  }

  /** For NUL-free inputs the hashed byte string determines the pair. */
  lemma HashedDeterminesPair(key: seq<Scalar>, id: seq<Scalar>, key': seq<Scalar>, id': seq<Scalar>)
    requires 0 !in key && 0 !in key'
    requires Hashed(key, id) == Hashed(key', id')
    ensures key == key' && id == id'
  {
    HashedIs(key, id);
    HashedIs(key', id');
    NulFree(key);
    NulFree(key');
    SplitAtZero(Encode(key), Encode(id), Encode(key'), Encode(id'));
    EncodeInjective(key, key');
    EncodeInjective(id, id');
  }

  // ----- buckets

  function BucketFor(key: seq<Scalar>, id: seq<Scalar>): (r: int)
    ensures 0 <= r < 100
  {
    Fnv(Hashed(key, id)) % 100
  }

  predicate InPercent(key: seq<Scalar>, id: seq<Scalar>, percent: real)
  {
    if percent <= 0.0 then false else if percent >= 100.0 then true else BucketFor(key, id) as real < percent
  }

  /** Raising the percentage only ever adds users, and the two ends are nobody and everybody. */
  lemma RolloutOnlyGrows(key: seq<Scalar>, id: seq<Scalar>, p: real, q: real)
    ensures p <= q && InPercent(key, id, p) ==> InPercent(key, id, q)
    ensures q >= 100.0 ==> InPercent(key, id, q)
    ensures p <= 0.0 ==> !InPercent(key, id, p)
  {
  }

  // ----- what the two sides agree on

  /** How UTF-8 writes a scalar value: how many octets, and which bits of it each of them carries. */
  lemma Utf8Decodes(c: Scalar)
    ensures var u := Utf8(c);
      && |u| == (if c < 128 then 1 else if c < 2048 then 2 else if c < 65536 then 3 else 4)
      && (forall i :: 0 < i < |u| ==> 128 <= u[i] < 192)
      && (|u| == 1 ==> u[0] < 128 && c == u[0])
      && (|u| == 2 ==> 192 <= u[0] < 224 && c == Six(u[1], u[0] - 0xC0))
      && (|u| == 3 ==> 224 <= u[0] < 240 && c == Six(u[2], Six(u[1], u[0] - 0xE0)))
      && (|u| == 4 ==> 240 <= u[0] < 248 && c == Six(u[3], Six(u[2], Six(u[1], u[0] - 0xF0))))
  {
  }

  /** Six more bits from a continuation octet. */
  function Six(octet: int, high: int): int { high * 64 + (octet - 128) }

  lemma FlagBytes()
    ensures Hashed([102, 108, 97, 103], [233]) == [102, 108, 97, 103, 0, 195, 169]
  {
    HashedIs([102, 108, 97, 103], [233]);
    assert Encode([233]) == [195, 169];
    assert Encode([102, 108, 97, 103]) == [102, 108, 97, 103];
  }

  lemma {:induction false} XorZero(a: nat)
    ensures Xor(a, 0) == a
  {
    if a > 0 { XorZero(a / 2); }
  }

  /** The high bits of a word pass through. */
  lemma {:induction false} XorLow(q: nat, r: nat, b: nat, n: nat)
    requires r < Pow2(n) && b < Pow2(n)
    ensures Xor(Pow2(n) * q + r, b) == Pow2(n) * q + Xor(r, b)
  {
    if n == 0 {
      assert Pow2(0) == 1;
      XorZero(q);
    } else {
      Halves(q, r, n);
      XorLow(q, r / 2, b / 2, n - 1);
    }
  }

  lemma Halves(q: nat, r: nat, n: nat)
    requires n > 0 && r < Pow2(n)
    ensures (Pow2(n) * q + r) / 2 == Pow2(n - 1) * q + r / 2
    ensures (Pow2(n) * q + r) % 2 == r % 2
  {
    var x := Pow2(n - 1) * q;
    assert Pow2(n) * q == 2 * x;
  }

  /** One step on the word 256 * q + r, worked out. */
  lemma OneStep(q: nat, r: nat, b: Byte, x: nat, next: int, k: int)
    requires r < 256 && Xor(r, b) == x && Word(256 * q + r) && Word(next)
    requires (256 * q + x) * PRIME == next + TWO32 * k
    ensures Step(256 * q + r, b) == next
  {
    assert Pow2(8) == 256;
    XorLow(q, r, b, 8);
    ModIs((256 * q + x) * PRIME, k, next);
  }

  /** The hash of nothing, and the hash of one zero byte: the published basis, and one multiplication by the prime. */
  lemma PublishedHashes()
    ensures Fnv([]) == 2166136261 && Fnv([0]) == 84696351
  {
    XorZero(OFFSET_BASIS);
    FnvSnoc([], 0);
    ModIs(OFFSET_BASIS * PRIME, 8461673, 84696351);
  }

  lemma KeyXors()
    ensures Xor(197, 102) == 163 && Xor(153, 108) == 245 && Xor(175, 97) == 206
  {
    assert Xor(3, 1) == 2 && Xor(12, 6) == 10 && Xor(49, 25) == 40;
    assert Xor(2, 1) == 3 && Xor(9, 6) == 15 && Xor(38, 27) == 61;
    assert Xor(2, 1) == 3 && Xor(10, 6) == 12 && Xor(43, 24) == 51;
  }

  lemma SeparatorXors()
    ensures Xor(74, 103) == 45 && Xor(215, 0) == 215
  {
    assert Xor(1, 1) == 0 && Xor(4, 6) == 2 && Xor(18, 25) == 11;
    assert Xor(3, 0) == 3 && Xor(13, 0) == 13 && Xor(53, 0) == 53;
  }

  lemma IdentifierXors()
    ensures Xor(117, 195) == 182 && Xor(130, 169) == 43
  {
    assert Xor(1, 3) == 2 && Xor(7, 12) == 11 && Xor(29, 48) == 45;
    assert Xor(2, 2) == 0 && Xor(8, 10) == 2 && Xor(32, 42) == 10;
  }

  /** One more byte of a hash that is worked out. */
  lemma OneByte(bytes: seq<Byte>, q: nat, r: nat, b: Byte, x: nat, next: int, k: int)
    requires Fnv(bytes) == 256 * q + r && r < 256 && Xor(r, b) == x && Word(256 * q + r) && Word(next)
    requires (256 * q + x) * PRIME == next + TWO32 * k
    ensures Fnv(bytes + [b]) == next
  {
    OneStep(q, r, b, x, next, k);
    FnvSnoc(bytes, b);
  }

  /** The published bucket of the flag "flag" and the identifier "\u00e9". */
  lemma GoldenBucket()
    ensures BucketFor([102, 108, 97, 103], [233]) == 53
  {
    FlagBytes();
    PublishedHashes();
    KeyXors();
    SeparatorXors();
    IdentifierXors();
    hide Xor, Step, Encode, Fnv;
    OneByte([], 8461469, 197, 102, 163, 3809224601, 8461672);
    assert [] + [102] == [102];
    OneByte([102], 14879783, 153, 108, 245, 1629677231, 14880141);
    assert [102] + [108] == [102, 108];
    OneByte([102, 108], 6365926, 175, 97, 206, 3086046794, 6366079);
    assert [102, 108] + [97] == [102, 108, 97];
    OneByte([102, 108, 97], 12054870, 74, 103, 45, 3186272471, 12055159);
    assert [102, 108, 97] + [103] == [102, 108, 97, 103];
    OneByte([102, 108, 97, 103], 12446376, 215, 0, 215, 3479685749, 12446675);
    assert [102, 108, 97, 103] + [0] == [102, 108, 97, 103, 0];
    OneByte([102, 108, 97, 103, 0], 13592522, 117, 195, 182, 912530562, 13592849);
    assert [102, 108, 97, 103, 0] + [195] == [102, 108, 97, 103, 0, 195];
    OneByte([102, 108, 97, 103, 0, 195], 3564572, 130, 169, 43, 3398981553, 3564657);
    assert [102, 108, 97, 103, 0, 195] + [169] == [102, 108, 97, 103, 0, 195, 169];
  }

  // ----- how many

  /** The first `n` buckets. */
  function FirstBuckets(n: nat): (r: set<int>)
    ensures |r| == n && forall b :: b in r <==> 0 <= b < n
  {
    if n == 0 then {} else FirstBuckets(n - 1) + {n - 1}
  }

  /** A whole percentage admits the users of exactly that many of the hundred buckets. */
  lemma PercentAdmitsBuckets(key: seq<Scalar>, id: seq<Scalar>, percent: nat)
    requires percent <= 100
    ensures InPercent(key, id, percent as real) <==> BucketFor(key, id) in FirstBuckets(percent)
    ensures |FirstBuckets(percent)| == percent
  {
  }
}
