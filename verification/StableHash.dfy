/** The FNV-1a hash (section 2 of draft-eastlake-fnv) behind worker thread ids, over UTF-16 units. */
module StableHash {
  import opened Powers

  const WORD: int := 0x1_0000_0000
  const OFFSET_BASIS: nat := 0x811c9dc5
  const PRIME: nat := 0x01000193
  const PRIME_INVERSE: nat := 899433627
  const PRIME_QUOTIENT: nat := 3513497

  type Unit = u: nat | u < 0x1_0000
  type Word = w: nat | w < 0x1_0000_0000

  // ---- signed 32-bit operations -----------------------------------------------------------------

  /** The unsigned value of the low 32 bits. */
  function Unsigned(i: int): Word { i % WORD }

  /** The signed value of a 32-bit pattern. */
  function Signed(w: Word): int { if w < 0x8000_0000 then w else w - WORD }

  /** Bitwise exclusive or of two numbers, lowest bit first. */
  function Xor(a: nat, b: nat): nat
    decreases a + b
  {
    if a == 0 && b == 0 then 0 else 2 * Xor(a / 2, b / 2) + (a + b) % 2
  }

  /** `a ^ b` of the language: both sides and the result are 32-bit two's complement. */
  function XorSigned(a: int, b: int): int {
    PowerOfTwo32();
    XorBound(Unsigned(a), Unsigned(b), 32);
    Signed(Xor(Unsigned(a), Unsigned(b)))
  }

  /** `Math.imul`: the low 32 bits of the product, as a signed number. */
  function Imul(a: int, b: int): int { Signed(Unsigned(a * b)) }

  lemma PowerOfTwo32()
    ensures Pow2(32) == WORD
  {
    assert Pow2(8) == 256;
    assert Pow2(16) == 65536;
    assert Pow2(24) == 16777216;
  }

  lemma {:induction false} XorBound(a: nat, b: nat, n: nat)
    requires a < Pow2(n) && b < Pow2(n)
    ensures Xor(a, b) < Pow2(n)
    decreases n
  {
    if n > 0 && (a > 0 || b > 0) { XorBound(a / 2, b / 2, n - 1); }
  }

  /** The lowest bit and the rest of an exclusive or, taken apart. */
  lemma XorParts(a: nat, b: nat)
    ensures Xor(a, b) / 2 == Xor(a / 2, b / 2) && Xor(a, b) % 2 == (a + b) % 2
  {
  }

  /** The `k`th bit of a number, from the lowest on. */
  function Bit(n: nat, k: nat): nat { if k == 0 then n % 2 else Bit(n / 2, k - 1) }

  /** Bit by bit, the exclusive or of two numbers is set exactly where they differ. */
  lemma {:induction false} XorIsBitwise(a: nat, b: nat, k: nat)
    ensures Bit(Xor(a, b), k) == if Bit(a, k) == Bit(b, k) then 0 else 1
    decreases k
  {
    XorParts(a, b);
    hide Xor;
    if k > 0 {
      XorIsBitwise(a / 2, b / 2, k - 1);
    }
  }

  lemma {:induction false} XorCancels(a: nat, b: nat)
    ensures Xor(Xor(a, b), b) == a
    decreases a + b
  {
    if a > 0 || b > 0 {
      var x := Xor(a, b);
      XorCancels(a / 2, b / 2);
      XorParts(a, b);
      XorParts(x, b);
      hide Xor;
      assert Xor(x, b) == 2 * (Xor(x, b) / 2) + Xor(x, b) % 2;
      assert (x + b) % 2 == a % 2 by { SameParity(a, b, x); }
    }
  }

  lemma SameParity(a: nat, b: nat, x: nat)
    requires x % 2 == (a + b) % 2
    ensures (x + b) % 2 == a % 2
  {
  }

  lemma {:induction false} XorSymmetric(a: nat, b: nat)
    ensures Xor(a, b) == Xor(b, a)
    decreases a + b
  {
    if a > 0 || b > 0 { XorSymmetric(a / 2, b / 2); }
  }

  // ---- the hash as arithmetic modulo 2^32 -------------------------------------------------------

  function Mix(h: Word, u: Unit): Word {
    PowerOfTwo32();
    XorBound(h, u, 32);
    Xor(h, u) * PRIME % WORD
  }

  /** The step undone: multiply by the inverse of the prime, then take the unit out again. */
  function Unmix(h: Word, u: Unit): Word {
    PowerOfTwo32();
    XorBound(h * PRIME_INVERSE % WORD, u, 32);
    Xor(h * PRIME_INVERSE % WORD, u)
  }

  function HashFrom(h: Word, input: seq<Unit>): Word
    decreases |input|
  {
    if input == [] then h else HashFrom(Mix(h, input[0]), input[1..])
  }

  function Hash(input: seq<Unit>): Word { HashFrom(OFFSET_BASIS, input) }

  lemma PrimeInverse()
    ensures PRIME * PRIME_INVERSE == 1 + PRIME_QUOTIENT * WORD
  {
  }

  lemma TimesPrimeCancels(x: Word)
    ensures (x * PRIME % WORD) * PRIME_INVERSE % WORD == x
  {
    PrimeInverse();
    var q := x * PRIME / WORD;
    var y := x * PRIME % WORD;
    assert x * PRIME == q * WORD + y;
    assert y * PRIME_INVERSE == x + (x * PRIME_QUOTIENT - q * PRIME_INVERSE) * WORD;
    RemainderOf(x * PRIME_QUOTIENT - q * PRIME_INVERSE, x);
  }

  lemma TimesInverseCancels(x: Word)
    ensures (x * PRIME_INVERSE % WORD) * PRIME % WORD == x
  {
    PrimeInverse();
    var q := x * PRIME_INVERSE / WORD;
    var y := x * PRIME_INVERSE % WORD;
    assert x * PRIME_INVERSE == q * WORD + y;
    assert y * PRIME == x + (x * PRIME_QUOTIENT - q * PRIME) * WORD;
    RemainderOf(x * PRIME_QUOTIENT - q * PRIME, x);
  }

  lemma RemainderOf(k: int, x: Word)
    ensures (x + k * WORD) % WORD == x
  {
  }

  /** Each step is a bijection on hash states. */
  lemma MixIsBijective(h: Word, u: Unit)
    ensures Unmix(Mix(h, u), u) == h && Mix(Unmix(h, u), u) == h
  {
    PowerOfTwo32();
    XorBound(h, u, 32);
    TimesPrimeCancels(Xor(h, u));
    XorCancels(h, u);
    var x := h * PRIME_INVERSE % WORD;
    XorBound(x, u, 32);
    XorCancels(x, u);
    TimesInverseCancels(h);
  }

  /** From one state, two different units lead to different states. */
  lemma MixSeparatesUnits(h: Word, u: Unit, v: Unit)
    ensures Mix(h, u) == Mix(h, v) ==> u == v
  {
    PowerOfTwo32();
    XorBound(h, u, 32);
    XorBound(h, v, 32);
    TimesPrimeCancels(Xor(h, u));
    TimesPrimeCancels(Xor(h, v));
    XorSymmetric(h, u);
    XorSymmetric(h, v);
    XorCancels(u, h);
    XorCancels(v, h);
  }

  lemma {:induction false} HashFromSeparatesStates(g: Word, h: Word, input: seq<Unit>)
    ensures HashFrom(g, input) == HashFrom(h, input) ==> g == h
    decreases |input|
  {
    if input != [] {
      HashFromSeparatesStates(Mix(g, input[0]), Mix(h, input[0]), input[1..]);
      MixIsBijective(g, input[0]);
      MixIsBijective(h, input[0]);
    }
  }

  lemma {:induction false} HashFromAppend(h: Word, a: seq<Unit>, b: seq<Unit>)
    ensures HashFrom(h, a + b) == HashFrom(HashFrom(h, a), b)
    decreases |a|
  {
    if a == [] {
      assert a + b == b;
    } else {
      assert (a + b)[1..] == a[1..] + b;
      HashFromAppend(Mix(h, a[0]), a[1..], b);
    }
  }

  // ---- base 36 ----------------------------------------------------------------------------------

  function Digit36(d: nat): char
    requires d < 36
  {
    if d < 10 then ('0' as int + d) as char else ('a' as int + (d - 10)) as char
  }

  function ToBase36(n: nat): string {
    if n < 36 then [Digit36(n)] else ToBase36(n / 36) + [Digit36(n % 36)]
  }

  lemma Digit36Separates(a: nat, b: nat)
    requires a < 36 && b < 36 && Digit36(a) == Digit36(b)
    ensures a == b
  {
  }

  lemma Base36Parts(n: nat)
    ensures var s := ToBase36(n);
            && |s| >= 1 && s[|s| - 1] == Digit36(n % 36) && (|s| == 1 <==> n < 36)
            && (n >= 36 ==> s[..|s| - 1] == ToBase36(n / 36))
  {
    if n >= 36 { Base36NotEmpty(n / 36); }
  }

  lemma Base36NotEmpty(n: nat)
    ensures |ToBase36(n)| >= 1
  {
  }

  lemma {:induction false} Base36Separates(m: nat, n: nat)
    requires ToBase36(m) == ToBase36(n)
    ensures m == n
  {
    Base36Parts(m);
    Base36Parts(n);
    Digit36Separates(m % 36, n % 36);
    hide *;
    if m >= 36 {
      Base36Separates(m / 36, n / 36);
      assert m == 36 * (m / 36) + m % 36 && n == 36 * (n / 36) + n % 36;
    }
  }

  /** The number that a text over the 36 digits `0` to `9` and `a` to `z` stands for. */
  function Value36(s: string): nat {
    if s == "" then 0
    else
      var c := s[|s| - 1];
      36 * Value36(s[..|s| - 1])
      + if '0' <= c <= '9' then c as int - '0' as int else if 'a' <= c <= 'z' then 10 + (c as int - 'a' as int) else 0
  }

  predicate IsDigit36(c: char) { '0' <= c <= '9' || 'a' <= c <= 'z' }

  /** The text of a number is its base-36 numeral, without leading zeros. */
  lemma {:induction false} Value36OfText(n: nat)
    ensures var s := ToBase36(n);
            && Value36(s) == n && s != "" && (s[0] == '0' ==> s == "0")
            && forall i :: 0 <= i < |s| ==> IsDigit36(s[i])
  {
    if n >= 36 {
      Value36OfText(n / 36);
      var front := ToBase36(n / 36);
      assert ToBase36(n)[..|front|] == front;
    } else {
      assert [Digit36(n)][..0] == "";
    }
  }

  // ---- the loop of the source -------------------------------------------------------------------

  lemma Shifted(a: int, k: int)
    ensures (a + k * WORD) % WORD == a % WORD
  {
    var q, r := a / WORD, a % WORD;
    assert a + k * WORD == r + (q + k) * WORD;
    RemainderOf(q + k, r);
  }

  lemma UnsignedOfSigned(w: Word)
    ensures Unsigned(Signed(w)) == w
  {
    RemainderOf(0, w);
    RemainderOf(-1, w);
  }

  lemma SignedTimesPrime(w: Word)
    ensures Unsigned(Signed(w) * PRIME) == w * PRIME % WORD
  {
    if Signed(w) != w {
      var k: int := 0 - PRIME;
      assert Signed(w) * PRIME == w * PRIME + k * WORD;
      Shifted(w * PRIME, k);
    }
  }

  lemma SignedOps(h: int, u: Unit)
    ensures Unsigned(Imul(XorSigned(h, u), PRIME)) == Mix(Unsigned(h), u)
  {
    PowerOfTwo32();
    XorBound(Unsigned(h), u, 32);
    RemainderOf(0, u);
    var x: Word := Xor(Unsigned(h), u);
    SignedTimesPrime(x);
    UnsignedOfSigned(Unsigned(Signed(x) * PRIME));
    hide Unsigned;
    hide Signed;
  }

  method StableHash(input: seq<Unit>) returns (text: string)
    ensures text == ToBase36(Hash(input))
  {
    var h: int := OFFSET_BASIS;
    for i := 0 to |input|
      invariant HashFrom(Unsigned(h), input[i..]) == Hash(input)
    {
      assert input[i..][0] == input[i] && input[i..][1..] == input[i + 1..];
      SignedOps(h, input[i]);
      h := XorSigned(h, input[i]);
      h := Imul(h, PRIME);
    }
    text := ToBase36(Unsigned(h));
  }

  // ---- main result ------------------------------------------------------------------------------

  /** Two strings that differ in exactly one unit never share a hash, nor its base-36 text. */
  lemma OneUnitSeparates(a: seq<Unit>, b: seq<Unit>, k: nat)
    requires |a| == |b| && k < |a| && a[k] != b[k]
    requires forall i :: 0 <= i < |a| && i != k ==> a[i] == b[i]
    ensures Hash(a) != Hash(b) && ToBase36(Hash(a)) != ToBase36(Hash(b))
  {
    var front, u, v, back := a[..k], a[k], b[k], a[k + 1..];
    assert a == front + ([u] + back) && b == front + ([v] + back);
    HashFromAppend(OFFSET_BASIS, front, [u] + back);
    HashFromAppend(OFFSET_BASIS, front, [v] + back);
    var h := HashFrom(OFFSET_BASIS, front);
    assert ([u] + back)[1..] == back && ([v] + back)[1..] == back;
    MixSeparatesUnits(h, u, v);
    HashFromSeparatesStates(Mix(h, u), Mix(h, v), back);
    if ToBase36(Hash(a)) == ToBase36(Hash(b)) { Base36Separates(Hash(a), Hash(b)); }
  }

  lemma {:induction false} XorZero(q: nat)
    ensures Xor(q, 0) == q
  {
    if q > 0 { XorZero(q / 2); }
  }

  lemma XorNext(a: nat, b: nat, x: nat)
    requires Xor(a / 2, b / 2) == x / 2 && (a + b) % 2 == x % 2
    ensures Xor(a, b) == x
  {
    XorParts(a, b);
    hide Xor;
  }

  /** The published answers of the hash for no input and for "a". */
  lemma KnownAnswers()
    ensures Hash([]) == 0x811c9dc5 && Hash([0x61]) == 0xe40c292c
  {
    hide Xor;
    XorZero(0x811c9d);
    XorNext(0x102393b, 0x0, 0x102393b);
    XorNext(0x2047277, 0x1, 0x2047276);
    XorNext(0x408e4ee, 0x3, 0x408e4ed);
    XorNext(0x811c9dc, 0x6, 0x811c9da);
    XorNext(0x102393b8, 0xc, 0x102393b4);
    XorNext(0x20472771, 0x18, 0x20472769);
    XorNext(0x408e4ee2, 0x30, 0x408e4ed2);
    XorNext(0x811c9dc5, 0x61, 0x811c9da4);
    assert HashFrom(0x811c9dc5, [0x61]) == HashFrom(Mix(0x811c9dc5, 0x61), []);
  }
}
