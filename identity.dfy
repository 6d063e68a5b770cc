/** Identity of persistent entities: the source of fresh UUID strings and Java's String.hashCode. */
module Identity {
  /** Decimal digits of `n`, without leading zeros. */
  function Digits(n: nat): (r: string)
    ensures |r| >= 1
    ensures forall i :: 0 <= i < |r| ==> '0' <= r[i] <= '9'
    decreases n
  {
    if n < 10 then [DigitChar(n)] else Digits(n / 10) + [DigitChar(n % 10)]
  }

  function DigitChar(d: nat): (c: char)
    requires d < 10
    ensures '0' <= c <= '9'
  {
    ('0' as int + d) as char
  }

  lemma {:induction false} DigitsInjective(a: nat, b: nat)
    requires Digits(a) == Digits(b)
    ensures a == b
    decreases a
  {
    if a >= 10 && b >= 10 {
      var da, db := Digits(a / 10), Digits(b / 10);
      assert Digits(a)[..|da|] == da;
      assert Digits(b)[..|db|] == db;
      assert Digits(a)[|Digits(a)| - 1] == DigitChar(a % 10);
      assert Digits(b)[|Digits(b)| - 1] == DigitChar(b % 10);
      DigitsInjective(a / 10, b / 10);
    }
  }

  /** The k-th identifier handed out by a UuidSource. */
  function UuidName(k: nat): string {
    "uuid-" + Digits(k)
  }

  lemma UuidNameInjective(a: nat, b: nat)
    requires UuidName(a) == UuidName(b)
    ensures a == b
  {
    assert Digits(a) == UuidName(a)[5..];
    assert Digits(b) == UuidName(b)[5..];
    DigitsInjective(a, b);
  }

  /** Stands for `UUID.randomUUID().toString()`: every string it issues is new. */
  class UuidSource {
    var counter: nat
    ghost var issued: set<string>

    ghost predicate Valid()
      reads this
    {
      issued == set k | 0 <= k < counter :: UuidName(k)
    }

    constructor ()
      ensures Valid() && issued == {}
    {
      counter := 0;
      issued := {};
    }

    /** A string different from every one issued before. */
    method Next() returns (u: string)
      requires Valid()
      modifies this
      ensures Valid()
      ensures u !in old(issued)
      ensures issued == old(issued) + {u}
    {
      u := UuidName(counter);
      if u in issued {
        var k :| 0 <= k < counter && UuidName(k) == u;
        UuidNameInjective(k, counter);
        assert false;
      }
      counter := counter + 1;
      issued := issued + {u};
    }
  }

  const TwoTo32: int := 0x1_0000_0000
  const TwoTo31: int := 0x8000_0000

  /** Java's `String.hashCode()` reduced modulo 2^32 (unsigned view). */
  function HashBits(s: string): (h: int)
    ensures 0 <= h < TwoTo32
  {
    if s == [] then 0 else (31 * HashBits(s[..|s| - 1]) + s[|s| - 1] as int) % TwoTo32
  }

  /** Java's `String.hashCode()`: `s[0]*31^(n-1) + ... + s[n-1]` in 32-bit two's complement. */
  function JavaStringHash(s: string): (h: int)
    ensures -TwoTo31 <= h < TwoTo31
    ensures (h - HashBits(s)) % TwoTo32 == 0
  {
    var b := HashBits(s);
    if b >= TwoTo31 then b - TwoTo32 else b
  }

  /** Exact polynomial value of the hash before wrap-around. */
  function HashPolynomial(s: string): int {
    if s == [] then 0 else 31 * HashPolynomial(s[..|s| - 1]) + s[|s| - 1] as int
  }

  /** The wrapped hash agrees with the exact polynomial modulo 2^32. */
  lemma {:induction false} HashBitsIsPolynomialMod(s: string)
    ensures HashBits(s) == HashPolynomial(s) % TwoTo32
    decreases |s|
  {
    if s != [] {
      var t := s[..|s| - 1];
      HashBitsIsPolynomialMod(t);
      var c := s[|s| - 1] as int;
      var q := HashPolynomial(t) / TwoTo32;
      assert HashPolynomial(t) == q * TwoTo32 + HashBits(t);
      assert 31 * HashPolynomial(t) + c == (31 * q) * TwoTo32 + (31 * HashBits(t) + c);
      ModShift(31 * HashBits(t) + c, 31 * q);
    }
  }

  lemma ModShift(x: int, q: int)
    ensures (q * TwoTo32 + x) % TwoTo32 == x % TwoTo32
  {
  }
}
