/** sas-server/src/session.c, lines 41-55: the djb2 hash of an address, with the
    wrap-around of `unsigned long` after every step. */
module AddrHash {
  import opened CInt

  /** A `char`, signed or not, as the addition sees it. */
  type Char = c: int | -128 <= c < 256

  /** An address: the 16 bytes of the IP and the 2 bytes of the port. */
  datatype Addr = Addr(ip: seq<Char>, port: seq<Char>)

  function Pow33(n: nat): nat {
    if n == 0 then 1 else 33 * Pow33(n - 1)
  }

  /** The sum of b[i] * 33^(n - 1 - i), written from the front. */
  function Polynomial(bytes: seq<Char>): int {
    if bytes == [] then 0
    else bytes[0] * Pow33(|bytes| - 1) + Polynomial(bytes[1..])
  }

  function Wrap64(x: int): (r: nat) {
    x % TWO_64
  }

  lemma {:induction false} PolynomialSnoc(bytes: seq<Char>, c: Char)
    ensures Polynomial(bytes + [c]) == 33 * Polynomial(bytes) + c
  {
    if bytes == [] {
      assert bytes + [c] == [c];
      assert Pow33(0) == 1 && [c][1..] == [];
    } else {
      assert (bytes + [c])[1..] == bytes[1..] + [c] && (bytes + [c])[0] == bytes[0];
      PolynomialSnoc(bytes[1..], c);
      var p := Pow33(|bytes| - 1);
      assert Pow33(|bytes|) == 33 * p;
      TimesThree(bytes[0], p);
    }
  }

  lemma TimesThree(b: int, p: int)
    ensures b * (33 * p) == 33 * (b * p)
  {
  }

  /** A turn of the loop may be taken modulo 2^64. */
  lemma MixWraps(x: int, c: Char)
    ensures Wrap64(Wrap64(Wrap64(Wrap64(x) * 32) + Wrap64(x)) + c) == Wrap64(x * 33 + c)
  {
    var q, r := x / TWO_64, Wrap64(x);
    assert x == TWO_64 * q + r;
    DropMultiple(r * 32, r);
    DropMultiple(r * 33, c);
    assert x * 33 + c == TWO_64 * (33 * q) + (r * 33 + c);
    ModMultiple(r * 33 + c, 33 * q);
  }

  lemma DropMultiple(a: int, b: int)
    ensures Wrap64(Wrap64(a) + b) == Wrap64(a + b)
  {
    var q := a / TWO_64;
    assert a + b == TWO_64 * q + (Wrap64(a) + b);
    ModMultiple(Wrap64(a) + b, q);
  }

  lemma ModMultiple(x: int, k: int)
    ensures Wrap64(TWO_64 * k + x) == Wrap64(x)
  {
    var q, r := x / TWO_64, x % TWO_64;
    assert TWO_64 * k + x == TWO_64 * (k + q) + r;
    DivUnique(TWO_64 * k + x, k + q, r);
  }

  lemma DivUnique(y: int, q: int, r: int)
    requires 0 <= r < TWO_64 && y == TWO_64 * q + r
    ensures y % TWO_64 == r
  {
    var q', r' := y / TWO_64, y % TWO_64;
    assert TWO_64 * (q - q') == r' - r;
  }

  /** The hash of a byte string of any length, as a number. */
  function Hash(bytes: seq<Char>): nat {
    Wrap64(5381 * Pow33(|bytes|) + Polynomial(bytes))
  }

  /** The loop of `addr_hash`, shift and all: the djb2 polynomial modulo 2^64. */
  method HashBytes(bytes: seq<Char>) returns (hash: nat)
    ensures hash == Hash(bytes)
  {
    hash := 5381;
    assert bytes[..0] == [];
    for i := 0 to |bytes|
      invariant hash == Wrap64(5381 * Pow33(i) + Polynomial(bytes[..i]))
    {
      var shifted := Wrap64(hash * 32);
      ghost var x := 5381 * Pow33(i) + Polynomial(bytes[..i]);
      assert bytes[..i + 1] == bytes[..i] + [bytes[i]];
      PolynomialSnoc(bytes[..i], bytes[i]);
      MixWraps(x, bytes[i]);
      assert x * 33 + bytes[i] == 5381 * Pow33(i + 1) + Polynomial(bytes[..i + 1]);
      hash := Wrap64(Wrap64(shifted + hash) + bytes[i]);
    }
    assert bytes[..|bytes|] == bytes;
  }

  method AddrHash(addr: Addr) returns (hash: nat)
    ensures hash == Hash(addr.ip + addr.port)
  {
    hash := HashBytes(addr.ip + addr.port);
  }

  /** `hash % capacity`, by repeated subtraction. */
  function Remainder(x: nat, m: nat): (r: nat)
    requires m > 0
    ensures r < m
  {
    if x < m then x else Remainder(x - m, m)
  }

  lemma {:induction false} RemainderIsMod(x: nat, m: nat)
    requires m > 0
    ensures Remainder(x, m) == x % m
  {
    if x < m {
      SmallMod(x, m);
    } else {
      RemainderIsMod(x - m, m);
      ModOneLess(x, m);
    }
  }

  lemma SmallMod(x: nat, m: nat)
    requires x < m
    ensures x % m == x
  {
  }

  lemma ModOneLess(x: nat, m: nat)
    requires 0 < m <= x
    ensures x % m == (x - m) % m
  {
    var q, r := (x - m) / m, (x - m) % m;
    assert x == m * (q + 1) + r by {
      assert m * (q + 1) == m * q + m;
    }
    QuotientUnique(x, m, q + 1, r);
  }

  lemma QuotientUnique(y: nat, m: nat, q: nat, r: nat)
    requires 0 <= r < m && y == m * q + r
    ensures y % m == r
  {
    var q', r' := y / m, y % m;
    assert m * q' + r' == m * q + r;
    MultiplesAreApart(m, q, q');
    MultiplesAreApart(m, q', q);
  }

  lemma {:induction false} MultiplesAreApart(m: nat, a: nat, b: nat)
    ensures a < b ==> m * a + m <= m * b
  {
    if a < b {
      assert m * b == m * (b - 1) + m;
      MultiplesAreApart(m, a, b - 1);
    }
  }

  /** The bucket of an address. */
  function Bucket(addr: Addr, capacity: nat): (index: nat)
    requires capacity > 0
    ensures index < capacity
  {
    Remainder(Hash(addr.ip + addr.port), capacity)
  }

  /** `addr_hash(addr) % capacity`: addresses that agree in IP and port share a
      bucket, which is one of the table's. */
  method BucketOf(addr: Addr, capacity: nat) returns (index: nat)
    requires capacity > 0
    ensures index == Bucket(addr, capacity) && index < capacity
  {
    var hash := AddrHash(addr);
    RemainderIsMod(hash, capacity);
    index := hash % capacity;
  }

  // ----- The server's 32 buckets ----------------------------------------------------------

  function Sum(bytes: seq<Char>): int {
    if bytes == [] then 0 else bytes[0] + Sum(bytes[1..])
  }

  lemma {:induction false} PowerLeavesOne(n: nat) returns (q: int)
    ensures Pow33(n) == 1 + 32 * q
  {
    q := 0;
    if n > 0 {
      var p := PowerLeavesOne(n - 1);
      q := 1 + 33 * p;
    }
  }

  lemma {:induction false} PolynomialLeavesSum(bytes: seq<Char>) returns (q: int)
    ensures Polynomial(bytes) == Sum(bytes) + 32 * q
  {
    q := 0;
    if bytes != [] {
      var p := PowerLeavesOne(|bytes| - 1);
      var tail := PolynomialLeavesSum(bytes[1..]);
      var c, product := bytes[0], bytes[0] * p;
      assert c * (1 + 32 * p) == c + 32 * product;
      q := product + tail;
    }
  }

  /** As 33 leaves 1 modulo 32, the bucket is the sum of the bytes: any two addresses
      with the same bytes in another order collide. */
  lemma BucketIsByteSum(addr: Addr)
    ensures Bucket(addr, 32) == (5381 + Sum(addr.ip + addr.port)) % 32
  {
    var bytes := addr.ip + addr.port;
    var p := PowerLeavesOne(|bytes|);
    var q := PolynomialLeavesSum(bytes);
    RemainderIsMod(Hash(bytes), 32);
    WrapKeepsResidue(5381 * Pow33(|bytes|) + Polynomial(bytes), 5381 + Sum(bytes), 5381 * p + q);
  }

  lemma WrapKeepsResidue(x: int, sum: int, q: int)
    requires x == sum + 32 * q
    ensures Wrap64(x) % 32 == sum % 32
  {
    var turns := x / TWO_64;
    assert Wrap64(x) == x - TWO_64 * turns;
    var k := q - 0x800_0000_0000_0000 * turns;
    assert Wrap64(x) == sum + 32 * k;
  }

  lemma {:induction false} SumSplits(ip: seq<Char>, port: seq<Char>)
    ensures Sum(ip + port) == Sum(ip) + Sum(port)
  {
    if ip == [] {
      assert ip + port == port;
    } else {
      assert (ip + port)[1..] == ip[1..] + port;
      SumSplits(ip[1..], port);
    }
  }

  lemma SwappedBytesCollide(x: Char, y: Char, rest: seq<Char>, port: seq<Char>)
    ensures Bucket(Addr([x, y] + rest, port), 32) == Bucket(Addr([y, x] + rest, port), 32)
  {
    BucketIsByteSum(Addr([x, y] + rest, port));
    BucketIsByteSum(Addr([y, x] + rest, port));
    SumSplits([x, y] + rest, port);
    SumSplits([y, x] + rest, port);
    SumOfPair(x, y, rest);
    SumOfPair(y, x, rest);
  }

  lemma SumOfPair(x: Char, y: Char, rest: seq<Char>)
    ensures Sum([x, y] + rest) == x + y + Sum(rest)
  {
    var bytes := [x, y] + rest;
    assert bytes[1..] == [y] + rest && bytes[1..][1..] == rest;
  }
}
