/** Types used throughout the model. */
module Basics {
  datatype Option<+T> = None | Some(value: T)

  type Byte = x: int | 0 <= x < 256

  function Min(a: nat, b: nat): (m: nat)
    ensures m <= a && m <= b && (m == a || m == b)
  {
    if a < b then a else b
  }

  /** The `width` bytes of a number, low-order byte first. */
  function Little(n: nat, width: nat): (b: seq<Byte>)
    ensures |b| == width
  {
    if width == 0 then [] else [n % 256] + Little(n / 256, width - 1)
  }

  function FromLittle(b: seq<Byte>): nat {
    if b == [] then 0 else b[0] as int + 256 * FromLittle(b[1..])
  }

  function Power256(width: nat): (p: nat)
    ensures p > 0
  {
    if width == 0 then 1 else 256 * Power256(width - 1)
  }

  lemma Powers()
    ensures Power256(4) == 0x1_0000_0000 && Power256(8) == 0x1_0000_0000_0000_0000
  {
    assert Power256(2) == 0x10000;
    assert Power256(4) == 0x1_0000_0000;
    assert Power256(6) == 0x1_0000_0000_0000;
  }

  lemma {:induction false} LittleRoundTrip(n: nat, width: nat)
    requires n < Power256(width)
    ensures FromLittle(Little(n, width)) == n
  {
    if width > 0 {
      LittleRoundTrip(n / 256, width - 1);
      assert Little(n, width)[1..] == Little(n / 256, width - 1);
    }
  }

  lemma LittleMore(n: nat, width: nat, a: Byte, m: nat)
    requires n == a as int + 256 * m
    ensures Little(n, width + 1) == [a] + Little(m, width)
  {}

  /** A number and its four bytes, low-order byte first. */
  lemma FourBytes(n: nat, a: Byte, b: Byte, c: Byte, d: Byte)
    requires n == a as int + 0x100 * b as int + 0x10000 * c as int + 0x1000000 * d as int
    ensures Little(n, 4) == [a, b, c, d]
  {
    hide Little;
    var bcd, cd := b as int + 0x100 * c as int + 0x10000 * d as int, c as int + 0x100 * d as int;
    LittleMore(n, 3, a, bcd);
    LittleMore(bcd, 2, b, cd);
    LittleMore(cd, 1, c, d as int);
    LittleMore(d as int, 0, d, 0);
    NoBytes();
  }

  lemma NoBytes()
    ensures Little(0, 0) == []
  {}

  // ----- words

  lemma Double(x: bv32)
    requires x < 0x8000_0000
    ensures (x << 1) as int == 2 * x as int && ((x << 1) | 1) as int == 2 * x as int + 1
  {}

  // ----- names

  /** The bytes of a C string, without the terminating zero. */
  type Name = seq<Byte>

  function ToLower(b: Byte): Byte {
    if 65 <= b <= 90 then b + 32 else b
  }

  /** Names are equal for `strcasecmp` when they fold to the same bytes. */
  function Fold(name: Name): (f: Name)
    ensures |f| == |name| && forall i :: 0 <= i < |f| ==> f[i] == ToLower(name[i])
  {
    seq(|name|, i requires 0 <= i < |name| => ToLower(name[i]))
  }

  /** Names fold together exactly when they differ at most in the case of letters. */
  lemma FoldsTogether(a: Name, b: Name)
    ensures Fold(a) == Fold(b) <==>
      |a| == |b| && forall i :: 0 <= i < |a| ==> a[i] == b[i] || OneLetter(a[i], b[i]) || OneLetter(b[i], a[i])
  {
    if Fold(a) == Fold(b) {
      forall i | 0 <= i < |a| ensures a[i] == b[i] || OneLetter(a[i], b[i]) || OneLetter(b[i], a[i]) {
        assert Fold(a)[i] == Fold(b)[i];
      }
    }
  }

  /** An upper-case letter of ASCII and the same letter in lower case. */
  predicate OneLetter(upper: Byte, lower: Byte) {
    'A' <= upper as char <= 'Z' && 'a' <= lower as char <= 'z' && upper - 'A' as int == lower - 'a' as int
  }

  // ----- sequences

  ghost predicate NoDup<T>(s: seq<T>) {
    forall i, j :: 0 <= i < j < |s| ==> s[i] != s[j]
  }

  /** The numbers below n that are not in `have`, in increasing order. */
  function Absent(n: nat, have: seq<int>): seq<nat> {
    if n == 0 then [] else Absent(n - 1, have) + if n - 1 in have then [] else [n - 1]
  }

  lemma {:induction false} AbsentIs(n: nat, have: seq<int>)
    ensures forall d :: d in Absent(n, have) <==> 0 <= d < n && d !in have
    ensures forall i, j :: 0 <= i < j < |Absent(n, have)| ==> Absent(n, have)[i] < Absent(n, have)[j]
  {
    if n > 0 {
      AbsentIs(n - 1, have);
      var u, v := Absent(n - 1, have), Absent(n, have);
      assert forall i :: 0 <= i < |u| ==> u[i] in u;
      assert v == if n - 1 in have then u else u + [n - 1];
    }
  }

  /** The remainder of the next number. */
  lemma NextRemainder(a: nat, m: nat)
    requires m > 0
    ensures (a + 1) % m == if a % m + 1 == m then 0 else a % m + 1
  {
    var q, r := a / m, a % m;
    assert a == q * m + r;
    if r + 1 == m {
      assert (q + 1) * m == q * m + m;
      DivisionIs(a + 1, q + 1, m, 0);
    } else {
      DivisionIs(a + 1, q, m, r + 1);
    }
  }

  lemma DivisionIs(b: nat, d: nat, m: nat, r: nat)
    requires m > 0 && b == d * m + r && r < m
    ensures b % m == r
  {
    var k := b / m - d;
    assert k * m == r - b % m;
    MultipleBound(k, m);
  }

  /** A multiple of `m` other than zero is at least `m` away from it. */
  lemma MultipleBound(q: int, m: int)
    requires m > 0
    ensures q >= 1 ==> q * m >= m
    ensures q <= -1 ==> q * m <= -m
  {}
}
