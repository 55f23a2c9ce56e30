/** The Adler-32 checksum (section 8.2 of RFC 1950), with the modulo taken only every 5552
    bytes. */
module Adler32 {
  import opened Bits
  import opened MachineWords

  const BASE: nat := 65521

  /** The two running sums. */
  datatype Sums = Sums(s1: nat, s2: nat)

  /** One byte with both sums reduced at once. */
  function Step(s: Sums, b: byte): Sums {
    var s1 := (s.s1 + b) % BASE;
    Sums(s1, (s.s2 + s1) % BASE)
  }

  function Fold(s: Sums, data: seq<byte>): Sums {
    if data == [] then s else Step(Fold(s, data[..|data| - 1]), data[|data| - 1])
  }

  function Unpacked(adler: nat): Sums { Sums(Low(adler, 16), Low(Shr(adler, 16), 16)) }

  function Packed(s: Sums): nat { s.s1 + Shl(s.s2, 16) }

  /** The checksum by definition. */
  function Checksum(data: seq<byte>): nat { Packed(Fold(Sums(1, 0), data)) }

  lemma {:induction false} FoldConcat(s: Sums, a: seq<byte>, b: seq<byte>)
    ensures Fold(s, a + b) == Fold(Fold(s, a), b)
    decreases |b|
  {
    if b == [] {
      assert a + b == a;
    } else {
      assert (a + b)[..|a + b| - 1] == a + b[..|b| - 1];
      FoldConcat(s, a, b[..|b| - 1]);
    }
  }

  /** Sums that have not been reduced yet stand for the reduced ones. */
  ghost predicate Same(x: Sums, y: Sums) {
    x.s1 % BASE == y.s1 % BASE && x.s2 % BASE == y.s2 % BASE
  }

  lemma {:induction false} StepSame(x: Sums, y: Sums, b: byte)
    requires Same(x, y)
    ensures Same(Sums(x.s1 + b, x.s2 + (x.s1 + b)), Step(y, b))
  {
    ModAdd(x.s1, y.s1, b, b);
    ModAdd(x.s2, y.s2, x.s1 + b, (y.s1 + b) % BASE);
  }

  lemma {:induction false} ModAdd(a: nat, b: nat, c: nat, d: nat)
    requires a % BASE == b % BASE && c % BASE == d % BASE
    ensures (a + c) % BASE == (b + d) % BASE
  {
    var x, y := a / BASE - b / BASE, c / BASE - d / BASE;
    assert a == b + BASE * x && c == d + BASE * y;
    ModShift(b + d, x + y);
  }

  lemma {:induction false} ModShift(v: nat, k: int)
    requires v + BASE * k >= 0
    ensures (v + BASE * k) % BASE == v % BASE
  {
    assert (v + BASE * k) / BASE == v / BASE + k;
  }

  /** i bytes cannot take the sums beyond these bounds. */
  ghost predicate Bounded(s: Sums, i: nat) {
    s.s1 <= 65535 + 255 * i && 2 * s.s2 <= 131070 + 131070 * i + 255 * Square(i)
  }

  /** i * (i + 1) */
  ghost function Square(i: nat): nat {
    if i == 0 then 0 else Square(i - 1) + 2 * i
  }

  lemma {:induction false} SquareMono(i: nat, n: nat)
    requires i <= n
    ensures Square(i) <= Square(n)
    decreases n
  {
    if i < n { SquareMono(i, n - 1); }
  }

  lemma {:induction false} SquareIs(i: nat)
    ensures Square(i) == i * (i + 1)
  {
    if i > 0 { SquareIs(i - 1); }
  }

  lemma {:induction false} NoOverflow(s: Sums, i: nat)
    requires Bounded(s, i) && i <= 5552
    ensures s.s1 < WORD32 && s.s2 < WORD32
  {
    SquareMono(i, 5552);
    SquareIs(5552);
  }

  lemma {:induction false} StepBounded(s: Sums, i: nat, b: byte)
    requires Bounded(s, i)
    ensures Bounded(Sums(s.s1 + b, s.s2 + (s.s1 + b)), i + 1)
  {
  }

  lemma {:induction false} LowWord(a: nat, b: nat)
    requires a < WORD32 && b < WORD32
    ensures a % WORD32 == a && b % WORD32 == b
  {
  }

  /** At most 5552 bytes, in 32-bit arithmetic. */
  method AddBytes(data: seq<byte>, start: nat, amount: nat, x: Sums, ghost y: Sums) returns (r: Sums)
    requires start + amount <= |data| && amount <= 5552
    requires x.s1 < 65536 && x.s2 < 65536 && Same(x, y)
    ensures Same(r, Fold(y, data[start..start + amount])) && r.s1 < WORD32 && r.s2 < WORD32
  {
    var s1: nat, s2: nat := x.s1, x.s2;
    var i := 0;
    assert data[start..start] == [];
    while i != amount
      invariant i <= amount && Bounded(Sums(s1, s2), i)
      invariant Same(Sums(s1, s2), Fold(y, data[start..start + i]))
    {
      var b := data[start + i];
      assert data[start..start + i + 1] == data[start..start + i] + [b];
      StepSame(Sums(s1, s2), Fold(y, data[start..start + i]), b);
      StepBounded(Sums(s1, s2), i, b);
      NoOverflow(Sums(s1 + b, s2 + (s1 + b)), i + 1);
      LowWord(s1 + b, s2 + (s1 + b));
      s1 := (s1 + b) % WORD32;
      s2 := (s2 + s1) % WORD32;
      i := i + 1;
    }
    NoOverflow(Sums(s1, s2), i);
    r := Sums(s1, s2);
  }

  lemma {:induction false} FoldReduced(s: Sums, data: seq<byte>)
    requires data != []
    ensures Fold(s, data).s1 < BASE && Fold(s, data).s2 < BASE
  {
  }

  /** The loop of update_adler32. */
  method SumAll(data: seq<byte>, first: Sums) returns (r: Sums)
    requires first.s1 < 65536 && first.s2 < 65536
    ensures r == Fold(first, data) && r.s1 < 65536 && r.s2 < 65536
  {
    r := first;
    var done := 0;
    assert data[..0] == [];
    while done != |data|
      invariant done <= |data| && r.s1 < 65536 && r.s2 < 65536
      invariant r == Fold(first, data[..done])
      decreases |data| - done
    {
      var amount := if |data| - done > 5552 then 5552 else |data| - done;
      var x := AddBytes(data, done, amount, r, r);
      r := Reduce(x, Fold(r, data[done..done + amount]), r, data[done..done + amount]);
      assert data[..done + amount] == data[..done] + data[done..done + amount];
      FoldConcat(first, data[..done], data[done..done + amount]);
      done := done + amount;
    }
    assert data[..done] == data;
  }

  method Reduce(x: Sums, ghost y: Sums, ghost before: Sums, ghost data: seq<byte>) returns (r: Sums)
    requires Same(x, y) && data != [] && y == Fold(before, data)
    ensures r == y && r.s1 < BASE && r.s2 < BASE
  {
    FoldReduced(before, data);
    r := Sums(x.s1 % BASE, x.s2 % BASE);
  }

  /** update_adler32, for every running value: the delayed reduction makes no difference and
      no 32-bit sum overflows. */
  method UpdateAdler32(adler: nat, data: seq<byte>) returns (r: nat)
    requires adler < WORD32
    ensures r == Packed(Fold(Unpacked(adler), data)) && r < WORD32
  {
    Pow2Values();
    LowBound(adler, 16);
    LowBound(Shr(adler, 16), 16);
    AndMask(adler, 16);
    AndMask(Shr(adler, 16), 16);
    var x := SumAll(data, Sums(And(adler, 0xffff), And(Shr(adler, 16), 0xffff)));
    OrDisjoint(x.s1, x.s2, 16);
    ShlIsMul(x.s2, 16);
    r := Or(x.s1, Shl(x.s2, 16));
  }

  lemma {:induction false} UnpackPacked(s: Sums)
    requires s.s1 < 65536 && s.s2 < 65536
    ensures Unpacked(Packed(s)) == s
  {
    Pow2Values();
    OrDisjoint(s.s1, s.s2, 16);
    LowSmall(s.s2, 16);
  }

  lemma {:induction false} FoldSmall(s: Sums, data: seq<byte>)
    requires s.s1 < 65536 && s.s2 < 65536
    ensures Fold(s, data).s1 < 65536 && Fold(s, data).s2 < 65536
  {
    if data != [] { FoldReduced(s, data); }
  }

  /** A checksum can be continued: the checksum of a, updated with b, is that of a + b. */
  lemma {:induction false} Continued(a: seq<byte>, b: seq<byte>)
    ensures Packed(Fold(Unpacked(Checksum(a)), b)) == Checksum(a + b)
  {
    FoldSmall(Sums(1, 0), a);
    UnpackPacked(Fold(Sums(1, 0), a));
    FoldConcat(Sums(1, 0), a, b);
  }

  /** adler32: the checksum of the first len bytes. */
  method Checksum32(data: seq<byte>, len: nat) returns (r: nat)
    requires len <= |data|
    ensures r == Checksum(data[..len]) && r < WORD32
  {
    assert Unpacked(1) == Sums(1, 0) by { UnpackOne(); }
    r := UpdateAdler32(1, data[..len]);
  }

  /** The checksum where the size is passed on in 32 bits. */
  function Summed(data: seq<byte>): nat { Checksum(data[..|data| % WORD32]) }

  lemma {:induction false} SummedWhole(data: seq<byte>)
    requires |data| < WORD32
    ensures Summed(data) == Checksum(data)
  {
    assert data[..|data|] == data;
  }

  /** It is that of all the data, for all data of n bytes, exactly below 2^32 bytes. */
  lemma {:induction false} SummedExact(n: nat)
    ensures (forall data: seq<byte> :: |data| == n ==> Summed(data) == Checksum(data)) <==> n < WORD32
  {
    if n < WORD32 {
      forall data: seq<byte> | |data| == n ensures Summed(data) == Checksum(data) { SummedWhole(data); }
    } else {
      var data: seq<byte> := seq(n, i => if i == n - 1 then 1 else 0);
      LastByteMissed(data, n % WORD32);
    }
  }

  /** The last byte is not summed. */
  lemma {:induction false} LastByteMissed(data: seq<byte>, m: nat)
    requires m < |data| && data[|data| - 1] == 1 && forall i :: 0 <= i < |data| - 1 ==> data[i] == 0
    ensures Checksum(data[..m]) != Checksum(data)
  {
    var front := data[..|data| - 1];
    ZerosFold(front);
    ZerosFold(data[..m]);
    FoldSmall(Sums(1, 0), data[..m]);
    FoldSmall(Sums(1, 0), data);
    UnpackPacked(Fold(Sums(1, 0), data[..m]));
    UnpackPacked(Fold(Sums(1, 0), data));
  }

  lemma {:induction false} ZerosFold(data: seq<byte>)
    requires forall i :: 0 <= i < |data| ==> data[i] == 0
    ensures Fold(Sums(1, 0), data).s1 == 1
  {
    if data != [] { ZerosFold(data[..|data| - 1]); }
  }

  lemma {:induction false} UnpackOne()
    ensures Unpacked(1) == Sums(1, 0)
  {
    Pow2Values();
    LowSmall(1, 16);
    LowZero(16);
  }
}
