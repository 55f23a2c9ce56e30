/** The geometry of Adam7 interlacing (section 2.6 of RFC 2083): seven passes, each a grid of the
    pixels of the image, and where each pass is stored. */
module Adam7 {
  import opened PngRows

  // ---------------------------------------------------------------- passes

  type pass = p: int | 0 <= p < 7

  function StartX(p: pass): nat { match p case 0 => 0 case 1 => 4 case 2 => 0 case 3 => 2 case 4 => 0 case 5 => 1 case _ => 0 }

  function StartY(p: pass): nat { match p case 0 => 0 case 1 => 0 case 2 => 4 case 3 => 0 case 4 => 2 case 5 => 0 case _ => 1 }

  function StepX(p: pass): (d: nat)
    ensures d > StartX(p)
  {
    match p case 0 => 8 case 1 => 8 case 2 => 4 case 3 => 4 case 4 => 2 case 5 => 2 case _ => 1
  }

  function StepY(p: pass): (d: nat)
    ensures d > StartY(p)
  {
    match p case 0 => 8 case 1 => 8 case 2 => 8 case 3 => 4 case 4 => 4 case 5 => 2 case _ => 2
  }

  /** Width and height of a pass; a pass without columns has no rows and conversely. */
  function PassWidth(p: pass, w: nat, h: nat): nat {
    if (h + StepY(p) - StartY(p) - 1) / StepY(p) == 0 then 0 else (w + StepX(p) - StartX(p) - 1) / StepX(p)
  }

  function PassHeight(p: pass, w: nat, h: nat): nat {
    if (w + StepX(p) - StartX(p) - 1) / StepX(p) == 0 then 0 else (h + StepY(p) - StartY(p) - 1) / StepY(p)
  }

  /** The pass of a pixel, from the standard's eight by eight pattern. */
  function PassOf(x: nat, y: nat): pass {
    if y % 2 == 1 then 6
    else if x % 2 == 1 then 5
    else if y % 4 == 2 then 4
    else if x % 4 == 2 then 3
    else if y % 8 == 4 then 2
    else if x % 8 == 4 then 1
    else 0
  }

  function Column(x: nat, y: nat): nat {
    var p := PassOf(x, y);
    if x < StartX(p) then 0 else (x - StartX(p)) / StepX(p)
  }

  function PassLine(x: nat, y: nat): nat {
    var p := PassOf(x, y);
    if y < StartY(p) then 0 else (y - StartY(p)) / StepY(p)
  }

  /** Pixel (i, j) of pass p is pixel (x, y) of the image. */
  ghost predicate Places(p: pass, i: nat, j: nat, x: nat, y: nat, w: nat, h: nat) {
    i < PassWidth(p, w, h) && j < PassHeight(p, w, h) && x == StartX(p) + i * StepX(p) && y == StartY(p) + j * StepY(p)
  }

  lemma {:induction false} Steps(x: nat, start: nat, step: nat, i: nat, w: nat)
    requires start < step && x == start + i * step
    ensures x < w <==> i < (w + step - start - 1) / step
  {
    if i < (w + step - start - 1) / step {
      assert (i + 1) * step <= w + step - start - 1 by { AtLeast(w + step - start - 1, step, i + 1); }
    } else {
      assert i * step > w - start - 1 by { AtMost(w + step - start - 1, step, i); }
    }
  }

  lemma {:induction false} AtLeast(a: nat, d: nat, q: nat)
    requires d > 0 && q <= a / d
    ensures q * d <= a
  {
    assert a == a / d * d + a % d;
    assert q * d <= a / d * d;
  }

  lemma {:induction false} AtMost(a: nat, d: nat, q: nat)
    requires d > 0 && q >= a / d
    ensures q * d + d > a
  {
    assert a == a / d * d + a % d;
    assert q * d >= a / d * d;
  }

  /** Every position that a pass can reach is inside the image exactly when its pass coordinates
      are in range. */
  lemma {:induction false} InRange(p: pass, i: nat, j: nat, x: nat, y: nat, w: nat, h: nat)
    requires x == StartX(p) + i * StepX(p) && y == StartY(p) + j * StepY(p)
    ensures Places(p, i, j, x, y, w, h) <==> x < w && y < h
  {
    Steps(x, StartX(p), StepX(p), i, w);
    Steps(y, StartY(p), StepY(p), j, h);
    if x < w && y < h {
      assert i < (w + StepX(p) - StartX(p) - 1) / StepX(p) && j < (h + StepY(p) - StartY(p) - 1) / StepY(p);
    }
  }

  /** The pattern agrees with the start and step tables. */
  lemma {:induction false} OnGrid(x: nat, y: nat)
    ensures var p := PassOf(x, y);
            x == StartX(p) + Column(x, y) * StepX(p) && y == StartY(p) + PassLine(x, y) * StepY(p)
  {
    var p := PassOf(x, y);
    Aligned(x, y);
    GridLine(x, StartX(p), StepX(p));
    GridLine(y, StartY(p), StepY(p));
  }

  lemma {:induction false} Aligned(x: nat, y: nat)
    ensures var p := PassOf(x, y);
            StartX(p) <= x && (x - StartX(p)) % StepX(p) == 0 && StartY(p) <= y && (y - StartY(p)) % StepY(p) == 0
  {
    Residues(x);
    Residues(y);
  }

  /** How the remainders by two, four and eight hang together, for every start and step of the tables. */
  lemma {:induction false} Residues(x: nat)
    ensures x % 8 == 0 ==> x % 4 == 0 && x % 2 == 0
    ensures x % 4 == 0 ==> x % 8 == 0 || x % 8 == 4
    ensures x % 2 == 0 ==> x % 4 == 0 || x % 4 == 2
    ensures x % 2 == 1 ==> x >= 1 && (x - 1) % 2 == 0
    ensures x % 4 == 2 ==> x >= 2 && (x - 2) % 4 == 0
    ensures x % 8 == 4 ==> x >= 4 && (x - 4) % 8 == 0
  {
    var k, r := x / 8, x % 8;
    assert x == r + k * 8;
    Below(r, k);
    if r >= 1 { Below(r - 1, k); }
    if r >= 2 { Below(r - 2, k); }
    if r >= 4 { Below(r - 4, k); }
  }

  lemma {:induction false} Below(r: nat, k: nat)
    requires r < 8
    ensures (r + k * 8) % 8 == r && (r + k * 8) % 4 == r % 4 && (r + k * 8) % 2 == r % 2
  {
    Four(r, 2 * k);
    Even(r, 4 * k);
  }

  lemma {:induction false} GridLine(x: nat, start: nat, step: nat)
    requires step > 0 && start <= x && (x - start) % step == 0
    ensures x == start + (x - start) / step * step
  {
  }

  /** Only pixels of the pass lie on its grid. */
  lemma {:induction false} GridOnly(p: pass, i: nat, j: nat)
    ensures PassOf(StartX(p) + i * StepX(p), StartY(p) + j * StepY(p)) == p
    ensures Column(StartX(p) + i * StepX(p), StartY(p) + j * StepY(p)) == i
    ensures PassLine(StartX(p) + i * StepX(p), StartY(p) + j * StepY(p)) == j
  {
    Quotient(StartX(p), i, StepX(p));
    Quotient(StartY(p), j, StepY(p));
    match p
    case 0 => Parity8(i, 0); Parity8(j, 0);
    case 1 => Parity8(i, 4); Parity8(j, 0);
    case 2 => Parity4(i, 0); Parity8(j, 4);
    case 3 => Parity4(i, 2); Parity4(j, 0);
    case 4 => Parity2(i, 0); Parity4(j, 2);
    case 5 => Parity2(i, 1); Parity2(j, 0);
    case _ => Parity2(j, 1);
  }

  lemma {:induction false} Quotient(start: nat, i: nat, step: nat)
    requires step > 0
    ensures (start + i * step - start) / step == i
  {
    var q := (start + i * step - start) / step;
    AtLeast(i * step, step, q);
    AtMost(i * step, step, q);
    SameFactor(i, q, step);
  }

  lemma {:induction false} Apart(a: nat, b: nat, step: nat)
    requires a < b
    ensures a * step + step <= b * step
  {
    assert (a + 1) * step <= b * step;
  }

  lemma {:induction false} SameFactor(i: nat, q: nat, step: nat)
    requires step > 0 && q * step <= i * step < q * step + step
    ensures q == i
  {
    if q < i {
      Apart(q, i, step);
    } else if q > i {
      Apart(i, q, step);
    }
  }

  lemma {:induction false} Even(s: nat, k: nat)
    ensures (s + k * 2) % 2 == s % 2
  {
  }

  lemma {:induction false} Four(s: nat, k: nat)
    ensures (s + k * 4) % 4 == s % 4
  {
  }

  lemma {:induction false} Parity8(i: nat, s: nat)
    requires s < 8
    ensures (s + i * 8) % 8 == s && (s + i * 8) % 4 == s % 4 && (s + i * 8) % 2 == s % 2
  {
    Four(s, 2 * i);
    Even(s, 4 * i);
  }

  lemma {:induction false} Parity4(i: nat, s: nat)
    requires s < 4
    ensures (s + i * 4) % 4 == s && (s + i * 4) % 2 == s % 2
  {
    Four(s, i);
    Even(s, 2 * i);
  }

  lemma {:induction false} Parity2(i: nat, s: nat)
    requires s < 2
    ensures (s + i * 2) % 2 == s
  {
    Even(s, i);
  }

  /** The passes partition the pixels: every pixel of the image is one pixel of one pass, and only
      pixels of the image are. */
  lemma {:induction false} Partition(p: pass, i: nat, j: nat, x: nat, y: nat, w: nat, h: nat)
    ensures Places(p, i, j, x, y, w, h) <==>
            x < w && y < h && p == PassOf(x, y) && i == Column(x, y) && j == PassLine(x, y)
  {
    if Places(p, i, j, x, y, w, h) {
      InRange(p, i, j, x, y, w, h);
      GridOnly(p, i, j);
    } else if x < w && y < h && p == PassOf(x, y) && i == Column(x, y) && j == PassLine(x, y) {
      OnGrid(x, y);
      InRange(p, i, j, x, y, w, h);
    }
  }
}
