/** The run-length form of code lengths in the header of a dynamic block (section 3.2.7 of
    RFC 1951), and its encoder. */
module CodeLengthRle {
  import opened Bits

  /** Symbols 0 to 15, 16, 17 and 18 of the code length alphabet with their repeat counts. */
  datatype LengthSymbol = Length(length: nat) | CopyPrevious(count: nat) | Zeros(count: nat) | ManyZeros(count: nat) {
    predicate Ok() {
      match this
      case Length(length) => length <= 15
      case CopyPrevious(count) => 3 <= count <= 6
      case Zeros(count) => 3 <= count <= 10
      case ManyZeros(count) => 11 <= count <= 138
    }

    function Code(): nat {
      match this
      case Length(length) => length
      case CopyPrevious(_) => 16
      case Zeros(_) => 17
      case ManyZeros(_) => 18
    }

    function ExtraBits(): nat {
      match this
      case Length(_) => 0
      case CopyPrevious(_) => 2
      case Zeros(_) => 3
      case ManyZeros(_) => 7
    }

    function Extra(): nat
      requires Ok()
    {
      match this
      case Length(_) => 0
      case CopyPrevious(count) => count - 3
      case Zeros(count) => count - 3
      case ManyZeros(count) => count - 11
    }

    /** There is a length to copy. */
    predicate Fits(prefix: seq<nat>) {
      Ok() && (CopyPrevious? ==> prefix != [])
    }

    function Apply(prefix: seq<nat>): (r: seq<nat>)
      requires Fits(prefix)
      ensures |r| == |prefix| + if Length? then 1 else count
    {
      match this
      case Length(length) => prefix + [length]
      case CopyPrevious(count) => prefix + Repeat(prefix[|prefix| - 1], count)
      case Zeros(count) => prefix + Repeat(0, count)
      case ManyZeros(count) => prefix + Repeat(0, count)
    }
  }

  function Repeat(value: nat, count: nat): (r: seq<nat>)
    ensures |r| == count && forall i :: 0 <= i < count ==> r[i] == value
  {
    seq(count, _ => value)
  }

  ghost predicate Expandable(prefix: seq<nat>, symbols: seq<LengthSymbol>)
    decreases |symbols|
  {
    symbols == [] || (symbols[0].Fits(prefix) && Expandable(symbols[0].Apply(prefix), symbols[1..]))
  }

  /** The code lengths that the symbols stand for, after those in the prefix. */
  ghost function Expand(prefix: seq<nat>, symbols: seq<LengthSymbol>): (r: seq<nat>)
    requires Expandable(prefix, symbols)
    ensures |r| >= |prefix| && r[..|prefix|] == prefix
    decreases |symbols|
  {
    if symbols == [] then prefix else Expand(symbols[0].Apply(prefix), symbols[1..])
  }

  lemma {:induction false} ExpandConcat(prefix: seq<nat>, a: seq<LengthSymbol>, b: seq<LengthSymbol>)
    requires Expandable(prefix, a) && Expandable(Expand(prefix, a), b)
    ensures Expandable(prefix, a + b) && Expand(prefix, a + b) == Expand(Expand(prefix, a), b)
    decreases |a|
  {
    if a == [] {
      assert a + b == b;
    } else {
      assert (a + b)[1..] == a[1..] + b;
      ExpandConcat(a[0].Apply(prefix), a[1..], b);
    }
  }

  /** All expanded lengths are at most 15. */
  lemma {:induction false} ExpandBound(prefix: seq<nat>, symbols: seq<LengthSymbol>)
    requires Expandable(prefix, symbols) && forall i :: 0 <= i < |prefix| ==> prefix[i] <= 15
    ensures forall i :: 0 <= i < |Expand(prefix, symbols)| ==> Expand(prefix, symbols)[i] <= 15
    decreases |symbols|
  {
    if symbols != [] { ExpandBound(symbols[0].Apply(prefix), symbols[1..]); }
  }

  // ---------------------------------------------------------------- encoder

  /** The vector entries of a symbol: its code, and the extra number of a repeat code. */
  function Flat(s: LengthSymbol): seq<nat>
    requires s.Ok()
  {
    if s.Length? then [s.Code()] else [s.Code(), s.Extra()]
  }

  ghost predicate AllOk(symbols: seq<LengthSymbol>) {
    forall i :: 0 <= i < |symbols| ==> symbols[i].Ok()
  }

  function Flatten(symbols: seq<LengthSymbol>): seq<nat>
    requires AllOk(symbols)
  {
    if symbols == [] then [] else Flat(symbols[0]) + Flatten(symbols[1..])
  }

  lemma {:induction false} FlattenConcat(a: seq<LengthSymbol>, b: seq<LengthSymbol>)
    requires AllOk(a) && AllOk(b)
    ensures AllOk(a + b) && Flatten(a + b) == Flatten(a) + Flatten(b)
    decreases |a|
  {
    if a == [] {
      assert a + b == b;
    } else {
      assert (a + b)[1..] == a[1..] + b;
      FlattenConcat(a[1..], b);
      assert Flatten(a + b) == Flat(a[0]) + (Flatten(a[1..]) + Flatten(b));
    }
  }

  /** The symbols and the vector made so far stand for the first i lengths. */
  ghost predicate Encoded(lengths: seq<nat>, i: nat, symbols: seq<LengthSymbol>, values: seq<nat>) {
    i <= |lengths| && AllOk(symbols) && values == Flatten(symbols) &&
    Expandable([], symbols) && Expand([], symbols) == lengths[..i]
  }

  lemma {:induction false} EncodedOneMore(lengths: seq<nat>, i: nat, symbols: seq<LengthSymbol>, values: seq<nat>, s: LengthSymbol)
    requires Encoded(lengths, i, symbols, values) && s.Fits(lengths[..i])
    requires |s.Apply(lengths[..i])| <= |lengths| && s.Apply(lengths[..i]) == lengths[..|s.Apply(lengths[..i])|]
    ensures Encoded(lengths, |s.Apply(lengths[..i])|, symbols + [s], values + Flat(s))
  {
    FlattenConcat(symbols, [s]);
    assert Flatten([s]) == Flat(s) + Flatten([]);
    ExpandOne(lengths[..i], s);
    ExpandConcat([], symbols, [s]);
  }

  lemma {:induction false} ExpandOne(prefix: seq<nat>, s: LengthSymbol)
    requires s.Fits(prefix)
    ensures Expandable(prefix, [s]) && Expand(prefix, [s]) == s.Apply(prefix)
  {
    assert [s][1..] == [];
  }

  /** The lengths from i on repeat value. */
  ghost predicate Constant(lengths: seq<nat>, i: nat, n: nat, value: nat) {
    i + n <= |lengths| && forall k :: i <= k < i + n ==> lengths[k] == value
  }

  lemma {:induction false} ConstantIs(lengths: seq<nat>, i: nat, n: nat, value: nat)
    requires Constant(lengths, i, n, value)
    ensures lengths[..i] + Repeat(value, n) == lengths[..i + n]
  {
  }

  /** Appends one symbol. */
  method Push(lengths: seq<nat>, i: nat, n: nat, written: seq<nat>, ghost before: seq<LengthSymbol>, s: LengthSymbol)
      returns (values: seq<nat>, ghost symbols: seq<LengthSymbol>)
    requires Encoded(lengths, i, before, written) && i + n <= |lengths|
    requires s.Fits(lengths[..i]) && s.Apply(lengths[..i]) == lengths[..i + n]
    ensures Encoded(lengths, i + n, symbols, values)
  {
    EncodedOneMore(lengths, i, before, written, s);
    symbols := before + [s];
    values := written + if s.Length? then [s.Code()] else [s.Code(), s.Extra()];
  }

  /** After done of j copies, n more can be copied. */
  lemma {:induction false} CopyFits(lengths: seq<nat>, start: nat, j: nat, done: nat, n: nat)
    requires 0 < start <= |lengths| && 3 <= n <= 6 && Constant(lengths, start, j, lengths[start - 1]) && done + n <= j
    ensures CopyPrevious(n).Fits(lengths[..start + done])
    ensures CopyPrevious(n).Apply(lengths[..start + done]) == lengths[..start + done + n]
  {
    var value, i := lengths[start - 1], start + done;
    assert lengths[..i][i - 1] == value;
    ConstantIs(lengths, i, n, value);
  }

  lemma {:induction false} ZerosFit(lengths: seq<nat>, i: nat, n: nat)
    requires Constant(lengths, i, n, 0)
    ensures 3 <= n <= 10 ==> Zeros(n).Fits(lengths[..i]) && Zeros(n).Apply(lengths[..i]) == lengths[..i + n]
    ensures 11 <= n <= 138 ==> ManyZeros(n).Fits(lengths[..i]) && ManyZeros(n).Apply(lengths[..i]) == lengths[..i + n]
  {
    ConstantIs(lengths, i, n, 0);
  }

  /** Appends the repeat codes for j more copies of the previous length; up to two copies may
      be left over. */
  method RepeatPrevious(lengths: seq<nat>, start: nat, j: nat, written: seq<nat>, ghost before: seq<LengthSymbol>)
      returns (done: nat, values: seq<nat>, ghost symbols: seq<LengthSymbol>)
    requires 0 < start <= |lengths| && Constant(lengths, start, j, lengths[start - 1])
    requires Encoded(lengths, start, before, written)
    ensures done <= j && Encoded(lengths, start + done, symbols, values)
    ensures j - done < 3
  {
    var num, rest := j / 6, j % 6;
    values, symbols, done := written, before, 0;
    var k := 0;
    while k < num
      invariant k <= num && done == 6 * k && Encoded(lengths, start + done, symbols, values)
    {
      values, symbols := PushCopy(lengths, start, j, done, 6, values, symbols);
      done := done + 6;
      k := k + 1;
    }
    if rest >= 3 {
      values, symbols := PushCopy(lengths, start, j, done, rest, values, symbols);
      done := done + rest;
    }
  }

  method PushCopy(lengths: seq<nat>, start: nat, j: nat, done: nat, count: nat, written: seq<nat>, ghost before: seq<LengthSymbol>)
      returns (values: seq<nat>, ghost symbols: seq<LengthSymbol>)
    requires 0 < start <= |lengths| && Constant(lengths, start, j, lengths[start - 1])
    requires 3 <= count <= 6 && done + count <= j && Encoded(lengths, start + done, before, written)
    ensures Encoded(lengths, start + done + count, symbols, values)
  {
    CopyFits(lengths, start, j, done, count);
    values, symbols := Push(lengths, start + done, count, written, before, CopyPrevious(count));
  }

  /** Appends one repeat code for count zeros, at most 138. */
  method RepeatZeros(lengths: seq<nat>, i: nat, count: nat, written: seq<nat>, ghost before: seq<LengthSymbol>)
      returns (done: nat, values: seq<nat>, ghost symbols: seq<LengthSymbol>)
    requires count >= 3 && Constant(lengths, i, count, 0) && Encoded(lengths, i, before, written)
    ensures 3 <= done <= count && Encoded(lengths, i + done, symbols, values)
  {
    done := count;
    if done <= 10 {
      ZerosFit(lengths, i, done);
      values, symbols := Push(lengths, i, done, written, before, Zeros(done));
    } else {
      if done > 138 { done := 138; }
      ZerosFit(lengths, i, done);
      values, symbols := Push(lengths, i, done, written, before, ManyZeros(done));
    }
  }

  /** Appends one length as it is. */
  method Single(lengths: seq<nat>, i: nat, written: seq<nat>, ghost before: seq<LengthSymbol>)
      returns (values: seq<nat>, ghost symbols: seq<LengthSymbol>)
    requires i < |lengths| && lengths[i] <= 15 && Encoded(lengths, i, before, written)
    ensures Encoded(lengths, i + 1, symbols, values)
  {
    assert lengths[..i] + [lengths[i]] == lengths[..i + 1];
    values, symbols := Push(lengths, i, 1, written, before, Length(lengths[i]));
  }

  lemma {:induction false} EncodedNothing(lengths: seq<nat>)
    ensures Encoded(lengths, 0, [], [])
  {
  }

  /** The run-length encoder of deflateDynamic. */
  method Encode(lengths: seq<nat>) returns (values: seq<nat>, ghost symbols: seq<LengthSymbol>)
    requires forall i :: 0 <= i < |lengths| ==> lengths[i] <= 15
    ensures AllOk(symbols) && values == Flatten(symbols)
    ensures Expandable([], symbols) && Expand([], symbols) == lengths
  {
    values, symbols := [], [];
    EncodedNothing(lengths);
    var i := 0;
    while i != |lengths|
      invariant Encoded(lengths, i, symbols, values)
      decreases |lengths| - i
    {
      var j := 0;
      while i + j + 1 < |lengths| && lengths[i + j + 1] == lengths[i]
        invariant Constant(lengths, i, j + 1, lengths[i])
      {
        j := j + 1;
      }
      if lengths[i] == 0 && j >= 2 {
        j, values, symbols := RepeatZeros(lengths, i, j + 1, values, symbols);
        i := i + (j - 1);
      } else if j >= 3 {
        values, symbols := Single(lengths, i, values, symbols);
        j, values, symbols := RepeatPrevious(lengths, i + 1, j, values, symbols);
        i := i + j;
      } else {
        values, symbols := Single(lengths, i, values, symbols);
      }
      i := i + 1;
    }
    assert lengths[..i] == lengths;
  }
}
