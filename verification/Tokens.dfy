/** The symbols of a compressed block: literal bytes and pairs of a length and a distance,
    the code tables of section 3.2.5 of RFC 1951, and what a token sequence stands for. */
module Tokens {
  import opened Bits

  const LENGTHBASE: seq<nat> :=
    [3, 4, 5, 6, 7, 8, 9, 10, 11, 13, 15, 17, 19, 23, 27, 31, 35, 43, 51, 59,
     67, 83, 99, 115, 131, 163, 195, 227, 258]
  const LENGTHEXTRA: seq<nat> :=
    [0, 0, 0, 0, 0, 0, 0, 0, 1, 1, 1, 1, 2, 2, 2, 2, 3, 3, 3, 3,
     4, 4, 4, 4, 5, 5, 5, 5, 0]
  const DISTANCEBASE: seq<nat> :=
    [1, 2, 3, 4, 5, 7, 9, 13, 17, 25, 33, 49, 65, 97, 129, 193, 257, 385, 513,
     769, 1025, 1537, 2049, 3073, 4097, 6145, 8193, 12289, 16385, 24577]
  const DISTANCEEXTRA: seq<nat> :=
    [0, 0, 0, 0, 1, 1, 2, 2, 3, 3, 4, 4, 5, 5, 6, 6, 7, 7, 8,
     8, 9, 9, 10, 10, 11, 11, 12, 12, 13, 13]
  const FIRST_LENGTH_CODE_INDEX: nat := 257
  const LAST_LENGTH_CODE_INDEX: nat := 285
  const MAX_DEFLATE_LENGTH: nat := 258
  const MAX_DISTANCE: nat := 32768

  // ---------------------------------------------------------------- meaning

  /** The two code indices of a match and their extra bits. */
  datatype PairCode = PairCode(lengthCode: nat, lengthExtra: nat, distanceCode: nat, distanceExtra: nat)

  datatype Token = Literal(value: byte) | Match(length: nat, distance: nat, code: PairCode) {
    /** How many bytes the token stands for. */
    function Size(): nat {
      if Literal? then 1 else length
    }
  }

  /** A match copies byte by byte, so it may overlap what it writes. */
  function Copy(out: seq<byte>, length: nat, distance: nat): (r: seq<byte>)
    requires 1 <= distance <= |out|
    ensures |r| == |out| + length
    decreases length
  {
    if length == 0 then out else Copy(out + [out[|out| - distance]], length - 1, distance)
  }

  ghost predicate TokenOk(t: Token, pos: nat, maxdistance: nat) {
    t.Match? ==> 3 <= t.length <= MAX_DEFLATE_LENGTH && 1 <= t.distance <= Min(pos, maxdistance)
  }

  /** Lengths and distances are in range, and no match reaches back before the start. */
  ghost predicate TokensOk(tokens: seq<Token>, pos: nat, maxdistance: nat)
    decreases |tokens|
  {
    tokens == [] || (TokenOk(tokens[0], pos, maxdistance) && TokensOk(tokens[1..], pos + tokens[0].Size(), maxdistance))
  }

  function Apply(out: seq<byte>, t: Token): (r: seq<byte>)
    requires TokenOk(t, |out|, MAX_DISTANCE)
    ensures |r| == |out| + t.Size()
  {
    if t.Literal? then out + [t.value] else Copy(out, t.length, t.distance)
  }

  /** What a decoder that has written out writes for the tokens. */
  function Replay(out: seq<byte>, tokens: seq<Token>): seq<byte>
    requires TokensOk(tokens, |out|, MAX_DISTANCE)
    decreases |tokens|
  {
    if tokens == [] then out else Replay(Apply(out, tokens[0]), tokens[1..])
  }

  /** The length of the output after the tokens. */
  function End(pos: nat, tokens: seq<Token>): nat
    decreases |tokens|
  {
    if tokens == [] then pos else End(pos + tokens[0].Size(), tokens[1..])
  }

  lemma {:induction false} ReplayEnd(out: seq<byte>, tokens: seq<Token>)
    requires TokensOk(tokens, |out|, MAX_DISTANCE)
    ensures |Replay(out, tokens)| == End(|out|, tokens)
    decreases |tokens|
  {
    if tokens != [] { ReplayEnd(Apply(out, tokens[0]), tokens[1..]); }
  }

  lemma {:induction false} TokensWiden(tokens: seq<Token>, pos: nat, a: nat, b: nat)
    requires TokensOk(tokens, pos, a) && a <= b
    ensures TokensOk(tokens, pos, b)
    decreases |tokens|
  {
    if tokens != [] { TokensWiden(tokens[1..], pos + tokens[0].Size(), a, b); }
  }

  lemma {:induction false} TokensConcat(a: seq<Token>, b: seq<Token>, pos: nat, maxdistance: nat)
    requires TokensOk(a, pos, maxdistance) && TokensOk(b, End(pos, a), maxdistance)
    ensures TokensOk(a + b, pos, maxdistance)
    decreases |a|
  {
    if a == [] {
      assert a + b == b;
    } else {
      assert (a + b)[1..] == a[1..] + b;
      TokensConcat(a[1..], b, pos + a[0].Size(), maxdistance);
    }
  }

  lemma {:induction false} ReplayConcat(out: seq<byte>, a: seq<Token>, b: seq<Token>)
    requires TokensOk(a, |out|, MAX_DISTANCE) && TokensOk(b, End(|out|, a), MAX_DISTANCE)
    ensures TokensOk(a + b, |out|, MAX_DISTANCE) && |Replay(out, a)| == End(|out|, a)
    ensures Replay(out, a + b) == Replay(Replay(out, a), b)
    decreases |a|
  {
    TokensConcat(a, b, |out|, MAX_DISTANCE);
    ReplayEnd(out, a);
    if a == [] {
      assert a + b == b;
    } else {
      assert (a + b)[1..] == a[1..] + b;
      ReplayConcat(Apply(out, a[0]), a[1..], b);
    }
  }

  ghost predicate SameAt(data: seq<byte>, k: int, distance: nat) {
    0 <= k - distance && k < |data| && data[k] == data[k - distance]
  }

  /** The data from pos on repeats the data a distance before. */
  ghost predicate Repeats(data: seq<byte>, pos: nat, length: nat, distance: nat) {
    forall k :: pos <= k < pos + length ==> SameAt(data, k, distance)
  }

  /** Copying what the data repeats continues the data. */
  lemma {:induction false} CopyContinues(data: seq<byte>, pos: nat, length: nat, distance: nat)
    requires 1 <= distance <= pos && pos + length <= |data| && Repeats(data, pos, length, distance)
    ensures Copy(data[..pos], length, distance) == data[..pos + length]
    decreases length
  {
    if length > 0 {
      assert SameAt(data, pos, distance);
      assert data[..pos] + [data[pos - distance]] == data[..pos + 1];
      CopyContinues(data, pos + 1, length - 1, distance);
    }
  }

  // ---------------------------------------------------------------- codes

  /** Code index and extra bits stand for the value. */
  ghost predicate Coded(base: seq<nat>, extra: seq<nat>, index: nat, rest: nat, value: nat) {
    |base| == |extra| && index < |base| && value == base[index] + rest && rest < Pow2(extra[index])
  }

  /** The codes of the match are those of its length and its distance. */
  ghost predicate InTables(t: Token) {
    t.Match? ==>
      Coded(LENGTHBASE, LENGTHEXTRA, t.code.lengthCode, t.code.lengthExtra, t.length) &&
      Coded(DISTANCEBASE, DISTANCEEXTRA, t.code.distanceCode, t.code.distanceExtra, t.distance)
  }

  ghost predicate AllInTables(tokens: seq<Token>) {
    forall i :: 0 <= i < |tokens| ==> InTables(tokens[i])
  }

  lemma {:induction false} AllButFirst(tokens: seq<Token>)
    requires AllInTables(tokens) && tokens != []
    ensures InTables(tokens[0]) && AllInTables(tokens[1..])
  {
    forall i | 0 <= i < |tokens[1..]| ensures InTables(tokens[1..][i]) {
      assert InTables(tokens[i + 1]);
    }
  }

  /** Neighbouring bases are no further apart than the extra bits reach. */
  ghost predicate Reaches(base: seq<nat>, extra: seq<nat>, i: nat) {
    i + 1 < |base| ==> i < |extra| && base[i] < base[i + 1] <= base[i] + Pow2(extra[i])
  }

  lemma {:induction false} LengthTable(i: nat)
    requires i < 29
    ensures |LENGTHBASE| == |LENGTHEXTRA| == 29 && Reaches(LENGTHBASE, LENGTHEXTRA, i)
    ensures LENGTHEXTRA[i] <= 5
  {
    Pow2Values();
  }

  lemma {:induction false} DistanceTable(i: nat)
    requires i < 30
    ensures |DISTANCEBASE| == |DISTANCEEXTRA| == 30 && Reaches(DISTANCEBASE, DISTANCEEXTRA, i)
    ensures DISTANCEEXTRA[i] <= 13
  {
    Pow2Values();
  }

  ghost predicate Increasing(a: seq<nat>) {
    forall i, j :: 0 <= i < j < |a| ==> a[i] < a[j]
  }

  lemma {:induction false} StepsIncrease(a: seq<nat>)
    requires forall i :: 0 <= i < |a| - 1 ==> a[i] < a[i + 1]
    ensures Increasing(a)
  {
    forall i, j | 0 <= i < j < |a| ensures a[i] < a[j] { Climb(a, i, j); }
  }

  lemma {:induction false} Climb(a: seq<nat>, i: nat, j: nat)
    requires forall i :: 0 <= i < |a| - 1 ==> a[i] < a[i + 1]
    requires i < j < |a|
    ensures a[i] < a[j]
    decreases j
  {
    if i < j - 1 { Climb(a, i, j - 1); }
  }

  /** searchCodeIndex: the last entry not above the value. For a value below the first entry
      it gives 0, not the array size that its comment announces. */
  method SearchCodeIndex(base: seq<nat>, value: nat) returns (index: nat)
    requires |base| >= 2 && Increasing(base)
    ensures index < |base|
    ensures index + 1 < |base| ==> base[index + 1] > value
    ensures value < base[0] ==> index == 0
    ensures value >= base[0] ==> base[index] <= value
  {
    var left, right := 1, |base| - 1;
    while left <= right
      invariant 1 <= left <= right + 1 <= |base|
      invariant left > 1 ==> base[left - 1] < value
      invariant right + 1 < |base| ==> base[right + 1] >= value
      decreases right + 1 - left
    {
      var mid := (left + right) / 2;
      if base[mid] >= value { right := mid - 1; } else { left := mid + 1; }
    }
    index := if left >= |base| || base[left] > value then left - 1 else left;
  }

  /** The vector entries of a token: a byte, or code 257 to 285 and three more numbers. */
  function Flat(t: Token): seq<nat> {
    match t
    case Literal(value) => [value]
    case Match(_, _, c) =>
      [FIRST_LENGTH_CODE_INDEX + c.lengthCode, c.lengthExtra, c.distanceCode, c.distanceExtra]
  }

  function Flatten(tokens: seq<Token>): seq<nat> {
    if tokens == [] then [] else Flat(tokens[0]) + Flatten(tokens[1..])
  }

  lemma {:induction false} FlattenConcat(a: seq<Token>, b: seq<Token>)
    ensures Flatten(a + b) == Flatten(a) + Flatten(b)
    decreases |a|
  {
    if a == [] {
      assert a + b == b;
    } else {
      assert (a + b)[1..] == a[1..] + b;
      FlattenConcat(a[1..], b);
      assert Flatten(a + b) == Flat(a[0]) + (Flatten(a[1..]) + Flatten(b));
    }
  }

  lemma {:induction false} TablesIncrease()
    ensures Increasing(LENGTHBASE) && Increasing(DISTANCEBASE)
  {
    forall i | 0 <= i < |LENGTHBASE| - 1 ensures LENGTHBASE[i] < LENGTHBASE[i + 1] {
      LengthTable(i);
      assert Reaches(LENGTHBASE, LENGTHEXTRA, i);
    }
    forall i | 0 <= i < |DISTANCEBASE| - 1 ensures DISTANCEBASE[i] < DISTANCEBASE[i + 1] {
      DistanceTable(i);
      assert Reaches(DISTANCEBASE, DISTANCEEXTRA, i);
    }
    StepsIncrease(LENGTHBASE);
    StepsIncrease(DISTANCEBASE);
  }

  /** The entry that the search finds is the code of the value. */
  lemma {:induction false} LengthCoded(i: nat, length: nat)
    requires i < 29 && LENGTHBASE[i] <= length <= MAX_DEFLATE_LENGTH
    requires i + 1 < 29 ==> LENGTHBASE[i + 1] > length
    ensures Coded(LENGTHBASE, LENGTHEXTRA, i, length - LENGTHBASE[i], length)
  {
    LengthTable(i);
    Pow2Values();
    if i == 28 { assert LENGTHBASE[28] == 258; }
  }

  lemma {:induction false} DistanceCoded(i: nat, distance: nat)
    requires i < 30 && DISTANCEBASE[i] <= distance <= MAX_DISTANCE
    requires i + 1 < 30 ==> DISTANCEBASE[i + 1] > distance
    ensures Coded(DISTANCEBASE, DISTANCEEXTRA, i, distance - DISTANCEBASE[i], distance)
  {
    DistanceTable(i);
    Pow2Values();
    if i == 29 { assert DISTANCEBASE[29] == 24577 && DISTANCEEXTRA[29] == 13; }
  }

  method CodeOfLength(length: nat) returns (index: nat, extra: nat)
    requires 3 <= length <= MAX_DEFLATE_LENGTH
    ensures Coded(LENGTHBASE, LENGTHEXTRA, index, extra, length)
  {
    TablesIncrease();
    index := SearchCodeIndex(LENGTHBASE, length);
    LengthCoded(index, length);
    extra := length - LENGTHBASE[index];
  }

  method CodeOfDistance(distance: nat) returns (index: nat, extra: nat)
    requires 1 <= distance <= MAX_DISTANCE
    ensures Coded(DISTANCEBASE, DISTANCEEXTRA, index, extra, distance)
  {
    TablesIncrease();
    index := SearchCodeIndex(DISTANCEBASE, distance);
    DistanceCoded(index, distance);
    extra := distance - DISTANCEBASE[index];
  }

  method AddLengthDistance(values: seq<nat>, length: nat, distance: nat) returns (r: seq<nat>, ghost t: Token)
    requires 3 <= length <= MAX_DEFLATE_LENGTH && 1 <= distance <= MAX_DISTANCE
    ensures t.Match? && t.length == length && t.distance == distance && InTables(t)
    ensures r == values + Flat(t)
  {
    var lengthCode, extraLength := CodeOfLength(length);
    var distanceCode, extraDistance := CodeOfDistance(distance);
    t := Match(length, distance, PairCode(lengthCode, extraLength, distanceCode, extraDistance));
    r := values + [lengthCode + FIRST_LENGTH_CODE_INDEX, extraLength, distanceCode, extraDistance];
  }
}
