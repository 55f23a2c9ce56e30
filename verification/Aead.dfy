/** ChaCha20 and Poly1305 together: authenticated encryption with associated data (sections
    2.6 and 2.8 of RFC 8439). */
module Aead {
  import opened Bits
  import opened BitStream
  import opened Poly1305
  import opened ChaCha20
  import opened MachineWords
  import opened PolyArithmetic

  // ---------------------------------------------------------------- definition

  /** The one-time key: the first half of keystream block zero. */
  ghost function PolyKey(key: seq<byte>, nonce: seq<byte>): (k: seq<byte>)
    requires |key| == 32 && |nonce| == 12
    ensures |k| == 32
  {
    seq(32, i requires 0 <= i < 32 => StreamByte(Keystream(key, nonce, 0), i))
  }

  function Zeros(n: nat): (z: seq<byte>)
    ensures |z| == n
  {
    seq(n, _ => 0)
  }

  /** data with zeros up to a multiple of sixteen bytes. */
  function Padded(data: seq<byte>): (p: seq<byte>)
    ensures |p| % 16 == 0 && |data| <= |p| < |data| + 16
  {
    data + Zeros((16 - |data| % 16) % 16)
  }

  /** What the tag covers. */
  function MacData(ad: seq<byte>, text: seq<byte>): seq<byte> {
    Padded(ad) + Padded(text) + LittleBytes(|ad|, 8) + LittleBytes(|text|, 8)
  }

  ghost function TagBytes(key: seq<byte>, nonce: seq<byte>, ad: seq<byte>, text: seq<byte>): (t: seq<byte>)
    requires |key| == 32 && |nonce| == 12
    ensures |t| == 16
  {
    LittleBytes(Tag(PolyKey(key, nonce), MacData(ad, text)), 16)
  }

  /** text xored with the keystream from block one on. */
  ghost function Crypt(key: seq<byte>, nonce: seq<byte>, text: seq<byte>): (c: seq<byte>)
    requires |key| == 32 && |nonce| == 12
    ensures |c| == |text|
  {
    seq(|text|, i requires 0 <= i < |text| => XorByte(text[i], StreamByte(Keystream(key, nonce, 1), i)))
  }

  ghost function Seal(key: seq<byte>, nonce: seq<byte>, ad: seq<byte>, plain: seq<byte>): (c: seq<byte>)
    requires |key| == 32 && |nonce| == 12
    ensures |c| == |plain| + 16
  {
    var text := Crypt(key, nonce, plain);
    text + TagBytes(key, nonce, ad, text)
  }

  ghost function Open(key: seq<byte>, nonce: seq<byte>, ad: seq<byte>, c: seq<byte>): Option<seq<byte>>
    requires |key| == 32 && |nonce| == 12 && |c| >= 16
  {
    var n := |c| - 16;
    if c[n..] == TagBytes(key, nonce, ad, c[..n]) then Some(Crypt(key, nonce, c[..n])) else None
  }

  // ---------------------------------------------------------------- properties

  lemma {:induction false} XorByteTwice(a: byte, b: byte)
    ensures XorByte(XorByte(a, b), b) == a
  {
    XorTwice(a, b);
  }

  lemma {:induction false} CryptTwice(key: seq<byte>, nonce: seq<byte>, text: seq<byte>)
    requires |key| == 32 && |nonce| == 12
    ensures Crypt(key, nonce, Crypt(key, nonce, text)) == text
  {
    forall i | 0 <= i < |text| ensures Crypt(key, nonce, Crypt(key, nonce, text))[i] == text[i] {
      XorByteTwice(text[i], StreamByte(Keystream(key, nonce, 1), i));
    }
  }

  /** Decryption accepts exactly the encryptions, and gives back exactly the plain text. */
  lemma {:induction false} OpensExactlyTheSealed(key: seq<byte>, nonce: seq<byte>, ad: seq<byte>, plain: seq<byte>,
                                                 c: seq<byte>)
    requires |key| == 32 && |nonce| == 12 && |c| >= 16
    ensures Open(key, nonce, ad, c) == Some(plain) <==> c == Seal(key, nonce, ad, plain)
  {
    var n := |c| - 16;
    CryptTwice(key, nonce, plain);
    CryptTwice(key, nonce, c[..n]);
    assert c == c[..n] + c[n..];
    if c == Seal(key, nonce, ad, plain) {
      assert n == |plain| && c[..n] == Crypt(key, nonce, plain);
    }
  }

  /** The sixteen bytes of a tag are determined by its value. */
  lemma {:induction false} BytesOfLittle(mac: seq<byte>)
    requires |mac| == 16
    ensures mac == LittleBytes(Little(mac, 0, 16), 16)
  {
    forall k | 0 <= k < 16 ensures mac[k] == LittleBytes(Little(mac, 0, 16), 16)[k] {
      LittleBytesAt(Little(mac, 0, 16), 16, k);
      LittleAt(mac, 0, 16, k);
    }
  }

  // ---------------------------------------------------------------- the code

  /** rfc8439_keygen. */
  method KeyGen(key: seq<byte>, nonce: seq<byte>) returns (polyKey: seq<byte>)
    requires |key| == 32 && |nonce| == 12
    ensures polyKey == PolyKey(key, nonce)
  {
    ghost var pads := Keystream(key, nonce, 0);
    var result := CoreBlock(Initial(key, nonce, 0));
    polyKey := [];
    var i := 0;
    while i < 8
      invariant i <= 8 && |polyKey| == 4 * i
      invariant forall k: nat :: k < 4 * i ==> polyKey[k] == StreamByte(pads, k)
    {
      polyKey := AppendWord(polyKey, result, i, pads);
      i := i + 1;
    }
  }

  method AppendWord(before: seq<byte>, pad: State, i: nat, ghost pads: nat -> State) returns (after: seq<byte>)
    requires i < 16 && |before| == 4 * i && pad == pads(0)
    requires forall k: nat :: k < 4 * i ==> before[k] == StreamByte(pads, k)
    ensures |after| == 4 * i + 4 && forall k: nat :: k < 4 * i + 4 ==> after[k] == StreamByte(pads, k)
  {
    after := before + LittleBytes(pad[i], 4);
    forall k: nat | k < 4 * i + 4 ensures after[k] == StreamByte(pads, k) {
      if k >= 4 * i {
        LittleBytesAt(pad[i], 4, k - 4 * i);
        StreamWord(pads, 0, i, k - 4 * i);
      }
    }
  }

  /** pad_if_needed. */
  method PadIfNeeded(ctx: Context, size: nat)
    requires ctx.Valid()
    modifies ctx`h, ctx`leftover, ctx`msg, ctx.buffer
    ensures ctx.Valid() && ctx.msg == old(ctx.msg) + Zeros((16 - size % 16) % 16)
  {
    var padding := size % 16;
    if padding != 0 {
      ctx.Update(Zeros(16 - padding));
    }
  }

  method UpdatePadded(ctx: Context, data: seq<byte>)
    requires ctx.Valid()
    modifies ctx`h, ctx`leftover, ctx`msg, ctx.buffer
    ensures ctx.Valid() && ctx.msg == old(ctx.msg) + Padded(data)
  {
    ctx.Update(data);
    PadIfNeeded(ctx, |data|);
  }

  /** write_64bit_int. */
  method WriteSize(ctx: Context, value: nat)
    requires ctx.Valid()
    modifies ctx`h, ctx`leftover, ctx`msg, ctx.buffer
    ensures ctx.Valid() && ctx.msg == old(ctx.msg) + LittleBytes(value, 8)
  {
    ctx.Update(LittleBytes(value, 8));
  }

  method WriteSizes(ctx: Context, ad: nat, text: nat)
    requires ctx.Valid()
    modifies ctx`h, ctx`leftover, ctx`msg, ctx.buffer
    ensures ctx.Valid() && ctx.msg == old(ctx.msg) + LittleBytes(ad, 8) + LittleBytes(text, 8)
  {
    WriteSize(ctx, ad);
    WriteSize(ctx, text);
  }

  lemma {:induction false} PaddedEmpty(data: seq<byte>)
    requires |data| == 0
    ensures Padded(data) == []
  {
  }

  method WriteAssociated(ctx: Context, ad: seq<byte>)
    requires ctx.Valid() && ctx.msg == []
    modifies ctx`h, ctx`leftover, ctx`msg, ctx.buffer
    ensures ctx.Valid() && ctx.msg == Padded(ad)
  {
    if |ad| > 0 {
      UpdatePadded(ctx, ad);
      assert ctx.msg == [] + Padded(ad);
    } else {
      PaddedEmpty(ad);
    }
  }

  /** Feeds a fresh context the whole input of the tag. */
  method WriteAll(ctx: Context, ad: seq<byte>, text: seq<byte>)
    requires ctx.Valid() && ctx.msg == []
    modifies ctx`h, ctx`leftover, ctx`msg, ctx.buffer
    ensures ctx.Valid() && ctx.msg == MacData(ad, text)
  {
    WriteAssociated(ctx, ad);
    UpdatePadded(ctx, text);
    WriteSizes(ctx, |ad|, |text|);
  }

  /** poly1305_calculate_mac. */
  method CalculateMac(text: seq<byte>, key: seq<byte>, nonce: seq<byte>, ad: seq<byte>) returns (mac: seq<byte>)
    requires |key| == 32 && |nonce| == 12
    ensures mac == TagBytes(key, nonce, ad, text)
  {
    var polyKey := KeyGen(key, nonce);
    mac := MacWithKey(polyKey, text, ad);
    BytesOfLittle(mac);
  }

  method MacWithKey(polyKey: seq<byte>, text: seq<byte>, ad: seq<byte>) returns (mac: seq<byte>)
    requires |polyKey| == 32
    ensures |mac| == 16 && Little(mac, 0, 16) == Tag(polyKey, MacData(ad, text))
  {
    var ctx := new Context(polyKey);
    WriteAll(ctx, ad, text);
    mac := ctx.Finish();
  }

  lemma {:induction false} XorIsZero(a: nat, b: nat)
    ensures Xor(a, b) == 0 <==> a == b
  {
    if a > 0 && b > 0 { XorIsZero(a / 2, b / 2); }
  }

  lemma {:induction false} OrIsZero(a: nat, b: nat)
    ensures Or(a, b) == 0 <==> a == 0 && b == 0
  {
    if a > 0 && b > 0 { OrIsZero(a / 2, b / 2); }
  }

  /** poly1305_verify: one exactly when the tags agree, without a branch on their bytes. */
  method Verify(mac1: seq<byte>, mac2: seq<byte>) returns (r: nat)
    requires |mac1| == 16 && |mac2| == 16
    ensures r == if mac1 == mac2 then 1 else 0
  {
    var dif: nat := 0;
    var i := 0;
    while i < 16
      invariant i <= 16 && dif < 256
      invariant dif == 0 <==> mac1[..i] == mac2[..i]
    {
      dif := Difference(mac1, mac2, i, dif);
      i := i + 1;
    }
    dif := ((dif + WORD32 - 1) % WORD32) / 0x8000_0000;
    r := And(dif, 1);
    assert mac1[..16] == mac1 && mac2[..16] == mac2;
  }

  method Difference(mac1: seq<byte>, mac2: seq<byte>, i: nat, before: nat) returns (dif: nat)
    requires i < |mac1| == |mac2| && before < 256 && (before == 0 <==> mac1[..i] == mac2[..i])
    ensures dif < 256 && (dif == 0 <==> mac1[..i + 1] == mac2[..i + 1])
  {
    var x := XorByte(mac1[i], mac2[i]);
    dif := Or(before, x);
    OrIsZero(before, x);
    XorIsZero(mac1[i], mac2[i]);
    Pow2Values();
    OrBound(before, x, 8);
    assert mac1[..i + 1] == mac1[..i] + [mac1[i]] && mac2[..i + 1] == mac2[..i] + [mac2[i]];
  }

  lemma {:induction false} CryptedIsCrypt(d: seq<byte>, text: seq<byte>, key: seq<byte>, nonce: seq<byte>)
    requires |key| == 32 && |nonce| == 12 && Crypted(d, text, Keystream(key, nonce, 1), |text|)
    ensures d[..|text|] == Crypt(key, nonce, text)
  {
  }

  // ---------------------------------------------------------------- where the buffers are

  /** OVERLAPPING: whether n bytes at address s and m bytes at address b overlap, as the code
      finds out. Sums of addresses have 64 bits. */
  predicate Overlapping(s: nat, n: nat, b: nat, m: nat) { s < (b + m) % WORD64 && b < (s + n) % WORD64 }

  predicate Within(x: nat, s: nat, n: nat) { s <= x < s + n }

  ghost predicate ShareByte(s: nat, n: nat, b: nat, m: nat) { exists x: nat :: Within(x, s, n) && Within(x, b, m) }

  /** For buffers in the address space it finds exactly those that share a byte, and besides an
      empty first buffer strictly inside the second one. */
  lemma {:induction false} OverlapExact(s: nat, n: nat, b: nat, m: nat)
    requires s + n < WORD64 && b + m < WORD64 && m > 0
    ensures Overlapping(s, n, b, m) <==> ShareByte(s, n, b, m) || (n == 0 && b < s < b + m)
  {
    if Overlapping(s, n, b, m) && n > 0 {
      var x := if s < b then b else s;
      assert Within(x, s, n) && Within(x, b, m);
    }
  }

  /** What the code returns for a refusal: -1 as a size. */
  const REFUSED: nat := WORD64 - 1

  /** portable_chacha20_poly1305_encrypt, with the plain text at address plainAt and the cipher
      text at cipherAt. */
  method Encrypt(cipher: array<byte>, key: seq<byte>, nonce: seq<byte>, ad: seq<byte>, plain: seq<byte>,
                 cipherAt: nat, plainAt: nat) returns (size: nat)
    requires |key| == 32 && |nonce| == 12 && cipher.Length >= |plain| + 16
    requires plainAt + |plain| < WORD64 && 0 < cipherAt && cipherAt + cipher.Length < WORD64
    modifies cipher
    ensures size == REFUSED <==> Overlapping(plainAt, |plain|, cipherAt, |plain| + 16)
    ensures size == REFUSED ==> cipher[..] == old(cipher[..])
    ensures size != REFUSED ==>
      size == |plain| + 16 && cipher[..size] == Seal(key, nonce, ad, plain) && cipher[size..] == old(cipher[size..])
  {
    if Overlapping(plainAt, |plain|, cipherAt, |plain| + 16) { return REFUSED; }
    size := SealInto(cipher, key, nonce, ad, plain);
  }

  method SealInto(cipher: array<byte>, key: seq<byte>, nonce: seq<byte>, ad: seq<byte>, plain: seq<byte>)
      returns (size: nat)
    requires |key| == 32 && |nonce| == 12 && cipher.Length >= |plain| + 16
    modifies cipher
    ensures size == |plain| + 16 && cipher[..size] == Seal(key, nonce, ad, plain)
    ensures cipher[size..] == old(cipher[size..])
  {
    size := |plain| + 16;
    XorStream(cipher, plain, key, nonce, 1);
    CryptedIsCrypt(cipher[..], plain, key, nonce);
    ghost var text := cipher[..|plain|];
    assert cipher[size..] == cipher[|plain|..][16..];
    var mac := CalculateMac(cipher[..|plain|], key, nonce, ad);
    var i := 0;
    while i < 16
      invariant i <= 16 && cipher[..|plain| + i] == text + mac[..i]
      invariant cipher[size..] == old(cipher[size..])
    {
      cipher[|plain| + i] := mac[i];
      assert cipher[..|plain| + i + 1] == cipher[..|plain| + i] + [mac[i]];
      i := i + 1;
    }
  }

  /** What decryption comes to. After Overrun the source goes on with a text size beyond the
      end of the cipher text. */
  datatype Decryption = Accepted(size: nat) | Rejected | Overrun

  /** The size without the tag, in 64 bits. */
  function TextSize(n: nat): nat { (n + WORD64 - 16) % WORD64 }

  /** With a wrapped size the test finds exactly plain text buffers this far inside the cipher
      text. */
  lemma {:induction false} WrappedOverlap(s: nat, n: nat, b: nat)
    requires n < 16 <= s < WORD64 && b + n < WORD64
    ensures Overlapping(s, TextSize(n), b, n) <==> b + 16 - n < s < b + n
  {
    TextSizeWraps(s, n);
  }

  lemma {:induction false} TextSizeWraps(s: nat, n: nat)
    requires n < 16 <= s < WORD64
    ensures TextSize(n) == n + WORD64 - 16 && (s + TextSize(n)) % WORD64 == s + n - 16 - if s + n - 16 >= WORD64 then WORD64 else 0
  {
  }

  /** The subtraction wraps around exactly for what is shorter than a tag, and the size that
      results is then beyond the end of the cipher text. */
  lemma {:induction false} TextSizeFits(n: nat)
    requires n < WORD64
    ensures TextSize(n) <= n <==> n >= 16
    ensures n >= 16 ==> TextSize(n) == n - 16
  {
    if n >= 16 { assert n + WORD64 - 16 == WORD64 + (n - 16); }
  }

  /** portable_chacha20_poly1305_decrypt, with the buffers at these addresses. It returns -1 for
      overlapping buffers and for a wrong tag alike. */
  method Decrypt(plain: array<byte>, key: seq<byte>, nonce: seq<byte>, ad: seq<byte>, cipher: seq<byte>,
                 plainAt: nat, cipherAt: nat) returns (r: Decryption)
    requires |key| == 32 && |nonce| == 12 && |cipher| <= plain.Length + 16
    requires plainAt + plain.Length < WORD64 && cipherAt + |cipher| < WORD64
    modifies plain
    ensures Overlapping(plainAt, TextSize(|cipher|), cipherAt, |cipher|) ==> r == Rejected && plain[..] == old(plain[..])
    ensures r == Overrun <==> |cipher| < 16 && !Overlapping(plainAt, TextSize(|cipher|), cipherAt, |cipher|)
    ensures |cipher| >= 16 && !Overlapping(plainAt, TextSize(|cipher|), cipherAt, |cipher|) ==>
      match Open(key, nonce, ad, cipher)
      case None => r == Rejected && plain[..] == old(plain[..])
      case Some(text) =>
        r == Accepted(|text|) && plain[..|text|] == text && plain[|text|..] == old(plain[|text|..])
  {
    var actual := TextSize(|cipher|);
    TextSizeFits(|cipher|);
    if Overlapping(plainAt, actual, cipherAt, |cipher|) { return Rejected; }
    if actual > |cipher| { return Overrun; }
    var mac := CalculateMac(cipher[..actual], key, nonce, ad);
    var same := Verify(cipher[actual..], mac);
    if same != 0 {
      XorStream(plain, cipher[..actual], key, nonce, 1);
      CryptedIsCrypt(plain[..], cipher[..actual], key, nonce);
      r := Accepted(actual);
    } else {
      r := Rejected;
    }
  }
}
