/** The obfuscated frame of shared/crypto.go: its format, and the in-place encoder and decoder. */
module Crypto {
  import opened Words
  import opened Wrappers

  type Bytes = seq<uint8>

  /** `OutOfRange` is no error value but a panic: a slice bound past the end of the buffer. */
  datatype CryptoError = PacketTooShort | InvalidMagic | AuthFailed | BufferTooSmall | RandomFailed | OutOfRange

  const STUN_MAGIC: uint32 := 0x2112A442
  const NONCE_SIZE := 24 // chacha20poly1305.NonceSizeX
  const OVERHEAD := 16   // the authentication tag
  const HEADER_SIZE := 28

  /**
   An AEAD under a fixed key, in the shape of sections 2.1 and 2.2 of RFC 5116: `seal(nonce,
   plaintext, ad)` and `open(nonce, ciphertext, ad)`.
   */
  datatype Aead = Aead(seal: (Bytes, Bytes, Bytes) -> Bytes, open: (Bytes, Bytes, Bytes) -> Option<Bytes>)

  /** Opening undoes sealing, and sealing appends a 16-byte tag (section 2.8 of RFC 8439). */
  ghost predicate Correct(a: Aead) {
    && (forall n: Bytes, p: Bytes, ad: Bytes | |n| == NONCE_SIZE :: |a.seal(n, p, ad)| == |p| + OVERHEAD)
    && (forall n: Bytes, p: Bytes, ad: Bytes | |n| == NONCE_SIZE :: a.open(n, a.seal(n, p, ad), ad) == Some(p))
    && (forall n: Bytes, c: Bytes, ad: Bytes | |n| == NONCE_SIZE && a.open(n, c, ad).Some? ::
          |c| == |a.open(n, c, ad).value| + OVERHEAD)
  }

  /** Besides, nothing opens that was not sealed. */
  ghost predicate Ideal(a: Aead) {
    && Correct(a)
    && (forall n: Bytes, c: Bytes, ad: Bytes | |n| == NONCE_SIZE && a.open(n, c, ad).Some? ::
          c == a.seal(n, a.open(n, c, ad).value, ad))
  }

  // ---------- The frame ----------

  /** What is encrypted: the length as a uint16, the payload, the padding. */
  function Inner(plaintext: Bytes, pad: Bytes): Bytes {
    PutUint16(ToUint16(|plaintext|)) + plaintext + pad
  }

  function Magic(): (b: Bytes)
    ensures |b| == 4
  {
    PutUint32(STUN_MAGIC)
  }

  /** The bytes `ObfuscateTo` produces for a nonce and a padding. */
  function Frame(a: Aead, plaintext: Bytes, nonce: Bytes, pad: Bytes): Bytes {
    Magic() + nonce + a.seal(nonce, Inner(plaintext, pad), Magic())
  }

  /** `Deobfuscate` on a packet. */
  function Decode(a: Aead, c: Bytes): Result<Bytes, CryptoError> {
    if |c| < HEADER_SIZE + OVERHEAD + 2 then Err(PacketTooShort)
    else if Uint32(c[..4]) != STUN_MAGIC then Err(InvalidMagic)
    else
      match a.open(c[4..HEADER_SIZE], c[HEADER_SIZE..], c[..4])
      case None => Err(AuthFailed)
      case Some(inner) =>
        if |inner| < 2 then Err(PacketTooShort)
        else
          var payloadLen := Uint16(inner[..2]);
          if payloadLen > |inner| - 2 then Err(PacketTooShort)
          else Ok(inner[2..2 + payloadLen])
  }

  lemma FrameLength(a: Aead, plaintext: Bytes, nonce: Bytes, pad: Bytes)
    requires Correct(a) && |nonce| == NONCE_SIZE
    ensures |Frame(a, plaintext, nonce, pad)| == |plaintext| + 46 + |pad|
  {
  }

  /** The magic cookie of section 6 of RFC 5389, as bytes on the wire. */
  const COOKIE: Bytes := [0x21, 0x12, 0xA4, 0x42]

  /** A frame byte by byte; the length prefix has the high byte first. */
  lemma FrameLayout(a: Aead, plaintext: Bytes, nonce: Bytes, pad: Bytes)
    requires Correct(a) && |nonce| == 24
    ensures var f := Frame(a, plaintext, nonce, pad);
            var n := |plaintext| % 0x1_0000;
            && |f| == |plaintext| + 46 + |pad|
            && f[..4] == [0x21, 0x12, 0xA4, 0x42] && f[4..28] == nonce
            && f[28..] == a.seal(nonce, [n / 0x100, n % 0x100] + plaintext + pad, [0x21, 0x12, 0xA4, 0x42])
            && a.open(nonce, f[28..], f[..4]) == Some([n / 0x100, n % 0x100] + plaintext + pad)
  {
    FrameParts(a, plaintext, nonce, pad);
    MagicIsCookie();
  }

  lemma MagicIsCookie()
    ensures Magic() == COOKIE
  {
  }

  lemma CookieDecides(c: Bytes)
    requires |c| >= 4
    ensures Uint32(c[..4]) == STUN_MAGIC <==> c[..4] == COOKIE
  {
    MagicIsCookie();
    Uint32RoundTrip(STUN_MAGIC);
    PutUint32RoundTrip(c[..4]);
  }

  lemma FrameParts(a: Aead, plaintext: Bytes, nonce: Bytes, pad: Bytes)
    requires Correct(a) && |nonce| == NONCE_SIZE
    ensures var f := Frame(a, plaintext, nonce, pad);
            && |f| >= 46 && f[..4] == Magic() && f[4..HEADER_SIZE] == nonce
            && a.open(nonce, f[HEADER_SIZE..], Magic()) == Some(Inner(plaintext, pad))
  {
    var f := Frame(a, plaintext, nonce, pad);
    assert f[..4] == Magic();
    assert f[4..HEADER_SIZE] == nonce;
    assert f[HEADER_SIZE..] == a.seal(nonce, Inner(plaintext, pad), Magic());
  }

  /**
   Decoding a frame gives the plaintext cut to its length modulo 2^16, for every nonce and padding;
   that is the plaintext itself exactly when its length fits the 16-bit prefix.
   */
  lemma RoundTrip(a: Aead, plaintext: Bytes, nonce: Bytes, pad: Bytes)
    requires Correct(a) && |nonce| == NONCE_SIZE
    ensures Decode(a, Frame(a, plaintext, nonce, pad)) == Ok(plaintext[..|plaintext| % 0x1_0000])
    ensures Decode(a, Frame(a, plaintext, nonce, pad)) == Ok(plaintext) <==> |plaintext| < 0x1_0000
  {
    FrameParts(a, plaintext, nonce, pad);
    Uint32RoundTrip(STUN_MAGIC);
    var inner, n := Inner(plaintext, pad), ToUint16(|plaintext|);
    assert inner[..2] == PutUint16(n);
    Uint16RoundTrip(n);
    assert inner[2..2 + n] == plaintext[..n];
    if n == |plaintext| {
      assert plaintext[..n] == plaintext;
    }
  }

  lemma InnerIsPrefixed(inner: Bytes)
    requires |inner| >= 2 && Uint16(inner[..2]) <= |inner| - 2
    ensures var n := Uint16(inner[..2]);
            inner == Inner(inner[2..2 + n], inner[2 + n..])
  {
    var n := Uint16(inner[..2]);
    assert inner == inner[..2] + inner[2..2 + n] + inner[2 + n..];
    assert PutUint16(n) == inner[..2];
  }

  ghost predicate IsFrameOf(a: Aead, c: Bytes, plaintext: Bytes) {
    |plaintext| < 0x1_0000
    && exists nonce: Bytes, pad: Bytes :: |nonce| == NONCE_SIZE && c == Frame(a, plaintext, nonce, pad)
  }

  /** With an ideal AEAD a packet decodes to `p` exactly when it is a frame of `p`. */
  lemma DecodesIffFrame(a: Aead, c: Bytes, p: Bytes)
    requires Ideal(a)
    ensures Decode(a, c) == Ok(p) <==> IsFrameOf(a, c, p)
  {
    if Decode(a, c) == Ok(p) {
      PutUint32RoundTrip(c[..4]);
      var nonce := c[4..HEADER_SIZE];
      var inner := a.open(nonce, c[HEADER_SIZE..], c[..4]).value;
      InnerIsPrefixed(inner);
      assert c == c[..4] + nonce + c[HEADER_SIZE..];
      assert c == Frame(a, p, nonce, inner[2 + |p|..]);
    }
    if IsFrameOf(a, c, p) {
      var nonce, pad :| |nonce| == NONCE_SIZE && c == Frame(a, p, nonce, pad);
      RoundTrip(a, p, nonce, pad);
    }
  }

  /** A packet is a frame of at most one plaintext. */
  lemma FramesAreUnambiguous(a: Aead, c: Bytes, p: Bytes, q: Bytes)
    requires Ideal(a) && IsFrameOf(a, c, p) && IsFrameOf(a, c, q)
    ensures p == q
  {
    DecodesIffFrame(a, c, p);
    DecodesIffFrame(a, c, q);
  }

  /**
   The four outcomes of `Deobfuscate` and exactly when each occurs. What opens has at least two bytes,
   so after the first length check `PacketTooShort` is left for a bad length prefix.
   */
  lemma DecodeOutcomes(a: Aead, c: Bytes)
    requires Correct(a)
    ensures var long, marked := |c| >= 46, |c| >= 4 && c[..4] == [0x21, 0x12, 0xA4, 0x42];
            && (Decode(a, c) == Err(InvalidMagic) <==> long && !marked)
            && (Decode(a, c) == Err(AuthFailed) <==> long && marked && a.open(c[4..28], c[28..], c[..4]).None?)
            && (long && marked && a.open(c[4..28], c[28..], c[..4]).Some? ==>
                  var inner := a.open(c[4..28], c[28..], c[..4]).value;
                  var n := (inner[0] as int) * 0x100 + inner[1];
                  && |inner| == |c| - 44 >= 2
                  && Decode(a, c) == if n > |inner| - 2 then Err(PacketTooShort) else Ok(inner[2..2 + n]))
            && (!long ==> Decode(a, c) == Err(PacketTooShort))
  {
    if |c| >= 46 {
      CookieDecides(c);
    }
  }

  /** The contract is not contradictory: a toy AEAD that appends zeros satisfies it. */
  lemma ContractIsSatisfiable()
    ensures exists a :: Ideal(a)
  {
    var zeros: Bytes := seq(OVERHEAD, i => 0);
    var a := Aead(
      (n, p, ad) => p + zeros,
      (n, c, ad) => if |c| >= OVERHEAD && c[|c| - OVERHEAD..] == zeros then Some(c[..|c| - OVERHEAD]) else None);
    forall n: Bytes, p: Bytes, ad: Bytes
      ensures a.open(n, a.seal(n, p, ad), ad) == Some(p)
    {
      assert (p + zeros)[|p|..] == zeros && (p + zeros)[..|p|] == p;
    }
    forall n: Bytes, c: Bytes, ad: Bytes | a.open(n, c, ad).Some?
      ensures c == a.seal(n, a.open(n, c, ad).value, ad)
    {
      assert c == c[..|c| - OVERHEAD] + c[|c| - OVERHEAD..];
    }
    assert Ideal(a);
  }

  // ---------- In place ----------

  /** `s` with `src` written over it from index `at` on. */
  function Overwrite(s: Bytes, at: nat, src: Bytes): (r: Bytes)
    requires at + |src| <= |s|
    ensures |r| == |s|
  {
    s[..at] + src + s[at + |src|..]
  }

  lemma OverwriteIs(s: Bytes, at: nat, src: Bytes, t: Bytes)
    requires at + |src| <= |s| == |t|
    requires s[..at] == t[..at] && t[at..at + |src|] == src && s[at + |src|..] == t[at + |src|..]
    ensures t == Overwrite(s, at, src)
  {
    assert t == t[..at] + t[at..at + |src|] + t[at + |src|..];
  }

  lemma OverwriteNext(s: Bytes, at: nat, a: Bytes, b: Bytes)
    requires at + |a| + |b| <= |s|
    ensures Overwrite(Overwrite(s, at, a), at + |a|, b) == Overwrite(s, at, a + b)
  {
  }

  lemma OverwriteAgain(s: Bytes, at: nat, a: Bytes, b: Bytes)
    requires |a| <= |b| && at + |b| <= |s|
    ensures Overwrite(Overwrite(s, at, a), at, b) == Overwrite(s, at, b)
  {
  }

  lemma OverwriteSlices(s: Bytes, at: nat, src: Bytes)
    requires at + |src| <= |s|
    ensures Overwrite(s, at, src)[..at] == s[..at]
    ensures Overwrite(s, at, src)[at..at + |src|] == src
    ensures Overwrite(s, at, src)[at + |src|..] == s[at + |src|..]
  {
  }

  /** Copies `src` into `dst` from index `at` on. */
  method CopyAt(dst: array<uint8>, at: nat, src: Bytes)
    requires at + |src| <= dst.Length
    modifies dst
    ensures dst[..] == Overwrite(old(dst[..]), at, src)
  {
    for i := 0 to |src|
      invariant forall k :: 0 <= k < at ==> dst[k] == old(dst[k])
      invariant forall k :: 0 <= k < i ==> dst[at + k] == src[k]
      invariant forall k :: at + i <= k < dst.Length ==> dst[k] == old(dst[k])
    {
      dst[at + i] := src[i];
    }
    OverwriteIs(old(dst[..]), at, src, dst[..]);
  }

  /** Writes length prefix, payload and padding into `dst` from index `at` on. */
  method WriteInner(dst: array<uint8>, at: nat, plaintext: Bytes, pad: Bytes)
    requires at + 2 + |plaintext| + |pad| <= dst.Length
    modifies dst
    ensures dst[..] == Overwrite(old(dst[..]), at, Inner(plaintext, pad))
  {
    hide Overwrite;
    var prefix := PutUint16(ToUint16(|plaintext|));
    CopyAt(dst, at, prefix);
    CopyAt(dst, at + 2, plaintext);
    OverwriteNext(old(dst[..]), at, prefix, plaintext);
    CopyAt(dst, at + 2 + |plaintext|, pad);
    OverwriteNext(old(dst[..]), at, prefix + plaintext, pad);
  }

  /** Writes the magic value and the nonce at the start of `dst`. */
  method WriteHeader(dst: array<uint8>, nonce: Bytes)
    requires |nonce| == NONCE_SIZE && HEADER_SIZE <= dst.Length
    modifies dst
    ensures dst[..] == Overwrite(old(dst[..]), 0, Magic() + nonce)
  {
    hide Overwrite;
    CopyAt(dst, 0, Magic());
    CopyAt(dst, 4, nonce);
    OverwriteNext(old(dst[..]), 0, Magic(), nonce);
  }

  lemma HeaderAndBody(s: Bytes, header: Bytes, body: Bytes)
    requires |header| == HEADER_SIZE && HEADER_SIZE + |body| <= |s|
    ensures var t := Overwrite(Overwrite(s, 0, header), HEADER_SIZE, body);
            t[..4] == header[..4] && t[4..HEADER_SIZE] == header[4..] && t[HEADER_SIZE..HEADER_SIZE + |body|] == body
  {
  }

  /** Sealing over the inner text leaves header and sealed text, and what came after. */
  lemma HeaderAndSealed(s: Bytes, header: Bytes, inner: Bytes, sealed: Bytes)
    requires |header| == HEADER_SIZE && |inner| <= |sealed| && HEADER_SIZE + |sealed| <= |s|
    ensures var t := Overwrite(Overwrite(Overwrite(s, 0, header), HEADER_SIZE, inner), HEADER_SIZE, sealed);
            && t[..HEADER_SIZE + |sealed|] == header + sealed
            && t[HEADER_SIZE + |sealed|..] == s[HEADER_SIZE + |sealed|..]
  {
    OverwriteAgain(Overwrite(s, 0, header), HEADER_SIZE, inner, sealed);
    OverwriteNext(s, 0, header, sealed);
    OverwriteSlices(s, 0, header + sealed);
  }

  /** A frame of `len` payload bytes and `pad` padding bytes fits a buffer of `room` bytes. */
  predicate FrameFits(len: nat, pad: nat, room: nat) {
    len + 46 + pad <= room
  }

  /** Past the size check, which ignores the padding, every padding fits exactly from len + 109 bytes on. */
  lemma EveryPaddingFitsIff(len: nat, room: nat)
    requires FrameFits(len, 0, room)
    ensures (forall pad: nat | pad < 64 :: FrameFits(len, pad, room)) <==> len + 109 <= room
  {
    if room < len + 109 {
      assert !FrameFits(len, 63, room);
    }
  }

  /** The key-holding object; `aead` is the keyed cipher. */
  class Obfuscator {
    const aead: Aead

    constructor (aead: Aead)
      ensures this.aead == aead
    {
      this.aead := aead;
    }

    /**
     `ObfuscateTo` on a buffer without spare capacity. The random nonce and padding are arguments
     (`None` when the random source fails). If the frame fits, the bytes of `dst` after it keep their
     values. If only the inner text fits, the cipher appends to a copy: the result counts bytes that
     are not in `dst`. If not even that fits, slicing `dst` panics.
     */
    method ObfuscateTo(plaintext: Bytes, dst: array<uint8>, nonce: Option<Bytes>, pad: Bytes)
      returns (r: Result<nat, CryptoError>)
      requires Correct(aead)
      requires nonce.Some? ==> |nonce.value| == NONCE_SIZE
      requires |pad| < 64
      modifies dst
      ensures dst.Length < |plaintext| + 46 ==> r == Err(BufferTooSmall) && dst[..] == old(dst[..])
      ensures dst.Length >= |plaintext| + 46 && nonce.None? ==> r == Err(RandomFailed)
      ensures dst.Length >= |plaintext| + 46 && nonce.Some? ==>
                (r == Err(OutOfRange) <==> dst.Length < |plaintext| + 30 + |pad|)
      ensures dst.Length >= |plaintext| + 46 && nonce.Some? && r != Err(OutOfRange) ==>
                r == Ok(|plaintext| + 46 + |pad|)
      ensures FrameFits(|plaintext|, |pad|, dst.Length) && nonce.Some? ==>
                && dst[..r.value] == Frame(aead, plaintext, nonce.value, pad)
                && dst[r.value..] == old(dst[|plaintext| + 46 + |pad|..])
      ensures r.Ok? && r.value > dst.Length ==>
                var headed := Overwrite(old(dst[..]), 0, Magic() + nonce.value);
                dst[..] == Overwrite(headed, HEADER_SIZE, Inner(plaintext, pad))
    {
      if dst.Length < HEADER_SIZE + |plaintext| + 2 + OVERHEAD {
        return Err(BufferTooSmall);
      }
      hide Overwrite;
      hide Inner;
      if nonce.None? {
        CopyAt(dst, 0, Magic());
        return Err(RandomFailed);
      }
      ghost var before, inner := dst[..], Inner(plaintext, pad);
      ghost var header := Magic() + nonce.value;
      WriteHeader(dst, nonce.value);
      var innerLen := 2 + |plaintext| + |pad|;
      if HEADER_SIZE + innerLen > dst.Length {
        return Err(OutOfRange);
      }
      WriteInner(dst, HEADER_SIZE, plaintext, pad);
      HeaderAndBody(before, header, inner);
      var sealed := aead.seal(dst[4..HEADER_SIZE], dst[HEADER_SIZE..HEADER_SIZE + innerLen], dst[..4]);
      if HEADER_SIZE + |sealed| <= dst.Length {
        CopyAt(dst, HEADER_SIZE, sealed);
        HeaderAndSealed(before, header, inner, sealed);
      }
      return Ok(HEADER_SIZE + |sealed|);
    }

    /**
     `Deobfuscate` on the first `n` bytes of `buf`: on success the payload is the slice of `buf` that
     starts at index 30. The bytes from `n` on and the header keep their values.
     */
    method Deobfuscate(buf: array<uint8>, n: nat) returns (r: Result<nat, CryptoError>)
      requires Correct(aead)
      requires n <= buf.Length
      modifies buf
      ensures Decode(aead, old(buf[..n])).Ok? ==>
                && r.Ok? && 30 + r.value <= n
                && Ok(buf[30..30 + r.value]) == Decode(aead, old(buf[..n]))
      ensures Decode(aead, old(buf[..n])).Err? ==> r == Err(Decode(aead, old(buf[..n])).error)
      ensures buf[n..] == old(buf[n..])
      ensures n >= HEADER_SIZE ==> buf[..HEADER_SIZE] == old(buf[..HEADER_SIZE])
    {
      if n < HEADER_SIZE + OVERHEAD + 2 {
        return Err(PacketTooShort);
      }
      ghost var before, c := buf[..], buf[..n];
      assert buf[..4] == c[..4] && buf[4..HEADER_SIZE] == c[4..HEADER_SIZE] && buf[HEADER_SIZE..n] == c[HEADER_SIZE..];
      if Uint32(buf[..4]) != STUN_MAGIC {
        return Err(InvalidMagic);
      }
      var unsealed := aead.open(buf[4..HEADER_SIZE], buf[HEADER_SIZE..n], buf[..4]);
      if unsealed.None? {
        return Err(AuthFailed);
      }
      var inner := unsealed.value;
      hide Overwrite;
      CopyAt(buf, HEADER_SIZE, inner);
      PlainInPlace(before, n, inner);
      if |inner| < 2 {
        return Err(PacketTooShort);
      }
      var payloadLen := Uint16(buf[HEADER_SIZE..HEADER_SIZE + 2]);
      if payloadLen > |inner| - 2 {
        return Err(PacketTooShort);
      }
      assert buf[30..30 + payloadLen] == buf[30..HEADER_SIZE + |inner|][..payloadLen] == inner[2..2 + payloadLen];
      return Ok(payloadLen);
    }
  }

  /** What the buffer holds once the inner text has been written over the sealed text. */
  lemma PlainInPlace(s: Bytes, n: nat, inner: Bytes)
    requires HEADER_SIZE + |inner| <= n <= |s|
    ensures var t := Overwrite(s, HEADER_SIZE, inner);
            && t[..HEADER_SIZE] == s[..HEADER_SIZE] && t[n..] == s[n..]
            && (|inner| >= 2 ==> t[HEADER_SIZE..30] == inner[..2] && t[30..HEADER_SIZE + |inner|] == inner[2..])
  {
  }
}
