/**
  The two encryption layers of a chunk. XChaCha20-Poly1305 carries the chunk number and the final
  flag in its nonce, AES-256-GCM-SIV in its associated data.
 */
module Sealing {
  import opened ByteStrings
  import opened Cutting

  const FILE_FORMAT_VERSION: nat := 7
  const CHA_NONCE_SIZE: nat := 24
  const AES_NONCE_SIZE: nat := 12
  const TAG_SIZE: nat := 16
  // what both layers add to a chunk
  const OVERHEAD: nat := CHA_NONCE_SIZE + TAG_SIZE + AES_NONCE_SIZE + TAG_SIZE

  type Nonce = seq<Octet>

  // ------------------------------------------------------------------ ideal AEAD (RFC 5116, section 2)

  function Encrypt(key: Key, nonce: Nonce, aad: Bytes, text: Bytes): (c: Bytes)
    ensures |c| == |text| + TAG_SIZE
  {
    seq(|text| + TAG_SIZE, i requires 0 <= i < |text| + TAG_SIZE => Cipher(Box(key, nonce, aad, text), i))
  }

  function Decrypt(key: Key, nonce: Nonce, aad: Bytes, c: Bytes): Option<Bytes> {
    if c != [] && c[0].Cipher? && c == Encrypt(key, nonce, aad, c[0].box.text) then Some(c[0].box.text) else None
  }

  /** Decryption succeeds exactly on what was encrypted under the same key, nonce and associated data. */
  lemma DecryptIff(key: Key, nonce: Nonce, aad: Bytes, c: Bytes, text: Bytes)
    ensures Decrypt(key, nonce, aad, c) == Some(text) <==> c == Encrypt(key, nonce, aad, text)
  {
    var e := Encrypt(key, nonce, aad, text);
    assert e[0] == Cipher(Box(key, nonce, aad, text), 0);
  }

  lemma EncryptInjective(k: Key, k': Key, n: Nonce, n': Nonce, a: Bytes, a': Bytes, t: Bytes, t': Bytes)
    requires Encrypt(k, n, a, t) == Encrypt(k', n', a', t')
    ensures k == k' && n == n' && a == a' && t == t'
  {
    assert Encrypt(k, n, a, t)[0] == Cipher(Box(k, n, a, t), 0);
    assert Encrypt(k', n', a', t')[0] == Cipher(Box(k', n', a', t'), 0);
  }

  // ------------------------------------------------------------------ nonce mask

  /** Bitwise exclusive-or of two numbers of `bits` bits. */
  function Xor(a: nat, b: nat, bits: nat): nat {
    if bits == 0 then 0 else (a + b) % 2 + 2 * Xor(a / 2, b / 2, bits - 1)
  }

  function Pow2(k: nat): nat {
    if k == 0 then 1 else 2 * Pow2(k - 1)
  }

  lemma {:induction false} XorBound(a: nat, b: nat, bits: nat)
    ensures Xor(a, b, bits) < Pow2(bits)
  {
    if bits == 0 {
    } else {
      XorBound(a / 2, b / 2, bits - 1);
    }
  }

  lemma XorParts(a: nat, b: nat, bits: nat)
    requires bits > 0
    ensures Xor(a, b, bits) % 2 == (a + b) % 2 && Xor(a, b, bits) / 2 == Xor(a / 2, b / 2, bits - 1)
  {
  }

  lemma Parity(a: nat, b: nat, c: nat)
    ensures ((a + b) % 2 + b) % 2 == a % 2
    ensures (a + b) % 2 == (a + c) % 2 ==> b % 2 == c % 2
  {
  }

  lemma {:induction false} XorSelfInverse(a: nat, b: nat, bits: nat)
    requires a < Pow2(bits)
    ensures Xor(Xor(a, b, bits), b, bits) == a
  {
    if bits == 0 {
    } else {
      XorSelfInverse(a / 2, b / 2, bits - 1);
      XorParts(a, b, bits);
      var x := Xor(a, b, bits);
      XorParts(x, b, bits);
      Parity(a, b, b);
      XorRestored(a, b, x);
    }
  }

  lemma XorRestored(a: nat, b: nat, x: nat)
    requires x % 2 == (a + b) % 2
    ensures (x + b) % 2 == a % 2 && a == a % 2 + 2 * (a / 2)
  {
  }

  lemma {:induction false} XorInjective(a: nat, b: nat, c: nat, bits: nat)
    requires b < Pow2(bits) && c < Pow2(bits)
    requires Xor(a, b, bits) == Xor(a, c, bits)
    ensures b == c
  {
    if bits == 0 {
    } else {
      XorParts(a, b, bits);
      XorParts(a, c, bits);
      Parity(a, b, c);
      hide Xor;
      XorInjective(a / 2, b / 2, c / 2, bits - 1);
    }
  }

  lemma Pow2Of8()
    ensures Pow2(8) == 256
  {
    assert Pow2(4) == 16;
    assert Pow2(6) == 64;
  }

  function XorOctet(a: Octet, b: Octet): Octet {
    XorBound(a as nat, b as nat, 8);
    Pow2Of8();
    Xor(a as nat, b as nat, 8) as Octet
  }

  lemma XorOctetLaws(a: Octet, b: Octet, c: Octet)
    ensures XorOctet(XorOctet(a, b), b) == a
    ensures XorOctet(a, b) == XorOctet(a, c) ==> b == c
  {
    Pow2Of8();
    XorSelfInverse(a as nat, b as nat, 8);
    if XorOctet(a, b) == XorOctet(a, c) {
      XorInjective(a as nat, b as nat, c as nat, 8);
    }
  }

  function XorNonce(a: Nonce, b: Nonce): (c: Nonce)
    requires |a| == |b|
    ensures |c| == |a|
  {
    seq(|a|, i requires 0 <= i < |a| => XorOctet(a[i], b[i]))
  }

  lemma XorNonceLaws(a: Nonce, b: Nonce, c: Nonce)
    requires |a| == |b| == |c|
    ensures XorNonce(XorNonce(a, b), b) == a
    ensures XorNonce(a, b) == XorNonce(a, c) ==> b == c
  {
    forall i | 0 <= i < |a|
      ensures XorOctet(XorOctet(a[i], b[i]), b[i]) == a[i]
      ensures XorOctet(a[i], b[i]) == XorOctet(a[i], c[i]) ==> b[i] == c[i]
    {
      XorOctetLaws(a[i], b[i], c[i]);
    }
    if XorNonce(a, b) == XorNonce(a, c) {
      forall i | 0 <= i < |a|
        ensures b[i] == c[i]
      {
        assert XorNonce(a, b)[i] == XorNonce(a, c)[i];
      }
    }
  }

  /** The octets of `to_le_bytes`. */
  function Octets(n: nat, k: nat): (os: seq<Octet>)
    ensures |os| == k
    decreases k
  {
    if k == 0 then [] else [(n % 256) as Octet] + Octets(n / 256, k - 1)
  }

  lemma {:induction false} OctetsInjective(m: nat, n: nat, k: nat)
    requires m < Pow256(k) && n < Pow256(k) && Octets(m, k) == Octets(n, k)
    ensures m == n
    decreases k
  {
    if k == 0 {
    } else {
      assert Octets(m, k)[0] == Octets(n, k)[0];
      assert Octets(m, k)[1..] == Octets(m / 256, k - 1);
      assert Octets(n, k)[1..] == Octets(n / 256, k - 1);
      OctetsInjective(m / 256, n / 256, k - 1);
    }
  }

  function Flag(b: bool): Octet {
    if b then 1 else 0
  }

  /** What is xor'ed to a nonce: the final flag, then the chunk number in 32 bits. */
  function Mask(idx: nat, fin: bool): (m: Nonce)
    ensures |m| == CHA_NONCE_SIZE
  {
    [Flag(fin)] + Octets(idx, 4) + seq(CHA_NONCE_SIZE - 5, _ => 0 as Octet)
  }

  lemma MaskInjective(i: nat, f: bool, j: nat, g: bool)
    requires i < U32_LIMIT && j < U32_LIMIT && Mask(i, f) == Mask(j, g)
    ensures i == j && f == g
  {
    assert Mask(i, f)[0] == Mask(j, g)[0];
    assert Mask(i, f)[1..5] == Octets(i, 4);
    assert Mask(j, g)[1..5] == Octets(j, 4);
    Widths();
    OctetsInjective(i, j, 4);
  }

  /** Each chunk number and flag gives its own nonce, and masking twice gives the nonce back. */
  lemma MaskingLaws(nonce: Nonce, i: nat, f: bool, j: nat, g: bool)
    requires |nonce| == CHA_NONCE_SIZE && i < U32_LIMIT && j < U32_LIMIT
    ensures XorNonce(nonce, Mask(i, f)) == XorNonce(nonce, Mask(j, g)) <==> (i == j && f == g)
    ensures XorNonce(XorNonce(nonce, Mask(i, f)), Mask(i, f)) == nonce
  {
    XorNonceLaws(nonce, Mask(i, f), Mask(j, g));
    if XorNonce(nonce, Mask(i, f)) == XorNonce(nonce, Mask(j, g)) {
      MaskInjective(i, f, j, g);
    }
  }

  // ------------------------------------------------------------------ associated data

  function Ascii(s: string): (b: Bytes)
    ensures |b| == |s|
  {
    seq(|s|, i requires 0 <= i < |s| => Raw((s[i] as int % 256) as Octet))
  }

  function ChaAad(more: Bytes): Bytes {
    LE(FILE_FORMAT_VERSION, 1) + Ascii("Cha") + more
  }

  function AesAad(more: Bytes, idx: nat, fin: bool): Bytes {
    LE(FILE_FORMAT_VERSION, 1) + Ascii("Aes") + more + LE(idx, 4) + [Raw(Flag(fin))]
  }

  lemma AesAadInjective(more: Bytes, i: nat, f: bool, j: nat, g: bool)
    requires i < U32_LIMIT && j < U32_LIMIT && AesAad(more, i, f) == AesAad(more, j, g)
    ensures i == j && f == g
  {
    var a, b := AesAad(more, i, f), AesAad(more, j, g);
    var n := |a|;
    assert a[n - 1] == b[n - 1];
    assert a[n - 5..n - 1] == LE(i, 4) && b[n - 5..n - 1] == LE(j, 4);
    Widths();
    LEInjective(i, j, 4);
  }

  // ------------------------------------------------------------------ one buffer

  function AsBytes(nonce: Nonce): (b: Bytes)
    ensures |b| == |nonce|
  {
    seq(|nonce|, i requires 0 <= i < |nonce| => Raw(nonce[i]))
  }

  function AsNonce(b: Bytes): (nonce: Nonce)
    ensures |nonce| == |b|
  {
    seq(|b|, i requires 0 <= i < |b| => Value(b[i]) as Octet)
  }

  function ChaSeal(key: Key, nonce: Nonce, idx: nat, fin: bool, more: Bytes, text: Bytes): (c: Bytes)
    requires |nonce| == CHA_NONCE_SIZE
    ensures |c| == |text| + TAG_SIZE + CHA_NONCE_SIZE
  {
    Encrypt(key, XorNonce(nonce, Mask(idx, fin)), ChaAad(more), text) + AsBytes(nonce)
  }

  /** `None` is a decryption error, or the panic on a buffer shorter than a nonce. */
  function ChaOpen(key: Key, idx: nat, fin: bool, more: Bytes, c: Bytes): Option<Bytes> {
    if |c| < CHA_NONCE_SIZE then None else
    var pos := |c| - CHA_NONCE_SIZE;
    Decrypt(key, XorNonce(AsNonce(c[pos..]), Mask(idx, fin)), ChaAad(more), c[..pos])
  }

  function AesSeal(key: Key, nonce: Nonce, idx: nat, fin: bool, more: Bytes, text: Bytes): (c: Bytes)
    requires |nonce| == AES_NONCE_SIZE
    ensures |c| == |text| + TAG_SIZE + AES_NONCE_SIZE
  {
    Encrypt(key, nonce, AesAad(more, idx, fin), text) + AsBytes(nonce)
  }

  function AesOpen(key: Key, idx: nat, fin: bool, more: Bytes, c: Bytes): Option<Bytes> {
    if |c| < AES_NONCE_SIZE then None else
    var pos := |c| - AES_NONCE_SIZE;
    Decrypt(key, AsNonce(c[pos..]), AesAad(more, idx, fin), c[..pos])
  }

  /** `cha_encrypt_buffer`; the fresh random nonce is a parameter. */
  method ChaEncryptBuffer(key: Key, buf: Bytes, nonceOrg: Nonce, chunkCount: nat, finalChunk: bool, more: Bytes)
    returns (bufOut: Bytes)
    requires |nonceOrg| == CHA_NONCE_SIZE
    ensures bufOut == ChaSeal(key, nonceOrg, chunkCount, finalChunk, more, buf)
  {
    var nonce := MaskNonce(nonceOrg, chunkCount, finalChunk);
    var associatedData := LE(FILE_FORMAT_VERSION, 1);
    associatedData := associatedData + Ascii("Cha");
    associatedData := associatedData + more;
    bufOut := Encrypt(key, nonce, associatedData, buf);
    bufOut := bufOut + AsBytes(nonceOrg);
  }

  /** The masked nonce, octet by octet. */
  lemma MaskedAt(nonce: Nonce, idx: nat, fin: bool, k: nat)
    requires |nonce| == CHA_NONCE_SIZE && k < CHA_NONCE_SIZE
    ensures XorNonce(nonce, Mask(idx, fin))[k] ==
      if k == 0 then XorOctet(nonce[0], Flag(fin))
      else if k <= 4 then XorOctet(nonce[k], Octets(idx, 4)[k - 1])
      else nonce[k]
  {
    hide XorOctet, Octets;
    if k > 4 { XorZero(nonce[k]); }
  }

  /** The loop that changes the nonce in place. */
  method MaskNonce(nonceOrg: Nonce, chunkCount: nat, finalChunk: bool) returns (masked: Nonce)
    requires |nonceOrg| == CHA_NONCE_SIZE
    ensures masked == XorNonce(nonceOrg, Mask(chunkCount, finalChunk))
  {
    hide XorOctet, Octets, XorNonce, Mask;
    ghost var target := XorNonce(nonceOrg, Mask(chunkCount, finalChunk));
    forall k: nat | k < CHA_NONCE_SIZE {
      MaskedAt(nonceOrg, chunkCount, finalChunk, k);
    }
    var nonce := new Octet[CHA_NONCE_SIZE](i requires 0 <= i < CHA_NONCE_SIZE => nonceOrg[i]);
    nonce[0] := XorOctet(nonce[0], Flag(finalChunk));
    var ccb := Octets(chunkCount, 4);
    for i := 0 to 4
      invariant forall k :: 0 <= k <= i ==> nonce[k] == target[k]
      invariant forall k :: i < k < CHA_NONCE_SIZE ==> nonce[k] == nonceOrg[k]
    {
      nonce[i + 1] := XorOctet(nonce[i + 1], ccb[i]);
    }
    masked := nonce[..];
  }

  lemma XorZero(a: Octet)
    ensures XorOctet(a, 0) == a
  {
    XorZeroBits(a as nat, 8);
    Pow2Of8();
  }

  lemma {:induction false} XorZeroBits(a: nat, bits: nat)
    requires a < Pow2(bits)
    ensures Xor(a, 0, bits) == a
  {
    if bits == 0 {
    } else {
      XorZeroBits(a / 2, bits - 1);
    }
  }

  /** `cha_decrypt_buffer`. */
  method ChaDecryptBuffer(key: Key, buf: Bytes, chunkCount: nat, finalChunk: bool, more: Bytes)
    returns (r: Option<Bytes>)
    ensures r == ChaOpen(key, chunkCount, finalChunk, more, buf)
  {
    if |buf| < CHA_NONCE_SIZE {
      return None;
    }
    var noncePos := |buf| - CHA_NONCE_SIZE;
    var nonce := MaskNonce(AsNonce(buf[noncePos..]), chunkCount, finalChunk);
    var bufInout := buf[..noncePos];
    var associatedData := LE(FILE_FORMAT_VERSION, 1);
    associatedData := associatedData + Ascii("Cha");
    associatedData := associatedData + more;
    r := Decrypt(key, nonce, associatedData, bufInout);
  }

  /** `aes_encrypt_buffer`. */
  method AesEncryptBuffer(key: Key, buf: Bytes, nonce: Nonce, chunkCount: nat, finalChunk: bool, more: Bytes)
    returns (bufOut: Bytes)
    requires |nonce| == AES_NONCE_SIZE
    ensures bufOut == AesSeal(key, nonce, chunkCount, finalChunk, more, buf)
  {
    var associatedData := LE(FILE_FORMAT_VERSION, 1);
    associatedData := associatedData + Ascii("Aes");
    associatedData := associatedData + more;
    associatedData := associatedData + LE(chunkCount, 4);
    associatedData := associatedData + [Raw(Flag(finalChunk))];
    bufOut := Encrypt(key, nonce, associatedData, buf);
    bufOut := bufOut + AsBytes(nonce);
  }

  /** `aes_decrypt_buffer`. */
  method AesDecryptBuffer(key: Key, buf: Bytes, chunkCount: nat, finalChunk: bool, more: Bytes)
    returns (r: Option<Bytes>)
    ensures r == AesOpen(key, chunkCount, finalChunk, more, buf)
  {
    if |buf| < AES_NONCE_SIZE {
      return None;
    }
    var noncePos := |buf| - AES_NONCE_SIZE;
    var nonce := AsNonce(buf[noncePos..]);
    var bufInout := buf[..noncePos];
    var associatedData := LE(FILE_FORMAT_VERSION, 1);
    associatedData := associatedData + Ascii("Aes");
    associatedData := associatedData + more;
    associatedData := associatedData + LE(chunkCount, 4);
    associatedData := associatedData + [Raw(Flag(finalChunk))];
    r := Decrypt(key, nonce, associatedData, bufInout);
  }

  lemma NonceBytes(nonce: Nonce, c: Bytes)
    ensures AsNonce(AsBytes(nonce)) == nonce
    ensures (c + AsBytes(nonce))[|c|..] == AsBytes(nonce) && (c + AsBytes(nonce))[..|c|] == c
  {
  }

  /** The ChaCha layer opens what it sealed, and only under the same number and flag. */
  lemma ChaOpensOnlyInPlace(key: Key, nonce: Nonce, i: nat, f: bool, j: nat, g: bool, more: Bytes, text: Bytes)
    requires |nonce| == CHA_NONCE_SIZE && i < U32_LIMIT && j < U32_LIMIT
    ensures ChaOpen(key, i, f, more, ChaSeal(key, nonce, j, g, more, text))
      == if i == j && f == g then Some(text) else None
  {
    hide Mask, XorNonce, Encrypt, Decrypt, AsNonce, AsBytes;
    var n := XorNonce(nonce, Mask(j, g));
    var c := Encrypt(key, n, ChaAad(more), text);
    NonceBytes(nonce, c);
    MaskingLaws(nonce, i, f, j, g);
    OpensOnlyOwn(key, XorNonce(nonce, Mask(i, f)), ChaAad(more), n, ChaAad(more), text);
  }

  /** So does the AES layer. */
  lemma AesOpensOnlyInPlace(key: Key, nonce: Nonce, i: nat, f: bool, j: nat, g: bool, more: Bytes, text: Bytes)
    requires |nonce| == AES_NONCE_SIZE && i < U32_LIMIT && j < U32_LIMIT
    ensures AesOpen(key, i, f, more, AesSeal(key, nonce, j, g, more, text))
      == if i == j && f == g then Some(text) else None
  {
    hide AesAad, Encrypt, Decrypt, AsNonce, AsBytes;
    var c := Encrypt(key, nonce, AesAad(more, j, g), text);
    NonceBytes(nonce, c);
    if AesAad(more, i, f) == AesAad(more, j, g) {
      AesAadInjective(more, i, f, j, g);
    }
    OpensOnlyOwn(key, nonce, AesAad(more, i, f), nonce, AesAad(more, j, g), text);
  }

  lemma OpensOnlyOwn(key: Key, n: Nonce, a: Bytes, n': Nonce, a': Bytes, text: Bytes)
    ensures Decrypt(key, n, a, Encrypt(key, n', a', text)) == if n == n' && a == a' then Some(text) else None
  {
    var c := Encrypt(key, n', a', text);
    DecryptIff(key, n, a, c, text);
    assert c[0] == Cipher(Box(key, n', a', text), 0);
    if c == Encrypt(key, n, a, text) {
      EncryptInjective(key, key, n', n, a', a, text, text);
    }
  }

  // ------------------------------------------------------------------ one chunk

  /** The body keys and the file ID. */
  datatype FileKeys = FileKeys(cha: Key, aes: Key, fileId: Bytes)

  /** The fresh random nonces of the chunks of a file: any two lists of the right length. */
  datatype Nonces = Nonces(cha: nat -> Nonce, aes: nat -> Nonce)

  ghost predicate ValidNonces(ns: Nonces) {
    forall i :: |ns.cha(i)| == CHA_NONCE_SIZE && |ns.aes(i)| == AES_NONCE_SIZE
  }

  ghost function SealChunk(keys: FileKeys, ns: Nonces, idx: nat, fin: bool, text: Bytes): (c: Bytes)
    requires ValidNonces(ns)
    ensures |c| == |text| + OVERHEAD
  {
    AesSeal(keys.aes, ns.aes(idx), idx, fin, keys.fileId,
      ChaSeal(keys.cha, ns.cha(idx), idx, fin, keys.fileId, text))
  }

  function OpenChunk(keys: FileKeys, idx: nat, fin: bool, c: Bytes): Option<Bytes> {
    match AesOpen(keys.aes, idx, fin, keys.fileId, c)
    case None => None
    case Some(inner) => ChaOpen(keys.cha, idx, fin, keys.fileId, inner)
  }

  /** A sealed chunk opens at its own number with its own flag and nowhere else. */
  lemma OpensOnlyInPlace(keys: FileKeys, ns: Nonces, i: nat, f: bool, j: nat, g: bool, text: Bytes)
    requires ValidNonces(ns) && i < U32_LIMIT && j < U32_LIMIT
    ensures OpenChunk(keys, i, f, SealChunk(keys, ns, j, g, text)) == if i == j && f == g then Some(text) else None
  {
    hide AesOpen, AesSeal, ChaOpen, ChaSeal;
    var inner := ChaSeal(keys.cha, ns.cha(j), j, g, keys.fileId, text);
    AesOpensOnlyInPlace(keys.aes, ns.aes(j), i, f, j, g, keys.fileId, inner);
    ChaOpensOnlyInPlace(keys.cha, ns.cha(j), i, f, j, g, keys.fileId, text);
  }

  /** What the AES layer opens is a box under its key with this number and flag in the associated data. */
  lemma AesOpensOnlySealed(key: Key, idx: nat, fin: bool, more: Bytes, c: Bytes)
    requires AesOpen(key, idx, fin, more, c).Some?
    ensures |c| >= AES_NONCE_SIZE
    ensures var pos := |c| - AES_NONCE_SIZE;
      c[..pos] == Encrypt(key, AsNonce(c[pos..]), AesAad(more, idx, fin), AesOpen(key, idx, fin, more, c).value)
  {
    hide Encrypt, Decrypt, AesAad;
    var pos := |c| - AES_NONCE_SIZE;
    DecryptIff(key, AsNonce(c[pos..]), AesAad(more, idx, fin), c[..pos], AesOpen(key, idx, fin, more, c).value);
  }

  /** What the ChaCha layer opens is a box under its key whose nonce carries this number and flag. */
  lemma ChaOpensOnlySealed(key: Key, idx: nat, fin: bool, more: Bytes, c: Bytes)
    requires ChaOpen(key, idx, fin, more, c).Some?
    ensures |c| >= CHA_NONCE_SIZE
    ensures var pos := |c| - CHA_NONCE_SIZE;
      c[..pos] == Encrypt(key, XorNonce(AsNonce(c[pos..]), Mask(idx, fin)), ChaAad(more),
                          ChaOpen(key, idx, fin, more, c).value)
  {
    hide Encrypt, Decrypt, ChaAad, Mask, XorNonce;
    var pos := |c| - CHA_NONCE_SIZE;
    DecryptIff(key, XorNonce(AsNonce(c[pos..]), Mask(idx, fin)), ChaAad(more), c[..pos],
      ChaOpen(key, idx, fin, more, c).value);
  }

  /**
    Only what was sealed under both keys, for this file, number and flag, opens at all: the chunk is
    an AES box, with number and flag in its associated data, around a ChaCha box, with number and
    flag in its nonce, each followed by its nonce.
   */
  lemma OpensOnlySealed(keys: FileKeys, idx: nat, fin: bool, c: Bytes)
    requires OpenChunk(keys, idx, fin, c).Some?
    ensures |c| >= AES_NONCE_SIZE && AesOpen(keys.aes, idx, fin, keys.fileId, c).Some?
    ensures var inner := AesOpen(keys.aes, idx, fin, keys.fileId, c).value;
      && |inner| >= CHA_NONCE_SIZE
      && var p, q := |c| - AES_NONCE_SIZE, |inner| - CHA_NONCE_SIZE;
      && c[..p] == Encrypt(keys.aes, AsNonce(c[p..]), AesAad(keys.fileId, idx, fin), inner)
      && inner[..q] == Encrypt(keys.cha, XorNonce(AsNonce(inner[q..]), Mask(idx, fin)), ChaAad(keys.fileId),
                               OpenChunk(keys, idx, fin, c).value)
  {
    hide Encrypt, ChaOpen, AesOpen, AesAad, ChaAad, Mask, XorNonce;
    AesOpensOnlySealed(keys.aes, idx, fin, keys.fileId, c);
    ChaOpensOnlySealed(keys.cha, idx, fin, keys.fileId, AesOpen(keys.aes, idx, fin, keys.fileId, c).value);
  }

  // ------------------------------------------------------------------ all chunks of a file

  ghost function SealAll(keys: FileKeys, ns: Nonces, texts: seq<Bytes>): (cs: seq<Bytes>)
    requires ValidNonces(ns)
    ensures |cs| == |texts|
  {
    seq(|texts|, i requires 0 <= i < |texts| => SealChunk(keys, ns, i, i == |texts| - 1, texts[i]))
  }

  /** The decrypter's view of a list of chunks: numbered by position, the last one final. */
  ghost predicate OpensCompletely(keys: FileKeys, cs: seq<Bytes>) {
    forall i :: 0 <= i < |cs| ==> OpenChunk(keys, i, i == |cs| - 1, cs[i]).Some?
  }

  /**
    Any list made of chunks of one file - reordered, repeated, with chunks missing or cut short -
    that opens completely is the list that was sealed.
   */
  lemma RearrangementRejected(keys: FileKeys, ns: Nonces, texts: seq<Bytes>, cs: seq<Bytes>)
    requires ValidNonces(ns) && 0 < |texts| <= U32_LIMIT && 0 < |cs| <= U32_LIMIT
    requires forall c :: c in cs ==> c in SealAll(keys, ns, texts)
    requires OpensCompletely(keys, cs)
    ensures cs == SealAll(keys, ns, texts)
  {
    hide SealChunk, OpenChunk;
    var all := SealAll(keys, ns, texts);
    forall i | 0 <= i < |cs|
      ensures i < |all| && cs[i] == all[i] && ((i == |cs| - 1) <==> (i == |all| - 1))
    {
      assert cs[i] in all;
      var j :| 0 <= j < |all| && all[j] == cs[i];
      OpensOnlyInPlace(keys, ns, i, i == |cs| - 1, j, j == |texts| - 1, texts[j]);
    }
    assert cs[|cs| - 1] == all[|cs| - 1] && |cs| == |all|;
  }

  /** The original list does open, to the original texts. */
  lemma SealAllOpens(keys: FileKeys, ns: Nonces, texts: seq<Bytes>, i: nat)
    requires ValidNonces(ns) && |texts| <= U32_LIMIT && i < |texts|
    ensures OpenChunk(keys, i, i == |texts| - 1, SealAll(keys, ns, texts)[i]) == Some(texts[i])
  {
    OpensOnlyInPlace(keys, ns, i, i == |texts| - 1, i, i == |texts| - 1, texts[i]);
  }

  /**
    The decrypter cuts the concatenation of the sealed chunks, with the chunk size enlarged by the
    overhead, into exactly the chunks that were sealed.
   */
  lemma BoundariesRecovered(c: nat, keys: FileKeys, ns: Nonces, texts: seq<Bytes>)
    requires c > 0 && ValidNonces(ns) && WellCut(c, texts)
    ensures Pieces(c + OVERHEAD, Flatten(SealAll(keys, ns, texts))) == SealAll(keys, ns, texts)
  {
    hide SealChunk;
    WellCutUnique(c + OVERHEAD, SealAll(keys, ns, texts));
  }
}
