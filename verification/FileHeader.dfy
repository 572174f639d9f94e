/** The header of an encrypted file: two salts in the clear, then the metadata under both layers. */
module FileHeader {
  import opened ByteStrings
  import opened Sealing

  const SALT_SIZE: nat := 32
  const FILE_ID_SIZE: nat := 32
  const MAX_CREDENTIAL_ID_FIDO_SIZE: nat := 256
  const HEADER_SIZE: nat := 5 * SALT_SIZE + FILE_ID_SIZE + 3 + MAX_CREDENTIAL_ID_FIDO_SIZE + OVERHEAD
  // the number and flag under which the block is sealed
  const U32_MAX: nat := U32_LIMIT - 1

  datatype Params = Params(saltBodyPw: Bytes, saltBodyEnc: Bytes, fileId: Bytes,
                           saltBodyFido: Option<Bytes>, credentialIdFido: Option<Bytes>,
                           compress: bool, archive: bool, keyfile: bool, usbKey: bool)

  ghost predicate ValidParams(p: Params) {
    && |p.saltBodyPw| == SALT_SIZE && |p.saltBodyEnc| == SALT_SIZE && |p.fileId| == FILE_ID_SIZE
    && (p.saltBodyFido.Some? ==> |p.saltBodyFido.value| == SALT_SIZE)
  }

  function Bit(b: bool): nat {
    if b then 1 else 0
  }

  function FlagByte(p: Params): (n: nat)
    ensures n < 16
  {
    Bit(p.compress) + 2 * Bit(p.archive) + 4 * Bit(p.keyfile) + 8 * Bit(p.usbKey)
  }

  /** The metadata block at fixed offsets, as it is read back. `None` is an index out of range. */
  function Fields(h: Bytes): Option<(nat, Params)> {
    if |h| < 2 + 2 * SALT_SIZE + FILE_ID_SIZE then None else
    var flags := Value(h[1]);
    var usbKey := flags / 8 % 2 != 0;
    if usbKey && (|h| < 131 || |h| < 131 + Value(h[130])) then None else
    Some((Value(h[0]), Params(h[2..34], h[34..66], h[66..98],
      if usbKey then Some(h[98..130]) else None,
      if usbKey then Some(h[131..131 + Value(h[130])]) else None,
      flags % 2 != 0, flags / 2 % 2 != 0, flags / 4 % 2 != 0, usbKey)))
  }

  function OpenHeader(cha: Key, aes: Key, body: Bytes): Option<Bytes> {
    match AesOpen(aes, U32_MAX, true, Ascii("header_aes"), body)
    case None => None
    case Some(inner) => ChaOpen(cha, 0, false, Ascii("header_cha"), inner)
  }

  /** What decryption learns from the part behind the clear salts. */
  function DecodeHeader(cha: Key, aes: Key, body: Bytes): Option<(nat, Params)> {
    match OpenHeader(cha, aes, body)
    case None => None
    case Some(h) => Fields(h)
  }

  /** What is kept of the parameters: without a USB key there is no FIDO salt and no credential. */
  function Kept(p: Params, filler: Bytes): Params {
    p.(saltBodyFido := if p.usbKey then Some(p.saltBodyFido.GetOr(filler)) else None,
       credentialIdFido := if p.usbKey then Some(p.credentialIdFido.GetOr([])) else None)
  }

  /** Everything that is drawn at random for one header: salts, nonces, the filler salt and the padding. */
  datatype Draw = Draw(saltHeaderPw: Bytes, saltHeaderEnc: Bytes, chaNonce: Nonce, aesNonce: Nonce,
                       filler: Bytes, padding: Bytes)

  ghost predicate ValidDraw(d: Draw) {
    && |d.saltHeaderPw| == |d.saltHeaderEnc| == |d.filler| == SALT_SIZE
    && |d.chaNonce| == CHA_NONCE_SIZE && |d.aesNonce| == AES_NONCE_SIZE
    && |d.padding| == MAX_CREDENTIAL_ID_FIDO_SIZE
  }

  /** The metadata in front of both layers. */
  ghost function Block(p: Params, d: Draw): Bytes
    requires ValidDraw(d) && |p.credentialIdFido.GetOr([])| <= 255
  {
    var credential := p.credentialIdFido.GetOr([]);
    LE(FILE_FORMAT_VERSION, 1) + LE(FlagByte(p), 1) + p.saltBodyPw + p.saltBodyEnc + p.fileId
      + p.saltBodyFido.GetOr(d.filler) + LE(|credential|, 1) + credential
      + d.padding[..MAX_CREDENTIAL_ID_FIDO_SIZE - |credential|]
  }

  /** The header that is written; `None` if the credential is longer than a byte can say. */
  ghost function HeaderBytes(p: Params, cha: Key, aes: Key, d: Draw): Option<Bytes>
    requires ValidDraw(d)
  {
    if |p.credentialIdFido.GetOr([])| > 255 then None else
    var inner := ChaSeal(cha, d.chaNonce, 0, false, Ascii("header_cha"), Block(p, d));
    Some(d.saltHeaderPw + d.saltHeaderEnc + AesSeal(aes, d.aesNonce, U32_MAX, true, Ascii("header_aes"), inner))
  }

  /**
    `create_header`. It fails exactly when the credential is longer than a byte can say; otherwise
    the length is always the same and everything can be read back.
   */
  method CreateHeader(p: Params, cha: Key, aes: Key, d: Draw) returns (r: Option<Bytes>)
    requires ValidParams(p) && ValidDraw(d)
    ensures r == HeaderBytes(p, cha, aes, d)
    ensures r.Some? <==> |p.credentialIdFido.GetOr([])| <= 255
    ensures r.Some? ==> |r.value| == HEADER_SIZE && r.value[..SALT_SIZE] == d.saltHeaderPw
    ensures r.Some? ==> r.value[SALT_SIZE..2 * SALT_SIZE] == d.saltHeaderEnc
    ensures r.Some? ==>
      DecodeHeader(cha, aes, r.value[2 * SALT_SIZE..]) == Some((FILE_FORMAT_VERSION, Kept(p, d.filler)))
  {
    hide DecodeHeader, Fields, ChaSeal, AesSeal;
    var header := d.saltHeaderPw;
    header := header + d.saltHeaderEnc;
    var buf := LE(FILE_FORMAT_VERSION, 1) + LE(FlagByte(p), 1);
    buf := buf + p.saltBodyPw;
    buf := buf + p.saltBodyEnc;
    buf := buf + p.fileId;
    var fido := if p.saltBodyFido.Some? then p.saltBodyFido.value else d.filler;
    buf := buf + fido;
    var credential := p.credentialIdFido.GetOr([]);
    if |credential| > 255 {
      return None;
    }
    buf := buf + LE(|credential|, 1);
    buf := buf + credential;
    buf := buf + d.padding[..MAX_CREDENTIAL_ID_FIDO_SIZE - |credential|];
    assert buf == Block(p, d);
    var sealed := SealHeader(buf, cha, aes, d.chaNonce, d.aesNonce);
    header := header + sealed;
    HeaderDecodes(p, cha, aes, d);
    return Some(header);
  }

  /** What was written is read back, by anybody who has the two header keys. */
  lemma HeaderDecodes(p: Params, cha: Key, aes: Key, d: Draw)
    requires ValidParams(p) && ValidDraw(d) && |p.credentialIdFido.GetOr([])| <= 255
    ensures var h := HeaderBytes(p, cha, aes, d).value;
      && |h| == HEADER_SIZE && h[..SALT_SIZE] == d.saltHeaderPw && h[SALT_SIZE..2 * SALT_SIZE] == d.saltHeaderEnc
      && DecodeHeader(cha, aes, h[2 * SALT_SIZE..]) == Some((FILE_FORMAT_VERSION, Kept(p, d.filler)))
  {
    hide AesOpen, AesSeal, ChaOpen, ChaSeal, Fields;
    var block := Block(p, d);
    var inner := ChaSeal(cha, d.chaNonce, 0, false, Ascii("header_cha"), block);
    var sealed := AesSeal(aes, d.aesNonce, U32_MAX, true, Ascii("header_aes"), inner);
    ChaOpensOnlyInPlace(cha, d.chaNonce, 0, false, 0, false, Ascii("header_cha"), block);
    AesOpensOnlyInPlace(aes, d.aesNonce, U32_MAX, true, U32_MAX, true, Ascii("header_aes"), inner);
    FieldsOfBlock(p, d.filler, block, d.padding);
    var h := d.saltHeaderPw + d.saltHeaderEnc + sealed;
    assert h[2 * SALT_SIZE..] == sealed;
  }

  method SealHeader(h: Bytes, cha: Key, aes: Key, chaNonce: Nonce, aesNonce: Nonce) returns (body: Bytes)
    requires |chaNonce| == CHA_NONCE_SIZE && |aesNonce| == AES_NONCE_SIZE
    ensures body == AesSeal(aes, aesNonce, U32_MAX, true, Ascii("header_aes"),
                            ChaSeal(cha, chaNonce, 0, false, Ascii("header_cha"), h))
    ensures |body| == |h| + OVERHEAD && OpenHeader(cha, aes, body) == Some(h)
  {
    hide AesOpen, AesSeal, ChaOpen, ChaSeal;
    var inner := ChaEncryptBuffer(cha, h, chaNonce, 0, false, Ascii("header_cha"));
    body := AesEncryptBuffer(aes, inner, aesNonce, U32_MAX, true, Ascii("header_aes"));
    ChaOpensOnlyInPlace(cha, chaNonce, 0, false, 0, false, Ascii("header_cha"), h);
    AesOpensOnlyInPlace(aes, aesNonce, U32_MAX, true, U32_MAX, true, Ascii("header_aes"), inner);
  }

  /** The block is read back field by field, whatever the padding. */
  lemma FieldsOfBlock(p: Params, filler: Bytes, h: Bytes, random: Bytes)
    requires ValidParams(p) && |filler| == SALT_SIZE && |p.credentialIdFido.GetOr([])| <= 255
    requires |random| == MAX_CREDENTIAL_ID_FIDO_SIZE
    requires var credential := p.credentialIdFido.GetOr([]);
      h == LE(FILE_FORMAT_VERSION, 1) + LE(FlagByte(p), 1) + p.saltBodyPw + p.saltBodyEnc + p.fileId
         + p.saltBodyFido.GetOr(filler) + LE(|credential|, 1) + credential
         + random[..MAX_CREDENTIAL_ID_FIDO_SIZE - |credential|]
    ensures |h| == HEADER_SIZE - 2 * SALT_SIZE - OVERHEAD
    ensures Fields(h) == Some((FILE_FORMAT_VERSION, Kept(p, filler)))
  {
    var credential := p.credentialIdFido.GetOr([]);
    ByteOfLE(FILE_FORMAT_VERSION);
    ByteOfLE(FlagByte(p));
    ByteOfLE(|credential|);
    BlockSlices(LE(FILE_FORMAT_VERSION, 1), LE(FlagByte(p), 1), p.saltBodyPw, p.saltBodyEnc, p.fileId,
      p.saltBodyFido.GetOr(filler), LE(|credential|, 1), credential,
      random[..MAX_CREDENTIAL_ID_FIDO_SIZE - |credential|]);
    FlagsOfByte(p);
    hide LE, FlagByte;
  }

  /** The offsets of the fields. */
  lemma BlockSlices(version: Bytes, flags: Bytes, pw: Bytes, enc: Bytes, id: Bytes, fido: Bytes, len: Bytes,
                    credential: Bytes, padding: Bytes)
    requires |version| == |flags| == |len| == 1
    requires |pw| == |enc| == |id| == |fido| == SALT_SIZE == FILE_ID_SIZE
    ensures var h := version + flags + pw + enc + id + fido + len + credential + padding;
      && h[0] == version[0] && h[1] == flags[0] && h[130] == len[0]
      && h[2..34] == pw && h[34..66] == enc && h[66..98] == id && h[98..130] == fido
      && h[131..131 + |credential|] == credential
  {
    var front, back := version + flags + pw + enc + id, fido + len + credential + padding;
    FrontSlices(version + flags, pw, enc, id, back);
    BackSlices(fido, len, credential, padding);
    var h := front + back;
    assert h == version + flags + pw + enc + id + fido + len + credential + padding;
    assert h[98..130] == back[..32] && h[130] == back[32] && h[131..131 + |credential|] == back[33..33 + |credential|];
  }

  lemma FrontSlices(v: Bytes, pw: Bytes, enc: Bytes, id: Bytes, t: Bytes)
    requires |v| == 2 && |pw| == |enc| == |id| == SALT_SIZE
    ensures var h := v + pw + enc + id + t;
      h[..2] == v && h[2..34] == pw && h[34..66] == enc && h[66..98] == id && h[98..] == t
  {
  }

  lemma BackSlices(fido: Bytes, len: Bytes, credential: Bytes, padding: Bytes)
    requires |fido| == SALT_SIZE && |len| == 1
    ensures var b := fido + len + credential + padding;
      b[..32] == fido && b[32] == len[0] && b[33..33 + |credential|] == credential
  {
  }

  lemma ByteOfLE(n: nat)
    requires n < 256
    ensures Value(LE(n, 1)[0]) == n
  {
    assert LE(n, 1) == [Raw((n % 256) as Octet)] + [];
  }

  lemma FlagsOfByte(p: Params)
    ensures var n := FlagByte(p);
      && (n % 2 != 0) == p.compress && (n / 2 % 2 != 0) == p.archive
      && (n / 4 % 2 != 0) == p.keyfile && (n / 8 % 2 != 0) == p.usbKey
  {
  }

  /** `get_unencrypted_header_items`: removes the two clear salts from the front. */
  method GetUnencryptedHeaderItems(header: Bytes) returns (saltHeaderPw: Bytes, saltHeaderEnc: Bytes, rest: Bytes)
    requires |header| >= 2 * SALT_SIZE
    ensures header == saltHeaderPw + saltHeaderEnc + rest
    ensures |saltHeaderPw| == |saltHeaderEnc| == SALT_SIZE
  {
    rest := header;
    saltHeaderPw, rest := rest[..SALT_SIZE], rest[SALT_SIZE..];
    saltHeaderEnc, rest := rest[..SALT_SIZE], rest[SALT_SIZE..];
  }

  /** `get_encrypted_header_items`: both layers, then a walk through the block with start and end index. */
  method GetEncryptedHeaderItems(encHeader: Bytes, cha: Key, aes: Key) returns (r: Option<(nat, Params)>)
    ensures r == DecodeHeader(cha, aes, encHeader)
  {
    var inner := AesDecryptBuffer(aes, encHeader, U32_MAX, true, Ascii("header_aes"));
    if inner.None? {
      return None;
    }
    var plain := ChaDecryptBuffer(cha, inner.value, 0, false, Ascii("header_cha"));
    if plain.None? {
      return None;
    }
    r := ReadFields(plain.value);
  }

  method ReadFields(h: Bytes) returns (r: Option<(nat, Params)>)
    ensures r == Fields(h)
  {
    if |h| < 2 + 2 * SALT_SIZE + FILE_ID_SIZE {
      return None;
    }
    var version, format := Value(h[0]), Value(h[1]);
    var compress := format % 2 != 0;
    var archive := format / 2 % 2 != 0;
    var keyfile := format / 4 % 2 != 0;
    var usbKey := format / 8 % 2 != 0;
    var s := 2;
    var e := s + SALT_SIZE;
    var saltBodyPw := h[s..e];
    s := e;
    e := e + SALT_SIZE;
    var saltBodyEnc := h[s..e];
    s := e;
    e := e + FILE_ID_SIZE;
    var fileId := h[s..e];
    var saltBodyFido, credentialIdFido: Option<Bytes> := None, None;
    if usbKey {
      s := e;
      e := e + SALT_SIZE;
      if |h| <= e {
        return None;
      }
      saltBodyFido := Some(h[s..e]);
      var len := Value(h[e]);
      s := e + 1;
      e := s + len;
      if |h| < e {
        return None;
      }
      credentialIdFido := Some(h[s..e]);
    }
    r := Some((version, Params(saltBodyPw, saltBodyEnc, fileId, saltBodyFido, credentialIdFido,
      compress, archive, keyfile, usbKey)));
  }
}
