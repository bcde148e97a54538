/** The chunk blobs of the vault: `magic(3) || salt(16) || nonce(24) || ciphertext || tag(16)`. */
module VaultCrypto {
  import opened Bytes

  const MAGIC_V1: bytes := [0x41, 0x56, 1]
  const FILE_SALT_LEN: nat := 16
  const XNONCE_LEN: nat := 24
  const FILE_ID_LEN: nat := 16
  const TAG_LEN: nat := 16
  const CHUNK_OVERHEAD: nat := 3 + FILE_SALT_LEN + XNONCE_LEN + TAG_LEN
  const MAX_CHUNK_SIZE: nat := 8192

  /** "atom-vault-meta1" */
  const METADATA_FILE_ID: bytes :=
    [0x61, 0x74, 0x6f, 0x6d, 0x2d, 0x76, 0x61, 0x75, 0x6c, 0x74, 0x2d, 0x6d, 0x65, 0x74, 0x61, 0x31]

  /** The key derivation and the AEAD, as ideal functions: `derive(dek, salt, fileId)`,
      `seal(key, nonce, aad, message)` and `open(key, nonce, aad, ciphertext)`. */
  datatype Cipher = Cipher(
    derive: (bytes, bytes, bytes) -> bytes,
    seal: (bytes, bytes, bytes, bytes) -> bytes,
    open: (bytes, bytes, bytes, bytes) -> Option<bytes>)
  {
    /** The tag adds 16 bytes, and opening undoes sealing under the same key, nonce and AAD. */
    ghost predicate Sound() {
      forall k: bytes, n: bytes, a: bytes, m: bytes ::
        |seal(k, n, a, m)| == |m| + TAG_LEN && open(k, n, a, seal(k, n, a, m)) == Some(m)
    }
  }

  datatype Opened = Plain(text: bytes) | BadFormat | OpenFailed

  function ChunkAad(fileId: bytes): bytes { MAGIC_V1 + fileId }

  function EncryptChunk(c: Cipher, dek: bytes, salt: bytes, nonce: bytes, fileId: bytes, plain: bytes): bytes {
    MAGIC_V1 + salt + nonce + c.seal(c.derive(dek, salt, fileId), nonce, ChunkAad(fileId), plain)
  }

  function DecryptChunk(c: Cipher, dek: bytes, blob: bytes, fileId: bytes): Opened {
    if |blob| < 3 || blob[..3] != MAGIC_V1 then BadFormat
    else
      var rest := blob[3..];
      if |rest| < FILE_SALT_LEN + XNONCE_LEN + TAG_LEN then BadFormat
      else
        var salt, nonce := rest[..FILE_SALT_LEN], rest[FILE_SALT_LEN..FILE_SALT_LEN + XNONCE_LEN];
        match c.open(c.derive(dek, salt, fileId), nonce, ChunkAad(fileId), rest[FILE_SALT_LEN + XNONCE_LEN..])
        case Some(m) => Plain(m)
        case None => OpenFailed
  }

  /** Sealing adds exactly the overhead, and opening under the same id gives the plaintext back. */
  lemma ChunkRoundTrip(c: Cipher, dek: bytes, salt: bytes, nonce: bytes, fileId: bytes, plain: bytes)
    requires c.Sound() && |salt| == FILE_SALT_LEN && |nonce| == XNONCE_LEN
    ensures |EncryptChunk(c, dek, salt, nonce, fileId, plain)| == |plain| + CHUNK_OVERHEAD
    ensures DecryptChunk(c, dek, EncryptChunk(c, dek, salt, nonce, fileId, plain), fileId) == Plain(plain)
  {
    var k := c.derive(dek, salt, fileId);
    var sealed := c.seal(k, nonce, ChunkAad(fileId), plain);
    assert |sealed| == |plain| + TAG_LEN;
    var blob := MAGIC_V1 + salt + nonce + sealed;
    var rest := blob[3..];
    assert blob[..3] == MAGIC_V1;
    assert rest[..FILE_SALT_LEN] == salt;
    assert rest[FILE_SALT_LEN..FILE_SALT_LEN + XNONCE_LEN] == nonce;
    assert rest[FILE_SALT_LEN + XNONCE_LEN..] == sealed;
  }

  /** The laws asked of a cipher can be met. */
  const ClearCipher := Cipher(
    (dek: bytes, salt: bytes, id: bytes) => dek,
    (k: bytes, n: bytes, a: bytes, m: bytes) => m + Zeros(TAG_LEN),
    (k: bytes, n: bytes, a: bytes, c: bytes) => if |c| < TAG_LEN then None else Some(c[..|c| - TAG_LEN]))

  lemma CipherExists()
    ensures ClearCipher.Sound()
  {
    forall k: bytes, n: bytes, a: bytes, m: bytes
      ensures |ClearCipher.seal(k, n, a, m)| == |m| + TAG_LEN
      ensures ClearCipher.open(k, n, a, ClearCipher.seal(k, n, a, m)) == Some(m)
    {
      assert (m + Zeros(TAG_LEN))[..|m|] == m;
    }
  }

  /** A tag that names the length, in front. */
  function LengthTag(n: nat): (r: bytes)
    ensures |r| == TAG_LEN
  {
    U64Be(n) + Zeros(8)
  }

  /** A cipher that notices when a ciphertext was cut short. */
  const LengthCipher := Cipher(
    (dek: bytes, salt: bytes, id: bytes) => dek,
    (k: bytes, n: bytes, a: bytes, m: bytes) => LengthTag(|m|) + m,
    (k: bytes, n: bytes, a: bytes, c: bytes) =>
      if |c| < TAG_LEN || c[..TAG_LEN] != LengthTag(|c| - TAG_LEN) then None else Some(c[TAG_LEN..]))

  lemma LengthCipherSound()
    ensures LengthCipher.Sound()
  {
    forall k: bytes, n: bytes, a: bytes, m: bytes
      ensures |LengthCipher.seal(k, n, a, m)| == |m| + TAG_LEN
      ensures LengthCipher.open(k, n, a, LengthCipher.seal(k, n, a, m)) == Some(m)
    {
      var c := LengthTag(|m|) + m;
      assert c[..TAG_LEN] == LengthTag(|m|) && c[TAG_LEN..] == m;
    }
  }

  lemma TagsDiffer(a: nat, b: nat)
    requires IsU64(a) && IsU64(b) && a != b
    ensures LengthTag(a) != LengthTag(b)
  {
    U64BeRoundTrip(a);
    U64BeRoundTrip(b);
    assert LengthTag(a)[..8] == U64Be(a) && LengthTag(b)[..8] == U64Be(b);
  }

  /** Under that cipher no sealed chunk opens once its end is missing. */
  lemma CutChunk(dek: bytes, salt: bytes, nonce: bytes, fileId: bytes, plain: bytes, n: nat)
    requires |salt| == FILE_SALT_LEN && |nonce| == XNONCE_LEN && IsU64(|plain|)
    requires n < |EncryptChunk(LengthCipher, dek, salt, nonce, fileId, plain)|
    ensures !DecryptChunk(LengthCipher, dek, EncryptChunk(LengthCipher, dek, salt, nonce, fileId, plain)[..n], fileId).Plain?
  {
    var front := MAGIC_V1 + salt + nonce;
    var sealed := LengthTag(|plain|) + plain;
    var cut := (front + sealed)[..n];
    if n >= CHUNK_OVERHEAD {
      var rest := cut[3..][FILE_SALT_LEN + XNONCE_LEN..];
      assert rest == sealed[..n - |front|];
      assert rest[..TAG_LEN] == LengthTag(|plain|);
      TagsDiffer(|plain|, |rest| - TAG_LEN);
    }
  }
}
