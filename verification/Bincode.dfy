/** The metadata table in bincode's fixed-width form: 64-bit little-endian words, sequences and
    strings behind their length, fixed arrays bare, and trailing bytes ignored. */
module Bincode {
  import opened Bytes
  import opened Cursor
  import opened VaultCrypto
  import opened Vault

  function Word(b: bytes): Option<Read<nat>> {
    var r :- Take(b, 8);
    Some(Read(FromLittleEndian(r.value), r.rest))
  }

  lemma WordBack(n: nat, rest: bytes)
    requires IsU64(n)
    ensures Word(U64Le(n) + rest) == Some(Read(n, rest))
  {
    TakeBack(U64Le(n), rest);
    U64LeRoundTrip(n);
  }

  // ---- chunks -----------------------------------------------------------

  function EncodeChunk(c: ChunkEntry): bytes {
    U64Le(c.cipherLen) + (U64Le(c.offset) + (c.fileId + U64Le(c.plainLen)))
  }

  function DecodeChunk(b: bytes): Option<Read<ChunkEntry>> {
    var len :- Word(b);
    var off :- Word(len.rest);
    var id :- Take(off.rest, FILE_ID_LEN);
    var plain :- Word(id.rest);
    Some(Read(ChunkEntry(len.value, off.value, id.value, plain.value), plain.rest))
  }

  lemma ChunkBack(c: ChunkEntry, rest: bytes)
    requires SizedChunk(c)
    ensures DecodeChunk(EncodeChunk(c) + rest) == Some(Read(c, rest))
  {
    var r3 := U64Le(c.plainLen) + rest;
    var r2 := c.fileId + r3;
    var r1 := U64Le(c.offset) + r2;
    assert EncodeChunk(c) + rest == U64Le(c.cipherLen) + r1;
    WordBack(c.cipherLen, r1);
    WordBack(c.offset, r2);
    TakeBack(c.fileId, r3);
    WordBack(c.plainLen, rest);
  }

  function EncodeChunks(cs: seq<ChunkEntry>): bytes {
    if cs == [] then [] else EncodeChunk(cs[0]) + EncodeChunks(cs[1..])
  }

  function DecodeChunks(n: nat, b: bytes): Option<Read<seq<ChunkEntry>>> {
    if n == 0 then Some(Read([], b))
    else
      var head :- DecodeChunk(b);
      var tail :- DecodeChunks(n - 1, head.rest);
      Some(Read([head.value] + tail.value, tail.rest))
  }

  lemma ChunksStep(n: nat, b: bytes, c: ChunkEntry, tail: bytes, cs: seq<ChunkEntry>, rest: bytes)
    requires DecodeChunk(b) == Some(Read(c, tail)) && DecodeChunks(n, tail) == Some(Read(cs, rest))
    ensures DecodeChunks(n + 1, b) == Some(Read([c] + cs, rest))
  {
  }

  lemma {:induction false} ChunksBack(cs: seq<ChunkEntry>, rest: bytes)
    requires forall i :: 0 <= i < |cs| ==> SizedChunk(cs[i])
    ensures DecodeChunks(|cs|, EncodeChunks(cs) + rest) == Some(Read(cs, rest))
    decreases |cs|
  {
    if cs != [] {
      var tail := EncodeChunks(cs[1..]) + rest;
      assert EncodeChunks(cs) + rest == EncodeChunk(cs[0]) + tail;
      ChunkBack(cs[0], tail);
      ChunksBack(cs[1..], rest);
      ChunksStep(|cs| - 1, EncodeChunk(cs[0]) + tail, cs[0], tail, cs[1..], rest);
      assert cs == [cs[0]] + cs[1..];
    } else {
      assert EncodeChunks(cs) + rest == rest;
    }
  }

  // ---- files ------------------------------------------------------------

  function EncodeFile(f: FileIndex): bytes {
    U64Le(|f.name|) + (f.name + (U64Le(|f.chunks|) + (EncodeChunks(f.chunks) + U64Le(f.modified))))
  }

  function DecodeFile(b: bytes): Option<Read<FileIndex>> {
    var len :- Word(b);
    var name :- Take(len.rest, len.value);
    var count :- Word(name.rest);
    var cs :- DecodeChunks(count.value, count.rest);
    var modified :- Word(cs.rest);
    Some(Read(FileIndex(name.value, cs.value, modified.value), modified.rest))
  }

  lemma FileBack(f: FileIndex, rest: bytes)
    requires SizedFile(f)
    ensures DecodeFile(EncodeFile(f) + rest) == Some(Read(f, rest))
  {
    var r4 := U64Le(f.modified) + rest;
    var r3 := EncodeChunks(f.chunks) + r4;
    var r2 := U64Le(|f.chunks|) + r3;
    var r1 := f.name + r2;
    assert EncodeFile(f) + rest == U64Le(|f.name|) + r1;
    WordBack(|f.name|, r1);
    TakeBack(f.name, r2);
    WordBack(|f.chunks|, r3);
    ChunksBack(f.chunks, r4);
    WordBack(f.modified, rest);
  }

  function EncodeFiles(fs: seq<FileIndex>): bytes {
    if fs == [] then [] else EncodeFile(fs[0]) + EncodeFiles(fs[1..])
  }

  function DecodeFiles(n: nat, b: bytes): Option<Read<seq<FileIndex>>> {
    if n == 0 then Some(Read([], b))
    else
      var head :- DecodeFile(b);
      var tail :- DecodeFiles(n - 1, head.rest);
      Some(Read([head.value] + tail.value, tail.rest))
  }

  lemma FilesStep(n: nat, b: bytes, f: FileIndex, tail: bytes, fs: seq<FileIndex>, rest: bytes)
    requires DecodeFile(b) == Some(Read(f, tail)) && DecodeFiles(n, tail) == Some(Read(fs, rest))
    ensures DecodeFiles(n + 1, b) == Some(Read([f] + fs, rest))
  {
  }

  lemma {:induction false} FilesBack(fs: seq<FileIndex>, rest: bytes)
    requires forall i :: 0 <= i < |fs| ==> SizedFile(fs[i])
    ensures DecodeFiles(|fs|, EncodeFiles(fs) + rest) == Some(Read(fs, rest))
    decreases |fs|
  {
    if fs != [] {
      var tail := EncodeFiles(fs[1..]) + rest;
      assert EncodeFiles(fs) + rest == EncodeFile(fs[0]) + tail;
      FileBack(fs[0], tail);
      FilesBack(fs[1..], rest);
      FilesStep(|fs| - 1, EncodeFile(fs[0]) + tail, fs[0], tail, fs[1..], rest);
      assert fs == [fs[0]] + fs[1..];
    } else {
      assert EncodeFiles(fs) + rest == rest;
    }
  }

  // ---- the table --------------------------------------------------------

  function Encode(m: Metadata): bytes { U64Le(|m.table|) + (EncodeFiles(m.table) + m.cdcSalt) }

  function Decode(b: bytes): Option<Metadata> {
    var count :- Word(b);
    var fs :- DecodeFiles(count.value, count.rest);
    var salt :- Take(fs.rest, 32);
    Some(Metadata(fs.value, salt.value))
  }

  /** Every table whose numbers fit 64 bits decodes to itself, whatever follows it. */
  lemma TableBack(m: Metadata, rest: bytes)
    requires Sized(m)
    ensures Decode(Encode(m) + rest) == Some(m)
  {
    var r2 := m.cdcSalt + rest;
    var r1 := EncodeFiles(m.table) + r2;
    assert Encode(m) + rest == U64Le(|m.table|) + r1;
    WordBack(|m.table|, r1);
    FilesBack(m.table, r2);
    TakeBack(m.cdcSalt, rest);
  }

  /** The hypotheses about cipher and serializer are met together by a concrete environment. */
  lemma SoundEnvironmentExists(unlock: (bytes, bytes) -> Option<bytes>)
    ensures Env(ClearCipher, Encode, Decode, unlock).Sound()
  {
    CipherExists();
    forall m: Metadata | Sized(m) ensures Decode(Encode(m)) == Some(m) {
      TableBack(m, []);
      assert Encode(m) + [] == Encode(m);
    }
  }
}
