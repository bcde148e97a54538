/** How much a vault can list: a load reads at most ten mebibytes of sealed metadata, and a table can
    grow past that. */
module VaultLimit {
  import opened Bytes
  import opened VaultCrypto
  import opened Vault
  import opened VaultInvariant
  import opened VaultRefinement
  import Bincode

  /** What was saved is found again if and only if the sealed block is within what a load reads;
      supposing that a longer one, cut there, does not open. */
  lemma LoadsExactlyWithinLimit(
    env: Env, file: bytes, meta: Metadata, dek: bytes, offset: nat, d: Draw, password: bytes)
    requires env.Sound() && Sized(meta) && d.Valid() && IsU64(offset) && HEADER_SIZE <= offset <= |file|
    requires env.unlock(password, file[8..HEADER_SIZE]) == Some(dek)
    requires var block := SealedMetadata(env, dek, meta, d);
      |block| > MAX_METADATA_READ ==> !DecryptChunk(env.cipher, dek, block[..MAX_METADATA_READ], METADATA_FILE_ID).Plain?
    ensures Load(env, Save(env, file, meta, dek, offset, d), password) ==
      if |SealedMetadata(env, dek, meta, d)| <= MAX_METADATA_READ then Some(Loaded(meta, dek, offset)) else None
  {
    SavedTail(env, file, meta, dek, offset, d);
    HeaderKept(Save(env, file, meta, dek, offset, d), file, offset);
    var block, r := SealedMetadata(env, dek, meta, d), Save(env, file, meta, dek, offset, d);
    BlockRead(r, offset, block);
    LoadIsOpening(env, r, password, dek, offset);
    ChunkRoundTrip(env.cipher, dek, d.salt, d.nonce, METADATA_FILE_ID, env.encode(meta));
  }

  /** What opening a block of metadata comes to. */
  function Opening(env: Env, dek: bytes, offset: nat, block: bytes): Option<Loaded> {
    match DecryptChunk(env.cipher, dek, block, METADATA_FILE_ID)
    case Plain(text) =>
      var meta :- env.decode(text);
      Some(Loaded(meta, dek, offset))
    case _ => None
  }

  lemma LoadIsOpening(env: Env, r: bytes, password: bytes, dek: bytes, offset: nat)
    requires HEADER_SIZE <= offset <= |r| && IsU64(offset) && r[..8] == U64Le(offset)
    requires env.unlock(password, r[8..HEADER_SIZE]) == Some(dek)
    ensures Load(env, r, password) == Opening(env, dek, offset, r[offset..Min(|r|, offset + MAX_METADATA_READ)])
  {
    U64LeRoundTrip(offset);
  }

  lemma HeaderKept(r: bytes, file: bytes, offset: nat)
    requires HEADER_SIZE <= offset <= |r| && offset <= |file| && r[8..offset] == file[8..offset]
    ensures r[8..HEADER_SIZE] == file[8..HEADER_SIZE]
  {
    SubSlice(r, 8, offset, 8, HEADER_SIZE);
    SubSlice(file, 8, offset, 8, HEADER_SIZE);
  }

  /** The part of the block that a load reads. */
  lemma BlockRead(r: bytes, offset: nat, block: bytes)
    requires |r| == offset + |block| && r[offset..] == block
    ensures r[offset..Min(|r|, offset + MAX_METADATA_READ)] ==
      if |block| <= MAX_METADATA_READ then block else block[..MAX_METADATA_READ]
  {
    if |block| > MAX_METADATA_READ { SubSlice(r, offset, |r|, offset, offset + MAX_METADATA_READ); }
  }

  lemma SavedTail(env: Env, file: bytes, meta: Metadata, dek: bytes, offset: nat, d: Draw)
    requires env.Sound() && d.Valid() && HEADER_SIZE <= offset <= |file|
    ensures var block, r := SealedMetadata(env, dek, meta, d), Save(env, file, meta, dek, offset, d);
      |r| == offset + |block| && r[offset..] == block && r[8..offset] == file[8..offset] && r[..8] == U64Le(offset)
  {
    var block := SealedMetadata(env, dek, meta, d);
    var cut := SetLen(WriteAt(file, offset, block), offset + |block|);
    assert cut == file[..offset] + block;
    var r := WriteAt(cut, 0, U64Le(offset));
    assert r == U64Le(offset) + cut[8..];
  }

  // ---- blocks that do not open cut --------------------------------------

  function LengthEnv(unlock: (bytes, bytes) -> Option<bytes>): Env {
    Env(LengthCipher, Bincode.Encode, Bincode.Decode, unlock)
  }

  /** That a cut block does not open can be met: with a cipher that writes the length in front, no
      hypothesis is left, for a table of any size. */
  lemma LimitWithLengths(
    unlock: (bytes, bytes) -> Option<bytes>, file: bytes, meta: Metadata, dek: bytes, offset: nat, d: Draw, password: bytes)
    requires Sized(meta) && IsU64(|Bincode.Encode(meta)|) && d.Valid() && IsU64(offset) && HEADER_SIZE <= offset <= |file|
    requires unlock(password, file[8..HEADER_SIZE]) == Some(dek)
    ensures LengthEnv(unlock).Sound()
    ensures Load(LengthEnv(unlock), Save(LengthEnv(unlock), file, meta, dek, offset, d), password) ==
      if |Bincode.Encode(meta)| + CHUNK_OVERHEAD <= MAX_METADATA_READ then Some(Loaded(meta, dek, offset)) else None
  {
    var env := LengthEnv(unlock);
    LengthCipherSound();
    Bincode.SoundEnvironmentExists(unlock);
    assert Env(ClearCipher, Bincode.Encode, Bincode.Decode, unlock).Sound();
    ChunkRoundTrip(env.cipher, dek, d.salt, d.nonce, METADATA_FILE_ID, env.encode(meta));
    if |SealedMetadata(env, dek, meta, d)| > MAX_METADATA_READ {
      CutChunk(dek, d.salt, d.nonce, METADATA_FILE_ID, env.encode(meta), MAX_METADATA_READ);
    }
    LoadsExactlyWithinLimit(env, file, meta, dek, offset, d, password);
  }

  /** One file whose name alone fills what a load reads. */
  function LongName(): Metadata { Metadata([FileIndex(Zeros(MAX_METADATA_READ), [], 0)], Zeros(32)) }

  /** And a table over the limit exists: saved, it does not load. */
  lemma LimitIsReal(unlock: (bytes, bytes) -> Option<bytes>, file: bytes, dek: bytes, d: Draw, password: bytes)
    requires d.Valid() && HEADER_SIZE <= |file| && unlock(password, file[8..HEADER_SIZE]) == Some(dek)
    ensures Sized(LongName()) && LengthEnv(unlock).Sound()
    ensures Load(LengthEnv(unlock), Save(LengthEnv(unlock), file, LongName(), dek, HEADER_SIZE, d), password) == None
  {
    LongNameSize();
    LimitWithLengths(unlock, file, LongName(), dek, HEADER_SIZE, d, password);
  }

  lemma LongNameSize()
    ensures Sized(LongName()) && |Bincode.Encode(LongName())| == MAX_METADATA_READ + 64
  {
    var f := LongName().table[0];
    assert |Bincode.EncodeChunks([])| == 0;
    assert |Bincode.EncodeFile(f)| == MAX_METADATA_READ + 24;
    assert Bincode.EncodeFiles([f]) == Bincode.EncodeFile(f) + Bincode.EncodeFiles([]);
  }

  // ---- tables that no longer fit ----------------------------------------

  lemma ChunkTakesForty(c: ChunkEntry)
    requires |c.fileId| == FILE_ID_LEN
    ensures |Bincode.EncodeChunk(c)| == 40
  {
  }

  lemma {:induction false} ChunksTakeForty(cs: seq<ChunkEntry>)
    requires FullIds(cs)
    ensures |Bincode.EncodeChunks(cs)| == 40 * |cs|
    decreases |cs|
  {
    if cs != [] {
      ChunkTakesForty(cs[0]);
      ChunksTakeForty(cs[1..]);
    }
  }

  lemma {:induction false} LastFileCounts(table: seq<FileIndex>, f: FileIndex)
    ensures |Bincode.EncodeFiles(table + [f])| >= |Bincode.EncodeFile(f)|
    decreases |table|
  {
    if table == [] {
      assert table + [f] == [f];
    } else {
      assert table + [f] == [table[0]] + (table[1..] + [f]);
      ConsParts(table[0], table[1..] + [f]);
      LastFileCounts(table[1..], f);
    }
  }

  predicate FullIds(cs: seq<ChunkEntry>) { forall i :: 0 <= i < |cs| ==> |cs[i].fileId| == FILE_ID_LEN }

  lemma FullIdsStep(c: ChunkEntry, cs: seq<ChunkEntry>)
    requires FullIds(cs) && |c.fileId| == FILE_ID_LEN
    ensures FullIds([c] + cs)
  {
  }

  lemma {:induction false} OneChunkAPiece(
    env: Env, dek: bytes, file: bytes, offset: nat, pieces: seq<bytes>, rs: seq<PieceDraw>)
    requires |pieces| == |rs| && forall i :: 0 <= i < |rs| ==> |rs[i].fileId| == FILE_ID_LEN
    ensures var cs := AppendPieces(env, dek, file, offset, pieces, rs).chunks; |cs| == |pieces| && FullIds(cs)
    decreases |pieces|
  {
    if pieces != [] {
      var blob := PieceBlob(env, dek, pieces[0], rs[0]);
      OneChunkAPiece(env, dek, WriteAt(file, offset, blob), offset + |blob|, pieces[1..], rs[1..]);
      var rest := AppendPieces(env, dek, WriteAt(file, offset, blob), offset + |blob|, pieces[1..], rs[1..]);
      FullIdsStep(ChunkEntry(|blob|, offset, rs[0].fileId, |pieces[0]|), rest.chunks);
    }
  }

  /** Pieces in an import whose entries alone fill what a load reads. */
  const TOO_MANY_PIECES: nat := 262144

  /** The limit is reached by imports: one of 262144 pieces or more, such as any of two gibibytes, is
      saved and is over the limit. */
  lemma ImportOutgrowsLoad(
    env: Env, s: State, name: bytes, pieces: seq<bytes>, rs: seq<PieceDraw>, modified: nat, d: Draw)
    requires env.Sound() && env.encode == Bincode.Encode && d.Valid() && |pieces| == |rs| >= TOO_MANY_PIECES
    requires forall i :: 0 <= i < |rs| ==> |rs[i].fileId| == FILE_ID_LEN
    requires Import(env, s, name, pieces, rs, modified, d).Some?
    ensures var t := Import(env, s, name, pieces, rs, modified, d).value;
      |SealedMetadata(env, t.dek, t.meta, d)| > MAX_METADATA_READ
  {
    var t := Import(env, s, name, pieces, rs, modified, d).value;
    var a := AppendPieces(env, s.dek, s.file, s.offset, pieces, rs);
    OneChunkAPiece(env, s.dek, s.file, s.offset, pieces, rs);
    ChunksTakeForty(a.chunks);
    var f := FileIndex(name, a.chunks, modified);
    assert t.meta.table == s.meta.table + [f];
    LastFileCounts(s.meta.table, f);
    ChunkRoundTrip(env.cipher, t.dek, d.salt, d.nonce, METADATA_FILE_ID, env.encode(t.meta));
  }

  /** And then the vault does not open any more. */
  lemma OutgrownDoesNotOpen(
    env: Env, s: State, name: bytes, pieces: seq<bytes>, rs: seq<PieceDraw>, modified: nat, d: Draw, password: bytes)
    requires env.Sound() && env.encode == Bincode.Encode && d.Valid() && |pieces| == |rs| >= TOO_MANY_PIECES
    requires WellFormed(env, s) && ValidPieces(pieces, rs) && env.unlock(password, s.file[8..HEADER_SIZE]) == Some(s.dek)
    requires Import(env, s, name, pieces, rs, modified, d).Some?
    requires var t := Import(env, s, name, pieces, rs, modified, d).value;
      && Sized(t.meta) && IsU64(t.offset)
      && var block := SealedMetadata(env, t.dek, t.meta, d);
         |block| > MAX_METADATA_READ ==> !DecryptChunk(env.cipher, t.dek, block[..MAX_METADATA_READ], METADATA_FILE_ID).Plain?
    ensures Load(env, Import(env, s, name, pieces, rs, modified, d).value.file, password) == None
  {
    var t := Import(env, s, name, pieces, rs, modified, d).value;
    var a := AppendPieces(env, s.dek, s.file, s.offset, pieces, rs);
    assert forall i :: 0 <= i < |rs| ==> ValidPiece(pieces[i], rs[i]);
    AppendedHeader(env, s, pieces, rs);
    ImportOutgrowsLoad(env, s, name, pieces, rs, modified, d);
    assert t.file == Save(env, a.file, t.meta, s.dek, a.offset, d);
    LoadsExactlyWithinLimit(env, a.file, t.meta, s.dek, a.offset, d, password);
  }

  lemma AppendedHeader(env: Env, s: State, pieces: seq<bytes>, rs: seq<PieceDraw>)
    requires env.Sound() && WellFormed(env, s) && ValidPieces(pieces, rs)
    ensures var a := AppendPieces(env, s.dek, s.file, s.offset, pieces, rs);
      HEADER_SIZE <= a.offset <= |a.file| && a.file[8..HEADER_SIZE] == s.file[8..HEADER_SIZE]
  {
    var a := AppendPieces(env, s.dek, s.file, s.offset, pieces, rs);
    AppendReads(env, s.dek, s.file, s.offset, pieces, rs);
    SubSlice(a.file, 0, s.offset, 8, HEADER_SIZE);
    SubSlice(s.file, 0, s.offset, 8, HEADER_SIZE);
  }
}
