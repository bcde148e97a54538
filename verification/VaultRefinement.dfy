/** The vault refines a map from names to byte strings. */
module VaultRefinement {
  import opened Bytes
  import opened VaultCrypto
  import opened Vault
  import opened VaultInvariant

  // ---- the abstract value -----------------------------------------------

  function Lookup(m: map<bytes, bytes>, name: bytes): Option<bytes> {
    if name in m then Some(m[name]) else None
  }

  /** The vault stands for `m`: `decrypt_to_bytes` answers every name as the map does. */
  ghost predicate Represents(env: Env, s: State, m: map<bytes, bytes>) {
    forall n: bytes :: DecryptToBytes(env, s, n) == Lookup(m, n)
  }

  lemma FindByName(table: seq<FileIndex>, i: nat)
    requires Distinct(table) && i < |table|
    ensures Find(table, table[i].name) == i
  {
  }

  /** In a live vault every listed name reads, so a missing answer means a missing name. */
  lemma LiveReads(env: Env, s: State, name: bytes)
    requires Live(env, s.dek, s.file, All(s.meta.table), s.offset)
    ensures DecryptToBytes(env, s, name).Some? <==> Find(s.meta.table, name) < |s.meta.table|
  {
    var i := Find(s.meta.table, name);
    if i < |s.meta.table| {
      LiveFile(env, s, i);
      ReadableReads(env, s.dek, s.file, s.meta.table[i].chunks);
    }
  }

  // ---- import -----------------------------------------------------------

  function Joined(pieces: seq<bytes>): bytes {
    if pieces == [] then [] else pieces[0] + Joined(pieces[1..])
  }

  /** Nonempty pieces of at most 8192 bytes, each padded to exactly that. */
  predicate ValidPieces(pieces: seq<bytes>, rs: seq<PieceDraw>) {
    && |pieces| == |rs|
    && forall i :: 0 <= i < |pieces| ==> ValidPiece(pieces[i], rs[i])
  }

  predicate ValidPiece(piece: bytes, r: PieceDraw) {
    && 1 <= |piece| <= MAX_CHUNK_SIZE && |piece| + |r.pad| == MAX_CHUNK_SIZE
    && r.draw.Valid() && |r.fileId| == FILE_ID_LEN
  }

  /** Reading a chunk that holds a sealed, padded piece gives the piece. */
  lemma PieceReads(env: Env, dek: bytes, file: bytes, offset: nat, piece: bytes, r: PieceDraw)
    requires env.Sound() && ValidPiece(piece, r)
    requires var blob := PieceBlob(env, dek, piece, r); offset + |blob| <= |file| && file[offset..offset + |blob|] == blob
    ensures var c := ChunkEntry(|PieceBlob(env, dek, piece, r)|, offset, r.fileId, |piece|);
      Readable(env, dek, file, c) && ReadChunk(env, dek, file, c) == Some(piece)
  {
    ChunkRoundTrip(env.cipher, dek, r.draw.salt, r.draw.nonce, r.fileId, piece + r.pad);
    assert (piece + r.pad)[..|piece|] == piece;
  }

  /** Appending keeps every byte below the start, and the new chunks are live, lie above it, and
      read back as the imported data. */
  lemma {:induction false} AppendReads(env: Env, dek: bytes, file: bytes, offset: nat, pieces: seq<bytes>, rs: seq<PieceDraw>)
    requires env.Sound() && ValidPieces(pieces, rs) && offset <= |file|
    ensures var a := AppendPieces(env, dek, file, offset, pieces, rs);
      && offset <= a.offset <= |a.file| && a.file[..offset] == file[..offset]
      && Disjoint(a.chunks) && Within(a.chunks, offset, a.offset) && AllReadable(env, dek, a.file, a.chunks)
      && ReadChunks(env, dek, a.file, a.chunks) == Some(Joined(pieces))
    decreases |pieces|
  {
    if pieces != [] {
      assert ValidPiece(pieces[0], rs[0]);
      assert ValidPieces(pieces[1..], rs[1..]);
      var blob := PieceBlob(env, dek, pieces[0], rs[0]);
      var next := offset + |blob|;
      var file' := WriteAt(file, offset, blob);
      WriteAtHit(file, offset, blob);
      AppendReads(env, dek, file', next, pieces[1..], rs[1..]);
      var rest := AppendPieces(env, dek, file', next, pieces[1..], rs[1..]);
      FirstPieceStays(file, offset, blob, rest.file);
      PieceReads(env, dek, rest.file, offset, pieces[0], rs[0]);
      var c := ChunkEntry(|blob|, offset, rs[0].fileId, |pieces[0]|);
      AppendedDisjoint(c, rest.chunks, next, rest.offset);
      FirstPieceReads(env, dek, rest.file, c, pieces[0], rest.chunks, Joined(pieces[1..]));
    }
  }

  /** Later pieces are written behind the first. */
  lemma FirstPieceStays(file: bytes, offset: nat, blob: bytes, after: bytes)
    requires offset <= |file| && offset + |blob| <= |after|
    requires after[..offset + |blob|] == WriteAt(file, offset, blob)[..offset + |blob|]
    ensures after[offset..offset + |blob|] == blob && after[..offset] == file[..offset]
  {
    var next, written := offset + |blob|, WriteAt(file, offset, blob);
    WriteAtHit(file, offset, blob);
    WriteAtFrame(file, offset, blob, 0, offset);
    SubSlice(after, 0, next, offset, next);
    SubSlice(written, 0, next, offset, next);
    SubSlice(after, 0, next, 0, offset);
    SubSlice(written, 0, next, 0, offset);
  }

  lemma FirstPieceReads(
    env: Env, dek: bytes, file: bytes, c: ChunkEntry, piece: bytes, cs: seq<ChunkEntry>, data: bytes)
    requires Readable(env, dek, file, c) && ReadChunk(env, dek, file, c) == Some(piece)
    requires AllReadable(env, dek, file, cs) && ReadChunks(env, dek, file, cs) == Some(data)
    ensures AllReadable(env, dek, file, [c] + cs) && ReadChunks(env, dek, file, [c] + cs) == Some(piece + data)
  {
    ConsParts(c, cs);
  }

  lemma AppendedDisjoint(c: ChunkEntry, cs: seq<ChunkEntry>, next: nat, end: nat)
    requires c.offset + c.cipherLen <= next <= end && Disjoint(cs) && Within(cs, next, end)
    ensures Disjoint([c] + cs) && Within([c] + cs, c.offset, end)
  {
    DisjointConcat([c], cs);
  }

  /** What a save at or after the old payload end leaves of a file: the header but for the pointer,
      and every live chunk. */
  lemma SavedKeeps(env: Env, s: State, file: bytes, t: State, d: Draw)
    requires env.Sound() && d.Valid() && HEADER_SIZE <= s.offset <= t.offset <= |file| && s.offset <= |s.file|
    requires file[8..s.offset] == s.file[8..s.offset] && t.dek == s.dek
    requires t.file == Save(env, file, t.meta, t.dek, t.offset, d)
    ensures |t.file| >= t.offset && t.file[..8] == U64Le(t.offset)
    ensures t.file[8..HEADER_SIZE] == s.file[8..HEADER_SIZE]
    ensures t.file[HEADER_SIZE..s.offset] == s.file[HEADER_SIZE..s.offset]
    ensures t.file[s.offset..t.offset] == file[s.offset..t.offset]
    ensures DecryptChunk(env.cipher, t.dek, t.file[t.offset..], METADATA_FILE_ID) == Plain(env.encode(t.meta))
  {
    SaveWrites(env, file, t.meta, t.dek, t.offset, d);
    SubSlice(t.file, 8, t.offset, 8, HEADER_SIZE);
    SubSlice(t.file, 8, t.offset, HEADER_SIZE, s.offset);
    SubSlice(t.file, 8, t.offset, s.offset, t.offset);
    SubSlice(file, 8, t.offset, 8, HEADER_SIZE);
    SubSlice(file, 8, t.offset, HEADER_SIZE, s.offset);
    SubSlice(file, 8, t.offset, s.offset, t.offset);
    SubSlice(file, 8, s.offset, 8, HEADER_SIZE);
    SubSlice(file, 8, s.offset, HEADER_SIZE, s.offset);
    SubSlice(s.file, 8, s.offset, 8, HEADER_SIZE);
    SubSlice(s.file, 8, s.offset, HEADER_SIZE, s.offset);
  }

  lemma ImportKeeps(env: Env, s: State, name: bytes, pieces: seq<bytes>, rs: seq<PieceDraw>, modified: nat, d: Draw)
    requires env.Sound() && WellFormed(env, s) && ValidPieces(pieces, rs) && d.Valid()
    requires var r := Import(env, s, name, pieces, rs, modified, d); r.Some? && Fits(r.value)
    ensures var t := Import(env, s, name, pieces, rs, modified, d).value;
      && WellFormed(env, t) && t.file[8..HEADER_SIZE] == s.file[8..HEADER_SIZE]
      && s.offset <= |t.file| && t.file[HEADER_SIZE..s.offset] == s.file[HEADER_SIZE..s.offset]
      && ReadChunks(env, s.dek, t.file, t.meta.table[|s.meta.table|].chunks) == Some(Joined(pieces))
  {
    var t := Import(env, s, name, pieces, rs, modified, d).value;
    var a := AppendPieces(env, s.dek, s.file, s.offset, pieces, rs);
    AppendReads(env, s.dek, s.file, s.offset, pieces, rs);
    SubSlice(a.file, 0, s.offset, 8, s.offset);
    SubSlice(s.file, 0, s.offset, 8, s.offset);
    SavedKeeps(env, s, a.file, t, d);
    var before := All(s.meta.table);
    SameBetween(s.file, t.file, before, HEADER_SIZE, s.offset);
    LiveFrame(env, s.dek, s.file, t.file, before, s.offset, a.offset);
    SameBetween(a.file, t.file, a.chunks, s.offset, a.offset);
    SameReads(env, s.dek, a.file, a.chunks, t.file, a.chunks);
    ImportLive(env, s, t, a.chunks);
  }

  /** Where a name is found, and what is read there, when the table grew by one file. */
  lemma ReadsAfterPush(env: Env, s: State, t: State, n: bytes)
    requires WellFormed(env, s) && WellFormed(env, t) && s.dek == t.dek && s.offset <= |t.file|
    requires t.file[HEADER_SIZE..s.offset] == s.file[HEADER_SIZE..s.offset]
    requires |t.meta.table| == |s.meta.table| + 1 && t.meta.table[..|s.meta.table|] == s.meta.table
    ensures DecryptToBytes(env, t, n) ==
      if n == t.meta.table[|s.meta.table|].name then ReadChunks(env, t.dek, t.file, t.meta.table[|s.meta.table|].chunks)
      else DecryptToBytes(env, s, n)
  {
    var i, k := Find(s.meta.table, n), |s.meta.table|;
    if i < k {
      assert t.meta.table[i] == s.meta.table[i];
      FindByName(t.meta.table, i);
      LiveFile(env, s, i);
      SameBetween(s.file, t.file, s.meta.table[i].chunks, HEADER_SIZE, s.offset);
      SameReads(env, s.dek, s.file, s.meta.table[i].chunks, t.file, s.meta.table[i].chunks);
    } else if n == t.meta.table[k].name {
      FindByName(t.meta.table, k);
    }
  }

  /** Import adds one entry to the map, and is refused exactly when the name is taken. */
  lemma ImportRefines(env: Env, s: State, name: bytes, pieces: seq<bytes>, rs: seq<PieceDraw>, modified: nat, d: Draw, m: map<bytes, bytes>)
    requires env.Sound() && WellFormed(env, s) && Represents(env, s, m) && ValidPieces(pieces, rs) && d.Valid()
    ensures var r := Import(env, s, name, pieces, rs, modified, d);
      && (r.None? <==> name in m)
      && (r.Some? && Fits(r.value) ==>
            && WellFormed(env, r.value) && r.value.dek == s.dek
            && r.value.file[8..HEADER_SIZE] == s.file[8..HEADER_SIZE]
            && Represents(env, r.value, m[name := Joined(pieces)]))
  {
    var r := Import(env, s, name, pieces, rs, modified, d);
    LiveReads(env, s, name);
    if r.Some? && Fits(r.value) {
      var t := r.value;
      ImportKeeps(env, s, name, pieces, rs, modified, d);
      assert t.meta.table[..|s.meta.table|] == s.meta.table;
      forall n: bytes ensures DecryptToBytes(env, t, n) == Lookup(m[name := Joined(pieces)], n) {
        ReadsAfterPush(env, s, t, n);
      }
    }
  }

  lemma ImportLive(env: Env, s: State, t: State, chunks: seq<ChunkEntry>)
    requires s.offset <= t.offset && HEADER_SIZE <= s.offset && s.dek == t.dek && t.meta.table != []
    requires t.meta.table[..|t.meta.table| - 1] == s.meta.table && t.meta.table[|t.meta.table| - 1].chunks == chunks
    requires Live(env, t.dek, t.file, All(s.meta.table), t.offset) && Within(All(s.meta.table), HEADER_SIZE, s.offset)
    requires Disjoint(chunks) && Within(chunks, s.offset, t.offset) && AllReadable(env, t.dek, t.file, chunks)
    ensures Live(env, t.dek, t.file, All(t.meta.table), t.offset)
  {
    var n := |s.meta.table|;
    AllSplit(t.meta.table, n);
    assert t.meta.table[n + 1..] == [];
    var a := All(s.meta.table);
    assert All(t.meta.table) == a + chunks;
    assert Cross(a, chunks) by {
      forall i, j | 0 <= i < |a| && 0 <= j < |chunks| ensures Apart(a[i], chunks[j]) {
        assert a[i].offset + a[i].cipherLen <= s.offset <= chunks[j].offset;
      }
    }
    LiveConcat(env, t.dek, t.file, a, chunks, t.offset);
  }
}
