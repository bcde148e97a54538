/** What every reachable vault keeps: names are unique, live chunks are disjoint, lie between the
    header and the payload end and decrypt, and the tail block is the table in memory. */
module VaultInvariant {
  import opened Bytes
  import opened VaultCrypto
  import opened Vault

  predicate Apart(a: ChunkEntry, b: ChunkEntry) {
    a.offset + a.cipherLen <= b.offset || b.offset + b.cipherLen <= a.offset
  }

  predicate Disjoint(cs: seq<ChunkEntry>) {
    forall i, j :: 0 <= i < j < |cs| ==> Apart(cs[i], cs[j])
  }

  predicate Within(cs: seq<ChunkEntry>, lo: nat, hi: nat) {
    forall i :: 0 <= i < |cs| ==> lo <= cs[i].offset && cs[i].offset + cs[i].cipherLen <= hi
  }

  /** The chunk opens, and its content length lies within what it opens to. */
  predicate Readable(env: Env, dek: bytes, file: bytes, c: ChunkEntry) {
    && c.offset + c.cipherLen <= |file|
    && var o := DecryptChunk(env.cipher, dek, Blob(file, c), c.fileId);
       o.Plain? && 0 < c.plainLen <= |o.text|
  }

  predicate AllReadable(env: Env, dek: bytes, file: bytes, cs: seq<ChunkEntry>) {
    forall i :: 0 <= i < |cs| ==> Readable(env, dek, file, cs[i])
  }

  predicate Distinct(table: seq<FileIndex>) {
    forall i, j :: 0 <= i < j < |table| ==> table[i].name != table[j].name
  }

  ghost predicate Live(env: Env, dek: bytes, file: bytes, cs: seq<ChunkEntry>, offset: nat) {
    Disjoint(cs) && Within(cs, HEADER_SIZE, offset) && AllReadable(env, dek, file, cs)
  }

  /** Sizes fit 64-bit words and the sealed block is no more than a load reads back. */
  ghost predicate Fits(s: State) {
    Sized(s.meta) && IsU64(s.offset) && |s.file| <= s.offset + MAX_METADATA_READ
  }

  ghost predicate WellFormed(env: Env, s: State) {
    && Fits(s)
    && HEADER_SIZE <= s.offset <= |s.file|
    && s.file[..8] == U64Le(s.offset)
    && Distinct(s.meta.table)
    && Live(env, s.dek, s.file, All(s.meta.table), s.offset)
    && DecryptChunk(env.cipher, s.dek, s.file[s.offset..], METADATA_FILE_ID) == Plain(env.encode(s.meta))
  }

  // ---- reading back -----------------------------------------------------

  /** Chunks that agree in everything but where they are, and hold the same bytes. */
  predicate Same(f: bytes, a: ChunkEntry, g: bytes, b: ChunkEntry) {
    && a.offset + a.cipherLen <= |f| && b.offset + b.cipherLen <= |g|
    && a.(offset := 0) == b.(offset := 0) && Blob(f, a) == Blob(g, b)
  }

  predicate AllSame(f: bytes, cs: seq<ChunkEntry>, g: bytes, ds: seq<ChunkEntry>) {
    |cs| == |ds| && forall i :: 0 <= i < |cs| ==> Same(f, cs[i], g, ds[i])
  }

  lemma {:induction false} SameReads(env: Env, dek: bytes, f: bytes, cs: seq<ChunkEntry>, g: bytes, ds: seq<ChunkEntry>)
    requires AllSame(f, cs, g, ds)
    ensures ReadChunks(env, dek, f, cs) == ReadChunks(env, dek, g, ds)
    ensures AllReadable(env, dek, f, cs) ==> AllReadable(env, dek, g, ds)
    decreases |cs|
  {
    if cs != [] {
      assert Same(f, cs[0], g, ds[0]);
      assert AllSame(f, cs[1..], g, ds[1..]);
      SameReads(env, dek, f, cs[1..], g, ds[1..]);
      assert forall i :: 0 <= i < |ds| - 1 ==> ds[1..][i] == ds[i + 1];
    }
  }

  lemma {:induction false} ReadableReads(env: Env, dek: bytes, file: bytes, cs: seq<ChunkEntry>)
    requires AllReadable(env, dek, file, cs)
    ensures ReadChunks(env, dek, file, cs).Some?
    decreases |cs|
  {
    if cs != [] {
      assert Readable(env, dek, file, cs[0]);
      ReadableReads(env, dek, file, cs[1..]);
    }
  }

  // ---- the flattened chunk list -----------------------------------------

  lemma {:induction false} AllConcat(a: seq<FileIndex>, b: seq<FileIndex>)
    ensures All(a + b) == All(a) + All(b)
    decreases |a|
  {
    if a == [] {
      assert a + b == b;
    } else {
      assert (a + b)[1..] == a[1..] + b;
      AllConcat(a[1..], b);
    }
  }

  lemma AllOne(f: FileIndex)
    ensures All([f]) == f.chunks
  {
    assert [f][1..] == [];
    assert f.chunks + [] == f.chunks;
  }

  lemma AllThree(a: seq<FileIndex>, f: FileIndex, b: seq<FileIndex>)
    ensures All(a + [f] + b) == All(a) + f.chunks + All(b)
  {
    AllOne(f);
    AllConcat(a, [f]);
    AllConcat(a + [f], b);
  }

  lemma SplitAt(table: seq<FileIndex>, i: nat)
    requires i < |table|
    ensures table[..i] + [table[i]] + table[i + 1..] == table
  {
  }

  lemma AllSplit(table: seq<FileIndex>, i: nat)
    requires i < |table|
    ensures All(table) == All(table[..i]) + table[i].chunks + All(table[i + 1..])
  {
    SplitAt(table, i);
    AllThree(table[..i], table[i], table[i + 1..]);
  }

  predicate Cross(a: seq<ChunkEntry>, b: seq<ChunkEntry>) {
    forall i, j :: 0 <= i < |a| && 0 <= j < |b| ==> Apart(a[i], b[j])
  }

  lemma DisjointConcat(a: seq<ChunkEntry>, b: seq<ChunkEntry>)
    ensures Disjoint(a + b) <==> Disjoint(a) && Disjoint(b) && Cross(a, b)
  {
    var c := a + b;
    if Disjoint(c) {
      forall i, j | 0 <= i < j < |a| ensures Apart(a[i], a[j]) { assert Apart(c[i], c[j]); }
      forall i, j | 0 <= i < j < |b| ensures Apart(b[i], b[j]) { assert Apart(c[|a| + i], c[|a| + j]); }
      forall i, j | 0 <= i < |a| && 0 <= j < |b| ensures Apart(a[i], b[j]) { assert Apart(c[i], c[|a| + j]); }
    }
    if Disjoint(a) && Disjoint(b) && Cross(a, b) {
      forall i, j | 0 <= i < j < |c| ensures Apart(c[i], c[j]) {
        if j < |a| { assert Apart(a[i], a[j]); }
        else if i < |a| { assert Apart(a[i], b[j - |a|]); }
        else { assert Apart(b[i - |a|], b[j - |a|]); }
      }
    }
  }

  /** A live list splits into live lists whose chunks are apart from each other's. */
  lemma LiveConcat(env: Env, dek: bytes, file: bytes, a: seq<ChunkEntry>, b: seq<ChunkEntry>, offset: nat)
    ensures Live(env, dek, file, a + b, offset) <==>
            Live(env, dek, file, a, offset) && Live(env, dek, file, b, offset) && Cross(a, b)
  {
    DisjointConcat(a, b);
    var c := a + b;
    assert forall i :: 0 <= i < |a| ==> c[i] == a[i];
    assert forall i :: 0 <= i < |b| ==> c[|a| + i] == b[i];
  }

  lemma LiveFile(env: Env, s: State, i: nat)
    requires Live(env, s.dek, s.file, All(s.meta.table), s.offset) && i < |s.meta.table|
    ensures Live(env, s.dek, s.file, s.meta.table[i].chunks, s.offset)
  {
    var t := s.meta.table;
    AllSplit(t, i);
    LiveConcat(env, s.dek, s.file, All(t[..i]) + t[i].chunks, All(t[i + 1..]), s.offset);
    LiveConcat(env, s.dek, s.file, All(t[..i]), t[i].chunks, s.offset);
  }

  /** A live list stays live in any file that keeps the bytes it covers. */
  lemma LiveFrame(env: Env, dek: bytes, f: bytes, g: bytes, cs: seq<ChunkEntry>, offset: nat, offset': nat)
    requires Live(env, dek, f, cs, offset) && offset <= offset' && AllSame(f, cs, g, cs)
    ensures Live(env, dek, g, cs, offset') && ReadChunks(env, dek, g, cs) == ReadChunks(env, dek, f, cs)
  {
    SameReads(env, dek, f, cs, g, cs);
  }

  /** Files that agree between `lo` and `hi` agree on every chunk there. */
  lemma SameBetween(f: bytes, g: bytes, cs: seq<ChunkEntry>, lo: nat, hi: nat)
    requires lo <= hi <= |f| && hi <= |g| && Within(cs, lo, hi) && f[lo..hi] == g[lo..hi]
    ensures AllSame(f, cs, g, cs)
  {
    forall i | 0 <= i < |cs| ensures Same(f, cs[i], g, cs[i]) {
      var c := cs[i];
      SubSlice(f, lo, hi, c.offset, c.offset + c.cipherLen);
      SubSlice(g, lo, hi, c.offset, c.offset + c.cipherLen);
    }
  }

  // ---- save and load ----------------------------------------------------

  lemma SaveWrites(env: Env, file: bytes, meta: Metadata, dek: bytes, offset: nat, d: Draw)
    requires env.Sound() && d.Valid() && 8 <= offset <= |file|
    ensures var r := Save(env, file, meta, dek, offset, d);
      && |r| >= offset && r[..8] == U64Le(offset) && r[8..offset] == file[8..offset]
      && DecryptChunk(env.cipher, dek, r[offset..], METADATA_FILE_ID) == Plain(env.encode(meta))
  {
    var block := SealedMetadata(env, dek, meta, d);
    ChunkRoundTrip(env.cipher, dek, d.salt, d.nonce, METADATA_FILE_ID, env.encode(meta));
    var cut := SetLen(WriteAt(file, offset, block), offset + |block|);
    assert cut == file[..offset] + block;
    var r := WriteAt(cut, 0, U64Le(offset));
    assert r == U64Le(offset) + cut[8..];
    assert r[offset..] == block;
    assert r[8..offset] == file[8..offset];
  }

  /** Loading a well-formed vault gives back the table, the key and the payload end. */
  lemma LoadFinds(env: Env, s: State, password: bytes)
    requires env.Sound() && WellFormed(env, s) && env.unlock(password, s.file[8..HEADER_SIZE]) == Some(s.dek)
    ensures Load(env, s.file, password) == Some(Loaded(s.meta, s.dek, s.offset))
  {
    U64LeRoundTrip(s.offset);
    assert s.file[s.offset..Min(|s.file|, s.offset + MAX_METADATA_READ)] == s.file[s.offset..];
  }
}
