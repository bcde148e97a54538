/** `rm` and `rename`: exactly the removed file's bytes are zeroed, nothing else moves. */
module VaultRemoval {
  import opened Bytes
  import opened VaultCrypto
  import opened Vault
  import opened VaultInvariant
  import opened VaultRefinement

  ghost predicate Covered(cs: seq<ChunkEntry>, p: nat) {
    exists i :: 0 <= i < |cs| && cs[i].offset <= p < cs[i].offset + cs[i].cipherLen
  }

  /** Zeroing a list of chunks clears the bytes they cover and no other. */
  lemma {:induction false} ZeroesExactly(file: bytes, cs: seq<ChunkEntry>)
    requires InFile(file, cs)
    ensures |ZeroChunks(file, cs)| == |file|
    ensures forall p :: 0 <= p < |file| ==> ZeroChunks(file, cs)[p] == if Covered(cs, p) then 0 else file[p]
    decreases |cs|
  {
    if cs != [] {
      var c := cs[0];
      var next := WriteAt(file, c.offset, Zeros(c.cipherLen));
      assert InFile(next, cs[1..]);
      ZeroesExactly(next, cs[1..]);
      forall p | 0 <= p < |file| ensures ZeroChunks(file, cs)[p] == if Covered(cs, p) then 0 else file[p] {
        CoveredStep(cs, p);
      }
    }
  }

  lemma CoveredStep(cs: seq<ChunkEntry>, p: nat)
    requires cs != []
    ensures Covered(cs, p) <==> cs[0].offset <= p < cs[0].offset + cs[0].cipherLen || Covered(cs[1..], p)
  {
    if Covered(cs[1..], p) {
      var i :| 0 <= i < |cs| - 1 && cs[1..][i].offset <= p < cs[1..][i].offset + cs[1..][i].cipherLen;
      assert cs[i + 1] == cs[1..][i];
    }
    if Covered(cs, p) {
      var i :| 0 <= i < |cs| && cs[i].offset <= p < cs[i].offset + cs[i].cipherLen;
      if i > 0 { assert cs[1..][i - 1] == cs[i]; }
    }
  }

  lemma NotCovered(zs: seq<ChunkEntry>, c: ChunkEntry, p: nat)
    requires forall j :: 0 <= j < |zs| ==> Apart(zs[j], c)
    requires c.offset <= p < c.offset + c.cipherLen
    ensures !Covered(zs, p)
  {
  }

  /** Chunks apart from every zeroed one keep their bytes. */
  lemma ZeroSpares(file: bytes, zs: seq<ChunkEntry>, cs: seq<ChunkEntry>)
    requires InFile(file, zs) && InFile(file, cs) && Cross(zs, cs)
    ensures AllSame(file, cs, ZeroChunks(file, zs), cs)
  {
    ZeroesExactly(file, zs);
    var g := ZeroChunks(file, zs);
    forall i | 0 <= i < |cs| ensures Same(file, cs[i], g, cs[i]) {
      var c := cs[i];
      forall j | 0 <= j < |zs| ensures Apart(zs[j], c) { assert Apart(zs[j], cs[i]); }
      forall p | c.offset <= p < c.offset + c.cipherLen ensures g[p] == file[p] { NotCovered(zs, c, p); }
      assert Blob(file, c) == Blob(g, c);
    }
  }

  lemma AllSameTrans(f: bytes, g: bytes, h: bytes, cs: seq<ChunkEntry>)
    requires AllSame(f, cs, g, cs) && AllSame(g, cs, h, cs)
    ensures AllSame(f, cs, h, cs)
  {
    forall i | 0 <= i < |cs| ensures Same(f, cs[i], h, cs[i]) {
      assert Same(f, cs[i], g, cs[i]) && Same(g, cs[i], h, cs[i]);
    }
  }

  /** The other files' chunks: live, apart from the removed file's, and all of what remains. */
  lemma Others(env: Env, s: State, i: nat)
    requires WellFormed(env, s) && i < |s.meta.table|
    ensures var rest := All(Remove(s.meta.table, i));
      && Live(env, s.dek, s.file, rest, s.offset) && Cross(s.meta.table[i].chunks, rest)
      && Live(env, s.dek, s.file, s.meta.table[i].chunks, s.offset)
  {
    var t := s.meta.table;
    var a, b, c := All(t[..i]), t[i].chunks, All(t[i + 1..]);
    AllSplit(t, i);
    LiveConcat(env, s.dek, s.file, a + b, c, s.offset);
    LiveConcat(env, s.dek, s.file, a, b, s.offset);
    AllConcat(t[..i], t[i + 1..]);
    CrossSplit(a, b, c);
    LiveConcat(env, s.dek, s.file, a, c, s.offset);
  }

  lemma CrossSplit(a: seq<ChunkEntry>, b: seq<ChunkEntry>, c: seq<ChunkEntry>)
    requires Cross(a + b, c) && Cross(a, b)
    ensures Cross(a, c) && Cross(b, a + c)
  {
    forall i, j | 0 <= i < |a| && 0 <= j < |c| ensures Apart(a[i], c[j]) { assert (a + b)[i] == a[i]; }
    forall i, j | 0 <= i < |b| && 0 <= j < |a + c| ensures Apart(b[i], (a + c)[j]) {
      if j < |a| { assert Apart(a[j], b[i]); } else { assert Apart((a + b)[|a| + i], c[j - |a|]); }
    }
  }

  lemma ZeroSparesHeader(file: bytes, zs: seq<ChunkEntry>)
    requires HEADER_SIZE <= |file| && InFile(file, zs) && Within(zs, HEADER_SIZE, |file|)
    ensures |ZeroChunks(file, zs)| == |file| && ZeroChunks(file, zs)[8..HEADER_SIZE] == file[8..HEADER_SIZE]
  {
    ZeroesExactly(file, zs);
    forall p | 8 <= p < HEADER_SIZE ensures !Covered(zs, p) {
    }
  }

  lemma CutKeeps(file: bytes, n: nat, lo: nat, hi: nat)
    requires lo <= hi <= n <= |file|
    ensures SetLen(file, n)[lo..hi] == file[lo..hi]
  {
  }

  /** The file after `rm`: zeros where the removed file was, every other payload byte as before. */
  lemma RmFile(env: Env, s: State, name: bytes, d: Draw)
    requires env.Sound() && WellFormed(env, s) && d.Valid() && Rm(env, s, name, d).Some?
    ensures var t := Rm(env, s, name, d).value;
      var zeroed := ZeroChunks(s.file, s.meta.table[Find(s.meta.table, name)].chunks);
      && |zeroed| == |s.file| && |t.file| >= s.offset
      && t.file[..8] == U64Le(t.offset) && t.file[8..HEADER_SIZE] == s.file[8..HEADER_SIZE]
      && t.file[HEADER_SIZE..s.offset] == zeroed[HEADER_SIZE..s.offset]
      && DecryptChunk(env.cipher, t.dek, t.file[t.offset..], METADATA_FILE_ID) == Plain(env.encode(t.meta))
  {
    var t := Rm(env, s, name, d).value;
    var i := Find(s.meta.table, name);
    LiveFile(env, s, i);
    var gone := s.meta.table[i].chunks;
    ZeroSparesHeader(s.file, gone);
    var zeroed := ZeroChunks(s.file, gone);
    var cut := SetLen(zeroed, s.offset);
    CutKeeps(zeroed, s.offset, 8, HEADER_SIZE);
    CutKeeps(zeroed, s.offset, HEADER_SIZE, s.offset);
    SavedKeeps(env, s.(file := cut), cut, t, d);
  }

  lemma RmKeeps(env: Env, s: State, name: bytes, d: Draw)
    requires env.Sound() && WellFormed(env, s) && d.Valid()
    requires var r := Rm(env, s, name, d); r.Some? && Fits(r.value)
    ensures var t := Rm(env, s, name, d).value;
      && WellFormed(env, t) && t.file[8..HEADER_SIZE] == s.file[8..HEADER_SIZE]
      && AllSame(s.file, All(t.meta.table), t.file, All(t.meta.table))
  {
    var t := Rm(env, s, name, d).value;
    var i := Find(s.meta.table, name);
    var gone, rest := s.meta.table[i].chunks, All(t.meta.table);
    RmFile(env, s, name, d);
    Others(env, s, i);
    ZeroSpares(s.file, gone, rest);
    var zeroed := ZeroChunks(s.file, gone);
    SameBetween(zeroed, t.file, rest, HEADER_SIZE, s.offset);
    AllSameTrans(s.file, zeroed, t.file, rest);
    LiveFrame(env, s.dek, s.file, t.file, rest, s.offset, s.offset);
    RemoveDistinct(s.meta.table, i);
  }

  /** In every reachable vault `rm` zeroes exactly the removed file's bytes: every other byte between
      the header and the payload end, and with it every other live chunk, is as it was. */
  lemma RmZeroesExactly(env: Env, s: State, name: bytes, d: Draw, p: nat)
    requires env.Sound() && WellFormed(env, s) && d.Valid() && Rm(env, s, name, d).Some?
    requires HEADER_SIZE <= p < s.offset
    ensures var t := Rm(env, s, name, d).value;
      var gone := s.meta.table[Find(s.meta.table, name)].chunks;
      |t.file| >= s.offset && t.file[p] == if Covered(gone, p) then 0 else s.file[p]
  {
    RmFile(env, s, name, d);
    var i := Find(s.meta.table, name);
    LiveFile(env, s, i);
    var gone := s.meta.table[i].chunks;
    ZeroesExactly(s.file, gone);
    ByteOfSlice(Rm(env, s, name, d).value.file, ZeroChunks(s.file, gone), HEADER_SIZE, s.offset, p);
  }

  lemma ByteOfSlice(f: bytes, g: bytes, lo: nat, hi: nat, p: nat)
    requires lo <= p < hi <= |f| && hi <= |g| && f[lo..hi] == g[lo..hi]
    ensures f[p] == g[p]
  {
    assert f[p] == f[lo..hi][p - lo] && g[p] == g[lo..hi][p - lo];
  }

  lemma RemoveAt(table: seq<FileIndex>, i: nat, k: nat)
    requires i < |table| && k < |table| - 1
    ensures Remove(table, i)[k] == table[if k < i then k else k + 1]
  {
  }

  lemma RemoveDistinct(table: seq<FileIndex>, i: nat)
    requires Distinct(table) && i < |table|
    ensures Distinct(Remove(table, i))
  {
    var t := Remove(table, i);
    forall a, b | 0 <= a < b < |t| ensures t[a].name != t[b].name {
      RemoveAt(table, i, a);
      RemoveAt(table, i, b);
    }
  }

  lemma RemoveFinds(table: seq<FileIndex>, i: nat, n: bytes)
    requires Distinct(table) && i < |table|
    ensures var k := Find(table, n);
      Find(Remove(table, i), n) == if k == |table| || k == i then |table| - 1 else if k < i then k else k - 1
  {
    var t := Remove(table, i);
    var k := Find(table, n);
    RemoveDistinct(table, i);
    if k < |table| && k != i {
      RemoveAt(table, i, if k < i then k else k - 1);
      FindByName(t, if k < i then k else k - 1);
    } else {
      forall a | 0 <= a < |t| ensures t[a].name != n { RemoveAt(table, i, a); }
    }
  }

  /** Removing takes one entry out of the map, and is refused exactly when there is none. */
  lemma RmRefines(env: Env, s: State, name: bytes, d: Draw, m: map<bytes, bytes>)
    requires env.Sound() && WellFormed(env, s) && Represents(env, s, m) && d.Valid()
    ensures var r := Rm(env, s, name, d);
      && (r.None? <==> name !in m)
      && (r.Some? && Fits(r.value) ==>
            && WellFormed(env, r.value) && r.value.dek == s.dek
            && r.value.file[8..HEADER_SIZE] == s.file[8..HEADER_SIZE]
            && Represents(env, r.value, m - {name}))
  {
    var r := Rm(env, s, name, d);
    LiveReads(env, s, name);
    if r.Some? && Fits(r.value) {
      var t := r.value;
      RmKeeps(env, s, name, d);
      forall n: bytes ensures DecryptToBytes(env, t, n) == Lookup(m - {name}, n) {
        ReadsAfterRm(env, s, t, name, n);
      }
    }
  }

  lemma SameAt(f: bytes, g: bytes, a: seq<ChunkEntry>, cs: seq<ChunkEntry>, b: seq<ChunkEntry>)
    requires AllSame(f, a + cs + b, g, a + cs + b)
    ensures AllSame(f, cs, g, cs)
  {
    forall i | 0 <= i < |cs| ensures Same(f, cs[i], g, cs[i]) {
      assert (a + cs + b)[|a| + i] == cs[i];
    }
  }

  /** Every file of a table reads the same in two files that agree on all its chunks. */
  lemma FileReads(env: Env, dek: bytes, f: bytes, g: bytes, table: seq<FileIndex>, k: nat)
    requires k < |table| && AllSame(f, All(table), g, All(table))
    ensures ReadChunks(env, dek, f, table[k].chunks) == ReadChunks(env, dek, g, table[k].chunks)
  {
    AllSplit(table, k);
    SameAt(f, g, All(table[..k]), table[k].chunks, All(table[k + 1..]));
    SameReads(env, dek, f, table[k].chunks, g, table[k].chunks);
  }

  lemma ReadsAfterRm(env: Env, s: State, t: State, name: bytes, n: bytes)
    requires WellFormed(env, s) && s.dek == t.dek
    requires var i := Find(s.meta.table, name); i < |s.meta.table| && t.meta.table == Remove(s.meta.table, i)
    requires AllSame(s.file, All(t.meta.table), t.file, All(t.meta.table))
    ensures DecryptToBytes(env, t, n) == if n == name then None else DecryptToBytes(env, s, n)
  {
    var i := Find(s.meta.table, name);
    RemoveFinds(s.meta.table, i, n);
    FindByName(s.meta.table, i);
    if Find(t.meta.table, n) < |t.meta.table| { KeptReads(env, s, t, i, n); }
  }

  lemma KeptReads(env: Env, s: State, t: State, i: nat, n: bytes)
    requires i < |s.meta.table| && t.meta.table == Remove(s.meta.table, i) && s.dek == t.dek
    requires AllSame(s.file, All(t.meta.table), t.file, All(t.meta.table))
    requires var k := Find(t.meta.table, n);
      k < |t.meta.table| && Find(s.meta.table, n) == if k < i then k else k + 1
    ensures DecryptToBytes(env, t, n) == DecryptToBytes(env, s, n)
  {
    var k := Find(t.meta.table, n);
    RemoveAt(s.meta.table, i, k);
    FileReads(env, s.dek, s.file, t.file, t.meta.table, k);
  }

  // ---- rename -----------------------------------------------------------

  /** Renaming changes the names in the table and not the chunk list. */
  lemma RenameChunks(table: seq<FileIndex>, i: nat, to: bytes)
    requires i < |table|
    ensures All(table[i := table[i].(name := to)]) == All(table)
  {
    var u := table[i := table[i].(name := to)];
    AllSplit(table, i);
    AllSplit(u, i);
    assert u[..i] == table[..i] && u[i + 1..] == table[i + 1..];
  }

  lemma RenameFinds(table: seq<FileIndex>, i: nat, to: bytes, n: bytes)
    requires Distinct(table) && i < |table| && Find(table, to) == |table|
    ensures var u := table[i := table[i].(name := to)];
      && Distinct(u)
      && Find(u, n) == if n == to then i else if n == table[i].name then |table| else Find(table, n)
  {
    var u := table[i := table[i].(name := to)];
    assert forall k :: 0 <= k < |table| ==> table[k].name != to;
    forall a, b | 0 <= a < b < |u| ensures u[a].name != u[b].name {
      assert table[a].name != table[b].name;
    }
    FindByName(u, i);
    FindByName(table, i);
    var k := Find(u, n);
    if k < |u| && k != i { FindByName(table, k); }
    if Find(table, n) < |table| && Find(table, n) != i { FindByName(u, Find(table, n)); }
  }

  lemma RenameKeeps(env: Env, s: State, from: bytes, to: bytes, d: Draw)
    requires env.Sound() && WellFormed(env, s) && d.Valid()
    requires Rename(env, s, from, to, d).Some? && Fits(Rename(env, s, from, to, d).value)
    ensures var t := Rename(env, s, from, to, d).value;
      && WellFormed(env, t) && t.dek == s.dek && t.file[8..HEADER_SIZE] == s.file[8..HEADER_SIZE]
      && AllSame(s.file, All(s.meta.table), t.file, All(s.meta.table))
  {
    var t := Rename(env, s, from, to, d).value;
    var i := Find(s.meta.table, from);
    SavedKeeps(env, s, s.file, t, d);
    RenameChunks(s.meta.table, i, to);
    var cs := All(s.meta.table);
    SameBetween(s.file, t.file, cs, HEADER_SIZE, s.offset);
    LiveFrame(env, s.dek, s.file, t.file, cs, s.offset, s.offset);
    RenameFinds(s.meta.table, i, to, to);
  }

  /** Renaming moves one entry of the map to a free, acceptable name and is refused otherwise. */
  lemma RenameRefines(env: Env, s: State, from: bytes, to: bytes, d: Draw, m: map<bytes, bytes>)
    requires env.Sound() && WellFormed(env, s) && Represents(env, s, m) && d.Valid()
    ensures var r := Rename(env, s, from, to, d);
      && (r.Some? <==> ValidName(to) && to !in m && from in m)
      && (r.Some? && Fits(r.value) ==>
            && WellFormed(env, r.value) && r.value.dek == s.dek
            && r.value.file[8..HEADER_SIZE] == s.file[8..HEADER_SIZE]
            && Represents(env, r.value, (m - {from})[to := m[from]]))
  {
    var r := Rename(env, s, from, to, d);
    LiveReads(env, s, from);
    LiveReads(env, s, to);
    if r.Some? && Fits(r.value) {
      var t := r.value;
      var i := Find(s.meta.table, from);
      RenameKeeps(env, s, from, to, d);
      forall n: bytes ensures DecryptToBytes(env, t, n) == Lookup((m - {from})[to := m[from]], n) {
        ReadsAfterRename(env, s, t, i, to, n);
      }
    }
  }

  lemma ReadsAfterRename(env: Env, s: State, t: State, i: nat, to: bytes, n: bytes)
    requires WellFormed(env, s) && s.dek == t.dek && i < |s.meta.table| && Find(s.meta.table, to) == |s.meta.table|
    requires t.meta.table == s.meta.table[i := s.meta.table[i].(name := to)]
    requires AllSame(s.file, All(s.meta.table), t.file, All(s.meta.table))
    ensures DecryptToBytes(env, t, n) ==
      if n == to then DecryptToBytes(env, s, s.meta.table[i].name)
      else if n == s.meta.table[i].name then None else DecryptToBytes(env, s, n)
  {
    RenameFinds(s.meta.table, i, to, n);
    FindByName(s.meta.table, i);
    var k := Find(t.meta.table, n);
    if k < |t.meta.table| {
      FileReads(env, s.dek, s.file, t.file, s.meta.table, k);
    }
  }
}
