/** `vacuum`: relocation of every live chunk into a new container that means the same. */
module VaultVacuum {
  import opened Bytes
  import opened VaultCrypto
  import opened Vault
  import opened VaultInvariant
  import opened VaultRefinement

  // ---- layouts ----------------------------------------------------------

  lemma {:induction false} SumConcat(a: seq<ChunkEntry>, b: seq<ChunkEntry>)
    ensures SumLen(a + b) == SumLen(a) + SumLen(b)
    decreases |a|
  {
    if a == [] { assert a + b == b; } else { assert (a + b)[1..] == a[1..] + b; SumConcat(a[1..], b); }
  }

  lemma {:induction false} LayoutConcat(a: seq<ChunkEntry>, b: seq<ChunkEntry>, start: nat)
    ensures Layout(a + b, start) == Layout(a, start) + Layout(b, start + SumLen(a))
    decreases |a|
  {
    if a == [] {
      assert a + b == b;
    } else {
      assert (a + b)[1..] == a[1..] + b;
      LayoutConcat(a[1..], b, start + a[0].cipherLen);
    }
  }

  lemma AllCons(f: FileIndex, rest: seq<FileIndex>)
    ensures All([f] + rest) == f.chunks + All(rest)
  {
    assert ([f] + rest)[1..] == rest;
  }

  /** Laying out the table file by file is laying out the flattened chunk list. */
  lemma {:induction false} AllLayout(table: seq<FileIndex>, start: nat)
    ensures All(LayoutTable(table, start)) == Layout(All(table), start)
    decreases |table|
  {
    if table != [] {
      var head, tail := table[0].chunks, table[1..];
      var n := start + SumLen(head);
      var f := table[0].(chunks := Layout(head, start));
      calc {
        All(LayoutTable(table, start));
        All([f] + LayoutTable(tail, n));
        { AllCons(f, LayoutTable(tail, n)); }
        Layout(head, start) + All(LayoutTable(tail, n));
        { AllLayout(tail, n); }
        Layout(head, start) + Layout(All(tail), n);
        { LayoutConcat(head, All(tail), start); }
        Layout(head + All(tail), start);
      }
    }
  }

  /** Chunk `i` lands right after the chunks before it, and nothing else about it changes. */
  lemma {:induction false} LayoutAt(cs: seq<ChunkEntry>, start: nat, i: nat)
    requires i < |cs|
    ensures |Layout(cs, start)| == |cs|
    ensures Layout(cs, start)[i] == cs[i].(offset := start + SumLen(cs[..i]))
    decreases |cs|
  {
    LayoutLength(cs, start);
    if i > 0 {
      LayoutAt(cs[1..], start + cs[0].cipherLen, i - 1);
      assert cs[..i][1..] == cs[1..][..i - 1];
    }
  }

  lemma {:induction false} LayoutLength(cs: seq<ChunkEntry>, start: nat)
    ensures |Layout(cs, start)| == |cs| && SumLen(Layout(cs, start)) == SumLen(cs)
    decreases |cs|
  {
    if cs != [] {
      LayoutLength(cs[1..], start + cs[0].cipherLen);
      assert Layout(cs, start)[1..] == Layout(cs[1..], start + cs[0].cipherLen);
    }
  }

  lemma {:induction false} LayoutSpans(cs: seq<ChunkEntry>, start: nat)
    ensures Disjoint(Layout(cs, start)) && Within(Layout(cs, start), start, start + SumLen(cs))
    decreases |cs|
  {
    if cs != [] {
      var next := start + cs[0].cipherLen;
      LayoutSpans(cs[1..], next);
      AppendedDisjoint(cs[0].(offset := start), Layout(cs[1..], next), next, start + SumLen(cs));
    }
  }

  /** The gathered bytes hold each chunk at its place in the layout. */
  lemma SameStep(f: bytes, a: ChunkEntry, cs: seq<ChunkEntry>, g: bytes, b: ChunkEntry, ds: seq<ChunkEntry>)
    requires Same(f, a, g, b) && AllSame(f, cs, g, ds)
    ensures AllSame(f, [a] + cs, g, [b] + ds)
  {
  }

  lemma GatherHead(file: bytes, cs: seq<ChunkEntry>)
    requires InFile(file, cs) && cs != []
    ensures InFile(file, cs[1..]) && cs[0].cipherLen + SumLen(cs[1..]) == SumLen(cs)
    ensures var g, n := Gather(file, cs), cs[0].cipherLen;
      |g| == SumLen(cs) && g[..n] == Blob(file, cs[0]) && g[n..] == Gather(file, cs[1..])
  {
  }

  lemma {:induction false} GatherHolds(file: bytes, cs: seq<ChunkEntry>, packed: bytes, start: nat)
    requires InFile(file, cs) && start + SumLen(cs) <= |packed|
    requires packed[start..start + SumLen(cs)] == Gather(file, cs)
    ensures AllSame(file, cs, packed, Layout(cs, start))
    decreases |cs|
  {
    if cs != [] {
      var n, all := cs[0].cipherLen, SumLen(cs);
      GatherHead(file, cs);
      SubSlice(packed, start, start + all, start, start + n);
      SubSlice(packed, start, start + all, start + n, start + all);
      GatherHolds(file, cs[1..], packed, start + n);
      HeadAndTail(cs);
      SameStep(file, cs[0], cs[1..], packed, cs[0].(offset := start), Layout(cs[1..], start + n));
    }
  }

  // ---- how much room disjoint chunks need -------------------------------

  /** The `n` positions from `lo` on. */
  ghost function Interval(lo: int, n: nat): (r: set<int>)
    ensures |r| == n && forall p :: p in r <==> lo <= p < lo + n
  {
    if n == 0 then {} else Interval(lo, n - 1) + {lo + n - 1}
  }

  /** The positions covered by the chunks; disjoint chunks cover as many as their lengths add up to. */
  ghost function Cells(cs: seq<ChunkEntry>): set<int> {
    if cs == [] then {} else Interval(cs[0].offset, cs[0].cipherLen) + Cells(cs[1..])
  }

  lemma {:induction false} CellsOf(cs: seq<ChunkEntry>, p: int)
    ensures p in Cells(cs) <==> exists i :: 0 <= i < |cs| && cs[i].offset <= p < cs[i].offset + cs[i].cipherLen
    decreases |cs|
  {
    if cs != [] {
      CellsOf(cs[1..], p);
      if p in Cells(cs[1..]) {
        var i :| 0 <= i < |cs| - 1 && cs[1..][i].offset <= p < cs[1..][i].offset + cs[1..][i].cipherLen;
        assert cs[i + 1] == cs[1..][i];
      }
      if exists i :: 0 <= i < |cs| && cs[i].offset <= p < cs[i].offset + cs[i].cipherLen {
        var i :| 0 <= i < |cs| && cs[i].offset <= p < cs[i].offset + cs[i].cipherLen;
        if i > 0 { assert cs[1..][i - 1] == cs[i]; }
      }
    }
  }

  lemma {:induction false} CellsSize(cs: seq<ChunkEntry>)
    requires Disjoint(cs)
    ensures |Cells(cs)| == SumLen(cs)
    decreases |cs|
  {
    if cs != [] {
      var head, tail := Interval(cs[0].offset, cs[0].cipherLen), Cells(cs[1..]);
      assert Disjoint(cs[1..]) by {
        forall i, j | 0 <= i < j < |cs| - 1 ensures Apart(cs[1..][i], cs[1..][j]) { assert Apart(cs[i + 1], cs[j + 1]); }
      }
      CellsSize(cs[1..]);
      forall p | p in tail ensures p !in head {
        CellsOf(cs[1..], p);
        var i :| 0 <= i < |cs| - 1 && cs[1..][i].offset <= p < cs[1..][i].offset + cs[1..][i].cipherLen;
        assert Apart(cs[0], cs[i + 1]);
      }
      assert head !! tail;
    }
  }

  /** Disjoint chunks between two positions are no longer together than the room between them. */
  lemma PackingBound(cs: seq<ChunkEntry>, lo: nat, hi: nat)
    requires Disjoint(cs) && Within(cs, lo, hi) && lo <= hi
    ensures SumLen(cs) <= hi - lo
  {
    CellsSize(cs);
    forall p | p in Cells(cs) ensures p in Interval(lo, hi - lo) {
      CellsOf(cs, p);
    }
    SubsetSize(Cells(cs), Interval(lo, hi - lo));
  }

  lemma SubsetSize(a: set<int>, b: set<int>)
    requires a <= b
    ensures |a| <= |b|
  {
    assert b == a + (b - a);
  }

  // ---- the operation ----------------------------------------------------

  lemma VacuumFile(env: Env, s: State, d: Draw)
    requires env.Sound() && WellFormed(env, s) && d.Valid()
    ensures Vacuum(env, s, d).Some?
    ensures var t := Vacuum(env, s, d).value;
      var cs := All(s.meta.table);
      && t.offset == HEADER_SIZE + SumLen(cs) && |t.file| >= t.offset && t.file[..8] == U64Le(t.offset)
      && t.file[8..HEADER_SIZE] == s.file[8..HEADER_SIZE]
      && InFile(s.file, cs) && t.file[HEADER_SIZE..t.offset] == Gather(s.file, cs)
      && DecryptChunk(env.cipher, t.dek, t.file[t.offset..], METADATA_FILE_ID) == Plain(env.encode(t.meta))
  {
    var cs := All(s.meta.table);
    var t := Vacuum(env, s, d).value;
    var head, live := s.file[8..HEADER_SIZE], Gather(s.file, cs);
    SaveWrites(env, Zeros(8) + head + live, t.meta, t.dek, t.offset, d);
    PackedParts(head, live, t.file);
  }

  lemma PackedParts(head: bytes, live: bytes, file: bytes)
    requires |head| == HEADER_SIZE - 8 && HEADER_SIZE + |live| <= |file|
    requires var packed := Zeros(8) + head + live; file[8..|packed|] == packed[8..]
    ensures file[8..HEADER_SIZE] == head && file[HEADER_SIZE..HEADER_SIZE + |live|] == live
  {
    var packed := Zeros(8) + head + live;
    var end := |packed|;
    assert packed[8..] == head + live;
    SubSlice(file, 8, end, 8, HEADER_SIZE);
    SubSlice(file, 8, end, HEADER_SIZE, end);
    assert (head + live)[..|head|] == head && (head + live)[|head|..] == live;
  }

  lemma VacuumKeeps(env: Env, s: State, d: Draw)
    requires env.Sound() && WellFormed(env, s) && d.Valid()
    requires var r := Vacuum(env, s, d); r.Some? ==> Fits(r.value)
    ensures var r := Vacuum(env, s, d); r.Some? && WellFormed(env, r.value)
    ensures var t := Vacuum(env, s, d).value; AllSame(s.file, All(s.meta.table), t.file, All(t.meta.table))
  {
    VacuumFile(env, s, d);
    var t := Vacuum(env, s, d).value;
    var cs := All(s.meta.table);
    AllLayout(s.meta.table, HEADER_SIZE);
    LayoutSpans(cs, HEADER_SIZE);
    GatherHolds(s.file, cs, t.file, HEADER_SIZE);
    SameReads(env, s.dek, s.file, cs, t.file, Layout(cs, HEADER_SIZE));
    LayoutNames(s.meta.table, HEADER_SIZE);
  }

  lemma {:induction false} LayoutNames(table: seq<FileIndex>, start: nat)
    ensures |LayoutTable(table, start)| == |table|
    ensures forall i :: 0 <= i < |table| ==> LayoutTable(table, start)[i].name == table[i].name
    decreases |table|
  {
    if table != [] { LayoutNames(table[1..], start + SumLen(table[0].chunks)); }
  }

  lemma SameNamesFind(a: seq<FileIndex>, b: seq<FileIndex>, n: bytes)
    requires |a| == |b| && forall i :: 0 <= i < |a| ==> a[i].name == b[i].name
    ensures Find(a, n) == Find(b, n)
  {
  }

  lemma LayoutFinds(table: seq<FileIndex>, start: nat, n: bytes)
    ensures Find(LayoutTable(table, start), n) == Find(table, n)
  {
    LayoutNames(table, start);
    SameNamesFind(LayoutTable(table, start), table, n);
  }

  lemma LayoutFile(table: seq<FileIndex>, f: bytes, g: bytes, k: nat)
    requires k < |table| && AllSame(f, All(table), g, All(LayoutTable(table, HEADER_SIZE)))
    ensures |LayoutTable(table, HEADER_SIZE)| == |table|
    ensures AllSame(f, table[k].chunks, g, LayoutTable(table, HEADER_SIZE)[k].chunks)
  {
    LayoutFileFrom(table, HEADER_SIZE, f, g, k);
  }

  lemma {:induction false} LayoutFileFrom(table: seq<FileIndex>, start: nat, f: bytes, g: bytes, k: nat)
    requires k < |table| && AllSame(f, All(table), g, All(LayoutTable(table, start)))
    ensures |LayoutTable(table, start)| == |table|
    ensures AllSame(f, table[k].chunks, g, LayoutTable(table, start)[k].chunks)
    decreases |table|
  {
    LayoutNames(table, start);
    var u := LayoutTable(table, start);
    var rest := start + SumLen(table[0].chunks);
    LayoutLength(table[0].chunks, start);
    assert u[1..] == LayoutTable(table[1..], rest);
    var a, b := table[0].chunks, u[0].chunks;
    var as_, bs := All(table[1..]), All(u[1..]);
    forall i | 0 <= i < |a| ensures Same(f, a[i], g, b[i]) {
      assert Same(f, (a + as_)[i], g, (b + bs)[i]);
    }
    forall i | 0 <= i < |as_| ensures Same(f, as_[i], g, bs[i]) {
      assert Same(f, (a + as_)[|a| + i], g, (b + bs)[|a| + i]);
    }
    if k > 0 { LayoutFileFrom(table[1..], rest, f, g, k - 1); }
  }

  /** Each chunk where the ones before it end. */
  ghost predicate Packed(cs: seq<ChunkEntry>, ds: seq<ChunkEntry>) {
    |ds| == |cs| && forall i :: 0 <= i < |cs| ==> ds[i] == cs[i].(offset := HEADER_SIZE + SumLen(cs[..i]))
  }

  lemma LayoutIsPacked(cs: seq<ChunkEntry>)
    ensures Packed(cs, Layout(cs, HEADER_SIZE))
  {
    LayoutLength(cs, HEADER_SIZE);
    forall i | 0 <= i < |cs| ensures Layout(cs, HEADER_SIZE)[i] == cs[i].(offset := HEADER_SIZE + SumLen(cs[..i])) {
      LayoutAt(cs, HEADER_SIZE, i);
    }
  }

  /** A vacuum changes nothing about what the vault means or about the header past the pointer; it
      lays the chunks out gap-free from 125 in table order, ends where they end, and never takes
      more room than before. */
  lemma VacuumRefines(env: Env, s: State, d: Draw, m: map<bytes, bytes>)
    requires env.Sound() && WellFormed(env, s) && Represents(env, s, m) && d.Valid()
    requires var r := Vacuum(env, s, d); r.Some? ==> Fits(r.value)
    ensures var r := Vacuum(env, s, d); r.Some? && WellFormed(env, r.value) && Represents(env, r.value, m)
    ensures var t := Vacuum(env, s, d).value;
      && t.dek == s.dek && t.file[8..HEADER_SIZE] == s.file[8..HEADER_SIZE]
      && All(t.meta.table) == Layout(All(s.meta.table), HEADER_SIZE) && Packed(All(s.meta.table), All(t.meta.table))
      && t.offset == HEADER_SIZE + SumLen(All(s.meta.table)) <= s.offset
  {
    VacuumFile(env, s, d);
    VacuumKeeps(env, s, d);
    AllLayout(s.meta.table, HEADER_SIZE);
    LayoutIsPacked(All(s.meta.table));
    PackingBound(All(s.meta.table), HEADER_SIZE, s.offset);
    var t := Vacuum(env, s, d).value;
    forall n: bytes ensures DecryptToBytes(env, t, n) == Lookup(m, n) {
      ReadsAfterVacuum(env, s, t, n);
    }
  }

  lemma ReadsAfterVacuum(env: Env, s: State, t: State, n: bytes)
    requires t.dek == s.dek && t.meta.table == LayoutTable(s.meta.table, HEADER_SIZE)
    requires AllSame(s.file, All(s.meta.table), t.file, All(t.meta.table))
    ensures DecryptToBytes(env, t, n) == DecryptToBytes(env, s, n)
  {
    LayoutFinds(s.meta.table, HEADER_SIZE, n);
    LayoutNames(s.meta.table, HEADER_SIZE);
    var k := Find(s.meta.table, n);
    if k < |s.meta.table| {
      LayoutFile(s.meta.table, s.file, t.file, k);
      SameReads(env, s.dek, s.file, s.meta.table[k].chunks, t.file, t.meta.table[k].chunks);
    }
  }

  lemma {:induction false} LayoutTwice(cs: seq<ChunkEntry>, a: nat, start: nat)
    ensures Layout(Layout(cs, a), start) == Layout(cs, start)
    decreases |cs|
  {
    if cs != [] {
      LayoutTwice(cs[1..], a + cs[0].cipherLen, start + cs[0].cipherLen);
      ConsParts(cs[0].(offset := a), Layout(cs[1..], a + cs[0].cipherLen));
    }
  }

  lemma {:induction false} LayoutTableTwice(table: seq<FileIndex>, a: nat, start: nat)
    ensures LayoutTable(LayoutTable(table, a), start) == LayoutTable(table, start)
    decreases |table|
  {
    if table != [] {
      var c := table[0].chunks;
      LayoutTwice(c, a, start);
      LayoutLength(c, a);
      LayoutTableTwice(table[1..], a + SumLen(c), start + SumLen(c));
      ConsParts(table[0].(chunks := Layout(c, a)), LayoutTable(table[1..], a + SumLen(c)));
    }
  }

  /** A second vacuum changes no offset: neither a chunk's nor the payload end. */
  lemma SecondVacuumMovesNothing(env: Env, s: State, d: Draw, d': Draw)
    requires env.Sound() && WellFormed(env, s) && d.Valid() && d'.Valid()
    requires var r := Vacuum(env, s, d); r.Some? ==> Fits(r.value)
    ensures var t := Vacuum(env, s, d).value;
      var u := Vacuum(env, t, d');
      u.Some? && u.value.meta == t.meta && u.value.offset == t.offset
  {
    VacuumFile(env, s, d);
    VacuumKeeps(env, s, d);
    var t := Vacuum(env, s, d).value;
    VacuumFile(env, t, d');
    LayoutTableTwice(s.meta.table, HEADER_SIZE, HEADER_SIZE);
    AllLayout(s.meta.table, HEADER_SIZE);
    LayoutLength(All(s.meta.table), HEADER_SIZE);
  }
}
