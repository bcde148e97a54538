/** The vault commands in the form the implementation has: one open file and one in-memory table,
    changed in place by loops, proved against the operations on values. */
module VaultSession {
  import opened Bytes
  import opened VaultCrypto
  import opened Vault
  import opened VaultInvariant
  import opened VaultRefinement
  import opened VaultRuns
  import VaultVacuum

  class Session {
    var file: bytes
    var table: seq<FileIndex>
    var cdcSalt: bytes
    var offset: nat
    var dek: bytes

    ghost function Value(): State
      reads this
    {
      State(file, Metadata(table, cdcSalt), offset, dek)
    }

    constructor (env: Env, header: bytes, key: bytes, salt: bytes, d: Draw)
      requires |header| == HEADER_SIZE - 8
      ensures Value() == Create(env, header, key, salt, d)
    {
      file := U64Le(HEADER_SIZE) + header;
      table, cdcSalt, offset, dek := [], salt, HEADER_SIZE, key;
      new;
      SaveMetadata(env, d);
    }

    /** `save_vault_metadata`: write the block, truncate after it, then rewrite the pointer. */
    method SaveMetadata(env: Env, d: Draw)
      modifies this`file
      ensures file == Save(env, old(file), Metadata(table, cdcSalt), dek, offset, d)
    {
      var block := SealedMetadata(env, dek, Metadata(table, cdcSalt), d);
      file := WriteAt(file, offset, block);
      file := SetLen(file, offset + |block|);
      file := WriteAt(file, 0, U64Le(offset));
    }

    method Lookup(name: bytes) returns (i: nat)
      ensures i == Find(table, name)
    {
      i := 0;
      while i < |table| && table[i].name != name
        invariant i <= |table| && forall k :: 0 <= k < i ==> table[k].name != name
      {
        i := i + 1;
      }
      FirstFound(table, name, i);
    }

    /** The chunk loop: seal each piece, write it at the payload end, and record where it went. */
    method AppendAll(env: Env, pieces: seq<bytes>, rs: seq<PieceDraw>) returns (chunks: seq<ChunkEntry>)
      requires |pieces| == |rs|
      modifies this`file, this`offset
      ensures AppendPieces(env, dek, old(file), old(offset), pieces, rs) == Appended(file, chunks, offset)
    {
      chunks := [];
      for i := 0 to |pieces|
        invariant AppendPieces(env, dek, old(file), old(offset), pieces[..i], rs[..i]) == Appended(file, chunks, offset)
      {
        AppendsLast(env, dek, old(file), old(offset), pieces[..i], rs[..i], pieces[i], rs[i]);
        PrefixGrows(pieces, i);
        PrefixGrows(rs, i);
        var blob := PieceBlob(env, dek, pieces[i], rs[i]);
        chunks := chunks + [ChunkEntry(|blob|, offset, rs[i].fileId, |pieces[i]|)];
        file := WriteAt(file, offset, blob);
        offset := offset + |blob|;
      }
      assert pieces[..|pieces|] == pieces && rs[..|rs|] == rs;
    }

    /** `handle_import_from_bytes`. */
    method ImportFromBytes(env: Env, name: bytes, pieces: seq<bytes>, rs: seq<PieceDraw>, modified: nat, d: Draw)
      returns (ok: bool)
      requires |pieces| == |rs|
      modifies this
      ensures var r := Import(env, old(Value()), name, pieces, rs, modified, d);
        ok == r.Some? && Value() == OrElse(r, old(Value()))
    {
      var at := Lookup(name);
      ok := at == |table|;
      if ok {
        var chunks := AppendAll(env, pieces, rs);
        table := table + [FileIndex(name, chunks, modified)];
        SaveMetadata(env, d);
      }
    }

    method RemoveFile(env: Env, name: bytes, d: Draw) returns (ok: bool)
      modifies this
      ensures var r := Rm(env, old(Value()), name, d); ok == r.Some? && Value() == OrElse(r, old(Value()))
    {
      var at := Lookup(name);
      ok := at < |table|;
      if ok {
        var chunks := table[at].chunks;
        var i := 0;
        ghost var file0 := file;
        while i < |chunks|
          invariant i <= |chunks| && ZeroChunks(file0, chunks) == ZeroChunks(file, chunks[i..])
          invariant table == old(table) && cdcSalt == old(cdcSalt) && dek == old(dek) && offset == old(offset)
        {
          assert chunks[i..][1..] == chunks[i + 1..];
          file := WriteAt(file, chunks[i].offset, Zeros(chunks[i].cipherLen));
          i := i + 1;
        }
        table := Remove(table, at);
        file := SetLen(file, offset);
        SaveMetadata(env, d);
      }
    }

    method RenameFile(env: Env, from: bytes, to: bytes, d: Draw) returns (ok: bool)
      modifies this
      ensures var r := Rename(env, old(Value()), from, to, d); ok == r.Some? && Value() == OrElse(r, old(Value()))
    {
      var taken := Lookup(to);
      var at := Lookup(from);
      ok := ValidName(to) && taken == |table| && at < |table|;
      if ok {
        table := table[at := table[at].(name := to)];
        SaveMetadata(env, d);
      }
    }

    /** Copy one file's chunks to the end of the new container and move their entries there. */
    method Relocate(chunks: seq<ChunkEntry>, tmp: bytes) returns (ok: bool, moved: seq<ChunkEntry>, grown: bytes)
      ensures ok == InFile(file, chunks)
      ensures ok ==> moved == Layout(chunks, |tmp|) && grown == tmp + Gather(file, chunks)
    {
      ok, moved, grown := true, [], tmp;
      assert tmp == tmp + Gather(file, chunks[..0]);
      for j := 0 to |chunks|
        invariant Relocated(file, tmp, chunks[..j], moved, grown)
      {
        var c := chunks[j];
        if c.offset + c.cipherLen > |file| {
          ok := false;
          return;
        }
        RelocatesLast(file, tmp, chunks[..j], c, moved, grown);
        assert chunks[..j + 1] == chunks[..j] + [c];
        moved := moved + [c.(offset := |grown|)];
        grown := grown + Blob(file, c);
      }
      assert chunks[..|chunks|] == chunks;
    }

    /** Every file in turn; the entries move while the copying goes on, so a read that fails
        half-way leaves the table partly moved. */
    method RelocateAll(start: bytes) returns (ok: bool, tmp: bytes)
      modifies this`table
      ensures ok == InFile(file, All(old(table)))
      ensures ok ==> table == LayoutTable(old(table), |start|) && tmp == start + Gather(file, All(old(table)))
    {
      var before := table;
      ok, tmp := true, start;
      NoneMoved(file, start);
      assert before[..0] == [];
      for i := 0 to |before|
        invariant |table| == |before| && table[i..] == before[i..]
        invariant Moved(file, start, before[..i], table[..i], tmp)
      {
        assert table[i] == table[i..][0] == before[i..][0] == before[i];
        var fine, moved, grown := Relocate(table[i].chunks, tmp);
        if !fine {
          Unreadable(file, before, i);
          ok := false;
          return;
        }
        OneMoved(file, start, before[..i], table[..i], tmp, before[i]);
        PrefixGrows(before, i);
        Updated(table, i, table[i].(chunks := moved));
        Tail(before, i);
        Tail(table, i);
        table := table[i := table[i].(chunks := moved)];
        tmp := grown;
      }
      assert before[..|before|] == before && table[..|before|] == table;
    }

    /** A vacuum and the reopening that follows it; one that fails leaves the file alone. */
    method VacuumFile(env: Env, d: Draw) returns (ok: bool)
      requires HEADER_SIZE <= |file|
      modifies this
      ensures var r := Vacuum(env, old(Value()), d);
        ok == r.Some? && (ok ==> Value() == r.value) && (!ok ==> file == old(file))
    {
      var tmp := Zeros(8) + file[8..HEADER_SIZE];
      ok, tmp := RelocateAll(tmp);
      if ok {
        file, offset := tmp, |tmp|;
        SaveMetadata(env, d);
      }
    }

    /** `decrypt_to_bytes`. */
    method ReadFile(env: Env, name: bytes) returns (r: Option<bytes>)
      ensures r == DecryptToBytes(env, Value(), name)
    {
      var at := Lookup(name);
      if at == |table| { return None; }
      var chunks := table[at].chunks;
      var output: bytes := [];
      ghost var whole := ReadChunks(env, dek, file, chunks);
      ReadingStarts(whole);
      assert chunks[0..] == chunks;
      for i := 0 to |chunks|
        invariant StillToRead(whole, output, ReadChunks(env, dek, file, chunks[i..]))
      {
        SuffixOpens(chunks, i);
        ReadingStep(env, dek, file, whole, output, chunks[i], chunks[i + 1..]);
        var piece := ReadChunk(env, dek, file, chunks[i]);
        if piece.None? { return None; }
        output := output + piece.value;
      }
      ReadingEnds(whole, output);
      r := Some(output);
    }
  }

  /** The whole is what was read and then `rest`. */
  ghost predicate StillToRead(whole: Option<bytes>, output: bytes, rest: Option<bytes>) {
    whole == if rest.Some? then Some(output + rest.value) else None
  }

  lemma ReadingStarts(whole: Option<bytes>)
    ensures StillToRead(whole, [], whole)
  {
    assert whole.Some? ==> [] + whole.value == whole.value;
  }

  lemma ReadingStep(
    env: Env, dek: bytes, file: bytes, whole: Option<bytes>, output: bytes, c: ChunkEntry, cs: seq<ChunkEntry>)
    requires StillToRead(whole, output, ReadChunks(env, dek, file, [c] + cs))
    ensures match ReadChunk(env, dek, file, c)
      case None => whole == None
      case Some(piece) => StillToRead(whole, output + piece, ReadChunks(env, dek, file, cs))
  {
    ConsParts(c, cs);
    var piece, rest := ReadChunk(env, dek, file, c), ReadChunks(env, dek, file, cs);
    if piece.Some? && rest.Some? { Regroup(output, piece.value, rest.value); }
  }

  lemma ReadingEnds(whole: Option<bytes>, output: bytes)
    requires StillToRead(whole, output, Some([]))
    ensures whole == Some(output)
  {
    assert output + [] == output;
  }

  lemma {:induction false} FirstFound(table: seq<FileIndex>, name: bytes, i: nat)
    requires i <= |table| && (forall k :: 0 <= k < i ==> table[k].name != name)
    requires i < |table| ==> table[i].name == name
    ensures Find(table, name) == i
  {
  }

  /** One more piece, at the end of what the others came to. */
  function Pushed(env: Env, dek: bytes, a: Appended, piece: bytes, r: PieceDraw): Appended {
    var blob := PieceBlob(env, dek, piece, r);
    Appended(WriteAt(a.file, a.offset, blob), a.chunks + [ChunkEntry(|blob|, a.offset, r.fileId, |piece|)], a.offset + |blob|)
  }

  function Prefixed(c: ChunkEntry, a: Appended): Appended { Appended(a.file, [c] + a.chunks, a.offset) }

  lemma PushedBehind(env: Env, dek: bytes, c: ChunkEntry, a: Appended, piece: bytes, r: PieceDraw)
    ensures Pushed(env, dek, Prefixed(c, a), piece, r) == Prefixed(c, Pushed(env, dek, a, piece, r))
  {
    var last := ChunkEntry(|PieceBlob(env, dek, piece, r)|, a.offset, r.fileId, |piece|);
    assert ([c] + a.chunks) + [last] == [c] + (a.chunks + [last]);
  }

  lemma AppendsFirst(
    env: Env, dek: bytes, file: bytes, offset: nat, piece: bytes, r: PieceDraw, pieces: seq<bytes>, rs: seq<PieceDraw>)
    requires |pieces| == |rs|
    ensures var blob := PieceBlob(env, dek, piece, r);
      AppendPieces(env, dek, file, offset, [piece] + pieces, [r] + rs) ==
      Prefixed(ChunkEntry(|blob|, offset, r.fileId, |piece|),
               AppendPieces(env, dek, WriteAt(file, offset, blob), offset + |blob|, pieces, rs))
  {
    ConsParts(piece, pieces);
    ConsParts(r, rs);
  }

  /** Appending one more piece writes it at the end of what the others came to. */
  lemma {:induction false} AppendsLast(
    env: Env, dek: bytes, file: bytes, offset: nat, pieces: seq<bytes>, rs: seq<PieceDraw>, piece: bytes, r: PieceDraw)
    requires |pieces| == |rs|
    ensures AppendPieces(env, dek, file, offset, pieces + [piece], rs + [r]) ==
      Pushed(env, dek, AppendPieces(env, dek, file, offset, pieces, rs), piece, r)
    decreases |pieces|
  {
    if pieces == [] {
      assert pieces + [piece] == [piece] + [] && rs + [r] == [r] + [];
      AppendsFirst(env, dek, file, offset, piece, r, [], []);
    } else {
      var blob := PieceBlob(env, dek, pieces[0], rs[0]);
      AppendsLast(env, dek, WriteAt(file, offset, blob), offset + |blob|, pieces[1..], rs[1..], piece, r);
      ConsSnoc(pieces, piece);
      ConsSnoc(rs, r);
      HeadAndTail(pieces);
      HeadAndTail(rs);
      AppendsBoth(env, dek, file, offset, pieces[0], rs[0], pieces[1..], rs[1..], piece, r);
    }
  }

  lemma AppendsBoth(
    env: Env, dek: bytes, file: bytes, offset: nat, first: bytes, q: PieceDraw, pieces: seq<bytes>, rs: seq<PieceDraw>,
    piece: bytes, r: PieceDraw)
    requires |pieces| == |rs|
    requires var blob := PieceBlob(env, dek, first, q);
      AppendPieces(env, dek, WriteAt(file, offset, blob), offset + |blob|, pieces + [piece], rs + [r]) ==
      Pushed(env, dek, AppendPieces(env, dek, WriteAt(file, offset, blob), offset + |blob|, pieces, rs), piece, r)
    ensures AppendPieces(env, dek, file, offset, [first] + (pieces + [piece]), [q] + (rs + [r])) ==
      Pushed(env, dek, AppendPieces(env, dek, file, offset, [first] + pieces, [q] + rs), piece, r)
  {
    var blob := PieceBlob(env, dek, first, q);
    AppendsFirst(env, dek, file, offset, first, q, pieces + [piece], rs + [r]);
    AppendsFirst(env, dek, file, offset, first, q, pieces, rs);
    PushedBehind(env, dek, ChunkEntry(|blob|, offset, q.fileId, |first|),
      AppendPieces(env, dek, WriteAt(file, offset, blob), offset + |blob|, pieces, rs), piece, r);
  }

  /** `cs` copied behind `tmp`, with the entries that say where they went. */
  ghost predicate Relocated(file: bytes, tmp: bytes, cs: seq<ChunkEntry>, moved: seq<ChunkEntry>, grown: bytes) {
    InFile(file, cs) && moved == Layout(cs, |tmp|) && grown == tmp + Gather(file, cs)
  }

  lemma RelocatesLast(
    file: bytes, tmp: bytes, cs: seq<ChunkEntry>, c: ChunkEntry, moved: seq<ChunkEntry>, grown: bytes)
    requires Relocated(file, tmp, cs, moved, grown) && c.offset + c.cipherLen <= |file|
    ensures Relocated(file, tmp, cs + [c], moved + [c.(offset := |grown|)], grown + Blob(file, c))
  {
    LayoutLast(cs, c, |tmp|);
    GatherLast(file, cs, c);
    Regroup(tmp, Gather(file, cs), Blob(file, c));
  }

  lemma GatherLast(file: bytes, cs: seq<ChunkEntry>, c: ChunkEntry)
    requires InFile(file, cs) && c.offset + c.cipherLen <= |file|
    ensures InFile(file, cs + [c]) && Gather(file, cs + [c]) == Gather(file, cs) + Blob(file, c)
  {
    GatherConcat(file, cs, [c]);
    assert [c][1..] == [];
    assert Gather(file, [c]) == Blob(file, c) + [] == Blob(file, c);
  }

  lemma {:induction false} LayoutLast(cs: seq<ChunkEntry>, c: ChunkEntry, at: nat)
    ensures Layout(cs + [c], at) == Layout(cs, at) + [c.(offset := at + SumLen(cs))]
    decreases |cs|
  {
    if cs == [] {
      assert cs + [c] == [c] && [c][1..] == [];
    } else {
      assert (cs + [c])[0] == cs[0] && (cs + [c])[1..] == cs[1..] + [c];
      LayoutLast(cs[1..], c, at + cs[0].cipherLen);
    }
  }

  // ---- files moved so far -----------------------------------------------

  /** The files of `p` copied behind `start`, and `laid` says where they went. */
  ghost predicate Moved(file: bytes, start: bytes, p: seq<FileIndex>, laid: seq<FileIndex>, tmp: bytes) {
    InFile(file, All(p)) && laid == LayoutTable(p, |start|) && tmp == start + Gather(file, All(p))
  }

  lemma NoneMoved(file: bytes, start: bytes)
    ensures Moved(file, start, [], [], start)
  {
    assert start + [] == start;
  }

  lemma AllLast(p: seq<FileIndex>, f: FileIndex)
    ensures All(p + [f]) == All(p) + f.chunks
  {
    AllConcat(p, [f]);
    AllOne(f);
  }

  lemma OneMoved(file: bytes, start: bytes, p: seq<FileIndex>, laid: seq<FileIndex>, tmp: bytes, f: FileIndex)
    requires Moved(file, start, p, laid, tmp) && InFile(file, f.chunks)
    ensures Moved(file, start, p + [f], laid + [f.(chunks := Layout(f.chunks, |tmp|))], tmp + Gather(file, f.chunks))
  {
    BytesMoved(file, start, p, tmp, f);
    EntriesMoved(p, laid, |start|, |tmp|, f);
  }

  lemma EntriesMoved(p: seq<FileIndex>, laid: seq<FileIndex>, start: nat, at: nat, f: FileIndex)
    requires laid == LayoutTable(p, start) && at == start + SumLen(All(p))
    ensures laid + [f.(chunks := Layout(f.chunks, at))] == LayoutTable(p + [f], start)
  {
    LayoutTableLast(p, f, start, at);
  }

  lemma BytesMoved(file: bytes, start: bytes, p: seq<FileIndex>, tmp: bytes, f: FileIndex)
    requires InFile(file, All(p)) && InFile(file, f.chunks) && tmp == start + Gather(file, All(p))
    ensures InFile(file, All(p + [f])) && tmp + Gather(file, f.chunks) == start + Gather(file, All(p + [f]))
    ensures |tmp| == |start| + SumLen(All(p))
  {
    AllLast(p, f);
    GatherMore(file, start, All(p), f.chunks);
  }

  lemma GatherMore(file: bytes, start: bytes, a: seq<ChunkEntry>, b: seq<ChunkEntry>)
    requires InFile(file, a) && InFile(file, b)
    ensures InFile(file, a + b) && start + Gather(file, a + b) == (start + Gather(file, a)) + Gather(file, b)
    ensures |start + Gather(file, a)| == |start| + SumLen(a)
  {
    GatherConcat(file, a, b);
    Regroup(start, Gather(file, a), Gather(file, b));
  }

  lemma SumAll(p: seq<FileIndex>)
    requires p != []
    ensures SumLen(All(p)) == SumLen(p[0].chunks) + SumLen(All(p[1..]))
  {
    VaultVacuum.SumConcat(p[0].chunks, All(p[1..]));
  }

  lemma {:induction false} LayoutTableLast(p: seq<FileIndex>, f: FileIndex, at: nat, end: nat)
    requires end == at + SumLen(All(p))
    ensures LayoutTable(p + [f], at) == LayoutTable(p, at) + [f.(chunks := Layout(f.chunks, end))]
    decreases |p|
  {
    if p == [] {
      assert p + [f] == [f] && [f][1..] == [];
    } else {
      SumAll(p);
      LayoutTableLast(p[1..], f, at + SumLen(p[0].chunks), end);
      LayoutTableStep(p, f, at, f.(chunks := Layout(f.chunks, end)));
    }
  }

  lemma LayoutTableStep(p: seq<FileIndex>, f: FileIndex, at: nat, g: FileIndex)
    requires p != []
    requires var next := at + SumLen(p[0].chunks);
      LayoutTable(p[1..] + [f], next) == LayoutTable(p[1..], next) + [g]
    ensures LayoutTable(p + [f], at) == LayoutTable(p, at) + [g]
  {
    assert (p + [f])[0] == p[0] && (p + [f])[1..] == p[1..] + [f];
    JoinThree(p[0].(chunks := Layout(p[0].chunks, at)), LayoutTable(p[1..], at + SumLen(p[0].chunks)), g);
  }

  lemma JoinThree(a: FileIndex, p: seq<FileIndex>, b: FileIndex)
    ensures [a] + (p + [b]) == ([a] + p) + [b]
  {
  }

  lemma Unreadable(file: bytes, table: seq<FileIndex>, i: nat)
    requires i < |table| && !InFile(file, table[i].chunks)
    ensures !InFile(file, All(table))
  {
    AllSplit(table, i);
    GatherConcat(file, All(table[..i]), table[i].chunks);
    GatherConcat(file, All(table[..i]) + table[i].chunks, All(table[i + 1..]));
  }

  lemma Tail(table: seq<FileIndex>, i: nat)
    requires i < |table|
    ensures table[i..][0] == table[i] && table[i..][1..] == table[i + 1..]
  {
  }

  lemma Updated(table: seq<FileIndex>, i: nat, f: FileIndex)
    requires i < |table|
    ensures table[i := f][..i + 1] == table[..i] + [f] && table[i := f][i + 1..] == table[i + 1..]
  {
  }

  lemma InFileConcat(file: bytes, a: seq<ChunkEntry>, b: seq<ChunkEntry>)
    ensures InFile(file, a + b) <==> InFile(file, a) && InFile(file, b)
  {
    assert forall i :: 0 <= i < |b| ==> (a + b)[|a| + i] == b[i];
    assert forall i :: 0 <= i < |a| ==> (a + b)[i] == a[i];
  }

  lemma GatherCons(file: bytes, c: ChunkEntry, cs: seq<ChunkEntry>)
    requires c.offset + c.cipherLen <= |file| && InFile(file, cs)
    ensures InFile(file, [c] + cs) && Gather(file, [c] + cs) == Blob(file, c) + Gather(file, cs)
  {
    ConsParts(c, cs);
    InFileConcat(file, [c], cs);
  }

  lemma {:induction false} GatherConcat(file: bytes, a: seq<ChunkEntry>, b: seq<ChunkEntry>)
    ensures InFile(file, a + b) <==> InFile(file, a) && InFile(file, b)
    ensures InFile(file, a + b) ==> Gather(file, a + b) == Gather(file, a) + Gather(file, b)
    decreases |a|
  {
    InFileConcat(file, a, b);
    if a == [] {
      assert a + b == b;
    } else if InFile(file, a + b) {
      assert a + b == [a[0]] + (a[1..] + b) && a == [a[0]] + a[1..];
      GatherConcat(file, a[1..], b);
      GatherCons(file, a[0], a[1..] + b);
      GatherCons(file, a[0], a[1..]);
      Regroup(Blob(file, a[0]), Gather(file, a[1..]), Gather(file, b));
    }
  }
}
