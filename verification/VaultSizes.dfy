/** How large the table is once serialized, and which operations can push it past what a load reads:
    imports and renames, never removals, vacuums or reopenings. */
module VaultSizes {
  import opened Bytes
  import opened VaultCrypto
  import opened Vault
  import opened VaultInvariant
  import opened VaultRefinement
  import opened VaultRemoval
  import opened VaultVacuum
  import opened VaultRuns
  import opened VaultLimit
  import Bincode

  // ---- the size of a table ----------------------------------------------

  /** Three words and the name, and forty bytes a chunk. */
  function FileSize(f: FileIndex): nat { 24 + |f.name| + 40 * |f.chunks| }

  function TableSize(table: seq<FileIndex>): nat {
    if table == [] then 0 else FileSize(table[0]) + TableSize(table[1..])
  }

  lemma FileTakes(f: FileIndex)
    requires SizedFile(f)
    ensures |Bincode.EncodeFile(f)| == FileSize(f)
  {
    ChunksTakeForty(f.chunks);
  }

  lemma {:induction false} FilesTake(table: seq<FileIndex>)
    requires forall i :: 0 <= i < |table| ==> SizedFile(table[i])
    ensures |Bincode.EncodeFiles(table)| == TableSize(table)
    decreases |table|
  {
    if table != [] {
      FileTakes(table[0]);
      FilesTake(table[1..]);
    }
  }

  /** A vault whose sealed block ends the file, as every save leaves it. */
  ghost predicate Tight(env: Env, s: State) { |s.file| == s.offset + |env.encode(s.meta)| + CHUNK_OVERHEAD }

  /** What a vault may list, in numbers that can be read off its table. */
  predicate Listable(s: State) {
    Sized(s.meta) && IsU64(s.offset) && TableSize(s.meta.table) + 40 + CHUNK_OVERHEAD <= MAX_METADATA_READ
  }

  lemma FitsExactly(env: Env, s: State)
    requires env.encode == Bincode.Encode && Tight(env, s)
    ensures Fits(s) <==> Listable(s)
  {
    if Sized(s.meta) { FilesTake(s.meta.table); }
  }

  lemma SaveIsTight(env: Env, file: bytes, s: State, d: Draw)
    requires env.Sound() && d.Valid() && HEADER_SIZE <= s.offset <= |file|
    requires s.file == Save(env, file, s.meta, s.dek, s.offset, d)
    ensures Tight(env, s)
  {
    SavedTail(env, file, s.meta, s.dek, s.offset, d);
    ChunkRoundTrip(env.cipher, s.dek, d.salt, d.nonce, METADATA_FILE_ID, env.encode(s.meta));
  }

  // ---- every operation leaves the file tight ----------------------------

  lemma ImportIsTight(
    env: Env, s: State, name: bytes, pieces: seq<bytes>, rs: seq<PieceDraw>, modified: nat, d: Draw)
    requires env.Sound() && WellFormed(env, s) && ValidPieces(pieces, rs) && d.Valid()
    requires Import(env, s, name, pieces, rs, modified, d).Some?
    ensures Tight(env, Import(env, s, name, pieces, rs, modified, d).value)
  {
    AppendedHeader(env, s, pieces, rs);
    var a := AppendPieces(env, s.dek, s.file, s.offset, pieces, rs);
    SaveIsTight(env, a.file, Import(env, s, name, pieces, rs, modified, d).value, d);
  }

  lemma VacuumIsTight(env: Env, s: State, d: Draw)
    requires env.Sound() && WellFormed(env, s) && d.Valid() && Vacuum(env, s, d).Some?
    ensures Tight(env, Vacuum(env, s, d).value)
  {
    var packed := Zeros(8) + s.file[8..HEADER_SIZE] + Gather(s.file, All(s.meta.table));
    SaveIsTight(env, packed, Vacuum(env, s, d).value, d);
  }

  lemma StepIsTight(env: Env, password: bytes, s: State, op: Op)
    requires env.Sound() && Inv(env, password, s) && ValidOp(op) && Tight(env, s)
    ensures Tight(env, Step(env, password, s, op))
  {
    var t := Step(env, password, s, op);
    if t != s {
      match op
      case ImportOp(name, pieces, rs, modified, d) => ImportIsTight(env, s, name, pieces, rs, modified, d);
      case RmOp(name, d) =>
        SaveIsTight(env, SetLen(ZeroChunks(s.file, s.meta.table[Find(s.meta.table, name)].chunks), s.offset), t, d);
      case RenameOp(from, to, d) => SaveIsTight(env, s.file, t, d);
      case VacuumOp(d) => VacuumIsTight(env, s, d);
      case ReopenOp => LoadFinds(env, s, password);
    }
  }

  // ---- what does not grow -----------------------------------------------

  lemma {:induction false} RemoveShrinks(table: seq<FileIndex>, i: nat)
    requires i < |table|
    ensures TableSize(Remove(table, i)) + FileSize(table[i]) == TableSize(table)
    decreases i
  {
    if i == 0 {
      assert Remove(table, 0) == table[1..];
    } else {
      assert Remove(table, i) == [table[0]] + Remove(table[1..], i - 1);
      RemoveShrinks(table[1..], i - 1);
    }
  }

  lemma {:induction false} LayoutTakesTheSame(table: seq<FileIndex>, start: nat)
    ensures TableSize(LayoutTable(table, start)) == TableSize(table)
    decreases |table|
  {
    if table != [] {
      var rest := start + SumLen(table[0].chunks);
      LayoutLength(table[0].chunks, start);
      LayoutTakesTheSame(table[1..], rest);
      ConsParts(table[0].(chunks := Layout(table[0].chunks, start)), LayoutTable(table[1..], rest));
    }
  }

  predicate SizedChunks(cs: seq<ChunkEntry>) { forall i :: 0 <= i < |cs| ==> SizedChunk(cs[i]) }

  lemma {:induction false} AllSized(table: seq<FileIndex>)
    requires forall i :: 0 <= i < |table| ==> SizedFile(table[i])
    ensures SizedChunks(All(table))
    decreases |table|
  {
    if table != [] {
      AllSized(table[1..]);
      assert SizedFile(table[0]);
    }
  }

  lemma {:induction false} LayoutSizedChunks(cs: seq<ChunkEntry>, start: nat)
    requires SizedChunks(cs) && IsU64(start + SumLen(cs))
    ensures SizedChunks(Layout(cs, start))
    decreases |cs|
  {
    if cs != [] { LayoutSizedChunks(cs[1..], start + cs[0].cipherLen); }
  }

  /** A vacuum leaves name, time and number of chunks of each file. */
  lemma {:induction false} LayoutRest(table: seq<FileIndex>, start: nat)
    ensures |LayoutTable(table, start)| == |table|
    ensures forall i :: 0 <= i < |table| ==> SameButPlaces(LayoutTable(table, start)[i], table[i])
    decreases |table|
  {
    if table != [] {
      LayoutLength(table[0].chunks, start);
      LayoutRest(table[1..], start + SumLen(table[0].chunks));
    }
  }

  predicate SameButPlaces(f: FileIndex, g: FileIndex) {
    f.name == g.name && f.modified == g.modified && |f.chunks| == |g.chunks|
  }

  lemma LayoutIsSized(table: seq<FileIndex>, k: nat)
    requires (forall i :: 0 <= i < |table| ==> SizedFile(table[i])) && IsU64(HEADER_SIZE + SumLen(All(table)))
    requires k < |table| == |LayoutTable(table, HEADER_SIZE)|
    ensures SizedFile(LayoutTable(table, HEADER_SIZE)[k])
  {
    var laid := LayoutTable(table, HEADER_SIZE);
    AllSized(table);
    LayoutSizedChunks(All(table), HEADER_SIZE);
    AllLayout(table, HEADER_SIZE);
    AllSplit(laid, k);
    PartSized(All(laid[..k]), laid[k].chunks, All(laid[k + 1..]));
    LayoutRest(table, HEADER_SIZE);
    assert SameButPlaces(laid[k], table[k]);
  }

  lemma PartSized(a: seq<ChunkEntry>, b: seq<ChunkEntry>, c: seq<ChunkEntry>)
    requires SizedChunks(a + b + c)
    ensures SizedChunks(b)
  {
    forall i | 0 <= i < |b| ensures SizedChunk(b[i]) { assert b[i] == (a + b + c)[|a| + i]; }
  }

  lemma RmStillLists(env: Env, s: State, name: bytes, d: Draw)
    requires Listable(s) && Rm(env, s, name, d).Some?
    ensures Listable(Rm(env, s, name, d).value)
  {
    RemoveShrinks(s.meta.table, Find(s.meta.table, name));
  }

  lemma VacuumStillLists(env: Env, s: State, d: Draw)
    requires env.Sound() && WellFormed(env, s) && d.Valid() && Listable(s) && Vacuum(env, s, d).Some?
    ensures Listable(Vacuum(env, s, d).value)
  {
    VacuumFile(env, s, d);
    PackingBound(All(s.meta.table), HEADER_SIZE, s.offset);
    LayoutTakesTheSame(s.meta.table, HEADER_SIZE);
    LayoutRest(s.meta.table, HEADER_SIZE);
    var laid := LayoutTable(s.meta.table, HEADER_SIZE);
    forall k | 0 <= k < |laid| ensures SizedFile(laid[k]) { LayoutIsSized(s.meta.table, k); }
  }

  // ---- runs -------------------------------------------------------------

  /** The operations that can make the table larger. */
  predicate Adds(op: Op) { op.ImportOp? || op.RenameOp? }

  lemma OthersStillFit(env: Env, password: bytes, s: State, op: Op)
    requires env.Sound() && env.encode == Bincode.Encode && Inv(env, password, s) && ValidOp(op) && Tight(env, s)
    requires !Adds(op)
    ensures Fits(Step(env, password, s, op))
  {
    var t := Step(env, password, s, op);
    FitsExactly(env, s);
    StepIsTight(env, password, s, op);
    FitsExactly(env, t);
    if t != s {
      match op
      case RmOp(name, d) => RmStillLists(env, s, name, d);
      case VacuumOp(d) => VacuumStillLists(env, s, d);
      case ReopenOp => LoadFinds(env, s, password);
    }
  }

  /** After every import and every rename the vault may list what it lists. */
  ghost predicate AdditionsFit(env: Env, password: bytes, s: State, ops: seq<Op>)
    requires forall i :: 0 <= i < |ops| ==> ValidOp(ops[i])
    decreases |ops|
  {
    ops == [] || |s.file| < HEADER_SIZE ||
    var t := Step(env, password, s, ops[0]);
    (Adds(ops[0]) ==> Listable(t)) && AdditionsFit(env, password, t, ops[1..])
  }

  /** Watching the imports and renames is enough, and no more is asked than has to be. */
  lemma {:induction false} AdditionsDecide(env: Env, password: bytes, s: State, ops: seq<Op>, m: map<bytes, bytes>)
    requires env.Sound() && env.encode == Bincode.Encode && Inv(env, password, s) && Represents(env, s, m) && Tight(env, s)
    requires forall i :: 0 <= i < |ops| ==> ValidOp(ops[i])
    ensures AdditionsFit(env, password, s, ops) <==> AllFit(env, password, s, ops)
    decreases |ops|
  {
    if ops != [] {
      var t := Step(env, password, s, ops[0]);
      StepIsTight(env, password, s, ops[0]);
      FitsExactly(env, t);
      if !Adds(ops[0]) { OthersStillFit(env, password, s, ops[0]); }
      if Fits(t) {
        StepRefines(env, password, s, ops[0], m);
        AdditionsDecide(env, password, t, ops[1..], MapStep(m, ops[0]));
      }
    }
  }

  lemma CreateFits(env: Env, header: bytes, dek: bytes, cdcSalt: bytes, d: Draw)
    requires env.Sound() && env.encode == Bincode.Encode && |header| == HEADER_SIZE - 8 && |cdcSalt| == 32 && d.Valid()
    ensures var s := Create(env, header, dek, cdcSalt, d); Tight(env, s) && Fits(s)
  {
    var s := Create(env, header, dek, cdcSalt, d);
    SaveIsTight(env, U64Le(HEADER_SIZE) + header, s, d);
    FitsExactly(env, s);
  }

  /** Every run is that of a plain map as long as the tables its imports and renames leave are within
      the limit; with the program's serializer nothing else is asked. */
  lemma VaultIsAMapWithinLimit(env: Env, password: bytes, header: bytes, dek: bytes, cdcSalt: bytes, d: Draw, ops: seq<Op>)
    requires env.Sound() && env.encode == Bincode.Encode && |header| == HEADER_SIZE - 8 && |cdcSalt| == 32 && d.Valid()
    requires env.unlock(password, header) == Some(dek)
    requires forall i :: 0 <= i < |ops| ==> ValidOp(ops[i])
    requires AdditionsFit(env, password, Create(env, header, dek, cdcSalt, d), ops)
    ensures var t := Run(env, password, Create(env, header, dek, cdcSalt, d), ops);
      && WellFormed(env, t) && Represents(env, t, MapRun(map[], ops))
      && Load(env, t.file, password) == Some(Loaded(t.meta, t.dek, t.offset))
  {
    CreateFits(env, header, dek, cdcSalt, d);
    CreateRefines(env, password, header, dek, cdcSalt, d);
    AdditionsDecide(env, password, Create(env, header, dek, cdcSalt, d), ops, map[]);
    VaultIsAMap(env, password, header, dek, cdcSalt, d, ops);
  }
}
