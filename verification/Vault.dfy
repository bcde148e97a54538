/** The vault container: a 125-byte header, a region of chunk blobs, and a sealed metadata block
    reached through the master pointer in the first eight bytes. */
module Vault {
  import opened Bytes
  import opened VaultCrypto

  const HEADER_SIZE: nat := 125
  const MAX_METADATA_READ: nat := 10 * 1024 * 1024

  datatype ChunkEntry = ChunkEntry(cipherLen: nat, offset: nat, fileId: bytes, plainLen: nat)
  datatype FileIndex = FileIndex(name: bytes, chunks: seq<ChunkEntry>, modified: nat)
  datatype Metadata = Metadata(table: seq<FileIndex>, cdcSalt: bytes)

  /** What the serializer can represent: lengths, offsets and times as 64-bit words. */
  predicate Sized(m: Metadata) {
    && |m.table| < U64_RANGE && |m.cdcSalt| == 32
    && forall i :: 0 <= i < |m.table| ==> SizedFile(m.table[i])
  }

  predicate SizedFile(f: FileIndex) {
    && |f.name| < U64_RANGE && |f.chunks| < U64_RANGE && IsU64(f.modified)
    && forall i :: 0 <= i < |f.chunks| ==> SizedChunk(f.chunks[i])
  }

  predicate SizedChunk(c: ChunkEntry) {
    IsU64(c.cipherLen) && IsU64(c.offset) && |c.fileId| == FILE_ID_LEN && IsU64(c.plainLen)
  }

  /** Everything a session works with besides the file: the cipher, the serializer, and the way the
      password unlocks the header. */
  datatype Env = Env(
    cipher: Cipher, encode: Metadata -> bytes, decode: bytes -> Option<Metadata>,
    unlock: (bytes, bytes) -> Option<bytes>)
  {
    ghost predicate Sound() {
      && cipher.Sound()
      && forall m: Metadata :: Sized(m) ==> decode(encode(m)) == Some(m)
    }
  }

  /** A file on disk together with what the session holds in memory about it. */
  datatype State = State(file: bytes, meta: Metadata, offset: nat, dek: bytes)

  /** One draw of salt and nonce. */
  datatype Draw = Draw(salt: bytes, nonce: bytes)
  {
    predicate Valid() { |salt| == FILE_SALT_LEN && |nonce| == XNONCE_LEN }
  }

  /** What importing one piece draws: salt and nonce, the chunk's id, and the padding. */
  datatype PieceDraw = PieceDraw(draw: Draw, fileId: bytes, pad: bytes)

  // ---- file operations --------------------------------------------------

  function SetLen(file: bytes, n: nat): (r: bytes)
    ensures |r| == n
  {
    if n <= |file| then file[..n] else file + Zeros(n - |file|)
  }

  /** Seek to `pos` and write `b`; a gap before `pos` reads as zeros. */
  function WriteAt(file: bytes, pos: nat, b: bytes): bytes {
    SetLen(file, pos) + b + (if pos + |b| < |file| then file[pos + |b|..] else [])
  }

  lemma WriteAtFrame(file: bytes, pos: nat, b: bytes, lo: nat, hi: nat)
    requires lo <= hi <= |file| && (hi <= pos || pos + |b| <= lo)
    ensures |WriteAt(file, pos, b)| == Max(|file|, pos + |b|)
    ensures WriteAt(file, pos, b)[lo..hi] == file[lo..hi]
  {
  }

  lemma WriteAtHit(file: bytes, pos: nat, b: bytes)
    ensures |WriteAt(file, pos, b)| == Max(|file|, pos + |b|)
    ensures WriteAt(file, pos, b)[pos..pos + |b|] == b
  {
  }

  // ---- save and load ----------------------------------------------------

  function SealedMetadata(env: Env, dek: bytes, meta: Metadata, d: Draw): bytes {
    EncryptChunk(env.cipher, dek, d.salt, d.nonce, METADATA_FILE_ID, env.encode(meta))
  }

  /** Write the sealed block at `offset`, cut the file after it, and point the header at it. */
  function Save(env: Env, file: bytes, meta: Metadata, dek: bytes, offset: nat, d: Draw): bytes {
    var block := SealedMetadata(env, dek, meta, d);
    var cut := SetLen(WriteAt(file, offset, block), offset + |block|);
    WriteAt(cut, 0, U64Le(offset))
  }

  datatype Loaded = Loaded(meta: Metadata, dek: bytes, offset: nat)

  function Load(env: Env, file: bytes, password: bytes): Option<Loaded> {
    if |file| < HEADER_SIZE then None
    else
      var pointer := FromLittleEndian(file[..8]);
      match env.unlock(password, file[8..HEADER_SIZE])
      case None => None
      case Some(dek) =>
        var from := Min(pointer, |file|);
        var block := file[from..Min(|file|, from + MAX_METADATA_READ)];
        match DecryptChunk(env.cipher, dek, block, METADATA_FILE_ID)
        case Plain(text) =>
          (match env.decode(text)
           case Some(meta) => Some(Loaded(meta, dek, pointer))
           case None => None)
        case _ => None
  }

  // ---- lookup and reading -----------------------------------------------

  /** The position of the first file called `name`, or the table length. */
  function Find(table: seq<FileIndex>, name: bytes): (i: nat)
    ensures i <= |table|
    ensures i < |table| ==> table[i].name == name
    ensures forall k :: 0 <= k < i ==> table[k].name != name
    ensures i < |table| <==> exists k :: 0 <= k < |table| && table[k].name == name
  {
    if table == [] then 0
    else if table[0].name == name then 0
    else 1 + Find(table[1..], name)
  }

  function Blob(file: bytes, c: ChunkEntry): bytes
    requires c.offset + c.cipherLen <= |file|
  {
    file[c.offset..c.offset + c.cipherLen]
  }

  /** The content of one chunk with its padding stripped; a stored length of 0 means no padding. */
  function ReadChunk(env: Env, dek: bytes, file: bytes, c: ChunkEntry): Option<bytes> {
    if c.offset + c.cipherLen > |file| then None
    else match DecryptChunk(env.cipher, dek, Blob(file, c), c.fileId)
      case Plain(text) =>
        if c.plainLen == 0 then Some(text)
        else if c.plainLen <= |text| then Some(text[..c.plainLen]) else None
      case _ => None
  }

  function ReadChunks(env: Env, dek: bytes, file: bytes, cs: seq<ChunkEntry>): Option<bytes> {
    if cs == [] then Some([])
    else match ReadChunk(env, dek, file, cs[0])
      case None => None
      case Some(head) =>
        match ReadChunks(env, dek, file, cs[1..])
        case None => None
        case Some(tail) => Some(head + tail)
  }

  /** `decrypt_to_bytes`: the bytes of the file called `name`. */
  function DecryptToBytes(env: Env, s: State, name: bytes): Option<bytes> {
    var i := Find(s.meta.table, name);
    if i == |s.meta.table| then None else ReadChunks(env, s.dek, s.file, s.meta.table[i].chunks)
  }

  // ---- import -----------------------------------------------------------

  datatype Appended = Appended(file: bytes, chunks: seq<ChunkEntry>, offset: nat)

  function PieceBlob(env: Env, dek: bytes, piece: bytes, r: PieceDraw): bytes {
    EncryptChunk(env.cipher, dek, r.draw.salt, r.draw.nonce, r.fileId, piece + r.pad)
  }

  /** Seal and write the pieces one after the other from `offset`. */
  function AppendPieces(env: Env, dek: bytes, file: bytes, offset: nat, pieces: seq<bytes>, rs: seq<PieceDraw>): Appended
    requires |pieces| == |rs|
    decreases |pieces|
  {
    if pieces == [] then Appended(file, [], offset)
    else
      var blob := PieceBlob(env, dek, pieces[0], rs[0]);
      var file' := WriteAt(file, offset, blob);
      var rest := AppendPieces(env, dek, file', offset + |blob|, pieces[1..], rs[1..]);
      Appended(rest.file, [ChunkEntry(|blob|, offset, rs[0].fileId, |pieces[0]|)] + rest.chunks, rest.offset)
  }

  /** `handle_import_from_bytes`, for the pieces the chunker cut the data into. */
  function Import(env: Env, s: State, name: bytes, pieces: seq<bytes>, rs: seq<PieceDraw>, modified: nat, d: Draw): Option<State>
    requires |pieces| == |rs|
  {
    if Find(s.meta.table, name) < |s.meta.table| then None
    else
      var a := AppendPieces(env, s.dek, s.file, s.offset, pieces, rs);
      var meta := s.meta.(table := s.meta.table + [FileIndex(name, a.chunks, modified)]);
      Some(State(Save(env, a.file, meta, s.dek, a.offset, d), meta, a.offset, s.dek))
  }

  // ---- rm ---------------------------------------------------------------

  /** Overwrite every chunk in the list with zeros. */
  function ZeroChunks(file: bytes, cs: seq<ChunkEntry>): bytes
    decreases |cs|
  {
    if cs == [] then file else ZeroChunks(WriteAt(file, cs[0].offset, Zeros(cs[0].cipherLen)), cs[1..])
  }

  function Remove(table: seq<FileIndex>, i: nat): seq<FileIndex>
    requires i < |table|
  {
    table[..i] + table[i + 1..]
  }

  function Rm(env: Env, s: State, name: bytes, d: Draw): Option<State> {
    var i := Find(s.meta.table, name);
    if i == |s.meta.table| then None
    else
      var zeroed := ZeroChunks(s.file, s.meta.table[i].chunks);
      var meta := s.meta.(table := Remove(s.meta.table, i));
      Some(s.(file := Save(env, SetLen(zeroed, s.offset), meta, s.dek, s.offset, d), meta := meta))
  }

  // ---- rename -----------------------------------------------------------

  /** Names the explorer accepts: not empty, and without '/', '\\' and NUL. */
  predicate ValidName(name: bytes) { name != [] && 0x2f !in name && 0x5c !in name && 0 !in name }

  function Rename(env: Env, s: State, from: bytes, to: bytes, d: Draw): Option<State> {
    var i := Find(s.meta.table, from);
    if !ValidName(to) || Find(s.meta.table, to) < |s.meta.table| || i == |s.meta.table| then None
    else
      var meta := s.meta.(table := s.meta.table[i := s.meta.table[i].(name := to)]);
      Some(s.(file := Save(env, s.file, meta, s.dek, s.offset, d), meta := meta))
  }

  // ---- vacuum -----------------------------------------------------------

  function SumLen(cs: seq<ChunkEntry>): nat {
    if cs == [] then 0 else cs[0].cipherLen + SumLen(cs[1..])
  }

  /** The same chunks laid end to end from `start`. */
  function Layout(cs: seq<ChunkEntry>, start: nat): seq<ChunkEntry> {
    if cs == [] then [] else [cs[0].(offset := start)] + Layout(cs[1..], start + cs[0].cipherLen)
  }

  function LayoutTable(table: seq<FileIndex>, start: nat): seq<FileIndex> {
    if table == [] then []
    else
      [table[0].(chunks := Layout(table[0].chunks, start))]
      + LayoutTable(table[1..], start + SumLen(table[0].chunks))
  }

  /** Every chunk of every file, in table order. */
  function All(table: seq<FileIndex>): seq<ChunkEntry> {
    if table == [] then [] else table[0].chunks + All(table[1..])
  }

  predicate InFile(file: bytes, cs: seq<ChunkEntry>) {
    forall i :: 0 <= i < |cs| ==> cs[i].offset + cs[i].cipherLen <= |file|
  }

  /** The bytes of the chunks, end to end. */
  function Gather(file: bytes, cs: seq<ChunkEntry>): (r: bytes)
    requires InFile(file, cs)
    ensures |r| == SumLen(cs)
  {
    if cs == [] then [] else Blob(file, cs[0]) + Gather(file, cs[1..])
  }

  /** A successful `handle_vacuum` and the reopening of the file it renamed into place; `None` where
      a chunk cannot be read whole. */
  function Vacuum(env: Env, s: State, d: Draw): Option<State>
    requires HEADER_SIZE <= |s.file|
  {
    var cs := All(s.meta.table);
    if !InFile(s.file, cs) then None
    else
      var packed := Zeros(8) + s.file[8..HEADER_SIZE] + Gather(s.file, cs);
      var meta := s.meta.(table := LayoutTable(s.meta.table, HEADER_SIZE));
      Some(State(Save(env, packed, meta, s.dek, |packed|, d), meta, |packed|, s.dek))
  }

  // ---- create -----------------------------------------------------------

  /** Master pointer, then KDF settings (13), salt (32), key nonce (24) and wrapped key (48). */
  function Create(env: Env, header: bytes, dek: bytes, cdcSalt: bytes, d: Draw): State
    requires |header| == HEADER_SIZE - 8
  {
    var meta := Metadata([], cdcSalt);
    State(Save(env, U64Le(HEADER_SIZE) + header, meta, dek, HEADER_SIZE, d), meta, HEADER_SIZE, dek)
  }
}
