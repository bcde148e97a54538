/** Whole runs of a vault: create, then any completed operations in any order. */
module VaultRuns {
  import opened Bytes
  import opened VaultCrypto
  import opened Vault
  import opened VaultInvariant
  import opened VaultRefinement
  import opened VaultRemoval
  import opened VaultVacuum

  datatype Op =
    | ImportOp(name: bytes, pieces: seq<bytes>, rs: seq<PieceDraw>, modified: nat, d: Draw)
    | RmOp(name: bytes, d: Draw)
    | RenameOp(from: bytes, to: bytes, d: Draw)
    | VacuumOp(d: Draw)
    | ReopenOp

  predicate ValidOp(op: Op) {
    match op
    case ImportOp(_, pieces, rs, _, d) => ValidPieces(pieces, rs) && d.Valid()
    case RmOp(_, d) => d.Valid()
    case RenameOp(_, _, d) => d.Valid()
    case VacuumOp(d) => d.Valid()
    case ReopenOp => true
  }

  function OrElse(r: Option<State>, s: State): State { if r.Some? then r.value else s }

  /** One operation; a refused one leaves the vault alone.  Reopening keeps only the file. */
  function Step(env: Env, password: bytes, s: State, op: Op): State
    requires ValidOp(op) && HEADER_SIZE <= |s.file|
  {
    match op
    case ImportOp(name, pieces, rs, modified, d) => OrElse(Import(env, s, name, pieces, rs, modified, d), s)
    case RmOp(name, d) => OrElse(Rm(env, s, name, d), s)
    case RenameOp(from, to, d) => OrElse(Rename(env, s, from, to, d), s)
    case VacuumOp(d) => OrElse(Vacuum(env, s, d), s)
    case ReopenOp =>
      match Load(env, s.file, password)
      case Some(l) => State(s.file, l.meta, l.offset, l.dek)
      case None => s
  }

  /** The same operation on a plain map. */
  function MapStep(m: map<bytes, bytes>, op: Op): map<bytes, bytes> {
    match op
    case ImportOp(name, pieces, _, _, _) => if name in m then m else m[name := Joined(pieces)]
    case RmOp(name, _) => m - {name}
    case RenameOp(from, to, _) => if ValidName(to) && to !in m && from in m then (m - {from})[to := m[from]] else m
    case VacuumOp(_) => m
    case ReopenOp => m
  }

  ghost predicate Inv(env: Env, password: bytes, s: State) {
    WellFormed(env, s) && env.unlock(password, s.file[8..HEADER_SIZE]) == Some(s.dek)
  }

  lemma StepRefines(env: Env, password: bytes, s: State, op: Op, m: map<bytes, bytes>)
    requires env.Sound() && Inv(env, password, s) && Represents(env, s, m) && ValidOp(op)
    requires Fits(Step(env, password, s, op))
    ensures var t := Step(env, password, s, op); Inv(env, password, t) && Represents(env, t, MapStep(m, op))
  {
    match op
    case ImportOp(name, pieces, rs, modified, d) => ImportRefines(env, s, name, pieces, rs, modified, d, m);
    case RmOp(name, d) =>
      RmRefines(env, s, name, d, m);
      if name !in m { assert m - {name} == m; }
    case RenameOp(from, to, d) => RenameRefines(env, s, from, to, d, m);
    case VacuumOp(d) => VacuumFile(env, s, d); VacuumRefines(env, s, d, m);
    case ReopenOp => LoadFinds(env, s, password);
  }

  lemma CreateRefines(env: Env, password: bytes, header: bytes, dek: bytes, cdcSalt: bytes, d: Draw)
    requires env.Sound() && |header| == HEADER_SIZE - 8 && |cdcSalt| == 32 && d.Valid()
    requires env.unlock(password, header) == Some(dek)
    requires Fits(Create(env, header, dek, cdcSalt, d))
    ensures var s := Create(env, header, dek, cdcSalt, d); Inv(env, password, s) && Represents(env, s, map[])
  {
    var file := U64Le(HEADER_SIZE) + header;
    HeaderOf(header);
    EmptyVault(env, Create(env, header, dek, cdcSalt, d), file, d);
  }

  lemma HeaderOf(header: bytes)
    requires |header| == HEADER_SIZE - 8
    ensures var file := U64Le(HEADER_SIZE) + header; |file| == HEADER_SIZE && file[8..HEADER_SIZE] == header
  {
  }

  lemma EmptyVault(env: Env, s: State, file: bytes, d: Draw)
    requires env.Sound() && d.Valid() && s.offset == HEADER_SIZE == |file| && s.meta.table == [] && Fits(s)
    requires s.file == Save(env, file, s.meta, s.dek, s.offset, d)
    ensures WellFormed(env, s) && s.file[8..HEADER_SIZE] == file[8..HEADER_SIZE] && Represents(env, s, map[])
  {
    SaveWrites(env, file, s.meta, s.dek, s.offset, d);
    assert All(s.meta.table) == [];
    forall n: bytes ensures DecryptToBytes(env, s, n) == Lookup(map[], n) {
    }
  }

  function Run(env: Env, password: bytes, s: State, ops: seq<Op>): State
    requires forall i :: 0 <= i < |ops| ==> ValidOp(ops[i])
    decreases |ops|
  {
    if ops == [] || |s.file| < HEADER_SIZE then s else Run(env, password, Step(env, password, s, ops[0]), ops[1..])
  }

  function MapRun(m: map<bytes, bytes>, ops: seq<Op>): map<bytes, bytes>
    decreases |ops|
  {
    if ops == [] then m else MapRun(MapStep(m, ops[0]), ops[1..])
  }

  /** After every operation the sealed block is within what a load reads and sizes fit 64 bits. */
  ghost predicate AllFit(env: Env, password: bytes, s: State, ops: seq<Op>)
    requires forall i :: 0 <= i < |ops| ==> ValidOp(ops[i])
    decreases |ops|
  {
    Fits(s) && (ops == [] || |s.file| < HEADER_SIZE || AllFit(env, password, Step(env, password, s, ops[0]), ops[1..]))
  }

  lemma {:induction false} RunRefines(env: Env, password: bytes, s: State, ops: seq<Op>, m: map<bytes, bytes>)
    requires env.Sound() && Inv(env, password, s) && Represents(env, s, m)
    requires (forall i :: 0 <= i < |ops| ==> ValidOp(ops[i])) && AllFit(env, password, s, ops)
    ensures var t := Run(env, password, s, ops); Inv(env, password, t) && Represents(env, t, MapRun(m, ops))
    decreases |ops|
  {
    if ops != [] {
      StepRefines(env, password, s, ops[0], m);
      RunRefines(env, password, Step(env, password, s, ops[0]), ops[1..], MapStep(m, ops[0]));
    }
  }

  /** Every run of create and then completed imports, removals, renames, vacuums and reopenings
      behaves as a plain map: `decrypt_to_bytes` gives for each name exactly the bytes the map has,
      and the file left on disk opens again under the same password. */
  lemma VaultIsAMap(env: Env, password: bytes, header: bytes, dek: bytes, cdcSalt: bytes, d: Draw, ops: seq<Op>)
    requires env.Sound() && |header| == HEADER_SIZE - 8 && |cdcSalt| == 32 && d.Valid()
    requires env.unlock(password, header) == Some(dek)
    requires forall i :: 0 <= i < |ops| ==> ValidOp(ops[i])
    requires AllFit(env, password, Create(env, header, dek, cdcSalt, d), ops)
    ensures var t := Run(env, password, Create(env, header, dek, cdcSalt, d), ops);
      && WellFormed(env, t) && Represents(env, t, MapRun(map[], ops))
      && Load(env, t.file, password) == Some(Loaded(t.meta, t.dek, t.offset))
  {
    CreateRefines(env, password, header, dek, cdcSalt, d);
    RunRefines(env, password, Create(env, header, dek, cdcSalt, d), ops, map[]);
    LoadFinds(env, Run(env, password, Create(env, header, dek, cdcSalt, d), ops), password);
  }
}
