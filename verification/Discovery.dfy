/** Finding a peer through blind stores: publishing, newest-wins lookup, and the replay floor. */
module Discovery {
  import opened Bytes
  import opened VaultCrypto
  import opened AddressRecord
  import Shuffle
  import Hints

  /** What a substrate says when asked for a tag: anything at all. */
  datatype Answer = Failed | Nothing | Found(sealed: bytes)

  /** One lookup: the slots to read, the time, the newest version already accepted, and what each
      substrate answers for each slot. */
  datatype Lookup = Lookup(
    cipher: Cipher, slots: seq<Slot>, now: Word64, floor: Option<nat>, answers: (nat, nat) -> Answer)

  /** The record one answer amounts to, if it opens and is new. */
  function Candidate(l: Lookup, sub: nat, i: nat): Option<AddressRecord>
    requires i < |l.slots|
  {
    match l.answers(sub, i)
    case Failed => None
    case Nothing => None
    case Found(sealed) =>
      var r :- Open(l.cipher, l.slots[i], l.now, sealed);
      if r.Supersedes(l.floor) then Some(r) else None
  }

  /** A strictly newer candidate displaces the best so far. */
  function Pick(best: Option<AddressRecord>, c: Option<AddressRecord>): Option<AddressRecord> {
    if c.Some? && (best.None? || c.value.version > best.value.version) then c else best
  }

  /** The first of the newest. */
  function Newest(cs: seq<Option<AddressRecord>>): Option<AddressRecord> {
    if cs == [] then None else Pick(Newest(cs[..|cs| - 1]), cs[|cs| - 1])
  }

  /** What a substrate has, slot by slot. */
  function Heard(l: Lookup, sub: nat): (r: seq<Option<AddressRecord>>)
    ensures |r| == |l.slots|
  {
    seq(|l.slots|, i requires 0 <= i < |l.slots| => Candidate(l, sub, i))
  }

  function Best(l: Lookup, sub: nat): Option<AddressRecord> { Newest(Heard(l, sub)) }

  /** The first substrate in the order that has anything decides. */
  function Resolved(l: Lookup, order: seq<nat>): Option<AddressRecord> {
    if order == [] then None
    else
      var best := Best(l, order[0]);
      if best.Some? then best else Resolved(l, order[1..])
  }

  /** Every slot of one substrate. */
  function Row(l: Lookup, sub: nat): seq<(nat, nat)> { seq(|l.slots|, i => (sub, i)) }

  /** The requests a lookup makes. */
  function Asked(l: Lookup, order: seq<nat>): seq<(nat, nat)> {
    if order == [] then []
    else Row(l, order[0]) + if Best(l, order[0]).Some? then [] else Asked(l, order[1..])
  }

  function Configured(n: nat): (r: seq<nat>)
    ensures |r| == n && forall i :: 0 <= i < n ==> r[i] == i
  {
    if n == 0 then [] else Configured(n - 1) + [n - 1]
  }

  function Order(n: nat, noise: bytes): seq<nat>
    requires |noise| == 8 * n
  {
    Shuffle.Shuffled(Configured(n), noise)
  }

  /** `Discovery::resolve` over `n` substrates, with the requests it makes. */
  method Resolve(l: Lookup, n: nat, noise: bytes) returns (found: Option<AddressRecord>, asked: seq<(nat, nat)>)
    requires |noise| == 8 * n
    ensures found == Resolved(l, Order(n, noise)) && asked == Asked(l, Order(n, noise))
  {
    var order := new nat[n](i => i);
    assert order[..] == Configured(n);
    Shuffle.ShuffleInPlace(order, noise);
    found, asked := AskInOrder(l, order[..]);
  }

  method AskInOrder(l: Lookup, order: seq<nat>) returns (found: Option<AddressRecord>, asked: seq<(nat, nat)>)
    ensures found == Resolved(l, order) && asked == Asked(l, order)
  {
    asked := [];
    assert order[0..] == order;
    for k := 0 to |order|
      invariant Pending(l, order, order[k..], asked)
    {
      assert order[k..] == [order[k]] + order[k + 1..];
      var best, row := AskAll(l, order[k]);
      AskNext(l, order, order[k], order[k + 1..], asked);
      asked := asked + row;
      if best.Some? { return best, asked; }
    }
    AskedOut(l, order, order[|order|..], asked);
    found := None;
  }

  /** What is still to come when `asked` has been asked and `rest` is left. */
  ghost predicate Pending(l: Lookup, order: seq<nat>, rest: seq<nat>, asked: seq<(nat, nat)>) {
    Resolved(l, rest) == Resolved(l, order) && asked + Asked(l, rest) == Asked(l, order)
  }

  lemma AskNext(l: Lookup, order: seq<nat>, sub: nat, rest: seq<nat>, asked: seq<(nat, nat)>)
    requires Pending(l, order, [sub] + rest, asked)
    ensures Best(l, sub).Some? ==> Resolved(l, order) == Best(l, sub) && Asked(l, order) == asked + Row(l, sub)
    ensures Best(l, sub).None? ==> Pending(l, order, rest, asked + Row(l, sub))
  {
    ConsParts(sub, rest);
    assert Row(l, sub) + [] == Row(l, sub);
    assert asked + (Row(l, sub) + Asked(l, rest)) == (asked + Row(l, sub)) + Asked(l, rest);
  }

  lemma AskedOut(l: Lookup, order: seq<nat>, rest: seq<nat>, asked: seq<(nat, nat)>)
    requires Pending(l, order, rest, asked) && rest == []
    ensures Resolved(l, order) == None && Asked(l, order) == asked
  {
    assert asked + [] == asked;
  }

  method AskOne(l: Lookup, sub: nat, i: nat) returns (c: Option<AddressRecord>)
    requires i < |l.slots|
    ensures c == Candidate(l, sub, i)
  {
    match l.answers(sub, i)
    case Failed => c := None;
    case Nothing => c := None;
    case Found(sealed) =>
      c := Open(l.cipher, l.slots[i], l.now, sealed);
      if c.Some? && !c.value.Supersedes(l.floor) { c := None; }
  }

  lemma NewestGrows(cs: seq<Option<AddressRecord>>, c: Option<AddressRecord>)
    ensures Newest(cs + [c]) == Pick(Newest(cs), c)
  {
    SnocParts(cs, c);
  }

  /** All slots of a substrate are asked, whatever the earlier ones held. */
  method AskAll(l: Lookup, sub: nat) returns (best: Option<AddressRecord>, row: seq<(nat, nat)>)
    ensures best == Best(l, sub) && row == Row(l, sub)
  {
    best, row := None, [];
    ghost var heard, rows := Heard(l, sub), Row(l, sub);
    for i := 0 to |l.slots|
      invariant best == Newest(heard[..i]) && row == rows[..i]
    {
      PrefixGrows(rows, i);
      row := row + [(sub, i)];
      var c := AskOne(l, sub, i);
      PrefixGrows(heard, i);
      NewestGrows(heard[..i], c);
      if c.Some? && (best.None? || c.value.version > best.value.version) { best := c; }
    }
    assert heard[..|l.slots|] == heard && rows[..|l.slots|] == rows;
  }

  // ---- what a lookup finds ----------------------------------------------

  /** The substrate holds this record in some slot, and it opens and is new. */
  ghost predicate Offers(l: Lookup, sub: nat, r: AddressRecord) {
    exists i :: 0 <= i < |l.slots| && Heard(l, sub)[i] == Some(r)
  }

  ghost predicate Silent(l: Lookup, sub: nat) { forall r :: !Offers(l, sub, r) }

  predicate Covers(best: Option<AddressRecord>, c: Option<AddressRecord>) {
    c.Some? ==> best.Some? && c.value.version <= best.value.version
  }

  lemma PickCovers(best: Option<AddressRecord>, c: Option<AddressRecord>, x: Option<AddressRecord>)
    requires Covers(best, x) || x == c
    ensures Covers(Pick(best, c), x)
  {
  }

  lemma {:induction false} NewestCovers(cs: seq<Option<AddressRecord>>, i: nat)
    requires i < |cs|
    ensures Covers(Newest(cs), cs[i])
    decreases |cs|
  {
    var n := |cs| - 1;
    if i < n {
      NewestCovers(cs[..n], i);
      assert cs[..n][i] == cs[i];
    }
    PickCovers(Newest(cs[..n]), cs[n], cs[i]);
  }

  lemma {:induction false} NewestIsOne(cs: seq<Option<AddressRecord>>)
    requires Newest(cs).Some?
    ensures exists i :: 0 <= i < |cs| && cs[i] == Newest(cs)
    decreases |cs|
  {
    var n := |cs| - 1;
    if Newest(cs) == cs[n] {
    } else {
      NewestIsOne(cs[..n]);
      var i :| 0 <= i < n && cs[..n][i] == Newest(cs[..n]);
      assert cs[i] == cs[..n][i];
    }
  }

  /** The k-th substrate of the order decides: none before it has anything, and `r` is the newest it
      has. */
  ghost predicate Decides(l: Lookup, order: seq<nat>, k: nat, r: AddressRecord) {
    && k < |order|
    && (forall j :: 0 <= j < k ==> Silent(l, order[j]))
    && Offers(l, order[k], r)
    && forall x :: Offers(l, order[k], x) ==> x.version <= r.version
  }

  /** Nothing is found exactly when no substrate has a valid new record, and then every slot of every
      substrate was asked. */
  lemma {:induction false} NothingFound(l: Lookup, order: seq<nat>)
    ensures Resolved(l, order).None? <==> forall j :: 0 <= j < |order| ==> Silent(l, order[j])
    ensures Resolved(l, order).None? ==> Asked(l, order) == Rows(l, order)
    decreases |order|
  {
    if order != [] {
      BestDecides(l, order[0]);
      NothingFound(l, order[1..]);
      assert forall j :: 0 < j < |order| ==> order[j] == order[1..][j - 1];
    }
  }

  ghost predicate FoundAt(l: Lookup, order: seq<nat>, k: nat, r: AddressRecord) {
    Decides(l, order, k, r) && Asked(l, order) == Rows(l, order[..k + 1])
  }

  /** Otherwise it is the newest of the first substrate that has one: every slot of that substrate
      and of each before it was asked, and no later one was asked anything. */
  lemma {:induction false} NewestOfFirst(l: Lookup, order: seq<nat>)
    requires Resolved(l, order).Some?
    ensures exists k: nat :: FoundAt(l, order, k, Resolved(l, order).value)
    decreases |order|
  {
    BestDecides(l, order[0]);
    var best := Best(l, order[0]);
    if best.Some? {
      FirstDecides(l, order);
    } else {
      NewestOfFirst(l, order[1..]);
      var r := Resolved(l, order[1..]).value;
      var k: nat :| FoundAt(l, order[1..], k, r);
      LaterDecides(l, order, k, r);
      RowsAhead(l, order, k);
      assert FoundAt(l, order, k + 1, r);
    }
  }

  lemma FirstDecides(l: Lookup, order: seq<nat>)
    requires order != [] && Best(l, order[0]).Some?
    ensures FoundAt(l, order, 0, Best(l, order[0]).value)
  {
    BestDecides(l, order[0]);
    assert order[..1] == [order[0]] && [order[0]][1..] == [];
    assert Rows(l, [order[0]]) == Row(l, order[0]) + Rows(l, []);
  }

  lemma LaterDecides(l: Lookup, order: seq<nat>, k: nat, r: AddressRecord)
    requires order != [] && Silent(l, order[0]) && Decides(l, order[1..], k, r)
    ensures Decides(l, order, k + 1, r)
  {
    TailAt(order, k);
    forall j | 0 <= j < k + 1 ensures Silent(l, order[j]) {
      if j > 0 { TailAt(order, j - 1); }
    }
  }

  lemma RowsAhead(l: Lookup, order: seq<nat>, k: nat)
    requires k + 1 < |order|
    ensures Rows(l, order[..k + 2]) == Row(l, order[0]) + Rows(l, order[1..][..k + 1])
  {
    assert order[..k + 2] == [order[0]] + order[1..][..k + 1];
    ConsParts(order[0], order[1..][..k + 1]);
  }

  function Rows(l: Lookup, subs: seq<nat>): seq<(nat, nat)> {
    if subs == [] then [] else Row(l, subs[0]) + Rows(l, subs[1..])
  }

  lemma BestDecides(l: Lookup, sub: nat)
    ensures match Best(l, sub)
      case None => Silent(l, sub)
      case Some(r) => Offers(l, sub, r) && forall x :: Offers(l, sub, x) ==> x.version <= r.version
  {
    var cs := Heard(l, sub);
    if Newest(cs).Some? { NewestIsOne(cs); }
    forall i | 0 <= i < |cs| ensures Covers(Newest(cs), cs[i]) { NewestCovers(cs, i); }
  }

  /** Whatever is found is publishable, current, and above the floor. */
  lemma FoundIsNew(l: Lookup, order: seq<nat>)
    requires Resolved(l, order).Some?
    ensures var r := Resolved(l, order).value; r.Publishable() && r.Current(l.now) && r.Supersedes(l.floor)
  {
    NewestOfFirst(l, order);
    var r := Resolved(l, order).value;
    var k: nat :| FoundAt(l, order, k, r);
    var i :| 0 <= i < |l.slots| && Heard(l, order[k])[i] == Some(r);
    OpenedIsCurrent(l.cipher, l.slots[i], l.now, l.answers(order[k], i).sealed);
  }

  // ---- the replay floor over whole runs ---------------------------------

  class PeerState {
    var lastKnown: seq<Hints.Endpoint>
    var newestSeen: Option<nat>

    constructor ()
      ensures lastKnown == [] && newestSeen == None
    {
      lastKnown, newestSeen := [], None;
    }

    method Absorb(r: AddressRecord)
      modifies this
      ensures lastKnown == r.hints && newestSeen == Some(r.version)
    {
      lastKnown := r.hints;
      newestSeen := Some(r.version);
    }

    /** The discovery rung: look up above the floor, and remember what was found. */
    method LookUp(l: Lookup, n: nat, noise: bytes) returns (found: Option<AddressRecord>)
      requires |noise| == 8 * n && l.floor == newestSeen
      modifies this
      ensures found == Resolved(l, Order(n, noise))
      ensures found.None? ==> unchanged(this)
      ensures found.Some? ==> found.value.Supersedes(old(newestSeen))
      ensures found.Some? ==> newestSeen == Some(found.value.version) && lastKnown == found.value.hints
    {
      var asked;
      found, asked := Resolve(l, n, noise);
      if found.Some? {
        FoundIsNew(l, Order(n, noise));
        Absorb(found.value);
      }
    }
  }

  /** What one lookup of a run brings with it: everything but the floor. */
  datatype Visit = Visit(
    cipher: Cipher, slots: seq<Slot>, now: Word64, answers: (nat, nat) -> Answer, order: seq<nat>)

  function At(v: Visit, floor: Option<nat>): Lookup { Lookup(v.cipher, v.slots, v.now, floor, v.answers) }

  /** The records absorbed over a run of lookups, in order. */
  function Absorbed(floor: Option<nat>, visits: seq<Visit>): seq<AddressRecord>
    decreases |visits|
  {
    if visits == [] then []
    else
      match Resolved(At(visits[0], floor), visits[0].order)
      case None => Absorbed(floor, visits[1..])
      case Some(r) => [r] + Absorbed(Some(r.version), visits[1..])
  }

  ghost predicate Rising(floor: Option<nat>, rs: seq<AddressRecord>) {
    && (forall i :: 0 <= i < |rs| ==> rs[i].Supersedes(floor))
    && forall i, j :: 0 <= i < j < |rs| ==> rs[i].version < rs[j].version
  }

  lemma RisingStep(floor: Option<nat>, r: AddressRecord, rs: seq<AddressRecord>)
    requires r.Supersedes(floor) && Rising(Some(r.version), rs)
    ensures Rising(floor, [r] + rs)
  {
    var all := [r] + rs;
    assert forall i :: 0 < i < |all| ==> all[i] == rs[i - 1] && rs[i - 1].Supersedes(Some(r.version));
  }

  /** Over any run against any substrates, however they replay, reorder or invent answers, the floor
      strictly rises at every absorbed record: none is accepted twice, and none after a newer one. */
  lemma {:induction false} FloorStrictlyRises(floor: Option<nat>, visits: seq<Visit>)
    ensures Rising(floor, Absorbed(floor, visits))
    decreases |visits|
  {
    if visits != [] {
      var v := visits[0];
      match Resolved(At(v, floor), v.order)
      case None => FloorStrictlyRises(floor, visits[1..]);
      case Some(r) =>
        FoundIsNew(At(v, floor), v.order);
        FloorStrictlyRises(Some(r.version), visits[1..]);
        RisingStep(floor, r, Absorbed(Some(r.version), visits[1..]));
    }
  }
}
