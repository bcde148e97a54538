/** Publishing a record to every substrate, and finding it there. */
module Publishing {
  import opened Bytes
  import opened VaultCrypto
  import opened AddressRecord
  import opened Discovery

  datatype Filed = Filed(tag: bytes, sealed: bytes)
  type Store = map<bytes, bytes>

  datatype Report = Report(succeeded: seq<nat>, failed: seq<nat>)

  ghost predicate GoodDraws(slots: seq<Slot>, draws: seq<Drawn>) {
    |draws| == |slots| && forall j :: 0 <= j < |draws| ==> draws[j].Valid()
  }

  /** The same bytes go to every substrate: one sealing a slot. */
  ghost predicate SealedFor(c: Cipher, slots: seq<Slot>, draws: seq<Drawn>, r: AddressRecord, filed: seq<Filed>)
    requires GoodDraws(slots, draws)
  {
    && |filed| == |slots|
    && forall j :: 0 <= j < |slots| ==>
         filed[j].tag == slots[j].tag && Seal(c, slots[j], draws[j], r) == Some(filed[j].sealed)
  }

  /** A store after the first `n` puts. */
  function PutFirst(store: Store, filed: seq<Filed>, n: nat): Store
    requires n <= |filed|
  {
    if n == 0 then store else PutFirst(store, filed, n - 1)[filed[n - 1].tag := filed[n - 1].sealed]
  }

  /** How many of `n` puts a substrate takes before the first it refuses. */
  function Taken(accepts: (nat, nat) -> bool, sub: nat, n: nat): (k: nat)
    ensures k <= n
  {
    if n == 0 then 0
    else
      var k := Taken(accepts, sub, n - 1);
      if k == n - 1 && accepts(sub, n - 1) then n else k
  }

  /** The first `n` substrates that took all, or not all, of `m` puts. */
  function Sorted(accepts: (nat, nat) -> bool, m: nat, n: nat, all: bool): seq<nat> {
    if n == 0 then []
    else Sorted(accepts, m, n - 1, all) + if (Taken(accepts, n - 1, m) == m) == all then [n - 1] else []
  }

  class Substrates {
    var stores: seq<Store>

    constructor (s: seq<Store>)
      ensures stores == s
    {
      stores := s;
    }

    /** `Discovery::publish`: nothing is stored unless every slot seals; then each substrate is given
        every slot until it refuses one. */
    method Publish(
      c: Cipher, slots: seq<Slot>, draws: seq<Drawn>, r: AddressRecord, accepts: (nat, nat) -> bool)
      returns (report: Option<Report>, filed: seq<Filed>)
      requires GoodDraws(slots, draws)
      modifies this
      ensures report.None? <==> old(stores) == [] || (slots != [] && |Body(r)| + 2 > PLAINTEXT_LEN)
      ensures report.None? ==> stores == old(stores)
      ensures report.Some? ==> SealedFor(c, slots, draws, r, filed) && |stores| == |old(stores)|
      ensures report.Some? ==> forall s :: 0 <= s < |stores| ==>
          stores[s] == PutFirst(old(stores)[s], filed, Taken(accepts, s, |filed|))
      ensures report.Some? ==> report.value.succeeded == Sorted(accepts, |slots|, |stores|, true)
      ensures report.Some? ==> report.value.failed == Sorted(accepts, |slots|, |stores|, false)
    {
      filed := [];
      if |stores| == 0 { return None, []; }
      for j := 0 to |slots|
        invariant |filed| == j && (j > 0 ==> |Body(r)| + 2 <= PLAINTEXT_LEN)
        invariant forall i :: 0 <= i < j ==>
          filed[i].tag == slots[i].tag && Seal(c, slots[i], draws[i], r) == Some(filed[i].sealed)
      {
        var sealed := Seal(c, slots[j], draws[j], r);
        if sealed.None? { return None, []; }
        filed := filed + [Filed(slots[j].tag, sealed.value)];
      }
      var good, bad := [], [];
      for s := 0 to |stores|
        invariant |stores| == |old(stores)|
        invariant forall t :: 0 <= t < s ==>
          stores[t] == PutFirst(old(stores)[t], filed, Taken(accepts, t, |filed|))
        invariant forall t :: s <= t < |stores| ==> stores[t] == old(stores)[t]
        invariant good == Sorted(accepts, |slots|, s, true) && bad == Sorted(accepts, |slots|, s, false)
      {
        var store, whole := PutAll(stores[s], filed, accepts, s);
        stores := stores[s := store];
        if whole { good := good + [s]; } else { bad := bad + [s]; }
      }
      report := Some(Report(good, bad));
    }
  }

  method PutAll(before: Store, filed: seq<Filed>, accepts: (nat, nat) -> bool, sub: nat)
    returns (store: Store, whole: bool)
    ensures store == PutFirst(before, filed, Taken(accepts, sub, |filed|))
    ensures whole <==> Taken(accepts, sub, |filed|) == |filed|
  {
    store := before;
    for j := 0 to |filed|
      invariant Taken(accepts, sub, j) == j && store == PutFirst(before, filed, j)
    {
      if !accepts(sub, j) {
        RefusedStays(accepts, sub, j, |filed|);
        return store, false;
      }
      store := store[filed[j].tag := filed[j].sealed];
    }
    whole := true;
  }

  lemma {:induction false} RefusedStays(accepts: (nat, nat) -> bool, sub: nat, j: nat, n: nat)
    requires j < n && Taken(accepts, sub, j) == j && !accepts(sub, j)
    ensures Taken(accepts, sub, n) == j
    decreases n
  {
    if j < n - 1 { RefusedStays(accepts, sub, j, n - 1); }
  }

  // ---- what was published is found --------------------------------------

  predicate DistinctTags(filed: seq<Filed>) {
    forall i, j :: 0 <= i < j < |filed| ==> filed[i].tag != filed[j].tag
  }

  lemma {:induction false} PutIsThere(store: Store, filed: seq<Filed>, n: nat, j: nat)
    requires j < n <= |filed| && DistinctTags(filed)
    ensures filed[j].tag in PutFirst(store, filed, n) && PutFirst(store, filed, n)[filed[j].tag] == filed[j].sealed
    decreases n
  {
    if j < n - 1 { PutIsThere(store, filed, n - 1, j); }
  }

  /** The substrate answers from its store. */
  ghost predicate AnswersFrom(l: Lookup, sub: nat, store: Store) {
    forall i :: 0 <= i < |l.slots| ==>
      l.answers(sub, i) == if l.slots[i].tag in store then Found(store[l.slots[i].tag]) else Nothing
  }

  /** A substrate that took a publication offers the record in it to any lookup that reads one of the
      slots, in the record's lifetime and below its version. */
  lemma PublishedIsOffered(
    c: Cipher, slots: seq<Slot>, draws: seq<Drawn>, r: AddressRecord, filed: seq<Filed>, before: Store,
    l: Lookup, sub: nat, i: nat, j: nat)
    requires c.Sound() && l.cipher == c && GoodDraws(slots, draws) && SealedFor(c, slots, draws, r, filed)
    requires DistinctTags(filed) && i < |l.slots| && j < |slots| && l.slots[i] == slots[j]
    requires r.Publishable() && r.Current(l.now) && r.Supersedes(l.floor)
    requires AnswersFrom(l, sub, PutFirst(before, filed, |filed|))
    ensures Offers(l, sub, r)
  {
    PutIsThere(before, filed, |filed|, j);
    SealThenOpen(c, slots[j], draws[j], r, l.now);
    assert l.answers(sub, i) == Found(filed[j].sealed);
    assert Heard(l, sub)[i] == Candidate(l, sub, i) == Some(r);
  }

  /** So if the first substrate asked is one that took it, the lookup returns it or a newer one. */
  lemma PublishedIsFound(l: Lookup, order: seq<nat>, r: AddressRecord)
    requires order != [] && Offers(l, order[0], r)
    ensures Resolved(l, order).Some? && Resolved(l, order).value.version >= r.version
  {
    BestDecides(l, order[0]);
  }
}
