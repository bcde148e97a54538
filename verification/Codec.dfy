/** What a binary format promises, once for all of them: every spelling of a value reads back as the
    value, and nothing else is read. */
module Codec {
  import opened Bytes
  import opened Cursor
  import opened Spelling

  /** `ok` says which values the format can carry; `free` marks the bytes whose case is ignored. */
  datatype Codec<!T(!new)> = Codec(
    ok: T -> bool,
    enc: T -> bytes,
    free: T -> seq<bool>,
    dec: bytes -> Option<Read<T>>)
  {
    ghost predicate Back(v: T, e: bytes, rest: bytes) {
      ok(v) && Spells(e, enc(v), free(v)) ==> dec(e + rest) == Some(Read(v, rest))
    }

    ghost predicate Onto(b: bytes) {
      dec(b).Some? ==>
        var r := dec(b).value;
        ok(r.value) && exists e :: b == e + r.rest && Spells(e, enc(r.value), free(r.value))
    }

    ghost predicate Sound() {
      && (forall v, e, rest :: Back(v, e, rest))
      && (forall b :: Onto(b))
      && (forall v :: |enc(v)| == |free(v)|)
    }

    /** A decoder that refuses trailing bytes. */
    function Whole(b: bytes): Option<T> {
      var r :- dec(b);
      if r.rest == [] then Some(r.value) else None
    }

    /** The whole-input decoder accepts exactly the spellings of the values the format carries. */
    lemma WholeExactly(b: bytes, v: T)
      requires Sound()
      ensures Whole(b) == Some(v) <==> ok(v) && Spells(b, enc(v), free(v))
    {
      assert Onto(b);
      if Whole(b) == Some(v) {
        var e :| b == e + [] && Spells(e, enc(v), free(v));
        assert b == e;
      }
      assert Back(v, b, []);
      assert b + [] == b;
    }

    /** Reading is not affected by what follows. */
    lemma Stable(b: bytes, more: bytes)
      requires Sound() && dec(b).Some?
      ensures dec(b + more) == Some(Read(dec(b).value.value, dec(b).value.rest + more))
    {
      assert Onto(b);
      var r := dec(b).value;
      var e :| b == e + r.rest && Spells(e, enc(r.value), free(r.value));
      assert Back(r.value, e, r.rest + more);
      assert b + more == e + (r.rest + more);
    }

    /** No accepted string is a strict prefix of another: every truncation of an accepted string and
        every extension of one is refused. */
    lemma PrefixFree(b: bytes, more: bytes)
      requires Sound() && Whole(b).Some? && Whole(b + more).Some?
      ensures more == []
    {
      Stable(b, more);
      assert dec(b + more).value.rest == [] + more == more;
    }
  }

  // ---- lists ------------------------------------------------------------

  ghost predicate AllOk<T(!new)>(c: Codec<T>, vs: seq<T>) { forall i :: 0 <= i < |vs| ==> c.ok(vs[i]) }

  function EncodeList<T(!new)>(c: Codec<T>, vs: seq<T>): bytes {
    if vs == [] then [] else c.enc(vs[0]) + EncodeList(c, vs[1..])
  }

  function FreeList<T(!new)>(c: Codec<T>, vs: seq<T>): seq<bool> {
    if vs == [] then [] else c.free(vs[0]) + FreeList(c, vs[1..])
  }

  function DecodeList<T(!new)>(c: Codec<T>, n: nat, b: bytes): (r: Option<Read<seq<T>>>)
    ensures r.Some? ==> |r.value.value| == n
  {
    if n == 0 then Some(Read([], b))
    else
      var h :- c.dec(b);
      var t :- DecodeList(c, n - 1, h.rest);
      Some(Read([h.value] + t.value, t.rest))
  }

  lemma {:induction false} ListLengths<T(!new)>(c: Codec<T>, vs: seq<T>)
    requires c.Sound()
    ensures |EncodeList(c, vs)| == |FreeList(c, vs)|
    decreases |vs|
  {
    if vs != [] { ListLengths(c, vs[1..]); }
  }

  lemma {:induction false} ListBack<T(!new)>(c: Codec<T>, e: bytes, vs: seq<T>, rest: bytes)
    requires c.Sound() && AllOk(c, vs) && Spells(e, EncodeList(c, vs), FreeList(c, vs))
    ensures DecodeList(c, |vs|, e + rest) == Some(Read(vs, rest))
    decreases |vs|
  {
    if vs == [] {
      assert e + rest == rest;
    } else {
      ListLengths(c, vs);
      ListLengths(c, vs[1..]);
      var n := |c.enc(vs[0])|;
      var f, g := e[..n], e[n..];
      assert e == f + g && e + rest == f + (g + rest);
      SpellsConcat(f, g, c.enc(vs[0]), EncodeList(c, vs[1..]), c.free(vs[0]), FreeList(c, vs[1..]));
      assert c.Back(vs[0], f, g + rest);
      ListBack(c, g, vs[1..], rest);
      assert vs == [vs[0]] + vs[1..];
    }
  }

  lemma ListJoin<T(!new)>(c: Codec<T>, f: bytes, v: T, g: bytes, vs: seq<T>)
    requires c.Sound() && Spells(f, c.enc(v), c.free(v)) && Spells(g, EncodeList(c, vs), FreeList(c, vs))
    ensures Spells(f + g, EncodeList(c, [v] + vs), FreeList(c, [v] + vs))
  {
    assert ([v] + vs)[1..] == vs;
    ListLengths(c, vs);
    SpellsConcat(f, g, c.enc(v), EncodeList(c, vs), c.free(v), FreeList(c, vs));
  }

  lemma {:induction false} ListOnto<T(!new)>(c: Codec<T>, n: nat, b: bytes) returns (e: bytes)
    requires c.Sound() && DecodeList(c, n, b).Some?
    ensures var r := DecodeList(c, n, b).value;
      && AllOk(c, r.value) && b == e + r.rest
      && Spells(e, EncodeList(c, r.value), FreeList(c, r.value))
  {
    if n == 0 {
      e := [];
    } else {
      assert c.Onto(b);
      var h := c.dec(b).value;
      var f :| b == f + h.rest && Spells(f, c.enc(h.value), c.free(h.value));
      var g := ListOnto(c, n - 1, h.rest);
      e := f + g;
      ListJoin(c, f, h.value, g, DecodeList(c, n - 1, h.rest).value.value);
    }
  }

  // ---- lists behind a one-byte count ------------------------------------

  /** The count is cut to a byte. */
  function EncodeCounted<T(!new)>(c: Codec<T>, vs: seq<T>): bytes { [|vs| % 256] + EncodeList(c, vs) }

  function FreeCounted<T(!new)>(c: Codec<T>, vs: seq<T>): seq<bool> { Fixed(1) + FreeList(c, vs) }

  function DecodeCounted<T(!new)>(c: Codec<T>, max: nat, b: bytes): Option<Read<seq<T>>> {
    var n :- U8(b);
    if n.value > max then None else DecodeList(c, n.value, n.rest)
  }

  ghost predicate CountedOk<T(!new)>(c: Codec<T>, max: nat, vs: seq<T>) { |vs| <= max && AllOk(c, vs) }

  lemma CountedBack<T(!new)>(c: Codec<T>, max: nat, vs: seq<T>, e: bytes, rest: bytes)
    requires c.Sound() && max < 256 && CountedOk(c, max, vs)
    requires Spells(e, EncodeCounted(c, vs), FreeCounted(c, vs))
    ensures DecodeCounted(c, max, e + rest) == Some(Read(vs, rest))
  {
    var f := e[1..];
    assert e == e[..1] + f;
    ListLengths(c, vs);
    SpellsAfter(e[..1], [|vs| % 256], f, EncodeList(c, vs), FreeList(c, vs));
    ListBack(c, f, vs, rest);
    assert e + rest == [|vs|] + (f + rest);
  }

  lemma CountedOnto<T(!new)>(c: Codec<T>, max: nat, b: bytes) returns (e: bytes)
    requires c.Sound() && max < 256 && DecodeCounted(c, max, b).Some?
    ensures var r := DecodeCounted(c, max, b).value;
      && CountedOk(c, max, r.value) && b == e + r.rest
      && Spells(e, EncodeCounted(c, r.value), FreeCounted(c, r.value))
  {
    var n := U8(b).value;
    var vs := DecodeCounted(c, max, b).value.value;
    var f := ListOnto(c, n.value, n.rest);
    ListLengths(c, vs);
    e := [n.value] + f;
    SpellsAfter([n.value], [|vs| % 256], f, EncodeList(c, vs), FreeList(c, vs));
    assert b == [b[0]] + b[1..];
  }

  // ---- canonical forms are spellings of themselves ----------------------

  lemma {:induction false} ListSpellsItself<T(!new)>(c: Codec<T>, vs: seq<T>)
    requires c.Sound() && forall v :: Spells(c.enc(v), c.enc(v), c.free(v))
    ensures Spells(EncodeList(c, vs), EncodeList(c, vs), FreeList(c, vs))
    decreases |vs|
  {
    if vs != [] {
      ListSpellsItself(c, vs[1..]);
      ListJoin(c, c.enc(vs[0]), vs[0], EncodeList(c, vs[1..]), vs[1..]);
      assert vs == [vs[0]] + vs[1..];
    }
  }

  lemma CountedSpellsItself<T(!new)>(c: Codec<T>, vs: seq<T>)
    requires c.Sound() && forall v :: Spells(c.enc(v), c.enc(v), c.free(v))
    ensures Spells(EncodeCounted(c, vs), EncodeCounted(c, vs), FreeCounted(c, vs))
  {
    var head: bytes := [|vs| % 256];
    ListSpellsItself(c, vs);
    ListLengths(c, vs);
    SpellsAfter(head, head, EncodeList(c, vs), EncodeList(c, vs), FreeList(c, vs));
  }
}
