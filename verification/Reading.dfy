/** The bounds-checked cursor the decoders drive: a buffer and a moving position. */
module Reading {
  import opened Bytes
  import Cursor

  /** What a read of the moving cursor returns and leaves, as the reading function says. */
  ghost predicate Follows<T(!new)>(spec: Option<Cursor.Read<T>>, got: Option<T>, left: bytes) {
    match spec
    case None => got.None?
    case Some(r) => got == Some(r.value) && left == r.rest
  }

  class Reader {
    const buf: bytes
    var pos: nat

    ghost predicate Valid() reads this { pos <= |buf| }
    ghost function Left(): bytes reads this requires Valid() { buf[pos..] }

    constructor (b: bytes)
      ensures Valid() && Left() == b
    {
      buf, pos := b, 0;
    }

    method Take(n: nat) returns (got: Option<bytes>)
      requires Valid()
      modifies this
      ensures Valid() && Follows(Cursor.Take(old(Left()), n), got, Left())
    {
      var end := pos + n;
      if end > |buf| { return None; }
      assert Left()[..n] == buf[pos..end] && Left()[n..] == buf[end..];
      got := Some(buf[pos..end]);
      pos := end;
    }

    method U8() returns (got: Option<byte>)
      requires Valid()
      modifies this
      ensures Valid() && Follows(Cursor.U8(old(Left())), got, Left())
    {
      var b :- Take(1);
      got := Some(b[0]);
    }

    method U16() returns (got: Option<nat>)
      requires Valid()
      modifies this
      ensures Valid() && Follows(Cursor.U16(old(Left())), got, Left())
    {
      var b :- Take(2);
      got := Some(FromBigEndian(b));
    }

    method U64() returns (got: Option<nat>)
      requires Valid()
      modifies this
      ensures Valid() && Follows(Cursor.U64(old(Left())), got, Left())
    {
      var b :- Take(8);
      got := Some(FromBigEndian(b));
    }

    method IsEmpty() returns (e: bool)
      requires Valid()
      ensures e <==> Left() == []
    {
      e := pos == |buf|;
    }
  }
}
