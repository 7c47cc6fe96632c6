/** Reading a linked list by position through a remembered cursor (Util/stlwatch.h). */
module ListCursor {
  import opened Options

  /** Where the list iterator stands. */
  datatype Cursor = End | At(pos: nat)

  function Place(i: nat, size: nat): Cursor {
    if i < size then At(i) else End
  }

  /** The iterator incremented. */
  function Next(it: Cursor, size: nat): Cursor {
    match it
    case End => End
    case At(k) => Place(k + 1, size)
  }

  class ListWatcher<T> {
    var v: seq<T>
    var it: Cursor
    var itPos: int

    /** A remembered position that is not negative is where the cursor stands, unless the list
        has been extended beyond a cursor that stood at its end. */
    ghost predicate Valid()
      reads this
    {
      && (it.At? ==> it.pos < |v|)
      && (0 <= itPos ==> it == Place(itPos, |v|) || it == End)
    }

    constructor (v: seq<T>)
      ensures Valid() && this.v == v
    {
      this.v := v;
      it, itPos := End, -1;
    }

    /** The list grows at its end, where an iterator at the end stays. */
    method Append(x: T)
      requires Valid()
      modifies this`v
      ensures Valid() && v == old(v) + [x]
    {
      v := v + [x];
    }

    /** Equal to plain indexing at every position that is not negative, whatever was read before. */
    method Read(i: int) returns (r: Option<T>)
      requires Valid()
      modifies this`it, this`itPos
      ensures Valid()
      ensures 0 <= i ==> r == if i < |v| then Some(v[i]) else None
    {
      if i == 0 {
        it, itPos := Place(0, |v|), 0;
      } else if i == itPos + 1 && it != End {
        it, itPos := Next(it, |v|), itPos + 1;
      } else {
        it := Place(0, |v|);
        var k := 0;
        while k < i && it != End
          invariant 0 <= k && it == Place(k, |v|)
          invariant 0 <= i ==> k <= i
        {
          it := Next(it, |v|);
          k := k + 1;
        }
        itPos := i;
      }
      r := if it == End then None else Some(v[it.pos]);
    }
  }
}
