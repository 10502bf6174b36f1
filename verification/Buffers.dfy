/** The buffers that sections and tables grow in. */
module Buffers {
  import opened Words

  /** The first `n` bytes of `s`, as if zeros followed it. */
  function Padded(s: seq<nat>, n: nat): (r: seq<nat>)
    ensures |r| == n
    ensures forall k :: 0 <= k < n ==> r[k] == if k < |s| then s[k] else 0
  {
    if n <= |s| then s[..n] else s + seq(n - |s|, _ => 0)
  }

  /** A section's contents: `data_allocated` is the length of the array. */
  class Section {
    var data: array<nat>
    var dataOffset: nat

    ghost predicate Valid()
      reads this
    {
      dataOffset <= data.Length
    }

    ghost function Contents(): seq<nat>
      reads this, data
      requires Valid()
    {
      data[..dataOffset]
    }

    /** What is past the contents is zero. */
    ghost predicate Clean()
      reads this, data
      requires Valid()
    {
      forall i :: dataOffset <= i < data.Length ==> data[i] == 0
    }

    constructor ()
      ensures Valid() && fresh(data) && Contents() == [] && Clean()
    {
      data := new nat[0];
      dataOffset := 0;
    }

    /** `section_realloc`: doubles the room until it suffices; what is new is zero. */
    method Realloc(newSize: nat)
      requires Valid()
      modifies this
      ensures Valid() && fresh(data) && data.Length >= newSize && data.Length >= old(data.Length)
      ensures dataOffset == old(dataOffset) && data[..] == Padded(old(data[..]), data.Length)
    {
      var size := data.Length;
      if size == 0 { size := 1; }
      while size < newSize
        invariant size > 0 && size >= data.Length
        decreases newSize - size
      {
        size := size * 2;
      }
      var moved := new nat[size];
      var i := 0;
      while i < size
        invariant 0 <= i <= size && moved.Length == size >= data.Length && fresh(moved)
        invariant data == old(data) && data[..] == old(data[..]) && dataOffset == old(dataOffset)
        invariant forall k :: 0 <= k < i ==> moved[k] == if k < data.Length then data[k] else 0
      {
        moved[i] := if i < data.Length then data[i] else 0;
        i := i + 1;
      }
      data := moved;
    }

    /** `section_ptr_add`: the contents stay and take in the `size` bytes that stand after
        them, which are zero unless contents were given up before. */
    method PtrAdd(size: nat) returns (at: nat)
      requires Valid()
      modifies this
      ensures Valid() && (data == old(data) || fresh(data))
      ensures at == old(dataOffset) && Contents() == Padded(old(data[..]), at + size)
      ensures Contents()[..at] == old(Contents())
      ensures old(Clean()) ==> Clean() && Contents() == old(Contents()) + seq(size, _ => 0)
    {
      at := dataOffset;
      var offset1 := at + size;
      if offset1 > data.Length { Realloc(offset1); }
      dataOffset := offset1;
      assert data[..offset1] == Padded(old(data[..]), offset1);
      assert forall k :: 0 <= k < old(data.Length) ==> data[k] == old(data[..])[k];
      assert forall k :: at <= k < old(data.Length) ==> old(data[..])[k] == old(data[k]);
    }

    /** Contents given up from `offset` on: the bytes stay where they are. */
    method Rewind(offset: nat)
      requires Valid() && offset <= dataOffset
      modifies `dataOffset
      ensures Valid() && Contents() == old(Contents())[..offset]
      ensures Clean() <==> old(Clean()) && forall k :: offset <= k < old(dataOffset) ==> old(Contents())[k] == 0
    {
      dataOffset := offset;
    }
  }

  /** A table of pointers that is reallocated only when its length is a power of two. */
  class DynArray {
    var tab: array<nat>
    var nb: nat

    ghost predicate Valid()
      reads this, tab
    {
      nb <= tab.Length && (nb > 0 ==> Power(tab.Length) && tab.Length < 2 * nb)
    }

    ghost function Contents(): seq<nat>
      reads this, tab
      requires Valid()
    {
      tab[..nb]
    }

    constructor ()
      ensures Valid() && fresh(tab) && Contents() == []
    {
      tab := new nat[0];
      nb := 0;
    }

    /** `dynarray_add`: between powers of two there is always room. */
    method Add(x: nat)
      requires Valid() && nb < Pow2(31)
      modifies this, tab
      ensures Valid() && (tab == old(tab) || fresh(tab))
      ensures Contents() == old(Contents()) + [x]
    {
      hide Bitwise, Pow2;
      if nb == 0 || Bitwise(And, nb, nb - 1, 31) == 0 {
        var nbAlloc := if nb == 0 then 1 else nb * 2;
        if nb > 0 {
          PowerTest(nb, 31);
          Doubled(nb);
        } else {
          PowerOne();
        }
        var moved := new nat[nbAlloc];
        var i := 0;
        while i < nb
          invariant 0 <= i <= nb == old(nb) && nb < nbAlloc == moved.Length && tab == old(tab) && fresh(moved)
          invariant tab[..] == old(tab[..]) && moved[..i] == tab[..i]
        {
          moved[i] := tab[i];
          i := i + 1;
        }
        tab := moved;
      } else {
        PowerTest(nb, 31);
        NotFull(nb, tab.Length);
      }
      assert tab[..nb] == old(Contents());
      tab[nb] := x;
      nb := nb + 1;
      assert tab[..nb] == old(Contents()) + [x];
    }

    static lemma Doubled(n: nat)
      requires Power(n)
      ensures Power(n * 2)
    {
      var k: nat :| IsPower(n, k);
      assert IsPower(n * 2, k + 1);
    }

    static lemma PowerOne()
      ensures Power(1)
    {
      assert IsPower(1, 0);
    }

    /** A length that is no power of two is not the length of the allocation. */
    static lemma NotFull(n: nat, length: nat)
      requires n <= length && !Power(n) && Power(length)
      ensures n < length
    {
    }
  }
}
