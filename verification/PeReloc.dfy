/** The base relocations of a PE image (section 6.6 of the PE/COFF specification): blocks of
    a page address, a size and one 16-bit entry for every word the loader must adjust.
    The section's contents are its 16-bit words, low halves first. */
module PeReloc {
  import opened Wrappers

  const REL_TYPE_DIRECT := 1
  const IMAGE_REL_BASED_ABSOLUTE := 0
  const IMAGE_REL_BASED_HIGHLOW := 3

  const PAGE := 0x1000
  const HALF := 0x1_0000
  const WORD32 := 0x1_0000_0000

  datatype Rel = Rel(offset: nat, typ: nat)
  datatype Relocs = NoRelocs | Has(rels: seq<Rel>)
  datatype Section = Section(addr: nat, reloc: Relocs)

  // ----- the addresses to be relocated -----

  function DirectFrom(rels: seq<Rel>, k: nat, addr: nat): seq<nat>
    requires k <= |rels|
    decreases |rels| - k
  {
    if k == |rels| then [] else
    (if rels[k].typ == REL_TYPE_DIRECT then [(rels[k].offset + addr) % WORD32] else []) + DirectFrom(rels, k + 1, addr)
  }

  function Direct(s: Section): seq<nat> { if s.reloc.Has? then DirectFrom(s.reloc.rels, 0, s.addr) else [] }

  function AllFrom(secs: seq<Section>, i: nat): seq<nat>
    requires i <= |secs|
    decreases |secs| - i
  {
    if i == |secs| then [] else Direct(secs[i]) + AllFrom(secs, i + 1)
  }

  // ----- what a loader reads -----

  /** The addresses of the entries of one block; padding is skipped. */
  function Entries(ws: seq<nat>, page: nat): Option<seq<nat>> {
    if ws == [] then Some([]) else
    var r := Entries(ws[..|ws| - 1], page);
    var w := ws[|ws| - 1];
    if r.None? then None
    else if w / PAGE == IMAGE_REL_BASED_HIGHLOW then Some(r.value + [(page + w % PAGE) % WORD32])
    else if w / PAGE == IMAGE_REL_BASED_ABSOLUTE then r
    else None
  }

  /** Block after block; every size must be a multiple of 4 and cover its header. */
  function Decode(d: seq<nat>, base: nat): Option<seq<nat>>
    decreases |d|
  {
    if d == [] then Some([])
    else if |d| < 4 then None
    else
      var size := d[2] + HALF * d[3];
      if size < 8 || size % 4 != 0 || size / 2 > |d| then None else
      var entries := Entries(d[4..size / 2], (d[0] + HALF * d[1] + base) % WORD32);
      var rest := Decode(d[size / 2..], base);
      if entries.None? || rest.None? then None else Some(entries.value + rest.value)
  }

  function Split(x: nat): (r: seq<nat>)
    requires x < WORD32
    ensures |r| == 2 && r[0] + HALF * r[1] == x
  {
    [x % HALF, x / HALF]
  }

  function Header(rva: nat, size: nat): (r: seq<nat>)
    requires rva < WORD32 && size < WORD32
    ensures |r| == 4 && r[0] + HALF * r[1] == rva && r[2] + HALF * r[3] == size
  {
    Split(rva) + Split(size)
  }

  predicate WellFormed(d: seq<nat>) {
    |d| >= 4 && (var size := d[2] + HALF * d[3]; size >= 8 && size % 4 == 0 && size / 2 <= |d|)
  }

  lemma DecodeFirst(d: seq<nat>, base: nat)
    requires d != []
    ensures Decode(d, base) ==
            if !WellFormed(d) then None else
            var n := (d[2] + HALF * d[3]) / 2;
            var entries, rest := Entries(d[4..n], (d[0] + HALF * d[1] + base) % WORD32), Decode(d[n..], base);
            if entries.None? || rest.None? then None else Some(entries.value + rest.value)
  {
    hide Entries;
  }

  lemma {:induction false} DecodeConcat(a: seq<nat>, b: seq<nat>, base: nat)
    requires Decode(a, base).Some? && Decode(b, base).Some?
    ensures Decode(a + b, base) == Some(Decode(a, base).value + Decode(b, base).value)
    decreases |a|
  {
    hide Entries, Decode;
    if a == [] {
      DecodeNothing(base);
      assert a + b == b && [] + Decode(b, base).value == Decode(b, base).value;
    } else {
      var x := a + b;
      DecodeFirst(a, base);
      DecodeFirst(x, base);
      var n := (a[2] + HALF * a[3]) / 2;
      assert x[4..n] == a[4..n] && x[n..] == a[n..] + b;
      DecodeConcat(a[n..], b, base);
      var e, t, u := Entries(a[4..n], (a[0] + HALF * a[1] + base) % WORD32).value, Decode(a[n..], base).value, Decode(b, base).value;
      assert e + (t + u) == (e + t) + u;
    }
  }

  lemma DecodeNothing(base: nat)
    ensures Decode([], base) == Some([])
  {
  }

  /** One well-formed block on its own. */
  lemma DecodeBlock(offset: nat, ws: seq<nat>, base: nat)
    requires offset < WORD32 && |ws| % 2 == 0 && 8 + 2 * |ws| < WORD32 && Entries(ws, offset).Some?
    ensures Decode(Header((offset - base) % WORD32, 8 + 2 * |ws|) + ws, base) == Entries(ws, offset)
  {
    var h := Header((offset - base) % WORD32, 8 + 2 * |ws|);
    var d := h + ws;
    assert forall i :: 0 <= i < 4 ==> d[i] == h[i];
    assert (d[2] + HALF * d[3]) / 2 == |d| && d[4..|d|] == ws && d[|d|..] == [];
    assert (d[0] + HALF * d[1] + base) % WORD32 == offset;
    var e := Entries(ws, offset).value;
    assert e + [] == e;
  }

  lemma EntriesPad(ws: seq<nat>, page: nat)
    ensures Entries(ws + [0], page) == Entries(ws, page)
  {
    assert (ws + [0])[..|ws|] == ws;
  }

  lemma EntriesPush(ws: seq<nat>, page: nat, low: nat)
    requires low < PAGE && Entries(ws, page).Some?
    ensures Entries(ws + [low + IMAGE_REL_BASED_HIGHLOW * PAGE], page) == Some(Entries(ws, page).value + [(page + low) % WORD32])
  {
    assert (ws + [low + IMAGE_REL_BASED_HIGHLOW * PAGE])[..|ws|] == ws;
  }

  // ----- the code -----

  function Count(secs: seq<Section>, i: nat): nat
    requires i <= |secs|
  {
    if i == 0 then 0 else
    Count(secs, i - 1) + if secs[i - 1].reloc.Has? then |secs[i - 1].reloc.rels| else 0
  }

  class Builder {
    const secs: seq<Section>
    const base: nat
    var data: seq<nat>

    constructor (secs: seq<Section>, base: nat)
      ensures this.secs == secs && this.base == base && data == []
    {
      this.secs, this.base, data := secs, base, [];
    }

    /** `section_ptr_add`: room for words, which are zero. */
    method PtrAdd(words: nat) returns (at: nat)
      modifies `data
      ensures at == |old(data)| && data == old(data) + seq(words, _ => 0)
    {
      at := |data|;
      data := data + seq(words, _ => 0);
    }

    /** The addresses `done` are in the section: those of closed blocks, and those of the
        block at `blockPtr` whose header is still to be filled in. */
    static ghost predicate Written(data: seq<nat>, base: nat, blockPtr: nat, count: nat, offset: nat, done: seq<nat>) {
      if count == 0 then Decode(data, base) == Some(done)
      else
        && blockPtr + 4 + count == |data| && offset % PAGE == 0 && offset < WORD32
        && Decode(data[..blockPtr], base).Some? && Entries(data[blockPtr + 4..], offset).Some?
        && done == Decode(data[..blockPtr], base).value + Entries(data[blockPtr + 4..], offset).value
    }

    /** `pe_build_reloc`: reading the blocks back gives every direct relocation, in order. */
    method BuildReloc()
      requires data == [] && Count(secs, |secs|) < 0x2000_0000
      modifies this
      ensures Decode(data, base) == Some(AllFrom(secs, 0))
    {
      hide Decode, Entries, Written, Covered, Count;
      var offset: nat, blockPtr: nat, count: nat := 0, 0, 0;
      var i: nat, rels: seq<Rel>, rel: nat, secAddr: nat := 0, [], 0, 0;
      ghost var done: seq<nat> := [];
      WrittenNothing(base);
      NothingCovered(secs);
      while true
        invariant i <= |secs| && rel <= |rels|
        invariant Written(data, base, blockPtr, count, offset, done)
        invariant Covered(done, rels, rel, secAddr, secs, i)
        invariant count + (|rels| - rel) <= Count(secs, i)
        decreases |secs| - i, |rels| - rel, count
      {
        CountGrows(secs, i, |secs|);
        if rel < |rels| {
          var typ := rels[rel].typ;
          var addr := (rels[rel].offset + secAddr) % WORD32;
          OneMore(rels, rel, secAddr, done, secs, i);
          rel := rel + 1;
          if typ != REL_TYPE_DIRECT {
            continue;
          }
          var stored;
          stored, blockPtr, offset := Store(addr, count, blockPtr, offset, done);
          if stored {
            count := count + 1;
            done := done + [addr];
            continue;
          }
          rel := rel - 1;
        } else if i < |secs| {
          NextSection(rels, rel, secAddr, secs, i, done);
          CountNext(secs, i);
          secAddr := secs[i].addr;
          i := i + 1;
          if secs[i - 1].reloc.Has? {
            rels := secs[i - 1].reloc.rels;
            rel := 0;
          }
          continue;
        }
        if count != 0 {
          CloseBlock(count, blockPtr, offset, done);
          count := 0;
        }
        if rel >= |rels| { break; }
      }
      WrittenAll(data, base, blockPtr, offset, done);
      AllCovered(done, rels, rel, secAddr, secs, i);
    }

    /** The addresses taken so far and those still to come are all of them. */
    static ghost predicate Covered(done: seq<nat>, rels: seq<Rel>, rel: nat, addr: nat, secs: seq<Section>, i: nat)
      requires rel <= |rels| && i <= |secs|
    {
      done + (DirectFrom(rels, rel, addr) + AllFrom(secs, i)) == AllFrom(secs, 0)
    }

    static lemma NothingCovered(secs: seq<Section>)
      ensures Covered([], [], 0, 0, secs, 0) && Count(secs, 0) == 0
    {
      assert [] + ([] + AllFrom(secs, 0)) == AllFrom(secs, 0);
    }

    static lemma AllCovered(done: seq<nat>, rels: seq<Rel>, rel: nat, addr: nat, secs: seq<Section>, i: nat)
      requires rel == |rels| && i == |secs| && Covered(done, rels, rel, addr, secs, i)
      ensures done == AllFrom(secs, 0)
    {
      assert done + ([] + []) == done;
    }

    static lemma CountNext(secs: seq<Section>, i: nat)
      requires i < |secs|
      ensures Count(secs, i + 1) == Count(secs, i) + if secs[i].reloc.Has? then |secs[i].reloc.rels| else 0
    {
    }

    /** What is left to do before and after a relocation is taken. */
    static lemma OneMore(rels: seq<Rel>, rel: nat, addr: nat, done: seq<nat>, secs: seq<Section>, i: nat)
      requires rel < |rels| && i <= |secs| && Covered(done, rels, rel, addr, secs, i)
      ensures rels[rel].typ != REL_TYPE_DIRECT ==> Covered(done, rels, rel + 1, addr, secs, i)
      ensures rels[rel].typ == REL_TYPE_DIRECT ==> Covered(done + [(rels[rel].offset + addr) % WORD32], rels, rel + 1, addr, secs, i)
    {
      hide AllFrom, DirectFrom;
      var a, more := (rels[rel].offset + addr) % WORD32, DirectFrom(rels, rel + 1, addr);
      DirectStep(rels, rel, addr);
      if rels[rel].typ == REL_TYPE_DIRECT {
        Regrouped(done, a, more, AllFrom(secs, i));
      }
    }

    static lemma DirectStep(rels: seq<Rel>, rel: nat, addr: nat)
      requires rel < |rels|
      ensures var more := DirectFrom(rels, rel + 1, addr);
              DirectFrom(rels, rel, addr) == if rels[rel].typ == REL_TYPE_DIRECT then [(rels[rel].offset + addr) % WORD32] + more else more
    {
      var more := DirectFrom(rels, rel + 1, addr);
      assert [] + more == more;
    }

    static lemma Regrouped(done: seq<nat>, a: nat, more: seq<nat>, rest: seq<nat>)
      ensures done + (([a] + more) + rest) == (done + [a]) + (more + rest)
    {
    }

    static lemma NextSection(rels: seq<Rel>, rel: nat, addr: nat, secs: seq<Section>, i: nat, done: seq<nat>)
      requires rel == |rels| && i < |secs| && Covered(done, rels, rel, addr, secs, i)
      ensures var s := secs[i];
              if s.reloc.Has? then Covered(done, s.reloc.rels, 0, s.addr, secs, i + 1)
              else Covered(done, rels, rel, s.addr, secs, i + 1)
    {
      var rest, s := AllFrom(secs, i), secs[i];
      assert [] + rest == rest;
      assert rest == Direct(s) + AllFrom(secs, i + 1);
    }

    /** One address: into the open block, or into a new one if there is none. */
    method Store(a: nat, count: nat, blockPtr: nat, offset: nat, ghost done: seq<nat>) returns (stored: bool, blockPtr': nat, offset': nat)
      requires a < WORD32 && Written(data, base, blockPtr, count, offset, done)
      modifies `data
      ensures count == 0 ==> stored
      ensures stored ==> Written(data, base, blockPtr', count + 1, offset', done + [a])
      ensures !stored ==> data == old(data) && blockPtr' == blockPtr && offset' == offset
    {
      hide Written;
      blockPtr', offset' := blockPtr, offset;
      ghost var was := data;
      SeeOpen(was, base, blockPtr, count, offset, done);
      if count == 0 {
        blockPtr' := PtrAdd(4);
        offset' := a - a % PAGE;
        assert data == was + [0, 0, 0, 0];
      }
      var addr := (a - offset') % WORD32;
      LowPart(a, offset');
      stored := addr < PAGE;
      if stored {
        ghost var open := data;
        var wp := PtrAdd(1);
        data := data[wp := addr + IMAGE_REL_BASED_HIGHLOW * PAGE];
        assert data == open + [addr + IMAGE_REL_BASED_HIGHLOW * PAGE];
        WrittenPush(was, base, blockPtr, offset, blockPtr', count, offset', done, a, data);
      }
    }

    /** Pads the last block and fills in its header. */
    method CloseBlock(n: nat, blockPtr: nat, offset: nat, ghost done: seq<nat>)
      requires 0 < n < 0x2000_0000 && Written(data, base, blockPtr, n, offset, done)
      modifies `data
      ensures Written(data, base, blockPtr, 0, offset, done)
    {
      hide Written;
      ghost var was := data;
      SeeOpen(was, base, blockPtr, n, offset, done);
      var count := n;
      if count % 2 == 1 {
        var pad := PtrAdd(1);
        count := count + 1;
        assert data == was + [0];
      } else {
        assert data == was + [];
      }
      ghost var open := data;
      var header := Split((offset - base) % WORD32) + Split(count * 2 + 8);
      data := data[..blockPtr] + header + data[blockPtr + 4..];
      WrittenClosed(was, base, blockPtr, n, offset, done, open, count, data);
    }

    static lemma WrittenNothing(base: nat)
      ensures Written([], base, 0, 0, 0, [])
    {
    }
  
    static lemma SeeOpen(data: seq<nat>, base: nat, blockPtr: nat, count: nat, offset: nat, done: seq<nat>)
      requires Written(data, base, blockPtr, count, offset, done)
      ensures count > 0 ==> blockPtr + 4 + count == |data| && offset % PAGE == 0 && offset < WORD32
    {
    }

    /** Distances are taken modulo 2^32, which brings no address below the page into it. */
    static lemma LowPart(a: nat, offset: nat)
      requires offset % PAGE == 0 && offset < WORD32 && a < WORD32
      ensures (a - offset) % WORD32 < PAGE <==> offset <= a < offset + PAGE
      ensures offset <= a < offset + PAGE ==> (a - offset) % WORD32 == a - offset
    {
      if a < offset { assert (a - offset) % WORD32 == a - offset + WORD32; }
    }

    static lemma WrittenAll(data: seq<nat>, base: nat, blockPtr: nat, offset: nat, done: seq<nat>)
      requires Written(data, base, blockPtr, 0, offset, done)
      ensures Decode(data, base) == Some(done)
    {
    }

    /** One more entry, in a new block or in the open one. */
    static lemma WrittenPush(was: seq<nat>, base: nat, bp0: nat, offset0: nat, bp: nat, count: nat, offset: nat, done: seq<nat>, a: nat, data: seq<nat>)
      requires Written(was, base, bp0, count, offset0, done)
      requires offset % PAGE == 0 && offset <= a < offset + PAGE && a < WORD32
      requires var entry := a - offset + IMAGE_REL_BASED_HIGHLOW * PAGE;
               if count == 0 then bp == |was| && data == was + [0, 0, 0, 0] + [entry]
               else bp == bp0 && offset == offset0 && data == was + [entry]
      ensures Written(data, base, bp, count + 1, offset, done + [a])
    {
      hide Decode, Entries;
      var entry := a - offset + IMAGE_REL_BASED_HIGHLOW * PAGE;
      if count == 0 {
        assert data[..bp] == was && data[bp + 4..] == [] + [entry];
        NoEntries(offset);
        EntriesPush([], offset, a - offset);
        assert [] + [a] == [a];
      } else {
        var ws := was[bp + 4..];
        assert data[..bp] == was[..bp] && data[bp + 4..] == ws + [entry];
        EntriesPush(ws, offset, a - offset);
        var x, y := Decode(was[..bp], base).value, Entries(ws, offset).value;
        assert x + y + [a] == x + (y + [a]);
      }
    }

    static lemma NoEntries(page: nat)
      ensures Entries([], page) == Some([])
    {
    }

    /** The header filled in, after a word of padding if need be. */
    static lemma WrittenClosed(was: seq<nat>, base: nat, bp: nat, n: nat, offset: nat, done: seq<nat>, open: seq<nat>, count: nat, data: seq<nat>)
      requires n > 0 && Written(was, base, bp, n, offset, done)
      requires open == was + (if n % 2 == 1 then [0] else []) && count == n + n % 2 && count * 2 + 8 < WORD32
      requires data == open[..bp] + Header((offset - base) % WORD32, count * 2 + 8) + open[bp + 4..]
      ensures Written(data, base, bp, 0, offset, done)
    {
      hide Decode, Entries;
      var ws, rest := was[bp + 4..], open[bp + 4..];
      if n % 2 == 1 {
        assert rest == ws + [0];
        EntriesPad(ws, offset);
      } else {
        assert rest == ws;
      }
      DecodeBlock(offset, rest, base);
      assert open[..bp] == was[..bp];
      var block := Header((offset - base) % WORD32, 8 + 2 * |rest|) + rest;
      assert data == was[..bp] + block;
      DecodeConcat(was[..bp], block, base);
    }

    static lemma CountGrows(secs: seq<Section>, i: nat, n: nat)
      requires i <= n <= |secs|
      ensures Count(secs, i) <= Count(secs, n)
      decreases n
    {
      if i < n { CountGrows(secs, i, n - 1); }
    }
  }
}
