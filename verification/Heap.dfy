/** The kernel heap as the code keeps it: headers in memory, linked by address, walked and rewritten in
    place. Each operation does what its counterpart on sequences of blocks does (kernel/kheap.c:27-194). */
module Heap {
  import opened Blocks

  const NULL: nat := 0

  datatype Header = Header(size: nat, used: bool, next: nat)

  type Memory = map<nat, Header>

  /** Headers for `cells` lie in memory from `at` on, each pointing to the next, the last to `last`. */
  ghost predicate Linked(mem: Memory, at: nat, cells: seq<Cell>, last: nat)
    decreases |cells|
  {
    cells != [] ==>
      && at in mem
      && mem[at] == Header(cells[0].size, cells[0].used, if |cells| == 1 then last else at + HDR + cells[0].size)
      && Linked(mem, at + HDR + cells[0].size, cells[1..], last)
  }

  /** Where a list that may be empty starts. */
  ghost function Start(cells: seq<Cell>, at: nat, last: nat): nat {
    if cells == [] then last else at
  }

  lemma {:induction false} LinkedJoin(mem: Memory, at: nat, a: seq<Cell>, b: seq<Cell>, last: nat)
    ensures Linked(mem, at, a + b, last) <==>
      Linked(mem, at, a, Start(b, at + Total(a), last)) && Linked(mem, at + Total(a), b, last)
    decreases |a|
  {
    if a == [] {
      assert a + b == b;
    } else {
      assert (a + b)[1..] == a[1..] + b;
      LinkedJoin(mem, at + HDR + a[0].size, a[1..], b, last);
      if a[1..] == [] {
        assert a[1..] + b == b && Total(a) == HDR + a[0].size;
      }
    }
  }

  /** Writing outside the range of a list does not touch it. */
  lemma {:induction false} LinkedFrame(mem: Memory, mem': Memory, at: nat, cells: seq<Cell>, last: nat)
    requires Linked(mem, at, cells, last)
    requires forall p :: p in mem && at <= p < at + Total(cells) ==> p in mem' && mem'[p] == mem[p]
    ensures Linked(mem', at, cells, last)
    decreases |cells|
  {
    if cells != [] {
      LinkedFrame(mem, mem', at + HDR + cells[0].size, cells[1..], last);
    }
  }

  /** A list in three parts, the middle one block. */
  lemma LinkedParts(mem: Memory, at: nat, cells: seq<Cell>, i: nat, last: nat)
    requires i < |cells| && Linked(mem, at, cells, last)
    ensures var here, a, c, b := at + Total(cells[..i]), cells[..i], cells[i], cells[i + 1..];
      && Linked(mem, at, a, here) && here in mem
      && mem[here] == Header(c.size, c.used, Start(b, here + HDR + c.size, last))
      && Linked(mem, here + HDR + c.size, b, last)
  {
    assert cells == cells[..i] + cells[i..];
    LinkedJoin(mem, at, cells[..i], cells[i..], last);
    assert cells[i..][0] == cells[i] && cells[i..][1..] == cells[i + 1..];
  }

  lemma Rejoin(mem: Memory, at: nat, a: seq<Cell>, put: seq<Cell>, b: seq<Cell>, last: nat)
    requires put != [] && Linked(mem, at, a, at + Total(a))
    requires Linked(mem, at + Total(a), put, Start(b, at + Total(a) + Total(put), last))
    requires Linked(mem, at + Total(a) + Total(put), b, last)
    ensures Linked(mem, at, a + put + b, last)
  {
    LinkedJoin(mem, at + Total(a), put, b, last);
    LinkedJoin(mem, at, a, put + b, last);
    assert a + put + b == a + (put + b);
  }

  /** The list after block `i` has been rewritten as `put`, with the rest of memory left alone. */
  lemma LinkedReplace(mem: Memory, mem': Memory, at: nat, cells: seq<Cell>, i: nat, put: seq<Cell>, last: nat)
    requires i < |cells| && Linked(mem, at, cells, last) && put != [] && Total(put) == HDR + cells[i].size
    requires var here := at + Total(cells[..i]);
      && Linked(mem', here, put, Start(cells[i + 1..], here + HDR + cells[i].size, last))
      && forall p :: p in mem && !(here <= p < here + HDR + cells[i].size) ==> p in mem' && mem'[p] == mem[p]
    ensures Linked(mem', at, Replace(cells, i, put), last)
  {
    var here := at + Total(cells[..i]);
    LinkedParts(mem, at, cells, i, last);
    LinkedFrame(mem, mem', at, cells[..i], here);
    LinkedFrame(mem, mem', here + HDR + cells[i].size, cells[i + 1..], last);
    Rejoin(mem', at, cells[..i], put, cells[i + 1..], last);
  }

  /** Two neighbours as one block. */
  ghost function Merged(cells: seq<Cell>, i: nat): seq<Cell>
    requires i + 1 < |cells|
  {
    cells[..i] + [Cell(cells[i].size + HDR + cells[i + 1].size, false)] + cells[i + 2..]
  }

  lemma LinkedMerge(mem: Memory, cells: seq<Cell>, i: nat, at: nat)
    requires i + 1 < |cells| && Linked(mem, at, cells, NULL)
    ensures var here := at + Total(cells[..i]);
      var next := here + HDR + cells[i].size;
      && here in mem && next in mem && mem[here].next == next && next != NULL
      && mem[here].size == cells[i].size && mem[here].used == cells[i].used
      && mem[next].size == cells[i + 1].size && mem[next].used == cells[i + 1].used
      && Linked(mem[here := Header(cells[i].size + HDR + cells[i + 1].size, false, mem[next].next)], at,
        Merged(cells, i), NULL)
  {
    var here := at + Total(cells[..i]);
    var next := here + HDR + cells[i].size;
    var a, b := cells[..i], cells[i + 2..];
    LinkedParts(mem, at, cells, i, NULL);
    assert cells[i + 1..][0] == cells[i + 1] && cells[i + 1..][1..] == b;
    var size := cells[i].size + HDR + cells[i + 1].size;
    var put := [Cell(size, false)];
    var mem' := mem[here := Header(size, false, mem[next].next)];
    LinkedFrame(mem, mem', at, a, here);
    LinkedFrame(mem, mem', here + HDR + size, b, NULL);
    assert put[1..] == [] && Total(put) == HDR + size;
    Rejoin(mem', at, a, put, b, NULL);
  }

  lemma AddrNext(cells: seq<Cell>, i: nat)
    requires i < |cells|
    ensures AddrOf(cells, i + 1) == AddrOf(cells, i) + HDR + cells[i].size
  {
    assert cells[..i + 1] == cells[..i] + [cells[i]];
    TotalSum(cells[..i], [cells[i]]);
    OneCell(cells[i], 0);
  }

  /** The header of block `i`, and where it points. */
  lemma HeaderAt(mem: Memory, cells: seq<Cell>, i: nat)
    requires i < |cells| && Linked(mem, HEAP_START, cells, NULL)
    ensures var p := AddrOf(cells, i);
      && p in mem && mem[p].size == cells[i].size && mem[p].used == cells[i].used
      && mem[p].next == if i + 1 < |cells| then AddrOf(cells, i + 1) else NULL
  {
    LinkedParts(mem, HEAP_START, cells, i, NULL);
    AddrNext(cells, i);
  }

  lemma FirstFitIs(cells: seq<Cell>, s: nat, i: nat)
    requires i < |cells| && Serves(cells[i], s) && forall j :: 0 <= j < i ==> !Serves(cells[j], s)
    ensures FirstFit(cells, s) == i
  {
  }

  /** Linking a new block behind the last one. */
  lemma LinkedAppend(mem: Memory, cells: seq<Cell>, c: Cell, end: nat, tail: nat)
    requires Linked(mem, HEAP_START, cells, NULL) && end == HEAP_START + Total(cells)
    requires cells != [] && tail == AddrOf(cells, |cells| - 1)
    ensures var mem' := mem[end := Header(c.size, c.used, NULL)];
      tail in mem' && Linked(mem'[tail := mem'[tail].(next := end)], HEAP_START, cells + [c], NULL)
  {
    var i := |cells| - 1;
    LinkedParts(mem, HEAP_START, cells, i, NULL);
    AddrNext(cells, i);
    assert cells[..|cells|] == cells && cells == cells[..i] + [cells[i]];
    var mem1 := mem[end := Header(c.size, c.used, NULL)];
    var mem2 := mem1[tail := mem1[tail].(next := end)];
    LinkedFrame(mem, mem2, HEAP_START, cells[..i], tail);
    assert [c][1..] == [] && [cells[i]][1..] == [];
    LinkedJoin(mem2, HEAP_START, cells[..i], [cells[i]], end);
    LinkedJoin(mem2, HEAP_START, cells, [c], NULL);
  }

  /** The aligned end of a growth below the cap is below the cap. */
  lemma CapOnPage(growTo: nat)
    requires growTo <= HEAP_CAP
    ensures growTo + 4095 - (growTo + 4095) % 4096 <= HEAP_CAP
  {
  }

  ghost function UsedBytes(cells: seq<Cell>): nat {
    if cells == [] then 0 else (if cells[0].used then HDR + cells[0].size else 0) + UsedBytes(cells[1..])
  }

  lemma {:induction false} UsedSum(a: seq<Cell>, b: seq<Cell>)
    ensures UsedBytes(a + b) == UsedBytes(a) + UsedBytes(b)
  {
    if a == [] {
      assert a + b == b;
    } else {
      assert (a + b)[1..] == a[1..] + b;
      UsedSum(a[1..], b);
    }
  }

  lemma MergeStep(cells: seq<Cell>, i: nat)
    requires i + 1 < |cells| && !cells[i].used && !cells[i + 1].used
    ensures cells[..i] + Coalesce(cells[i..]) == Merged(cells, i)[..i] + Coalesce(Merged(cells, i)[i..])
    ensures AddrOf(Merged(cells, i), i) == AddrOf(cells, i)
  {
    var tail := cells[i..];
    assert Merged(cells, i)[..i] == cells[..i];
    assert Merged(cells, i)[i..] == [Cell(tail[0].size + HDR + tail[1].size, false)] + tail[2..];
  }

  lemma KeepStep(cells: seq<Cell>, i: nat)
    requires i + 1 < |cells| && (cells[i].used || cells[i + 1].used)
    ensures cells[..i] + Coalesce(cells[i..]) == cells[..i + 1] + Coalesce(cells[i + 1..])
  {
    assert cells[i..][1..] == cells[i + 1..] && cells[..i + 1] == cells[..i] + [cells[i]];
  }

  class Heap {
    var mem: Memory
    var head: nat
    var heapEnd: nat
    var frames: nat            // what pmm_alloc_frame() has left
    ghost var cells: seq<Cell>

    /** The headers in memory are those of `cells`. */
    ghost predicate Valid()
      reads this
    {
      head == Start(cells, HEAP_START, NULL) && Linked(mem, HEAP_START, cells, NULL) && HEAP_START <= heapEnd < WORD
    }

    ghost function View(): State
      reads this
    {
      State(cells, heapEnd, frames)
    }

    /** Before `kheap_init`: nothing mapped, no list. */
    constructor (frames: nat)
      ensures Valid() && View() == State([], HEAP_START, frames)
    {
      mem, head, heapEnd, this.frames := map[], NULL, HEAP_START, frames;
      cells := [];
    }

    /** `heap_expand`: maps pages up to `newEnd`, or until the frames run out. */
    method Expand(newEnd: nat) returns (ok: bool)
      requires newEnd <= HEAP_CAP
      modifies this`heapEnd, this`frames
      ensures var pages := Pages(old(heapEnd), newEnd, old(frames));
        heapEnd == old(heapEnd) + 4096 * pages && frames + pages == old(frames)
      ensures ok <==> heapEnd >= newEnd
      ensures heapEnd < newEnd + 4096 || heapEnd == old(heapEnd)
    {
      ghost var mapped := 0;
      while heapEnd < newEnd
        invariant heapEnd == old(heapEnd) + 4096 * mapped && frames + mapped == old(frames)
        invariant heapEnd < newEnd + 4096 || heapEnd == old(heapEnd)
        invariant Pages(old(heapEnd), newEnd, old(frames)) == mapped + Pages(heapEnd, newEnd, frames)
        decreases newEnd - heapEnd
      {
        if frames == 0 {
          return false;
        }
        frames := frames - 1;
        heapEnd := heapEnd + 4096;
        mapped := mapped + 1;
      }
      ok := true;
    }

    /** `kheap_init` on a fresh heap. It does not look at what `heap_expand` answers, so the heap it leaves
        is tiled exactly if sixteen frames were there. */
    method Init()
      requires Valid() && View().cells == [] && heapEnd == HEAP_START
      modifies this
      ensures Valid() && cells == [Cell(HEAP_INITIAL_SIZE - HDR, false)]
      ensures Good(View()) <==> old(frames) >= 16
      ensures old(frames) >= 16 ==> View() == Initial(old(frames) - 16)
    {
      var _ := Expand(HEAP_START + HEAP_INITIAL_SIZE);
      head := HEAP_START;
      mem := mem[head := Header(HEAP_INITIAL_SIZE - HDR, false, NULL)];
      cells := [Cell(HEAP_INITIAL_SIZE - HDR, false)];
      PagesAre(HEAP_START, HEAP_START + HEAP_INITIAL_SIZE, old(frames));
      InitialGood(frames);
    }

    /** Links a block made at the end of the mapped memory; `end` is where it stands. */
    method Append(end: nat, size: nat, used: bool)
      requires Valid() && end == HEAP_START + Total(cells)
      modifies this`mem, this`head, this`cells
      ensures Valid() && cells == old(cells) + [Cell(size, used)]
    {
      mem := mem[end := Header(size, used, NULL)];
      if head == NULL {
        head := end;
        assert cells + [Cell(size, used)] == [Cell(size, used)];
      } else {
        var tail := FindTail(old(mem));
        LinkedAppend(old(mem), cells, Cell(size, used), end, tail);
        mem := mem[tail := mem[tail].(next := end)];
      }
      cells := cells + [Cell(size, used)];
    }

    /** Walks to the last block. */
    method FindTail(ghost m: Memory) returns (tail: nat)
      requires cells != [] && head == HEAP_START && Linked(m, HEAP_START, cells, NULL)
      requires forall p :: p in m && p < HEAP_START + Total(cells) ==> p in mem && mem[p] == m[p]
      ensures tail == AddrOf(cells, |cells| - 1)
    {
      tail := head;
      ghost var i := 0;
      LinkedFrame(m, mem, HEAP_START, cells, NULL);
      HeaderAt(mem, cells, 0);
      while mem[tail].next != NULL
        invariant i < |cells| && tail == AddrOf(cells, i) && tail in mem
        invariant mem[tail].next == if i + 1 < |cells| then AddrOf(cells, i + 1) else NULL
        decreases |cells| - i
      {
        tail := mem[tail].next;
        i := i + 1;
        HeaderAt(mem, cells, i);
      }
    }

    /** Gives a free block to a request: the tail end of `kmalloc`'s search. */
    method TakeBlock(block: nat, s: nat, ghost i: nat)
      requires Valid() && i < |cells| && block == AddrOf(cells, i) && Serves(cells[i], s)
      requires cells[i].size + HDR + 4 < WORD
      modifies this`mem, this`cells
      ensures Valid() && cells == Replace(old(cells), i, Carve(old(cells)[i], s))
    {
      ghost var put := Carve(cells[i], s);
      LinkedParts(mem, HEAP_START, cells, i, NULL);
      CarveLive(cells[i], s, block);
      var size := mem[block].size;
      if size >= Wrap(s + HDR + 4) {
        var rest := block + HDR + s;
        mem := mem[rest := Header(Wrap(WORD + size - s - HDR), false, mem[block].next)];
        mem := mem[block := Header(s, mem[block].used, rest)];
      }
      mem := mem[block := mem[block].(used := true)];
      assert put[1..] == [] || (put[1..] == [put[1]] && put[1..][1..] == []);
      assert Linked(mem, block, put, Start(cells[i + 1..], block + HDR + cells[i].size, NULL));
      LinkedReplace(old(mem), mem, HEAP_START, cells, i, put, NULL);
      cells := Replace(cells, i, put);
    }

    /** The search of `kmalloc`: the first free block that fits. */
    method Find(s: nat) returns (block: nat, ghost i: int)
      requires Valid()
      ensures i == FirstFit(cells, s) && block == if i >= 0 then AddrOf(cells, i) else NULL
    {
      block := head;
      i := 0;
      while block != NULL
        invariant 0 <= i <= |cells| && block == (if i < |cells| then AddrOf(cells, i) else NULL)
        invariant forall j :: 0 <= j < i ==> !Serves(cells[j], s)
        decreases |cells| - i
      {
        HeaderAt(mem, cells, i);
        if !mem[block].used && mem[block].size >= s {
          FirstFitIs(cells, s, i);
          return;
        }
        block := mem[block].next;
        i := i + 1;
      }
      i := -1;
    }

    /** `kmalloc`. */
    method Kmalloc(size: nat) returns (p: nat)
      requires Valid() && Good(View()) && size < WORD
      modifies this
      ensures Valid() && (View(), p) == Malloc(old(View()), size)
      ensures size <= LIMIT ==> Good(View()) && Sound(old(View()), size)
    {
      if size <= LIMIT {
        MallocSound(View(), size);
      }
      if size == 0 {
        return NULL;
      }
      p := Serve(Round4(size));
    }

    method Serve(s: nat) returns (p: nat)
      requires Valid() && Good(View()) && s < WORD
      modifies this
      ensures Valid() && (View(), p) == (var h, i := old(View()), FirstFit(old(cells), s);
        if i >= 0 then (h.(cells := Replace(h.cells, i, Carve(h.cells[i], s))), AddrOf(h.cells, i) + HDR)
          else Grow(h, s))
    {
      var block, i := Find(s);
      if block != NULL {
        CellInTotal(cells, cells[i]);
        TakeBlock(block, s, i);
        return block + HDR;
      }
      p := GrowHeap(s);
    }

    /** The growing half of `kmalloc`. */
    method GrowHeap(s: nat) returns (p: nat)
      requires Valid() && Good(View()) && s < WORD
      modifies this
      ensures Valid() && (View(), p) == Grow(old(View()), s)
    {
      var needed := Wrap(s + HDR);
      var growTo := Wrap(heapEnd + needed);
      if growTo > HEAP_CAP {
        return NULL;
      }
      var oldEnd := heapEnd;
      var aligned := growTo + 4095 - (growTo + 4095) % 4096;
      CapOnPage(growTo);
      var _ := Expand(aligned);
      if heapEnd - oldEnd < needed {
        if heapEnd > oldEnd + HDR {
          Append(oldEnd, heapEnd - oldEnd - HDR, false);
        }
        return NULL;
      }
      Append(oldEnd, Wrap(WORD + heapEnd - oldEnd - HDR), true);
      p := oldEnd + HDR;
    }

    /** `kheap_stats`: on a tiled heap the total is exactly what is mapped. */
    method Stats() returns (used: nat, total: nat)
      requires Valid() && Good(View())
      ensures total == heapEnd - HEAP_START && used == UsedBytes(cells) <= total
    {
      used, total := 0, 0;
      var b := head;
      ghost var i := 0;
      while b != NULL
        invariant i <= |cells| && b == (if i < |cells| then AddrOf(cells, i) else NULL)
        invariant total == Total(cells[..i]) && used == UsedBytes(cells[..i]) <= total
        decreases |cells| - i
      {
        HeaderAt(mem, cells, i);
        AddrNext(cells, i);
        assert cells[..i + 1] == cells[..i] + [cells[i]];
        UsedSum(cells[..i], [cells[i]]);
        assert [cells[i]][1..] == [];
        total := total + mem[b].size + HDR;
        if mem[b].used {
          used := used + mem[b].size + HDR;
        }
        b := mem[b].next;
        i := i + 1;
      }
      assert cells[..|cells|] == cells;
    }

    /** `kfree` of a live pointer or of none: marks the block free, then merges free neighbours. */
    method Kfree(ptr: nat)
      requires Valid() && Good(View()) && (ptr != NULL ==> ptr in Live(cells, HEAP_START))
      modifies this`mem, this`cells
      ensures Valid() && Good(View())
      ensures ptr == NULL ==> View() == old(View())
      ensures ptr != NULL ==> View() == Free(old(View()), ptr) && NoAdjacentFree(cells)
      ensures ptr != NULL ==> Live(cells, HEAP_START) == Live(old(cells), HEAP_START) - {ptr}
    {
      if ptr == NULL {
        return;
      }
      FreeSound(View(), ptr);
      ghost var goal := Free(View(), ptr).cells;
      LiveBlock(cells, HEAP_START, ptr);
      Unmark(ptr - HDR, BlockAt(cells, HEAP_START, ptr));
      MergePass();
      assert cells == goal;
    }

    method Unmark(block: nat, ghost i: nat)
      requires Valid() && i < |cells| && block == AddrOf(cells, i)
      modifies this`mem, this`cells
      ensures Valid() && cells == old(cells)[i := old(cells)[i].(used := false)]
    {
      ghost var put := [cells[i].(used := false)];
      LinkedParts(mem, HEAP_START, cells, i, NULL);
      OneCell(put[0], block);
      mem := mem[block := mem[block].(used := false)];
      assert put[1..] == [];
      LinkedReplace(old(mem), mem, HEAP_START, cells, i, put, NULL);
      ReplaceOne(cells, i, put[0]);
      cells := cells[i := put[0]];
    }

    /** The coalescing loop. */
    method MergePass()
      requires Valid()
      modifies this`mem, this`cells
      ensures Valid() && cells == Coalesce(old(cells))
    {
      var cur := head;
      ghost var i := 0;
      if cur != NULL {
        HeaderAt(mem, cells, 0);
      }
      while cur != NULL && mem[cur].next != NULL
        invariant Valid() && (cells == [] ==> cur == NULL)
        invariant cells != [] ==> i < |cells| && cur == AddrOf(cells, i) && cur in mem
        invariant cells != [] ==> mem[cur].next == if i + 1 < |cells| then AddrOf(cells, i + 1) else NULL
        invariant Coalesce(old(cells)) == if cells == [] then [] else cells[..i] + Coalesce(cells[i..])
        decreases |cells| - i
      {
        HeaderAt(mem, cells, i + 1);
        LinkedMerge(mem, cells, i, HEAP_START);
        AddrNext(cells, i);
        var next := mem[cur].next;
        var curEnd := cur + HDR + mem[cur].size;
        if !mem[cur].used && !mem[next].used && next == curEnd {
          MergeStep(cells, i);
          mem := mem[cur := Header(mem[cur].size + HDR + mem[next].size, false, mem[next].next)];
          cells := Merged(cells, i);
          HeaderAt(mem, cells, i);
        } else {
          KeepStep(cells, i);
          cur := next;
          i := i + 1;
        }
      }
    }
  }
}
