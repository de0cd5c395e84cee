/** beebsc.c: the bump allocator and the random number generator of the benchmarks. */
module Beebs {
  import opened Seqs

  /** Size of the address space, and of a pointer. */
  const WORD: nat := 0x1_0000_0000_0000_0000
  const ALIGNMENT: nat := 8
  const NULL: nat := 0

  /** heap_ptr, heap_end and heap_requested. */
  datatype State = State(ptr: nat, end: nat, requested: nat)

  /** Bytes from an address up to the next aligned one. */
  function Padding(p: nat): (n: nat)
    ensures n < ALIGNMENT && (p + n) % ALIGNMENT == 0
  {
    if p % ALIGNMENT == 0 then 0 else ALIGNMENT - p % ALIGNMENT
  }

  function Init(heap: nat, size: nat): State {
    State(heap, (heap + size) % WORD, 0)
  }

  /** The padded end of a block of the given size, in the arithmetic of pointers. */
  function NextPtr(s: State, size: nat): nat {
    var next := (s.ptr + size) % WORD;
    (next + Padding(next)) % WORD
  }

  function Requested(s: State, size: nat): nat {
    (s.requested + size + Padding((s.ptr + size) % WORD)) % WORD
  }

  /** malloc_beebs: the state after the call, and the pointer. */
  function Malloc(s: State, size: nat): (State, nat) {
    if size == 0 then (s, NULL)
    else if NextPtr(s, size) > s.end then (s.(requested := Requested(s, size)), NULL)
    else (s.(ptr := NextPtr(s, size), requested := Requested(s, size)), s.ptr)
  }

  /** The size with its padding. */
  function Padded(s: State, size: nat): nat {
    size + Padding(s.ptr + size)
  }

  /** In numbers: the block ends at the next multiple of 8, in 64 bits, and the request counts with its
      padding. */
  lemma {:induction false} MallocNumbers(s: State, size: nat)
    requires size > 0
    ensures var next := (s.ptr + size + 7) / 8 * 8 % 0x1_0000_0000_0000_0000;
            var asked := (s.requested + ((s.ptr + size + 7) / 8 * 8 - s.ptr)) % 0x1_0000_0000_0000_0000;
            Malloc(s, size) == if next > s.end then (s.(requested := asked), 0)
                               else (State(next, s.end, asked), s.ptr)
    ensures Malloc(s, 0) == (s, 0)
  {
    hide NextPtr, Requested, Padded;
    NextModulo(s, size);
    RoundedUp(s, size);
  }

  lemma {:induction false} RoundedUp(s: State, size: nat)
    ensures s.ptr + Padded(s, size) == (s.ptr + size + 7) / 8 * 8
  {
  }

  /** The padded block ends below the top of the address space. */
  predicate NoWrap(s: State, size: nat) {
    s.ptr + Padded(s, size) < WORD
  }

  /** A heap from heap to s.end, with the next free byte inside it. */
  predicate ValidHeap(s: State, heap: nat) {
    NULL < heap <= s.ptr <= s.end <= WORD - ALIGNMENT && s.requested < WORD
  }

  // ----- one call

  lemma {:induction false} Small(n: nat)
    requires n < WORD
    ensures n % WORD == n
  {
  }

  lemma {:induction false} AddModulo(a: nat, b: nat)
    ensures (a % WORD + b) % WORD == (a + b) % WORD
  {
  }

  /** The address space is a multiple of the alignment, so padding does not depend on wrap-around. */
  lemma {:induction false} PaddingModulo(p: nat)
    ensures Padding(p % WORD) == Padding(p)
  {
    assert p == WORD * (p / WORD) + p % WORD;
  }

  /** The new values for any size, wrapping or not. */
  lemma {:induction false} NextModulo(s: State, size: nat)
    ensures NextPtr(s, size) == (s.ptr + Padded(s, size)) % WORD
    ensures Requested(s, size) == (s.requested + Padded(s, size)) % WORD
  {
    hide Padding;
    PaddingModulo(s.ptr + size);
    AddModulo(s.ptr + size, Padding(s.ptr + size));
  }

  lemma {:induction false} NoWrapNext(s: State, size: nat)
    requires NoWrap(s, size)
    ensures NextPtr(s, size) == s.ptr + Padded(s, size)
  {
    hide Padded;
    NextModulo(s, size);
    Small(s.ptr + Padded(s, size));
  }

  lemma {:induction false} PaddedSize(s: State, size: nat)
    ensures size <= Padded(s, size) < size + ALIGNMENT && (s.ptr + Padded(s, size)) % ALIGNMENT == 0
  {
    hide Padding;
  }

  lemma {:induction false} RequestedSmall(s: State, size: nat)
    ensures Requested(s, size) < WORD
  {
  }

  /** What a call can do to the heap, for any size. */
  lemma {:induction false} MallocEffect(s: State, size: nat)
    ensures var (t, p) := Malloc(s, size);
            && t.end == s.end
            && (p != NULL ==> size > 0 && p == s.ptr && t.ptr == NextPtr(s, size) <= s.end)
            && (p == NULL ==> t.ptr == s.ptr || (s.ptr == NULL && t.ptr <= s.end))
            && (size > 0 && p == NULL ==> NextPtr(s, size) > s.end || s.ptr == NULL)
            && (size > 0 && p != NULL ==> NextPtr(s, size) <= s.end && s.ptr != NULL)
  {
    hide NextPtr, Requested;
  }

  lemma {:induction false} MallocValid(s: State, heap: nat, size: nat)
    requires ValidHeap(s, heap) && (Malloc(s, size).1 != NULL ==> NoWrap(s, size))
    ensures ValidHeap(Malloc(s, size).0, heap) && Malloc(s, size).0.end == s.end
    ensures var (t, p) := Malloc(s, size);
            if p == NULL then t.ptr == s.ptr else size > 0 && p == s.ptr && p + size <= t.ptr
  {
    hide NextPtr, Requested, Padded;
    MallocEffect(s, size);
    PaddedSize(s, size);
    RequestedSmall(s, size);
    if Malloc(s, size).1 != NULL {
      NoWrapNext(s, size);
    }
  }

  /** Unless it hands out a block that wraps around, a call fails exactly when the padded block does not
      fit. */
  lemma {:induction false} MallocFails(s: State, heap: nat, size: nat)
    requires ValidHeap(s, heap) && size > 0 && (Malloc(s, size).1 != NULL ==> NoWrap(s, size))
    ensures Malloc(s, size).1 == NULL <==> s.ptr + Padded(s, size) > s.end
    ensures Malloc(s, size).1 != NULL ==> Malloc(s, size).0.ptr == s.ptr + Padded(s, size)
  {
    hide NextPtr, Requested, Padded;
    MallocEffect(s, size);
    NextModulo(s, size);
    NotMore(s.ptr + Padded(s, size));
    if Malloc(s, size).1 != NULL {
      NoWrapNext(s, size);
    }
  }

  lemma {:induction false} NotMore(n: nat)
    ensures n % WORD <= n
  {
  }

  /** The first free byte is inside the heap, or just behind it. */
  predicate InRange(s: State) {
    s.ptr <= s.end <= WORD - ALIGNMENT
  }

  /** A block that is handed out lies inside the heap exactly when its padded end does not wrap around
      the address space. */
  lemma {:induction false} InsideIffNoWrap(s: State, size: nat)
    requires InRange(s) && Malloc(s, size).1 != NULL
    ensures Malloc(s, size).1 + size <= s.end <==> NoWrap(s, size)
  {
    hide NextPtr, Requested, Padded;
    MallocEffect(s, size);
    PaddedSize(s, size);
    if NoWrap(s, size) {
      NoWrapNext(s, size);
    }
  }

  /** And what is free afterwards lies behind it exactly then. */
  lemma {:induction false} BehindIffNoWrap(s: State, size: nat)
    requires InRange(s) && Malloc(s, size).1 != NULL
    ensures Malloc(s, size).1 + size <= Malloc(s, size).0.ptr <==> NoWrap(s, size)
  {
    hide NextPtr, Requested, Padded;
    MallocEffect(s, size);
    PaddedSize(s, size);
    if NoWrap(s, size) {
      NoWrapNext(s, size);
    }
  }

  /** It can wrap: a request of just under 2^64 bytes succeeds on any heap that has some bytes in use, and
      takes them back, so that the next block overlaps one handed out before. */
  lemma {:induction false} WrapOverlaps()
    ensures var s0 := Init(0x1000, 0x100);
            var (s1, p1) := Malloc(s0, 16);
            var (s2, p2) := Malloc(s1, 0xffff_ffff_ffff_fff0);
            var (s3, p3) := Malloc(s2, 16);
            p1 == 0x1000 && p2 == 0x1010 && p3 == p1
  {
    var s0 := Init(0x1000, 0x100);
    assert Malloc(s0, 16) == (State(0x1010, 0x1100, 16), 0x1000);
    var s1 := State(0x1010, 0x1100, 16);
    assert NextPtr(s1, WORD - 16) == 0x1000;
  }

  // ----- any sequence of calls

  /** The state after calls with the given sizes. */
  function Run(s: State, sizes: seq<nat>): State {
    if sizes == [] then s else Malloc(Run(s, sizes[..|sizes| - 1]), sizes[|sizes| - 1]).0
  }

  /** The pointer that call i returned. */
  function Block(s: State, sizes: seq<nat>, i: nat): nat
    requires i < |sizes|
  {
    Malloc(Run(s, sizes[..i]), sizes[i]).1
  }

  /** Call i hands out a block. */
  predicate HandsOut(s: State, sizes: seq<nat>, i: nat) {
    i < |sizes| && Block(s, sizes, i) != NULL
  }

  predicate WrapFree(s: State, sizes: seq<nat>, i: nat)
    requires i < |sizes|
  {
    NoWrap(Run(s, sizes[..i]), sizes[i])
  }

  /** No call that hands out a block wraps around; others may. */
  predicate NoBlockWraps(s: State, sizes: seq<nat>) {
    forall i :: 0 <= i < |sizes| && HandsOut(s, sizes, i) ==> WrapFree(s, sizes, i)
  }

  /** Everything asked for so far, with its padding. */
  function Total(s: State, sizes: seq<nat>): nat {
    if sizes == [] then 0
    else
      var n, size := Total(s, sizes[..|sizes| - 1]), sizes[|sizes| - 1];
      if size == 0 then n else n + Padded(Run(s, sizes[..|sizes| - 1]), size)
  }

  /** Some call for at least one byte returned NULL. */
  ghost predicate Failed(s: State, sizes: seq<nat>) {
    exists i :: 0 <= i < |sizes| && sizes[i] > 0 && Block(s, sizes, i) == NULL
  }

  lemma {:induction false} RunNext(s: State, sizes: seq<nat>, n: nat)
    requires n < |sizes|
    ensures Run(s, sizes[..n + 1]) == Malloc(Run(s, sizes[..n]), sizes[n]).0
    ensures Block(s, sizes, n) == Malloc(Run(s, sizes[..n]), sizes[n]).1
  {
    hide Malloc;
    assert sizes[..n + 1][..n] == sizes[..n];
  }

  lemma {:induction false} RunInRange(s: State, sizes: seq<nat>, n: nat)
    requires s.ptr <= s.end && n <= |sizes|
    ensures Run(s, sizes[..n]).ptr <= Run(s, sizes[..n]).end == s.end
    decreases n
  {
    hide Malloc;
    if n == 0 {
      assert sizes[..0] == [];
    } else {
      RunInRange(s, sizes, n - 1);
      RunNext(s, sizes, n - 1);
      MallocEffect(Run(s, sizes[..n - 1]), sizes[n - 1]);
    }
  }

  lemma {:induction false} RunValid(s: State, heap: nat, sizes: seq<nat>, n: nat)
    requires ValidHeap(s, heap) && NoBlockWraps(s, sizes) && n <= |sizes|
    ensures ValidHeap(Run(s, sizes[..n]), heap) && Run(s, sizes[..n]).end == s.end
    decreases n
  {
    hide Malloc, NoWrap, ValidHeap;
    if n == 0 {
      assert sizes[..0] == [];
    } else {
      RunValid(s, heap, sizes, n - 1);
      RunNext(s, sizes, n - 1);
      assert HandsOut(s, sizes, n - 1) ==> WrapFree(s, sizes, n - 1);
      MallocValid(Run(s, sizes[..n - 1]), heap, sizes[n - 1]);
    }
  }

  /** As long as no call that hands out a block wraps, the free part of the heap only shrinks. */
  lemma {:induction false} RunGrows(s: State, sizes: seq<nat>, i: nat, j: nat)
    requires InRange(s) && i <= j <= |sizes|
    requires forall m :: i <= m < j && HandsOut(s, sizes, m) ==> WrapFree(s, sizes, m)
    ensures Run(s, sizes[..i]).ptr <= Run(s, sizes[..j]).ptr
    decreases j
  {
    hide Malloc, NoWrap, Run;
    if i < j {
      var r, size := Run(s, sizes[..j - 1]), sizes[j - 1];
      RunGrows(s, sizes, i, j - 1);
      RunInRange(s, sizes, j - 1);
      RunNext(s, sizes, j - 1);
      MallocEffect(r, size);
      if HandsOut(s, sizes, j - 1) {
        assert WrapFree(s, sizes, j - 1);
        BehindIffNoWrap(r, size);
      }
    }
  }

  /** A block starts at the first free byte. */
  lemma {:induction false} BlockTaken(s: State, sizes: seq<nat>, i: nat)
    requires InRange(s) && HandsOut(s, sizes, i)
    ensures sizes[i] > 0 && Block(s, sizes, i) == Run(s, sizes[..i]).ptr <= s.end
    ensures Block(s, sizes, i) + sizes[i] <= s.end <==> WrapFree(s, sizes, i)
    ensures Block(s, sizes, i) + sizes[i] <= Run(s, sizes[..i + 1]).ptr <==> WrapFree(s, sizes, i)
  {
    hide Malloc, NoWrap, Run;
    RunInRange(s, sizes, i);
    RunNext(s, sizes, i);
    MallocEffect(Run(s, sizes[..i]), sizes[i]);
    InsideIffNoWrap(Run(s, sizes[..i]), sizes[i]);
    BehindIffNoWrap(Run(s, sizes[..i]), sizes[i]);
  }

  /** A later block lies behind block i exactly if call i did not wrap. Of the calls in between, only
      those that hand out a block must not wrap. */
  lemma {:induction false} LaterBlockBehind(s: State, sizes: seq<nat>, i: nat, j: nat)
    requires InRange(s) && i < j && HandsOut(s, sizes, i) && HandsOut(s, sizes, j)
    requires forall m :: i < m < j && HandsOut(s, sizes, m) ==> WrapFree(s, sizes, m)
    ensures Block(s, sizes, i) + sizes[i] <= Block(s, sizes, j) <==> WrapFree(s, sizes, i)
  {
    hide HandsOut, WrapFree, Run, Block;
    BlockTaken(s, sizes, i);
    BlockTaken(s, sizes, j);
    Handed(s, sizes, j);
    RunGrows(s, sizes, i + 1, j);
  }

  lemma {:induction false} Handed(s: State, sizes: seq<nat>, i: nat)
    requires HandsOut(s, sizes, i)
    ensures i < |sizes|
  {
  }

  /** Every block lies behind all earlier ones. */
  ghost predicate InOrder(s: State, sizes: seq<nat>) {
    forall i, j :: 0 <= i < j < |sizes| && HandsOut(s, sizes, i) && HandsOut(s, sizes, j) ==>
                     Block(s, sizes, i) + sizes[i] <= Block(s, sizes, j)
  }

  /** Over any calls, every block lies behind all earlier ones exactly if no call wrapped that handed
      out a block and was followed by another that did. */
  lemma {:induction false} InOrderIff(s: State, sizes: seq<nat>)
    requires InRange(s)
    ensures InOrder(s, sizes) <==>
            forall i, j :: 0 <= i < j < |sizes| && HandsOut(s, sizes, i) && HandsOut(s, sizes, j) ==>
                             WrapFree(s, sizes, i)
  {
    hide HandsOut, WrapFree, Block;
    forall i, j | 0 <= i < j < |sizes| && HandsOut(s, sizes, i) && HandsOut(s, sizes, j)
      ensures Block(s, sizes, i) + sizes[i] <= Block(s, sizes, j) ==> WrapFree(s, sizes, i)
    {
      BlockTaken(s, sizes, i);
      BlockTaken(s, sizes, j);
    }
    if forall i, j :: 0 <= i < j < |sizes| && HandsOut(s, sizes, i) && HandsOut(s, sizes, j) ==> WrapFree(s, sizes, i) {
      forall i, j | 0 <= i < j < |sizes| && HandsOut(s, sizes, i) && HandsOut(s, sizes, j)
        ensures Block(s, sizes, i) + sizes[i] <= Block(s, sizes, j)
      {
        LaterBlockBehind(s, sizes, i, j);
      }
    }
  }

  /** Every block lies inside the heap. */
  lemma {:induction false} BlocksInside(s: State, heap: nat, sizes: seq<nat>, i: nat)
    requires ValidHeap(s, heap) && NoBlockWraps(s, sizes) && HandsOut(s, sizes, i)
    ensures heap <= Block(s, sizes, i) && Block(s, sizes, i) + sizes[i] <= s.end
  {
    hide HandsOut, WrapFree, Run, Block, NoWrap;
    Handed(s, sizes, i);
    BlockTaken(s, sizes, i);
    RunValid(s, heap, sizes, i);
  }

  /** No two blocks overlap. */
  lemma {:induction false} BlocksDisjoint(s: State, heap: nat, sizes: seq<nat>, i: nat, j: nat)
    requires ValidHeap(s, heap) && NoBlockWraps(s, sizes)
    requires i < j && HandsOut(s, sizes, i) && HandsOut(s, sizes, j)
    ensures Block(s, sizes, i) + sizes[i] <= Block(s, sizes, j)
  {
    hide HandsOut, WrapFree, Run, Block, NoWrap;
    Handed(s, sizes, i);
    Handed(s, sizes, j);
    LaterBlockBehind(s, sizes, i, j);
  }

  /** All blocks lie inside the heap, and no two overlap. */
  ghost predicate WellPlaced(s: State, heap: nat, sizes: seq<nat>) {
    && (forall i :: 0 <= i < |sizes| && HandsOut(s, sizes, i) ==>
                      heap <= Block(s, sizes, i) && Block(s, sizes, i) + sizes[i] <= s.end)
    && InOrder(s, sizes)
  }

  /** Over any calls, the blocks lie inside the heap and apart from each other exactly if no call that
      hands out a block wraps around the address space. */
  lemma {:induction false} WellPlacedIff(s: State, heap: nat, sizes: seq<nat>)
    requires ValidHeap(s, heap)
    ensures WellPlaced(s, heap, sizes) <==> NoBlockWraps(s, sizes)
  {
    hide HandsOut, WrapFree, Run, Block, NoWrap, NoBlockWraps;
    AllWrapFree(s, sizes);
    if NoBlockWraps(s, sizes) {
      forall i | 0 <= i < |sizes| && HandsOut(s, sizes, i)
        ensures heap <= Block(s, sizes, i) && Block(s, sizes, i) + sizes[i] <= s.end
      {
        BlocksInside(s, heap, sizes, i);
      }
      forall i, j | 0 <= i < j < |sizes| && HandsOut(s, sizes, i) && HandsOut(s, sizes, j)
        ensures Block(s, sizes, i) + sizes[i] <= Block(s, sizes, j)
      {
        BlocksDisjoint(s, heap, sizes, i, j);
      }
    }
  }

  lemma {:induction false} AllWrapFree(s: State, sizes: seq<nat>)
    requires InRange(s)
    ensures NoBlockWraps(s, sizes) <==>
            forall i :: 0 <= i < |sizes| && HandsOut(s, sizes, i) ==> Block(s, sizes, i) + sizes[i] <= s.end
  {
    hide HandsOut, WrapFree, Run, Block;
    forall i | 0 <= i < |sizes| && HandsOut(s, sizes, i)
      ensures WrapFree(s, sizes, i) <==> Block(s, sizes, i) + sizes[i] <= s.end
    {
      BlockTaken(s, sizes, i);
    }
  }

  lemma {:induction false} MallocAligned(s: State, size: nat)
    requires s.ptr % ALIGNMENT == 0
    ensures Malloc(s, size).0.ptr % ALIGNMENT == 0
  {
    hide Requested, Padding;
    var next := (s.ptr + size) % WORD;
    Small(0);
    AlignedModulo(next + Padding(next));
  }

  lemma {:induction false} AlignedModulo(n: nat)
    requires n % ALIGNMENT == 0
    ensures n % WORD % ALIGNMENT == 0
  {
    assert n == WORD * (n / WORD) + n % WORD;
  }

  lemma {:induction false} RunAligned(s: State, sizes: seq<nat>, n: nat)
    requires n <= |sizes| && s.ptr % ALIGNMENT == 0
    ensures Run(s, sizes[..n]).ptr % ALIGNMENT == 0
    decreases n
  {
    hide Malloc;
    if n == 0 {
      assert sizes[..0] == [];
    } else {
      RunAligned(s, sizes, n - 1);
      RunNext(s, sizes, n - 1);
      MallocAligned(Run(s, sizes[..n - 1]), sizes[n - 1]);
    }
  }

  /** On an aligned heap every block is aligned, whatever the sizes. */
  lemma {:induction false} BlocksAligned(s: State, sizes: seq<nat>, i: nat)
    requires InRange(s) && HandsOut(s, sizes, i) && s.ptr % ALIGNMENT == 0
    ensures Block(s, sizes, i) % ALIGNMENT == 0
  {
    hide HandsOut, Run, Block;
    Handed(s, sizes, i);
    BlockTaken(s, sizes, i);
    RunAligned(s, sizes, i);
  }

  // ----- the check

  /** check_heap_beebs. */
  predicate Check(s: State, heap: nat) {
    (heap + s.requested) % WORD <= s.end
  }

  lemma {:induction false} MallocRequested(s: State, size: nat, total: nat)
    requires s.requested == total % WORD
    ensures Malloc(s, size).0.requested == (if size == 0 then total else total + Padded(s, size)) % WORD
  {
    hide NextPtr, Requested, Padded;
    NextModulo(s, size);
    AddModulo(total, Padded(s, size));
  }

  /** heap_requested counts everything asked for, modulo 2^64. */
  lemma {:induction false} RequestedIsTotal(s: State, sizes: seq<nat>, n: nat)
    requires s.requested == 0 && n <= |sizes|
    ensures Run(s, sizes[..n]).requested == Total(s, sizes[..n]) % WORD
    decreases n
  {
    hide Malloc, Padded;
    if n == 0 {
      assert sizes[..0] == [];
    } else {
      RequestedIsTotal(s, sizes, n - 1);
      RunNext(s, sizes, n - 1);
      assert sizes[..n][..n - 1] == sizes[..n - 1];
      MallocRequested(Run(s, sizes[..n - 1]), sizes[n - 1], Total(s, sizes[..n - 1]));
    }
  }

  lemma {:induction false} FailedNext(s: State, sizes: seq<nat>, n: nat)
    requires n < |sizes|
    ensures Failed(s, sizes[..n + 1]) <==> Failed(s, sizes[..n]) || (sizes[n] > 0 && Block(s, sizes, n) == NULL)
  {
    hide Block;
    var x, y := sizes[..n + 1], sizes[..n];
    forall i | 0 <= i < n
      ensures x[i] == y[i] == sizes[i] && Block(s, x, i) == Block(s, y, i) == Block(s, sizes, i)
    {
      SameBlock(s, sizes, n + 1, i);
      SameBlock(s, sizes, n, i);
    }
    SameBlock(s, sizes, n + 1, n);
  }

  lemma {:induction false} SameBlock(s: State, sizes: seq<nat>, n: nat, i: nat)
    requires i < n <= |sizes|
    ensures Block(s, sizes[..n], i) == Block(s, sizes, i)
  {
    assert sizes[..n][..i] == sizes[..i];
  }

  lemma {:induction false} NeverFailed(s: State)
    ensures !Failed(s, [])
  {
  }

  /** Where the heap would end if every call so far had been served, in the arithmetic of pointers. */
  function Mark(s: State, sizes: seq<nat>): nat {
    (s.ptr + Total(s, sizes)) % WORD
  }

  /** Call i asks for bytes that end behind the heap, or for a block at the address that reads as NULL. */
  predicate Overruns(s: State, sizes: seq<nat>, i: nat)
    requires i < |sizes|
  {
    sizes[i] > 0 && (Mark(s, sizes[..i + 1]) > s.end || Mark(s, sizes[..i]) == NULL)
  }

  lemma {:induction false} MarkNext(s: State, sizes: seq<nat>, n: nat)
    requires n < |sizes|
    ensures Mark(s, sizes[..n + 1]) ==
            if sizes[n] == 0 then Mark(s, sizes[..n])
            else (Mark(s, sizes[..n]) + Padded(Run(s, sizes[..n]), sizes[n])) % WORD
  {
    hide Padded, Run;
    assert sizes[..n + 1][..n] == sizes[..n];
    if sizes[n] > 0 {
      AddModulo(s.ptr + Total(s, sizes[..n]), Padded(Run(s, sizes[..n]), sizes[n]));
    }
  }

  /** For any sizes: some call fails exactly if some call overruns the heap, and until then the first
      free byte is where the sizes say. */
  lemma {:induction false} FailedIff(s: State, sizes: seq<nat>, n: nat)
    requires s.ptr <= s.end < WORD && n <= |sizes|
    ensures Failed(s, sizes[..n]) <==> exists i :: 0 <= i < n && Overruns(s, sizes, i)
    ensures !Failed(s, sizes[..n]) ==> Run(s, sizes[..n]).ptr == Mark(s, sizes[..n]) <= s.end
    decreases n
  {
    hide Malloc, Failed, Padded, NextPtr, Mark;
    if n == 0 {
      assert sizes[..0] == [];
      NeverFailed(s);
      NoMark(s);
    } else {
      var r, size := Run(s, sizes[..n - 1]), sizes[n - 1];
      FailedIff(s, sizes, n - 1);
      FailedNext(s, sizes, n - 1);
      RunNext(s, sizes, n - 1);
      RunInRange(s, sizes, n - 1);
      MallocEffect(r, size);
      NextModulo(r, size);
      MarkNext(s, sizes, n - 1);
      NothingAsked(r, size);
      OverrunNext(s, sizes, n - 1);
    }
  }

  lemma {:induction false} NoMark(s: State)
    requires s.ptr < WORD
    ensures Mark(s, []) == s.ptr
  {
    Small(s.ptr);
  }

  lemma {:induction false} NothingAsked(s: State, size: nat)
    ensures size == 0 ==> Malloc(s, size) == (s, NULL)
  {
  }

  lemma {:induction false} OverrunNext(s: State, sizes: seq<nat>, n: nat)
    requires n < |sizes|
    ensures (exists i :: 0 <= i < n + 1 && Overruns(s, sizes, i)) <==>
            (exists i :: 0 <= i < n && Overruns(s, sizes, i)) || Overruns(s, sizes, n)
  {
    hide Overruns;
  }

  /** check_heap_beebs after any calls, with any sizes: it tests the last mark; it is true if no call
      has failed; and it tells whether one has exactly if a last mark inside the heap means that no
      call overran it before. */
  lemma {:induction false} CheckTells(heap: nat, size: nat, sizes: seq<nat>)
    requires heap + size < WORD
    ensures var s := Init(heap, size);
            Check(Run(s, sizes), heap) <==> Mark(s, sizes) <= s.end
    ensures var s := Init(heap, size);
            !Failed(s, sizes) ==> Check(Run(s, sizes), heap)
    ensures var s := Init(heap, size);
            (Check(Run(s, sizes), heap) <==> !Failed(s, sizes)) <==>
            (Mark(s, sizes) <= s.end ==> forall i :: 0 <= i < |sizes| ==> !Overruns(s, sizes, i))
  {
    hide Malloc, Padded, Failed, Run, Total, Overruns;
    var s := Init(heap, size);
    Small(heap + size);
    assert sizes[..|sizes|] == sizes;
    RequestedIsTotal(s, sizes, |sizes|);
    RunInRange(s, sizes, |sizes|);
    AddModulo(Total(s, sizes), heap);
    FailedIff(s, sizes, |sizes|);
  }

  /** As long as no call fails, what is asked for is what is used; from the first failure on, it exceeds
      the heap. */
  lemma {:induction false} TotalTells(s: State, heap: nat, sizes: seq<nat>, n: nat)
    requires ValidHeap(s, heap) && s.ptr == heap && NoBlockWraps(s, sizes) && n <= |sizes|
    ensures var t := heap + Total(s, sizes[..n]);
            if Failed(s, sizes[..n]) then t > s.end else t == Run(s, sizes[..n]).ptr
    decreases n
  {
    hide Malloc, NoWrap, ValidHeap, Padded, Failed, NoBlockWraps;
    if n == 0 {
      assert sizes[..0] == [];
      NeverFailed(s);
    } else {
      var r, size := Run(s, sizes[..n - 1]), sizes[n - 1];
      TotalTells(s, heap, sizes, n - 1);
      RunNext(s, sizes, n - 1);
      RunValid(s, heap, sizes, n - 1);
      assert sizes[..n][..n - 1] == sizes[..n - 1];
      FailedNext(s, sizes, n - 1);
      NothingAsked(r, size);
      if size > 0 {
        OneWrapFree(s, sizes, n - 1);
        MallocFails(r, heap, size);
      }
    }
  }

  lemma {:induction false} OneWrapFree(s: State, sizes: seq<nat>, i: nat)
    requires NoBlockWraps(s, sizes) && i < |sizes|
    ensures Block(s, sizes, i) != NULL ==> NoWrap(Run(s, sizes[..i]), sizes[i])
  {
    hide Block, Run, NoWrap;
    assert HandsOut(s, sizes, i) ==> WrapFree(s, sizes, i);
  }

  /** If no call that hands out a block wraps, the condition is one on the sum of what was asked for: the
      check is true exactly when no call has failed, unless the sum leaves the heap and wraps back into
      it. On an aligned heap that is the sum of the rounded sizes. */
  lemma {:induction false} CheckTellsUnlessSumWraps(heap: nat, size: nat, sizes: seq<nat>)
    requires 0 < heap && heap + size <= WORD - ALIGNMENT && NoBlockWraps(Init(heap, size), sizes)
    ensures var s := Init(heap, size);
            var t := heap + Total(s, sizes);
            (Check(Run(s, sizes), heap) <==> !Failed(s, sizes)) <==> !(t > s.end && t % WORD <= s.end)
    ensures heap % ALIGNMENT == 0 ==> Total(Init(heap, size), sizes) == Sum(sizes)
  {
    hide Malloc, NoWrap, Padded, Failed, Run, Total, NoBlockWraps, Check, Sum;
    var s := Init(heap, size);
    Small(heap + size);
    assert sizes[..|sizes|] == sizes;
    CheckTells(heap, size, sizes);
    TotalTells(s, heap, sizes, |sizes|);
    RunValid(s, heap, sizes, |sizes|);
    RunInRange(s, sizes, |sizes|);
    Small(Run(s, sizes).ptr);
    if heap % ALIGNMENT == 0 {
      TotalIsSum(s, sizes);
    }
  }

  /** No block wraps if every size leaves room between the heap end and the top of the address space. */
  lemma {:induction false} SmallSizes(s: State, sizes: seq<nat>)
    requires InRange(s) && forall i :: 0 <= i < |sizes| ==> s.end + sizes[i] <= WORD - ALIGNMENT
    ensures NoBlockWraps(s, sizes)
  {
    hide HandsOut, Run, Padded;
    forall i | 0 <= i < |sizes|
      ensures WrapFree(s, sizes, i)
    {
      RunInRange(s, sizes, i);
      PaddedSize(Run(s, sizes[..i]), sizes[i]);
    }
  }

  // ----- the check on an aligned heap

  /** The sum of the sizes, each rounded up to the alignment. */
  function Sum(sizes: seq<nat>): nat {
    if sizes == [] then 0
    else
      var size := sizes[|sizes| - 1];
      Sum(sizes[..|sizes| - 1]) + size + Padding(size)
  }

  lemma {:induction false} PaddedAligned(s: State, size: nat)
    requires s.ptr % ALIGNMENT == 0
    ensures Padded(s, size) == size + Padding(size)
  {
    assert (s.ptr + size) % ALIGNMENT == size % ALIGNMENT;
  }

  /** On an aligned heap, what is asked for is the sum of the rounded sizes. */
  lemma {:induction false} TotalIsSum(s: State, sizes: seq<nat>)
    requires s.ptr % ALIGNMENT == 0
    ensures Total(s, sizes) == Sum(sizes)
    decreases |sizes|
  {
    hide Run, Padded;
    if sizes != [] {
      var n := |sizes| - 1;
      TotalIsSum(s, sizes[..n]);
      RunAligned(s, sizes, n);
      PaddedAligned(Run(s, sizes[..n]), sizes[n]);
    }
  }

  /** The sum of the sizes up to call i leaves the heap, or the one before it reaches the null address. */
  predicate SumOverruns(heap: nat, end: nat, sizes: seq<nat>, i: nat)
    requires i < |sizes|
  {
    sizes[i] > 0 && ((heap + Sum(sizes[..i + 1])) % WORD > end || (heap + Sum(sizes[..i])) % WORD == NULL)
  }

  lemma {:induction false} OverrunsIsSum(s: State, sizes: seq<nat>, i: nat)
    requires s.ptr % ALIGNMENT == 0 && i < |sizes|
    ensures Overruns(s, sizes, i) <==> SumOverruns(s.ptr, s.end, sizes, i)
  {
    hide Total, Sum;
    TotalIsSum(s, sizes[..i]);
    TotalIsSum(s, sizes[..i + 1]);
  }

  /** check_heap_beebs on an aligned heap, after any calls with any sizes, by sums of the sizes alone: what
      it tests, whether a call has failed, and exactly when the one tells the other. */
  lemma {:induction false} CheckTellsBySums(heap: nat, size: nat, sizes: seq<nat>)
    requires heap + size < WORD && heap % ALIGNMENT == 0
    ensures var s := Init(heap, size);
            Check(Run(s, sizes), heap) <==> (heap + Sum(sizes)) % WORD <= s.end
    ensures var s := Init(heap, size);
            Failed(s, sizes) <==> exists i :: 0 <= i < |sizes| && SumOverruns(heap, s.end, sizes, i)
    ensures var s := Init(heap, size);
            (Check(Run(s, sizes), heap) <==> !Failed(s, sizes)) <==>
            ((heap + Sum(sizes)) % WORD <= s.end ==>
               forall i :: 0 <= i < |sizes| ==> !SumOverruns(heap, s.end, sizes, i))
  {
    hide Failed, Run, Total, Sum, Overruns, SumOverruns, Check;
    var s := Init(heap, size);
    Small(heap + size);
    assert sizes[..|sizes|] == sizes;
    CheckTells(heap, size, sizes);
    FailedIff(s, sizes, |sizes|);
    TotalIsSum(s, sizes);
    forall i | 0 <= i < |sizes|
      ensures Overruns(s, sizes, i) <==> SumOverruns(heap, s.end, sizes, i)
    {
      OverrunsIsSum(s, sizes, i);
    }
  }

  /** It can wrap: two failed calls for half the address space each leave the check satisfied. */
  lemma {:induction false} CheckForgets()
    ensures var s := Init(0x1000, 0x100);
            var (t, p) := Malloc(s, 0x8000_0000_0000_0000);
            var (u, q) := Malloc(t, 0x8000_0000_0000_0000);
            p == NULL && q == NULL && !Check(t, 0x1000) && Check(u, 0x1000)
  {
    var s := Init(0x1000, 0x100);
    assert Malloc(s, WORD / 2) == (State(0x1000, 0x1100, WORD / 2), NULL);
    var t := State(0x1000, 0x1100, WORD / 2);
    assert Malloc(t, WORD / 2) == (State(0x1000, 0x1100, 0), NULL);
  }

  // ----- the library's globals

  /** i reduced into the first d positions. */
  function Wrapped(i: nat, d: nat): (j: nat)
    requires d > 0
    ensures j < d && (i < d ==> j == i)
  {
    if i < d then i else Wrapped(i - d, d)
  }

  /** What a forward copy of n bytes leaves d bytes further on, when the two stretches may overlap. */
  function Repeated(m: seq<bv8>, from: nat, d: nat, n: nat): (x: seq<bv8>)
    requires d > 0 && from + d <= |m|
    ensures |x| == n && forall i :: 0 <= i < n ==> x[i] == m[from + Wrapped(i, d)]
  {
    seq(n, i requires 0 <= i < n => m[from + Wrapped(i, d)])
  }

  /** Up to the distance of the two stretches it is the original. */
  lemma {:induction false} RepeatedStart(m: seq<bv8>, from: nat, d: nat, n: nat, k: nat)
    requires d > 0 && from + d <= |m| && k <= n && k <= d
    ensures Repeated(m, from, d, n)[..k] == m[from..from + k]
  {
  }

  lemma {:induction false} RepeatedNext(m: seq<bv8>, from: nat, d: nat, i: nat)
    requires d > 0 && from + d + i < |m|
    ensures var s := Put(m, from + d, Repeated(m, from, d, i));
            Repeated(m, from, d, i + 1) == Repeated(m, from, d, i) + [s[from + i]]
  {
    var x := Repeated(m, from, d, i);
    var s := Put(m, from + d, x);
    if i < d {
      assert s[from + i] == s[..from + d][from + i];
    } else {
      assert s[from + i] == s[from + d..from + d + i][i - d] == x[i - d];
    }
  }

  /** What a forward copy of n bytes leaves at to: the original, unless the source runs into the copy. */
  function Copied(m: seq<bv8>, from: nat, to: nat, n: nat): (x: seq<bv8>)
    requires to <= |m| && (from < to || from + n <= |m|)
    ensures |x| == n
  {
    if from < to then Repeated(m, from, to - from, n) else m[from..from + n]
  }

  lemma {:induction false} CopiedNext(m: seq<bv8>, from: nat, to: nat, i: nat)
    requires to + i < |m| && (from < to || from + i < |m|)
    ensures var s := Put(m, to, Copied(m, from, to, i));
            Copied(m, from, to, i + 1) == Copied(m, from, to, i) + [s[from + i]]
  {
    hide *;
    CopiedIs(m, from, to, i);
    CopiedIs(m, from, to, i + 1);
    if from < to {
      RepeatedNext(m, from, to - from, i);
    } else {
      PutAfter(m, to, Copied(m, from, to, i), from + i);
      assert m[from..from + i + 1] == m[from..from + i] + [m[from + i]];
    }
  }

  lemma {:induction false} CopiedIs(m: seq<bv8>, from: nat, to: nat, n: nat)
    requires to <= |m| && (from < to || from + n <= |m|)
    ensures Copied(m, from, to, n) == if from < to then Repeated(m, from, to - from, n) else m[from..from + n]
  {
  }

  /** now is m after a forward copy of n bytes: each byte of the copy is what its source holds when the
      copy gets there, and no other byte has changed. */
  ghost predicate ForwardCopied(m: seq<bv8>, from: nat, to: nat, n: nat, now: seq<bv8>) {
    && to + n <= |m| == |now|
    && (from < to || from + n <= |m|)
    && forall j :: 0 <= j < |m| ==>
                     now[j] == if !(to <= j < to + n) then m[j]
                               else if to <= from + (j - to) < j then now[from + (j - to)] else m[from + (j - to)]
  }

  lemma {:induction false} CopyBytes(m: seq<bv8>, from: nat, to: nat, n: nat, now: seq<bv8>)
    requires to + n <= |m| && (from < to || from + n <= |m|) && now == Put(m, to, Copied(m, from, to, n))
    ensures ForwardCopied(m, from, to, n, now)
  {
    hide Copied, Put;
    var x := Copied(m, from, to, n);
    forall j | 0 <= j < |m|
      ensures now[j] == if to <= j < to + n then x[j - to] else m[j]
    {
      PutByte(m, to, x, j);
    }
    forall j | to <= j < to + n
      ensures now[j] == if to <= from + (j - to) < j then now[from + (j - to)] else m[from + (j - to)]
    {
      CopyByte(m, from, to, n, j - to);
    }
  }

  lemma {:induction false} PutByte(m: seq<bv8>, at: nat, x: seq<bv8>, j: nat)
    requires at + |x| <= |m| && j < |m|
    ensures Put(m, at, x)[j] == if at <= j < at + |x| then x[j - at] else m[j]
  {
  }

  lemma {:induction false} CopyByte(m: seq<bv8>, from: nat, to: nat, n: nat, i: nat)
    requires to + n <= |m| && (from < to || from + n <= |m|) && i < n
    ensures var x := Copied(m, from, to, n);
            x[i] == if to <= from + i < to + i then x[from + i - to] else m[from + i]
  {
    if from < to {
      var d := to - from;
      if i >= d {
        assert Wrapped(i, d) == Wrapped(i - d, d);
      }
    }
  }

  lemma {:induction false} PutAfter(m: seq<bv8>, p: nat, x: seq<bv8>, k: nat)
    requires p + |x| <= k < |m|
    ensures Put(m, p, x)[k] == m[k]
  {
  }

  /** The seed after a call of rand_beebs: 31 bits. */
  function NextSeed(seed: nat): (n: nat)
    ensures n < 0x8000_0000
  {
    (seed * 1103515245 + 12345) % 0x8000_0000
  }

  class Library {
    var seed: nat
    var heapPtr: nat
    var heapEnd: nat
    var heapRequested: nat
    /** The caller's memory block, and its address. */
    var memory: array<bv8>
    var heap: nat

    function Heap(): State
      reads this
    {
      State(heapPtr, heapEnd, heapRequested)
    }

    /** The heap is the memory block. */
    ghost predicate Valid()
      reads this
    {
      ValidHeap(Heap(), heap) && heapEnd == heap + memory.Length
    }

    constructor ()
      ensures seed == 0 && Heap() == State(NULL, NULL, 0) && fresh(memory) && memory.Length == 0 && heap == NULL
    {
      seed, heapPtr, heapEnd, heapRequested, heap := 0, NULL, NULL, 0, NULL;
      memory := new bv8[0];
    }

    /** Random numbers of 15 bits. The seed is below 2^32, so that the product fits a 64-bit long. */
    method RandBeebs() returns (r: nat)
      requires seed < 0x1_0000_0000
      modifies `seed
      ensures seed == NextSeed(old(seed)) == (old(seed) * 1103515245 + 12345) % 2147483648
      ensures r == seed / 65536 < 32768
    {
      assert seed * 1103515245 + 12345 < 0x8000_0000_0000_0000;
      seed := (seed * 1103515245 + 12345) % 0x8000_0000;
      r := seed / 0x1_0000;
    }

    method SrandBeebs(newSeed: nat)
      requires newSeed < 0x1_0000_0000
      modifies `seed
      ensures seed == newSeed
    {
      seed := newSeed;
    }

    method InitHeapBeebs(memory: array<bv8>, heap: nat)
      modifies `memory, `heap, `heapPtr, `heapEnd, `heapRequested
      ensures Heap() == Init(heap, memory.Length) && this.memory == memory && this.heap == heap
      ensures heapPtr == heap && heapEnd == (heap + memory.Length) % 0x1_0000_0000_0000_0000 && heapRequested == 0
      ensures 0 < heap && heap + memory.Length <= WORD - ALIGNMENT ==> Valid()
    {
      this.memory, this.heap := memory, heap;
      heapPtr := heap;
      heapEnd := (heapPtr + memory.Length) % WORD;
      heapRequested := 0;
    }

    method CheckHeapBeebs(heap: nat) returns (ok: bool)
      ensures ok <==> Check(Heap(), heap)
    {
      ok := (heap + heapRequested) % WORD <= heapEnd;
    }

    method MallocBeebs(size: nat) returns (p: nat)
      modifies `heapPtr, `heapRequested
      ensures (Heap(), p) == Malloc(old(Heap()), size)
      ensures size > 0 ==>
                var next := (old(heapPtr) + size + 7) / 8 * 8 % 0x1_0000_0000_0000_0000;
                && p == (if next > heapEnd then 0 else old(heapPtr))
                && heapPtr == (if next > heapEnd then old(heapPtr) else next)
    {
      if size > 0 {
        MallocNumbers(Heap(), size);
      }
      hide Padding;
      if size == 0 {
        return NULL;
      }
      var next := (heapPtr + size) % WORD;
      heapRequested := (heapRequested + size) % WORD;
      if next % ALIGNMENT != 0 {
        var padding := ALIGNMENT - next % ALIGNMENT;
        PaddingIs(next);
        PaddedNext(heapRequested, padding, old(heapRequested), size);
        next := (next + padding) % WORD;
        heapRequested := (heapRequested + padding) % WORD;
      } else {
        PaddingIs(next);
        Reduced(heapPtr + size);
      }
      if next > heapEnd {
        return NULL;
      }
      p := heapPtr;
      heapPtr := next;
    }

    /** calloc_beebs does not clear the block, and its product wraps around. */
    method CallocBeebs(nmemb: nat, size: nat) returns (p: nat)
      modifies `heapPtr, `heapRequested
      ensures (Heap(), p) == Malloc(old(Heap()), nmemb * size % WORD)
    {
      p := MallocBeebs(nmemb * size % WORD);
    }

    /** The copy of realloc_beebs stays inside the memory block: it is not made, or the new block does
        not wrap and the old pointer lies in the used part of the heap or far enough from its end. */
    ghost predicate CopyFits(ptr: nat, size: nat)
      reads this
    {
      ptr == NULL || Malloc(Heap(), size).1 == NULL ||
      (NoWrap(Heap(), size) && heap <= ptr && (ptr < heapPtr || ptr + size <= heapEnd))
    }

    /** realloc_beebs: a new block, and a copy of size bytes from the old pointer, which may run into the
        new block. Everything outside the new block stays. */
    method ReallocBeebs(ptr: nat, size: nat) returns (p: nat)
      requires Valid() && CopyFits(ptr, size)
      modifies `heapPtr, `heapRequested, memory
      ensures Valid()
      ensures (Heap(), p) == if ptr == NULL then (old(Heap()), NULL) else Malloc(old(Heap()), size)
      ensures p == NULL ==> memory[..] == old(memory[..])
      ensures p != NULL ==>
                heap <= ptr && p + size <= heapEnd &&
                memory[..] == Put(old(memory[..]), p - heap, Copied(old(memory[..]), ptr - heap, p - heap, size))
      ensures p != NULL ==>
                ForwardCopied(old(memory[..]), ptr - heap, p - heap, size, memory[..])
    {
      hide Put, Copied, NoWrap, ForwardCopied;
      if ptr == NULL {
        return NULL;
      }
      MallocValid(Heap(), heap, size);
      p := MallocBeebs(size);
      if p != NULL {
        ghost var was := memory[..];
        CopyForward(memory, ptr - heap, p - heap, size);
        CopyBytes(was, ptr - heap, p - heap, size, memory[..]);
      }
    }
  }

  /** The copy of realloc_beebs, from one place in the heap to another. */
  method CopyForward(memory: array<bv8>, from: nat, to: nat, size: nat)
    requires to + size <= memory.Length && (from < to || from + size <= memory.Length)
    modifies memory
    ensures memory[..] == Put(old(memory[..]), to, Copied(old(memory[..]), from, to, size))
  {
    hide Put, Copied;
    ghost var was := memory[..];
    var i := 0;
    PutNone(was, to, Copied(was, from, to, 0));
    while i < size
      invariant 0 <= i <= size
      invariant memory[..] == Put(was, to, Copied(was, from, to, i))
    {
      CopiedNext(was, from, to, i);
      PutNext(was, to, Copied(was, from, to, i), memory[from + i]);
      memory[to + i] := memory[from + i];
      i := i + 1;
    }
  }

  lemma {:induction false} PaddingIs(p: nat)
    ensures Padding(p) == if p % ALIGNMENT == 0 then 0 else ALIGNMENT - p % ALIGNMENT
  {
  }

  lemma {:induction false} PaddedNext(requested: nat, padding: nat, was: nat, size: nat)
    requires requested == (was + size) % WORD
    ensures (requested + padding) % WORD == (was + size + padding) % WORD
  {
    AddModulo(was + size, padding);
  }

  lemma {:induction false} Reduced(n: nat)
    ensures (n % WORD + 0) % WORD == n % WORD
  {
  }

  /** The copy has the first k bytes of the source, if these lie before the new block. */
  lemma {:induction false} CopiedStart(was: seq<bv8>, from: nat, at: nat, k: nat, n: nat)
    requires k <= n && from + k <= at && from < at && at + n <= |was|
    ensures Put(was, at, Copied(was, from, at, n))[at..at + k] == was[from..from + k]
  {
    hide Repeated;
    RepeatedStart(was, from, at - from, n, k);
    var now := Put(was, at, Copied(was, from, at, n));
    assert now[at..at + n][..k] == now[at..at + k];
  }

  /** Bytes before the new block stay. */
  lemma {:induction false} PutKeeps(was: seq<bv8>, at: nat, x: seq<bv8>, from: nat, k: nat)
    requires from + k <= at && at + |x| <= |was|
    ensures Put(was, at, x)[from..from + k] == was[from..from + k]
  {
    var now := Put(was, at, x);
    assert now[..at][from..from + k] == now[from..from + k];
    assert was[..at][from..from + k] == was[from..from + k];
  }

  /** The memory, with the heap's part from heap on, after a realloc that followed any calls. */
  ghost predicate Reallocated(s: State, heap: nat, sizes: seq<nat>, ptr: nat, was: seq<bv8>, now: seq<bv8>)
    requires heap <= ptr
  {
    var i := |sizes| - 1;
    && |sizes| > 0
    && HandsOut(s, sizes, i)
    && heap <= Block(s, sizes, i)
    && Block(s, sizes, i) + sizes[i] <= heap + |was|
    && (ptr < Block(s, sizes, i) || ptr + sizes[i] <= heap + |was|)
    && now == Put(was, Block(s, sizes, i) - heap, Copied(was, ptr - heap, Block(s, sizes, i) - heap, sizes[i]))
  }

  /** After any calls, the last of them from realloc_beebs: every block that was handed out before keeps
      its bytes, and if the old pointer is one of them, the new block starts with its contents, as many
      bytes as fit both. */
  lemma {:induction false} ReallocKeeps(s: State, heap: nat, sizes: seq<nat>, ptr: nat, was: seq<bv8>, now: seq<bv8>,
                                        j: nat)
    requires ValidHeap(s, heap) && NoBlockWraps(s, sizes) && heap <= ptr
    requires Reallocated(s, heap, sizes, ptr, was, now) && j < |sizes| - 1 && HandsOut(s, sizes, j)
    ensures var a, b := Block(s, sizes, j), Block(s, sizes, |sizes| - 1);
            && heap <= a
            && a + sizes[j] <= b
            && b + sizes[|sizes| - 1] <= heap + |was| == heap + |now|
            && now[a - heap..a - heap + sizes[j]] == was[a - heap..a - heap + sizes[j]]
            && (ptr == a ==>
                  var k := if sizes[j] < sizes[|sizes| - 1] then sizes[j] else sizes[|sizes| - 1];
                  now[b - heap..b - heap + k] == was[a - heap..a - heap + k])
  {
    hide HandsOut, Block, NoWrap, Run, WrapFree, NoBlockWraps, Put, Copied;
    var i := |sizes| - 1;
    BlocksDisjoint(s, heap, sizes, j, i);
    BlocksInside(s, heap, sizes, j);
    SomeBytes(s, sizes, j);
    var a, b := Block(s, sizes, j) - heap, Block(s, sizes, i) - heap;
    PutKeeps(was, b, Copied(was, ptr - heap, b, sizes[i]), a, sizes[j]);
    if ptr == Block(s, sizes, j) {
      CopiedStart(was, a, b, if sizes[j] < sizes[i] then sizes[j] else sizes[i], sizes[i]);
    }
  }

  lemma {:induction false} SomeBytes(s: State, sizes: seq<nat>, i: nat)
    requires HandsOut(s, sizes, i)
    ensures i < |sizes| && sizes[i] > 0
  {
    hide Run, NextPtr, Requested;
  }
}
