/** What the operations of a log do to the blocks of the whole cache, block by block: which are resident,
    and which must be written back. */
module CacheBlocks {
  import opened Powers
  import opened PseudoLru
  import opened CacheModel
  import opened CacheHistory
  import opened CacheSim

  /** The block of an address is in the cache. */
  ghost predicate Resident(g: Geometry, c: seq<CacheSet>, addr: nat)
    requires WellShaped(g, c)
  {
    exists w :: 0 <= w < Pow2(g.k) &&
                c[g.SetOf(addr)].lines[w].valid && c[g.SetOf(addr)].lines[w].tag == g.TagOf(addr)
  }

  /** It is, and must be written back. */
  ghost predicate Dirty(g: Geometry, c: seq<CacheSet>, addr: nat)
    requires WellShaped(g, c)
  {
    exists w :: 0 <= w < Pow2(g.k) &&
                c[g.SetOf(addr)].lines[w].valid && c[g.SetOf(addr)].lines[w].tag == g.TagOf(addr) &&
                c[g.SetOf(addr)].lines[w].dirty
  }

  predicate Same(g: Geometry, a: nat, b: nat) {
    g.SetOf(a) == g.SetOf(b) && g.TagOf(a) == g.TagOf(b)
  }

  /** Residence and dirtiness of a block, before and after. */
  ghost predicate Kept(g: Geometry, c: seq<CacheSet>, c': seq<CacheSet>, addr: nat)
    requires WellShaped(g, c) && WellShaped(g, c')
  {
    (Resident(g, c', addr) <==> Resident(g, c, addr)) && (Dirty(g, c', addr) <==> Dirty(g, c, addr))
  }

  lemma SetContents(g: Geometry, c: seq<CacheSet>, addr: nat)
    requires WellShaped(g, c)
    ensures var m := Contents(c[g.SetOf(addr)].lines);
            && (Resident(g, c, addr) <==> g.TagOf(addr) in m)
            && (Dirty(g, c, addr) <==> g.TagOf(addr) in m && m[g.TagOf(addr)])
  {
    var lines, tag := c[g.SetOf(addr)].lines, g.TagOf(addr);
    if tag in Tags(lines) {
      var w :| 0 <= w < |lines| && lines[w].valid && lines[w].tag == tag;
    }
    if Dirty(g, c, addr) {
      var w :| 0 <= w < |lines| && lines[w].valid && lines[w].tag == tag && lines[w].dirty;
      assert lines[w] == Line(tag, true, true);
    }
  }

  lemma StepOnSet(g: Geometry, c: seq<CacheSet>, op: Op, j: nat)
    requires WellShaped(g, c) && j < |c|
    ensures Step(g, c, op)[j] == SetStep(c[j], g.k, OnSet(g, op, j))
  {
  }

  // ----- one operation

  /** A flush cleans every block and keeps all of them. */
  lemma FlushCleans(g: Geometry, c: seq<CacheSet>, addr: nat)
    requires WellShaped(g, c) && AllValid(g, c)
    ensures var c' := Step(g, c, Op.Flush);
            !Dirty(g, c', addr) && (Resident(g, c', addr) <==> Resident(g, c, addr))
  {
    hide SetStep, Contents, Resident, Dirty;
    var j := g.SetOf(addr);
    SetContents(g, c, addr);
    SetContents(g, Step(g, c, Op.Flush), addr);
    StepOnSet(g, c, Op.Flush, j);
    MaintainContents(c[j], g.k, CleanAll);
  }

  /** An invalidation, or a new test, empties the cache: every access that follows is a miss. */
  lemma InvalidateEmpties(g: Geometry, c: seq<CacheSet>, op: Op, addr: nat, write: bool)
    requires WellShaped(g, c) && AllValid(g, c) && (op.Invalidate? || op.NewTest?)
    ensures var c' := Step(g, c, op);
            !Resident(g, c', addr) && !Dirty(g, c', addr) && OutcomeOf(g, c', addr, write) == Miss
  {
    hide SetStep, Contents, Resident, Dirty, Access;
    var j := g.SetOf(addr);
    var c' := Step(g, c, op);
    SetContents(g, c', addr);
    StepOnSet(g, c, op, j);
    MaintainContents(c[j], g.k, if op.Invalidate? then DropAll else Restart);
    StepValid(c[j], g.k, if op.Invalidate? then DropAll else Restart);
    EmptyMiss(c'[j], g.k, g.TagOf(addr), write);
  }

  lemma EmptyMiss(s: CacheSet, k: nat, tag: nat, write: bool)
    requires CacheModel.Valid(s, k) && Contents(s.lines) == map[]
    ensures Access(s, k, tag, write).outcome == Miss
  {
    hide Access;
    AccessRefines(s, k, tag, write);
  }

  /** A cache-block operation cleans its block, takes it out if asked to, and keeps all others. */
  lemma CboEffect(g: Geometry, c: seq<CacheSet>, addr: nat, invalidate: bool, other: nat)
    requires WellShaped(g, c) && AllValid(g, c)
    ensures var c' := Step(g, c, CboOp(addr, invalidate));
            && !Dirty(g, c', addr)
            && (Resident(g, c', addr) <==> Resident(g, c, addr) && !invalidate)
            && (!Same(g, addr, other) ==> Kept(g, c, c', other))
  {
    hide SetStep, Contents, Resident, Dirty;
    var j, i, op := g.SetOf(addr), g.SetOf(other), CboOp(addr, invalidate);
    var c' := Step(g, c, op);
    SetContents(g, c, addr);
    SetContents(g, c', addr);
    SetContents(g, c, other);
    SetContents(g, c', other);
    StepOnSet(g, c, op, j);
    StepOnSet(g, c, op, i);
    MaintainContents(c[j], g.k, Cbo(g.TagOf(addr), invalidate));
    MaintainContents(c[i], g.k, Idle);
  }

  /** An access is a hit exactly if its block is resident. Then the block is, dirty if this is a write or a
      hit to a dirty block. Another block only leaves when there is an eviction in its set, and then the
      outcome says whether it was dirty. */
  lemma AccessEffect(g: Geometry, c: seq<CacheSet>, addr: nat, write: bool, other: nat)
    requires WellShaped(g, c) && AllValid(g, c)
    ensures var c', o := Step(g, c, AccessOp(addr, write)), OutcomeOf(g, c, addr, write);
            && (o == Hit <==> Resident(g, c, addr))
            && Resident(g, c', addr)
            && (Dirty(g, c', addr) <==> write || Dirty(g, c, addr))
            && (!Same(g, addr, other) ==>
                  Kept(g, c, c', other) ||
                  (Resident(g, c, other) && !Resident(g, c', other) && !Dirty(g, c', other) &&
                   g.SetOf(addr) == g.SetOf(other) && o == if Dirty(g, c, other) then EvictDirty else Evict))
  {
    hide SetStep, Contents, Resident, Dirty, Access;
    var j, i, op := g.SetOf(addr), g.SetOf(other), AccessOp(addr, write);
    var c' := Step(g, c, op);
    SetContents(g, c, addr);
    SetContents(g, c', addr);
    SetContents(g, c, other);
    SetContents(g, c', other);
    StepOnSet(g, c, op, i);
    StepAccess(g, c, addr, write);
    AccessRefines(c[j], g.k, g.TagOf(addr), write);
    MaintainContents(c[i], g.k, Idle);
  }

  /** A new cache is empty: the first access to any address is a miss. */
  lemma EmptyCache(g: Geometry, addr: nat, write: bool)
    ensures !Resident(g, Empty(g), addr) && OutcomeOf(g, Empty(g), addr, write) == Miss
  {
    hide Access, Contents;
    var s := Empty(g)[g.SetOf(addr)];
    EmptySet(g, g.SetOf(addr));
    assert Tags(s.lines) == {};
    assert Contents(s.lines) == map[] by {
      NoContents(s.lines);
    }
    EmptyMiss(s, g.k, g.TagOf(addr), write);
  }

  lemma NoContents(lines: seq<Line>)
    requires Tags(lines) == {}
    ensures Contents(lines) == map[]
  {
  }

  // ----- whole runs

  /** The block of addr has been written since it was last filled, flushed or cleaned. */
  predicate WrittenSince(g: Geometry, c: seq<CacheSet>, ops: seq<Op>, addr: nat)
    requires WellShaped(g, c)
  {
    ops != [] &&
    var before, op := ops[..|ops| - 1], ops[|ops| - 1];
    match op
    case Flush => false
    case Invalidate => WrittenSince(g, c, before, addr)
    case NewTest => WrittenSince(g, c, before, addr)
    case CboOp(a, _) => !Same(g, a, addr) && WrittenSince(g, c, before, addr)
    case AccessOp(a, write) =>
      if Same(g, a, addr) then
        write || (OutcomeOf(g, Run(g, c, before), a, write) == Hit && WrittenSince(g, c, before, addr))
      else WrittenSince(g, c, before, addr)
  }

  /** The state after one more operation; without any it is the one at the start. */
  lemma RunSteps(g: Geometry, c: seq<CacheSet>, ops: seq<Op>, op: Op)
    requires WellShaped(g, c)
    ensures Run(g, c, []) == c && Run(g, c, ops + [op]) == Step(g, Run(g, c, ops), op)
  {
    assert (ops + [op])[..|ops|] == ops;
  }

  /** In every reachable state, a resident block is dirty exactly if it was written since. */
  lemma {:induction false} DirtyIsWrittenSince(g: Geometry, ops: seq<Op>, addr: nat)
    ensures Resident(g, Run(g, Empty(g), ops), addr) ==>
              (Dirty(g, Run(g, Empty(g), ops), addr) <==> WrittenSince(g, Empty(g), ops, addr))
    decreases |ops|
  {
    hide Step, Resident, Dirty, Empty, AllValid;
    if ops == [] {
      EmptyCache(g, addr, false);
    } else {
      var before, op := ops[..|ops| - 1], ops[|ops| - 1];
      var c := Run(g, Empty(g), before);
      DirtyIsWrittenSince(g, before, addr);
      EmptyIsValid(g);
      NeverDuplicates(g, Empty(g), before);
      match op
      case Flush => FlushCleans(g, c, addr);
      case Invalidate => InvalidateEmpties(g, c, op, addr, false);
      case NewTest => InvalidateEmpties(g, c, op, addr, false);
      case CboOp(a, invalidate) =>
        CboEffect(g, c, a, invalidate, addr);
        SameEffect(g, c, Step(g, c, op), a, addr);
      case AccessOp(a, write) =>
        AccessEffect(g, c, a, write, addr);
        SameEffect(g, c, Step(g, c, op), a, addr);
        DirtyIsResident(g, c, addr);
    }
  }

  lemma EmptyIsValid(g: Geometry)
    ensures AllValid(g, Empty(g))
  {
    forall j | 0 <= j < Pow2(g.setlen)
      ensures CacheModel.Valid(Empty(g)[j], g.k)
    {
      EmptySet(g, j);
    }
  }

  lemma DirtyIsResident(g: Geometry, c: seq<CacheSet>, addr: nat)
    requires WellShaped(g, c)
    ensures Dirty(g, c, addr) ==> Resident(g, c, addr)
  {
  }

  /** Two addresses of one block stand for the same. */
  lemma SameEffect(g: Geometry, c: seq<CacheSet>, c': seq<CacheSet>, a: nat, b: nat)
    requires WellShaped(g, c) && WellShaped(g, c')
    ensures Same(g, a, b) ==> (Resident(g, c, a) <==> Resident(g, c, b)) && (Dirty(g, c, a) <==> Dirty(g, c, b))
    ensures Same(g, a, b) ==> (Resident(g, c', a) <==> Resident(g, c', b)) && (Dirty(g, c', a) <==> Dirty(g, c', b))
  {
  }

  /** In every reachable state, whenever an access throws out a block, it reports a write-back exactly if
      that block was written since it was last filled, flushed or cleaned. */
  lemma EvictionsTell(g: Geometry, ops: seq<Op>, addr: nat, write: bool, out: nat)
    requires var c := Run(g, Empty(g), ops);
             Resident(g, c, out) && !Resident(g, Step(g, c, AccessOp(addr, write)), out)
    ensures OutcomeOf(g, Run(g, Empty(g), ops), addr, write)
         == if WrittenSince(g, Empty(g), ops, out) then EvictDirty else Evict
  {
    hide Step, Resident, Dirty, Empty, AllValid, OutcomeOf;
    var c := Run(g, Empty(g), ops);
    EmptyIsValid(g);
    NeverDuplicates(g, Empty(g), ops);
    DirtyIsWrittenSince(g, ops, out);
    AccessEffect(g, c, addr, write, out);
    SameEffect(g, c, Step(g, c, AccessOp(addr, write)), addr, out);
  }

  /** A test of a log depends on nothing before its start: the outcomes after it are those of a new cache. */
  lemma TestsAreIndependent(g: Geometry, c: seq<CacheSet>, before: seq<Op>, ops: seq<Op>, addr: nat, write: bool)
    requires WellShaped(g, c)
    ensures OutcomeOf(g, Run(g, c, before + [NewTest] + ops), addr, write)
         == OutcomeOf(g, Run(g, Empty(g), ops), addr, write)
  {
    hide OutcomeOf, SetStep, SameVisible;
    var d := Run(g, c, before);
    RunAppend(g, c, before + [NewTest], ops);
    RunSteps(g, c, before, NewTest);
    forall j | 0 <= j < Pow2(g.setlen)
      ensures SameVisible(Step(g, d, NewTest)[j], Empty(g)[j])
    {
      StepOnSet(g, d, NewTest, j);
      RestartedIsEmpty(g, d[j], j);
    }
    InvalidLinesNeverShow(g, Step(g, d, NewTest), Empty(g), ops, addr, write);
  }

  lemma RestartedIsEmpty(g: Geometry, s: CacheSet, j: nat)
    requires Shaped(s, g.k) && j < Pow2(g.setlen)
    ensures SameVisible(SetStep(s, g.k, Restart), Empty(g)[j])
  {
  }

  // ----- logs

  /** The letters of the outcomes, and what the kinds of a log stand for. */
  lemma LettersAndKinds(addr: nat, kind: string, reported: string)
    ensures Letter(Hit) == "H" && Letter(Miss) == "M" && Letter(Evict) == "E" && Letter(EvictDirty) == "D"
    ensures OpOf(TestStart) == [NewTest] && OpOf(Comment) == []
    ensures OpOf(Entry(addr, "F", reported)) == [Op.Flush] && OpOf(Entry(addr, "I", reported)) == [Op.Invalidate]
    ensures OpOf(Entry(addr, "V", reported)) == OpOf(Entry(addr, "L", reported)) == [CboOp(addr, true)]
    ensures OpOf(Entry(addr, "C", reported)) == [CboOp(addr, false)]
    ensures kind == "W" || kind == "A" || kind == "Z" ==> OpOf(Entry(addr, kind, reported)) == [AccessOp(addr, true)]
    ensures kind !in ["F", "I", "V", "L", "C", "W", "A", "Z"] ==>
              OpOf(Entry(addr, kind, reported)) == [AccessOp(addr, false)]
  {
    assert "V" != "C" && "L" != "C" && "V" != "F" && "C" != "F" && "I" != "F";
  }

  /** The operations of a log, line by line. */
  lemma OpsByLine(log: seq<LogLine>, line: LogLine)
    ensures OpsOf([]) == [] && OpsOf(log + [line]) == OpsOf(log) + OpOf(line)
  {
    assert (log + [line])[..|log|] == log;
  }

  /** Line i is an access, and the simulator's letter for it is not the one in the log. */
  predicate Differs(g: Geometry, c: seq<CacheSet>, log: seq<LogLine>, i: nat)
    requires WellShaped(g, c) && i < |log|
  {
    && OpOf(log[i]) != [] && OpOf(log[i])[0].AccessOp?
    && Letter(OutcomeOf(g, Run(g, c, OpsOf(log[..i])), OpOf(log[i])[0].addr, OpOf(log[i])[0].write)) != log[i].reported
  }

  lemma MismatchNext(g: Geometry, c: seq<CacheSet>, log: seq<LogLine>, n: nat)
    requires WellShaped(g, c) && n < |log|
    ensures Mismatches(g, c, log[..n + 1]) == Mismatches(g, c, log[..n]) + if Differs(g, c, log, n) then 1 else 0
  {
    hide OutcomeOf, Run, OpsOf, OpOf, Letter;
    assert log[..n + 1][..n] == log[..n];
  }

  /** The first n lines that are accesses with another outcome than the one in the log. */
  ghost function Differing(g: Geometry, c: seq<CacheSet>, log: seq<LogLine>, n: nat): set<nat>
    requires WellShaped(g, c) && n <= |log|
  {
    set i | 0 <= i < n && Differs(g, c, log, i)
  }

  lemma DifferingNext(g: Geometry, c: seq<CacheSet>, log: seq<LogLine>, n: nat)
    requires WellShaped(g, c) && n < |log|
    ensures |Differing(g, c, log, n + 1)| == |Differing(g, c, log, n)| + if Differs(g, c, log, n) then 1 else 0
    ensures Differing(g, c, log, 0) == {}
  {
    hide Differs;
    var some := Differing(g, c, log, n);
    assert n !in some;
    assert Differing(g, c, log, n + 1) == if Differs(g, c, log, n) then some + {n} else some;
  }

  lemma {:induction false} MismatchesTo(g: Geometry, c: seq<CacheSet>, log: seq<LogLine>, n: nat)
    requires WellShaped(g, c) && n <= |log|
    ensures Mismatches(g, c, log[..n]) == |Differing(g, c, log, n)|
    decreases n
  {
    hide *;
    if n > 0 {
      MismatchesTo(g, c, log, n - 1);
      MismatchNext(g, c, log, n - 1);
      DifferingNext(g, c, log, n - 1);
    } else {
      NoneDiffer(g, c, log);
    }
  }

  lemma NoneDiffer(g: Geometry, c: seq<CacheSet>, log: seq<LogLine>)
    requires WellShaped(g, c)
    ensures Mismatches(g, c, log[..0]) == |Differing(g, c, log, 0)|
  {
    assert Differing(g, c, log, 0) == {};
  }

  /** The mismatches are the lines that differ. */
  lemma {:induction false} MismatchesCounted(g: Geometry, c: seq<CacheSet>, log: seq<LogLine>)
    requires WellShaped(g, c)
    ensures Mismatches(g, c, log) == |set i | 0 <= i < |log| && Differs(g, c, log, i)|
  {
    hide Differs, Mismatches;
    MismatchesTo(g, c, log, |log|);
    assert log[..|log|] == log;
  }
}
