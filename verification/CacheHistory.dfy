/** Whole-history properties of one cache set: what makes a block dirty, where dirty blocks go,
    and what a stream of new blocks does to a full set. */
module CacheHistory {
  import opened Powers
  import opened PseudoLru
  import opened CacheModel

  /** What an observer of the simulator's output sees of an operation. */
  datatype Event = Used(tag: nat, write: bool, outcome: Outcome) | Maintained(op: SetOp)

  function EventOf(s: CacheSet, k: nat, op: SetOp): Event
    requires Shaped(s, k)
  {
    if op.Use? then Used(op.tag, op.write, Access(s, k, op.tag, op.write).outcome) else Maintained(op)
  }

  function History(s: CacheSet, k: nat, ops: seq<SetOp>): (h: seq<Event>)
    requires Shaped(s, k)
    ensures |h| == |ops|
  {
    if ops == [] then []
    else History(s, k, ops[..|ops| - 1]) + [EventOf(SetRun(s, k, ops[..|ops| - 1]), k, ops[|ops| - 1])]
  }

  /** Whether the block has been written since it was last filled, flushed or cleaned, judged from
      the observed events alone. */
  predicate Written(h: seq<Event>, tag: nat) {
    h != [] &&
    var before, last := h[..|h| - 1], h[|h| - 1];
    match last
    case Used(t, write, outcome) =>
      if t == tag then write || (outcome.Hit? && Written(before, tag)) else Written(before, tag)
    case Maintained(op) =>
      match op
      case CleanAll => false
      case Cbo(t, _) => t != tag && Written(before, tag)
      case _ => Written(before, tag)
  }

  ghost predicate AllClean(s: CacheSet) {
    forall tag :: tag in Contents(s.lines) ==> !Contents(s.lines)[tag]
  }

  ghost predicate HistoryTellsDirty(s: CacheSet, h: seq<Event>) {
    forall tag :: tag in Contents(s.lines) ==> (Contents(s.lines)[tag] <==> Written(h, tag))
  }

  /** Maintenance operations as seen on the abstract map. */
  ghost predicate MaintainStep(c: map<nat, bool>, c': map<nat, bool>, op: SetOp)
    requires !op.Use?
  {
    match op
    case Idle => c' == c
    case CleanAll => c' == map tag | tag in c :: false
    case Cbo(tag, invalidate) => c' == if invalidate then c - {tag} else if tag in c then c[tag := false] else c
    case DropAll => c' == map[]
    case Restart => c' == map[]
  }

  lemma MaintainContents(s: CacheSet, k: nat, op: SetOp)
    requires Valid(s, k) && !op.Use?
    ensures MaintainStep(Contents(s.lines), Contents(SetStep(s, k, op).lines), op)
  {
    var lines, lines' := s.lines, SetStep(s, k, op).lines;
    match op
    case Idle =>
    case CleanAll =>
      SameTags(lines, lines');
    case Cbo(tag, invalidate) =>
      CboBlocks(lines, lines', tag, invalidate);
    case DropAll => assert Tags(lines') == {};
    case Restart => assert Tags(lines') == {};
  }

  lemma CboBlocks(lines: seq<Line>, lines': seq<Line>, tag: nat, invalidate: bool)
    requires |lines| == |lines'| && Unique(lines)
    requires forall w :: 0 <= w < |lines| ==> lines'[w] == CboLine(lines[w], tag, invalidate)
    ensures var c := Contents(lines);
            Contents(lines') == if invalidate then c - {tag} else if tag in c then c[tag := false] else c
  {
    forall t
      ensures t in Tags(lines') <==> t in Tags(lines) && !(invalidate && t == tag)
      ensures t in Tags(lines') ==> (DirtyIn(lines', t) <==> t != tag && DirtyIn(lines, t))
    {
      CboBlock(lines, lines', tag, invalidate, t);
    }
  }

  lemma SameTags(lines: seq<Line>, lines': seq<Line>)
    requires |lines| == |lines'|
    requires forall w :: 0 <= w < |lines| ==> lines'[w].valid == lines[w].valid && lines'[w].tag == lines[w].tag
    ensures Tags(lines') == Tags(lines)
  {
    assert forall w :: 0 <= w < |lines| && lines[w].valid ==>
                         lines'[w].tag in Tags(lines') && lines[w].tag in Tags(lines);
  }

  lemma CboBlock(lines: seq<Line>, lines': seq<Line>, tag: nat, invalidate: bool, t: nat)
    requires |lines| == |lines'| && Unique(lines)
    requires forall w :: 0 <= w < |lines| ==> lines'[w] == CboLine(lines[w], tag, invalidate)
    ensures t in Tags(lines') <==> t in Tags(lines) && !(invalidate && t == tag)
    ensures t in Tags(lines') ==> (DirtyIn(lines', t) <==> t != tag && DirtyIn(lines, t))
  {
    if t in Tags(lines) {
      var u :| 0 <= u < |lines| && lines[u].valid && lines[u].tag == t;
      assert lines'[u] == CboLine(lines[u], tag, invalidate);
    }
    if t != tag && DirtyIn(lines, t) {
      var u :| 0 <= u < |lines| && lines[u] == Line(t, true, true);
      assert lines'[u] == lines[u];
    }
  }

  lemma StepTellsDirty(s: CacheSet, k: nat, op: SetOp, h: seq<Event>)
    requires Valid(s, k) && HistoryTellsDirty(s, h)
    ensures HistoryTellsDirty(SetStep(s, k, op), h + [EventOf(s, k, op)])
  {
    var e := EventOf(s, k, op);
    if op.Use? {
      AccessRefines(s, k, op.tag, op.write);
      UsedTellsDirty(Pow2(k), Contents(s.lines), Contents(SetStep(s, k, op).lines), h, e,
                     s.lines[Victim(s.tree, k)].tag);
    } else {
      MaintainContents(s, k, op);
      assert (h + [e])[..|h|] == h;
    }
  }

  lemma UsedTellsDirty(ways: nat, c: map<nat, bool>, c': map<nat, bool>, h: seq<Event>, e: Event, out: nat)
    requires e.Used? && MapStep(ways, c, c', e.tag, e.write, out, e.outcome)
    requires forall tag :: tag in c ==> (c[tag] <==> Written(h, tag))
    ensures forall tag :: tag in c' ==> (c'[tag] <==> Written(h + [e], tag))
  {
    assert (h + [e])[..|h|] == h;
  }

  /** From a set with nothing to write back, a resident block is dirty exactly when the observed
      history has a write to it since its last fill, flush or clean. */
  lemma {:induction false} DirtyIsWritten(s: CacheSet, k: nat, ops: seq<SetOp>)
    requires Valid(s, k) && AllClean(s)
    ensures HistoryTellsDirty(SetRun(s, k, ops), History(s, k, ops))
  {
    if ops != [] {
      var before := ops[..|ops| - 1];
      DirtyIsWritten(s, k, before);
      RunValid(s, k, before);
      StepTellsDirty(SetRun(s, k, before), k, ops[|ops| - 1], History(s, k, before));
    }
  }

  /** An eviction is reported as a write-back exactly when the block it throws out was written
      since its last fill, flush or clean. */
  lemma WriteBackExact(s: CacheSet, k: nat, ops: seq<SetOp>, tag: nat, write: bool)
    requires Valid(s, k) && AllClean(s)
    ensures var t := SetRun(s, k, ops);
            var outcome := Access(t, k, tag, write).outcome;
            outcome.Evict? || outcome.EvictDirty? ==>
              (outcome.EvictDirty? <==> Written(History(s, k, ops), t.lines[Victim(t.tree, k)].tag))
  {
    DirtyIsWritten(s, k, ops);
    RunValid(s, k, ops);
    AccessRefines(SetRun(s, k, ops), k, tag, write);
  }

  // ----- conservation of dirty blocks

  ghost function DirtyKeys(c: map<nat, bool>): set<nat> {
    set tag | tag in c && c[tag]
  }

  ghost function DirtyTags(lines: seq<Line>): set<nat> {
    DirtyKeys(Contents(lines))
  }

  /** How many blocks became dirty, and how many stopped being dirty in each possible way. */
  datatype Tally = Tally(dirtied: nat, writtenBack: nat, cleaned: nat, discarded: nat)

  ghost function TallyOf(s: CacheSet, k: nat, op: SetOp): Tally
    requires Shaped(s, k)
  {
    var d := DirtyTags(s.lines);
    match op
    case Idle => Tally(0, 0, 0, 0)
    case CleanAll => Tally(0, 0, |d|, 0)
    case Cbo(tag, _) => Tally(0, 0, if tag in d then 1 else 0, 0)
    case Use(tag, write) => Tally(if write && tag !in d then 1 else 0,
                                  if Access(s, k, tag, write).outcome.EvictDirty? then 1 else 0, 0, 0)
    case _ => Tally(0, 0, 0, |d|)
  }

  ghost function TallyRun(s: CacheSet, k: nat, ops: seq<SetOp>): Tally
    requires Shaped(s, k)
  {
    if ops == [] then Tally(0, 0, 0, 0)
    else
      var a := TallyRun(s, k, ops[..|ops| - 1]);
      var b := TallyOf(SetRun(s, k, ops[..|ops| - 1]), k, ops[|ops| - 1]);
      Tally(a.dirtied + b.dirtied, a.writtenBack + b.writtenBack, a.cleaned + b.cleaned, a.discarded + b.discarded)
  }

  /** What the tally counts: writes that make a block dirty, evictions with a write-back, and the dirty blocks
      that a flush or a cache-block operation cleans or an invalidation or a new test throws away. */
  lemma TallyCounts(s: CacheSet, k: nat, ops: seq<SetOp>, op: SetOp)
    requires Shaped(s, k)
    ensures TallyRun(s, k, []) == Tally(0, 0, 0, 0)
    ensures var a, b, t := TallyRun(s, k, ops), TallyRun(s, k, ops + [op]), SetRun(s, k, ops);
            var d := DirtyTags(t.lines);
            && b.dirtied == a.dirtied + (if op.Use? && op.write && op.tag !in d then 1 else 0)
            && b.writtenBack == a.writtenBack +
                 (if op.Use? && Access(t, k, op.tag, op.write).outcome == EvictDirty then 1 else 0)
            && b.cleaned == a.cleaned + (if op.CleanAll? then |d| else if op.Cbo? && op.tag in d then 1 else 0)
            && b.discarded == a.discarded + (if op.DropAll? || op.Restart? then |d| else 0)
  {
    hide Access;
    assert (ops + [op])[..|ops|] == ops;
  }

  ghost predicate Balanced(before: set<nat>, tally: Tally, after: set<nat>) {
    |before| + tally.dirtied == |after| + tally.writtenBack + tally.cleaned + tally.discarded
  }

  lemma UpdateKeys(c: map<nat, bool>, tag: nat, dirty: bool)
    ensures DirtyKeys(c[tag := dirty]) == if dirty then DirtyKeys(c) + {tag} else DirtyKeys(c) - {tag}
  {
  }

  lemma RemoveKeys(c: map<nat, bool>, tag: nat)
    ensures DirtyKeys(c - {tag}) == DirtyKeys(c) - {tag}
  {
  }

  lemma MapStepBalanced(ways: nat, c: map<nat, bool>, c': map<nat, bool>, tag: nat, write: bool, out: nat,
                        outcome: Outcome)
    requires MapStep(ways, c, c', tag, write, out, outcome)
    ensures |DirtyKeys(c)| + (if write && tag !in DirtyKeys(c) then 1 else 0)
         == |DirtyKeys(c')| + (if outcome.EvictDirty? then 1 else 0)
  {
    match outcome
    case Hit => UpdateKeys(c, tag, c[tag] || write);
    case Miss => UpdateKeys(c, tag, write);
    case Evict => UpdateKeys(c - {out}, tag, write); RemoveKeys(c, out);
    case EvictDirty => UpdateKeys(c - {out}, tag, write); RemoveKeys(c, out);
  }

  lemma UseBalanced(s: CacheSet, k: nat, tag: nat, write: bool)
    requires Valid(s, k)
    ensures Balanced(DirtyTags(s.lines), TallyOf(s, k, Use(tag, write)), DirtyTags(Access(s, k, tag, write).next.lines))
  {
    AccessRefines(s, k, tag, write);
    var r := Access(s, k, tag, write);
    MapStepBalanced(Pow2(k), Contents(s.lines), Contents(r.next.lines), tag, write,
                    s.lines[Victim(s.tree, k)].tag, r.outcome);
  }

  lemma MaintainBalanced(s: CacheSet, k: nat, op: SetOp)
    requires Valid(s, k) && !op.Use?
    ensures Balanced(DirtyTags(s.lines), TallyOf(s, k, op), DirtyTags(SetStep(s, k, op).lines))
  {
    MaintainContents(s, k, op);
    MaintainKeys(Contents(s.lines), Contents(SetStep(s, k, op).lines), op);
  }

  lemma MaintainKeys(c: map<nat, bool>, c': map<nat, bool>, op: SetOp)
    requires !op.Use? && MaintainStep(c, c', op)
    ensures DirtyKeys(c') == if op.Idle? then DirtyKeys(c) else if op.Cbo? then DirtyKeys(c) - {op.tag} else {}
  {
  }

  lemma StepBalanced(s: CacheSet, k: nat, op: SetOp)
    requires Valid(s, k)
    ensures Balanced(DirtyTags(s.lines), TallyOf(s, k, op), DirtyTags(SetStep(s, k, op).lines))
  {
    if op.Use? {
      UseBalanced(s, k, op.tag, op.write);
    } else {
      MaintainBalanced(s, k, op);
    }
  }

  /** Over any run, every block that became dirty was written back, cleaned or discarded, or is
      still dirty and resident. */
  lemma {:induction false} DirtyConserved(s: CacheSet, k: nat, ops: seq<SetOp>)
    requires Valid(s, k)
    ensures Balanced(DirtyTags(s.lines), TallyRun(s, k, ops), DirtyTags(SetRun(s, k, ops).lines))
  {
    if ops != [] {
      var before := ops[..|ops| - 1];
      DirtyConserved(s, k, before);
      RunValid(s, k, before);
      StepBalanced(SetRun(s, k, before), k, ops[|ops| - 1]);
    }
  }

  // ----- streaming through a full set

  /** Uses of blocks that are new to the set and different from one another. */
  ghost predicate Stream(s: CacheSet, ops: seq<SetOp>) {
    && (forall i :: 0 <= i < |ops| ==> ops[i].Use? && ops[i].tag !in Tags(s.lines))
    && (forall i, j :: 0 <= i < j < |ops| ==> ops[i].tag != ops[j].tag)
  }

  /** The blocks of ops sit in the given ways; the other ways are as in s. */
  ghost predicate Streamed(lines: seq<Line>, lines': seq<Line>, ways: seq<nat>, ops: seq<SetOp>)
    requires |ways| == |ops| && forall i :: 0 <= i < |ops| ==> ops[i].Use?
  {
    && |lines'| == |lines|
    && (forall i :: 0 <= i < |ops| ==> ways[i] < |lines| && lines'[ways[i]] == Line(ops[i].tag, true, ops[i].write))
    && (forall w :: 0 <= w < |lines| && w !in ways ==> lines'[w] == lines[w])
  }

  lemma {:induction false} StreamRun(s: CacheSet, k: nat, ops: seq<SetOp>)
    requires Valid(s, k) && Full(s) && Stream(s, ops) && |ops| <= Pow2(k)
    ensures SetRun(s, k, ops).tree == After(s.tree, k, |ops|)
    ensures Streamed(s.lines, SetRun(s, k, ops).lines, Picks(s.tree, k, |ops|), ops)
  {
    if ops != [] {
      var n := |ops| - 1;
      StreamRun(s, k, ops[..n]);
      PicksLast(s.tree, k, n + 1);
      NextPick(s.tree, k, n);
      StreamStep(s, SetRun(s, k, ops[..n]), k, Picks(s.tree, k, n), ops);
    }
  }

  /** No way is picked twice within one round of evictions. */
  lemma NextPick(t: Tree, k: nat, n: nat)
    requires Perfect(t, k) && n < Pow2(k)
    ensures Victim(After(t, k, n), k) !in Picks(t, k, n)
  {
    EvictionFairness(t, k);
    PicksLast(t, k, n + 1);
    PicksPrefix(t, k, n + 1, Pow2(k));
    var ps := Picks(t, k, Pow2(k));
    assert Picks(t, k, n) == ps[..n] && Victim(After(t, k, n), k) == ps[n] by {
      PicksPrefix(t, k, n, Pow2(k));
      assert ps[n] == ps[..n + 1][n];
    }
  }

  lemma StreamStep(s: CacheSet, t: CacheSet, k: nat, ways: seq<nat>, ops: seq<SetOp>)
    requires ops != [] && Valid(s, k) && Full(s) && Shaped(t, k) && Stream(s, ops) && |ways| == |ops| - 1
    requires Streamed(s.lines, t.lines, ways, ops[..|ops| - 1]) && Victim(t.tree, k) !in ways
    ensures SetStep(t, k, ops[|ops| - 1]).tree == Rotate(t.tree, k)
    ensures Streamed(s.lines, SetStep(t, k, ops[|ops| - 1]).lines, ways + [Victim(t.tree, k)], ops)
  {
    var before, op := ops[..|ops| - 1], ops[|ops| - 1];
    StreamFull(s, t, k, ways, before);
    assert op.tag !in Tags(t.lines);
    MissEvicts(t, k, op.tag, op.write);
  }

  lemma StreamFull(s: CacheSet, t: CacheSet, k: nat, ways: seq<nat>, ops: seq<SetOp>)
    requires Shaped(s, k) && Full(s) && Shaped(t, k) && |ways| == |ops|
    requires forall i :: 0 <= i < |ops| ==> ops[i].Use?
    requires Streamed(s.lines, t.lines, ways, ops)
    ensures Full(t)
    ensures forall tag :: tag in Tags(t.lines) ==>
                            tag in Tags(s.lines) || exists i :: 0 <= i < |ops| && ops[i].tag == tag
  {
    forall w | 0 <= w < |t.lines|
      ensures t.lines[w].valid
      ensures t.lines[w].tag in Tags(s.lines) || exists i :: 0 <= i < |ops| && ops[i].tag == t.lines[w].tag
    {
      if w in ways {
        var i :| 0 <= i < |ways| && ways[i] == w;
      } else {
        assert s.lines[w].tag in Tags(s.lines);
      }
    }
  }

  /** In a full set, as many new blocks as there are ways replace every old block, each way being
      evicted exactly once, and leave the replacement bits as they were. */
  lemma StreamReplacesAll(s: CacheSet, k: nat, ops: seq<SetOp>)
    requires Valid(s, k) && Full(s) && Stream(s, ops) && |ops| == Pow2(k)
    ensures SetRun(s, k, ops).tree == s.tree
    ensures Tags(SetRun(s, k, ops).lines) == set i | 0 <= i < |ops| :: ops[i].tag
  {
    StreamRun(s, k, ops);
    EvictionFairness(s.tree, k);
    StreamedTags(s.lines, SetRun(s, k, ops).lines, Picks(s.tree, k, Pow2(k)), ops);
  }

  lemma StreamedTags(lines: seq<Line>, lines': seq<Line>, ways: seq<nat>, ops: seq<SetOp>)
    requires |ways| == |ops| && forall i :: 0 <= i < |ops| ==> ops[i].Use?
    requires Streamed(lines, lines', ways, ops) && forall w :: 0 <= w < |lines| ==> w in ways
    ensures Tags(lines') == set i | 0 <= i < |ops| :: ops[i].tag
  {
    forall w | 0 <= w < |lines'|
      ensures exists i :: 0 <= i < |ops| && lines'[w] == Line(ops[i].tag, true, ops[i].write)
    {
      assert w in ways;
      var i :| 0 <= i < |ways| && ways[i] == w;
    }
    forall i | 0 <= i < |ops|
      ensures ops[i].tag in Tags(lines')
    {
      assert lines'[ways[i]].tag == ops[i].tag;
    }
  }
}
