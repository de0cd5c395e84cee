/** The behaviour of a set-associative write-back cache with tree pseudo-LRU replacement and
    2^k ways, one set at a time, and what it guarantees over whole sequences of operations. */
module CacheModel {
  import opened Powers
  import opened Sets
  import opened PseudoLru

  datatype Line = Line(tag: nat, valid: bool, dirty: bool)

  datatype CacheSet = CacheSet(lines: seq<Line>, tree: Tree)

  /** Hit, fill of a free way, eviction, eviction with write-back: 'H', 'M', 'E' and 'D'. */
  datatype Outcome = Hit | Miss | Evict | EvictDirty

  datatype AccessResult = AccessResult(next: CacheSet, outcome: Outcome)

  predicate Shaped(s: CacheSet, k: nat) {
    |s.lines| == Pow2(k) && Perfect(s.tree, k)
  }

  /** No two valid lines share a tag. */
  ghost predicate Unique(lines: seq<Line>) {
    forall u, v :: 0 <= u < v < |lines| && lines[u].valid && lines[v].valid ==> lines[u].tag != lines[v].tag
  }

  ghost predicate Valid(s: CacheSet, k: nat) {
    Shaped(s, k) && Unique(s.lines)
  }

  predicate Holds(line: Line, tag: nat) {
    line.valid && line.tag == tag
  }

  /** The first way that holds the tag, or the number of ways. */
  function HitWay(lines: seq<Line>, tag: nat): (w: nat)
    ensures w <= |lines|
    ensures w < |lines| ==> Holds(lines[w], tag)
    ensures forall v :: 0 <= v < w ==> !Holds(lines[v], tag)
  {
    if lines == [] then 0
    else if Holds(lines[0], tag) then 0
    else
      var w := HitWay(lines[1..], tag);
      assert forall v :: 0 < v < 1 + w ==> lines[v] == lines[1..][v - 1];
      1 + w
  }

  /** The first invalid way, or the number of ways. */
  function FreeWay(lines: seq<Line>): (w: nat)
    ensures w <= |lines|
    ensures w < |lines| ==> !lines[w].valid
    ensures forall v :: 0 <= v < w ==> lines[v].valid
  {
    if lines == [] then 0
    else if !lines[0].valid then 0
    else
      var w := FreeWay(lines[1..]);
      assert forall v :: 0 < v < 1 + w ==> lines[v] == lines[1..][v - 1];
      1 + w
  }

  function Put(s: CacheSet, k: nat, w: nat, line: Line): (s': CacheSet)
    requires Shaped(s, k) && w < Pow2(k)
    ensures Shaped(s', k)
  {
    CacheSet(s.lines[w := line], Touch(s.tree, k, w))
  }

  function Access(s: CacheSet, k: nat, tag: nat, write: bool): (r: AccessResult)
    requires Shaped(s, k)
    ensures Shaped(r.next, k)
  {
    var hit := HitWay(s.lines, tag);
    var free := FreeWay(s.lines);
    if hit < Pow2(k) then
      AccessResult(Put(s, k, hit, s.lines[hit].(dirty := s.lines[hit].dirty || write)), Hit)
    else if free < Pow2(k) then
      AccessResult(Put(s, k, free, Line(tag, true, write)), Miss)
    else
      var victim := Victim(s.tree, k);
      AccessResult(Put(s, k, victim, Line(tag, true, write)),
                   if s.lines[victim].dirty then EvictDirty else Evict)
  }

  /** The way that an access leaves the block in. */
  function WayFor(s: CacheSet, k: nat, tag: nat): (w: nat)
    requires Shaped(s, k)
    ensures w < Pow2(k)
  {
    if HitWay(s.lines, tag) < Pow2(k) then HitWay(s.lines, tag)
    else if FreeWay(s.lines) < Pow2(k) then FreeWay(s.lines)
    else Victim(s.tree, k)
  }

  /** What an operation does to one set. Idle is an operation on another set. */
  datatype SetOp =
    | Idle
    | CleanAll
    | DropAll
    | Restart
    | Cbo(tag: nat, invalidate: bool)
    | Use(tag: nat, write: bool)

  function MapLines(lines: seq<Line>, f: Line -> Line): (r: seq<Line>)
    ensures |r| == |lines| && forall w :: 0 <= w < |r| ==> r[w] == f(lines[w])
  {
    seq(|lines|, w requires 0 <= w < |lines| => f(lines[w]))
  }

  function Cleaned(line: Line): Line {
    line.(dirty := false)
  }

  function Dropped(line: Line): Line {
    line.(valid := false)
  }

  function CboLine(line: Line, tag: nat, invalidate: bool): Line {
    if Holds(line, tag) then Line(tag, !invalidate, false) else line
  }

  function SetStep(s: CacheSet, k: nat, op: SetOp): (s': CacheSet)
    requires Shaped(s, k)
    ensures Shaped(s', k)
  {
    match op
    case Idle => s
    case CleanAll => s.(lines := MapLines(s.lines, Cleaned))
    case DropAll => s.(lines := MapLines(s.lines, Dropped))
    case Restart => CacheSet(MapLines(s.lines, Dropped), Zeros(k))
    case Cbo(tag, invalidate) => s.(lines := MapLines(s.lines, (line: Line) => CboLine(line, tag, invalidate)))
    case Use(tag, write) => Access(s, k, tag, write).next
  }

  function SetRun(s: CacheSet, k: nat, ops: seq<SetOp>): (s': CacheSet)
    requires Shaped(s, k)
    ensures Shaped(s', k)
  {
    if ops == [] then s
    else SetStep(SetRun(s, k, ops[..|ops| - 1]), k, ops[|ops| - 1])
  }

  lemma RunLast(s: CacheSet, k: nat, ops: seq<SetOp>, op: SetOp)
    requires Shaped(s, k)
    ensures SetRun(s, k, ops + [op]) == SetStep(SetRun(s, k, ops), k, op)
  {
    assert (ops + [op])[..|ops|] == ops;
  }

  // ----- the resident blocks

  lemma AccessPut(s: CacheSet, k: nat, tag: nat, write: bool)
    requires Shaped(s, k)
    ensures var w := WayFor(s, k, tag);
            var r := Access(s, k, tag, write);
            && r.next.tree == Touch(s.tree, k, w)
            && r.next.lines == s.lines[w := Line(tag, true, (r.outcome.Hit? && s.lines[w].dirty) || write)]
  {
  }

  lemma StepValid(s: CacheSet, k: nat, op: SetOp)
    requires Valid(s, k)
    ensures Valid(SetStep(s, k, op), k)
  {
    if op.Use? {
      AccessPut(s, k, op.tag, op.write);
    }
  }

  lemma {:induction false} RunValid(s: CacheSet, k: nat, ops: seq<SetOp>)
    requires Valid(s, k)
    ensures Valid(SetRun(s, k, ops), k)
  {
    if ops != [] {
      RunValid(s, k, ops[..|ops| - 1]);
      StepValid(SetRun(s, k, ops[..|ops| - 1]), k, ops[|ops| - 1]);
    }
  }

  ghost function Tags(lines: seq<Line>): set<nat> {
    set w | 0 <= w < |lines| && lines[w].valid :: lines[w].tag
  }

  ghost predicate DirtyIn(lines: seq<Line>, tag: nat) {
    Line(tag, true, true) in lines
  }

  /** The abstract cache set: the resident blocks, each with whether it must be written back. */
  ghost function Contents(lines: seq<Line>): map<nat, bool> {
    map tag | tag in Tags(lines) :: DirtyIn(lines, tag)
  }

  lemma {:induction false} TagCount(lines: seq<Line>)
    requires Unique(lines)
    ensures |Tags(lines)| <= |lines|
    ensures |Tags(lines)| == |lines| <==> forall w :: 0 <= w < |lines| ==> lines[w].valid
  {
    if lines == [] {
      assert Tags(lines) == {};
    } else {
      var n := |lines| - 1;
      var rest := lines[..n];
      TagCount(rest);
      assert forall w :: 0 <= w < n ==> lines[w] == rest[w];
      if lines[n].valid {
        assert Tags(lines) == Tags(rest) + {lines[n].tag};
        assert lines[n].tag !in Tags(rest);
      } else {
        assert Tags(lines) == Tags(rest);
      }
    }
  }

  lemma DirtyAt(lines: seq<Line>, w: nat)
    requires Unique(lines) && w < |lines| && lines[w].valid
    ensures lines[w].tag in Tags(lines)
    ensures DirtyIn(lines, lines[w].tag) <==> lines[w].dirty
  {
    if DirtyIn(lines, lines[w].tag) {
      var v :| 0 <= v < |lines| && lines[v] == Line(lines[w].tag, true, true);
      assert v == w;
    }
    if lines[w].dirty {
      assert lines[w] == Line(lines[w].tag, true, true);
    }
  }

  /** Replacing one line leaves the blocks in the other lines as they were. */
  lemma PutElsewhere(lines: seq<Line>, w: nat, line: Line, tag: nat)
    requires Unique(lines) && w < |lines| && line.valid && tag != line.tag
    ensures tag in Tags(lines[w := line]) <==> tag in Tags(lines) && !Holds(lines[w], tag)
    ensures tag in Tags(lines[w := line]) ==> (DirtyIn(lines[w := line], tag) <==> DirtyIn(lines, tag))
  {
    var lines' := lines[w := line];
    if tag in Tags(lines') {
      var u :| 0 <= u < |lines'| && lines'[u].valid && lines'[u].tag == tag;
      assert lines[u] == lines'[u];
      DirtyAt(lines, u);
      if DirtyIn(lines', tag) {
        var v :| 0 <= v < |lines'| && lines'[v] == Line(tag, true, true);
        assert lines[v] == lines'[v];
      }
      if lines[u].dirty {
        assert lines'[u] == Line(tag, true, true);
      }
    }
    if tag in Tags(lines) && !Holds(lines[w], tag) {
      var u :| 0 <= u < |lines| && lines[u].valid && lines[u].tag == tag;
      assert lines'[u] == lines[u];
    }
  }

  /** Replacing one line of a set without duplicates throws out the block that was there. */
  lemma PutContents(lines: seq<Line>, w: nat, line: Line)
    requires Unique(lines) && w < |lines| && line.valid && Unique(lines[w := line])
    ensures Contents(lines[w := line])
         == (if lines[w].valid then Contents(lines) - {lines[w].tag} else Contents(lines))[line.tag := line.dirty]
  {
    var lines' := lines[w := line];
    DirtyAt(lines', w);
    forall tag | tag != line.tag
      ensures tag in Tags(lines') <==> tag in Tags(lines) && !Holds(lines[w], tag)
      ensures tag in Tags(lines') ==> (DirtyIn(lines', tag) <==> DirtyIn(lines, tag))
    {
      PutElsewhere(lines, w, line, tag);
    }
  }

  lemma AccessMap(s: CacheSet, k: nat, tag: nat, write: bool)
    requires Valid(s, k)
    ensures var w, r := WayFor(s, k, tag), Access(s, k, tag, write);
            var kept := if r.outcome.Evict? || r.outcome.EvictDirty? then Contents(s.lines) - {s.lines[w].tag}
                        else Contents(s.lines);
            Contents(r.next.lines) == kept[tag := (r.outcome.Hit? && s.lines[w].dirty) || write]
  {
    var w, r := WayFor(s, k, tag), Access(s, k, tag, write);
    AccessPut(s, k, tag, write);
    StepValid(s, k, Use(tag, write));
    PutContents(s.lines, w, r.next.lines[w]);
    if r.outcome.Hit? {
      var c := Contents(s.lines);
      assert (c - {tag})[tag := s.lines[w].dirty || write] == c[tag := s.lines[w].dirty || write];
    }
  }

  /** One access as seen on the abstract map from resident blocks to whether they are dirty: a hit
      exactly for a resident block, an eviction exactly when a missing block meets a full set, a
      write-back exactly when the block thrown out is dirty; every other block is untouched. */
  ghost predicate MapStep(ways: nat, c: map<nat, bool>, c': map<nat, bool>, tag: nat, write: bool, out: nat,
                          outcome: Outcome) {
    match outcome
    case Hit => tag in c && c' == c[tag := c[tag] || write]
    case Miss => tag !in c && |c| < ways && c' == c[tag := write]
    case Evict => tag !in c && |c| == ways && out in c && !c[out] && c' == (c - {out})[tag := write]
    case EvictDirty => tag !in c && |c| == ways && out in c && c[out] && c' == (c - {out})[tag := write]
  }

  /** Access refines the abstract map. */
  lemma AccessRefines(s: CacheSet, k: nat, tag: nat, write: bool)
    requires Valid(s, k)
    ensures MapStep(Pow2(k), Contents(s.lines), Contents(Access(s, k, tag, write).next.lines), tag, write,
                    s.lines[Victim(s.tree, k)].tag, Access(s, k, tag, write).outcome)
  {
    AccessMap(s, k, tag, write);
    ResidentCount(s, k, tag);
    var w := WayFor(s, k, tag);
    match Access(s, k, tag, write).outcome
    case Hit => DirtyAt(s.lines, w);
    case Miss =>
    case _ => DirtyAt(s.lines, w);
  }

  lemma ResidentCount(s: CacheSet, k: nat, tag: nat)
    requires Valid(s, k)
    ensures |Contents(s.lines)| <= Pow2(k)
    ensures |Contents(s.lines)| == Pow2(k) <==> FreeWay(s.lines) == Pow2(k)
    ensures tag in Contents(s.lines) <==> HitWay(s.lines, tag) < Pow2(k)
  {
    TagCount(s.lines);
    assert Contents(s.lines).Keys == Tags(s.lines);
    if HitWay(s.lines, tag) < Pow2(k) {
      assert s.lines[HitWay(s.lines, tag)].tag == tag;
    }
  }

  // ----- what invalid lines still contain is never seen

  ghost predicate SameVisible(s: CacheSet, t: CacheSet) {
    && s.tree == t.tree
    && |s.lines| == |t.lines|
    && forall w :: 0 <= w < |s.lines| ==>
         s.lines[w].valid == t.lines[w].valid && (s.lines[w].valid ==> s.lines[w] == t.lines[w])
  }

  lemma AccessIgnoresInvalid(s: CacheSet, t: CacheSet, k: nat, tag: nat, write: bool)
    requires Shaped(s, k) && Shaped(t, k) && SameVisible(s, t)
    ensures Access(s, k, tag, write).outcome == Access(t, k, tag, write).outcome
    ensures SameVisible(Access(s, k, tag, write).next, Access(t, k, tag, write).next)
  {
    assert HitWay(s.lines, tag) == HitWay(t.lines, tag) by {
      SameScan(s.lines, t.lines, HitWay(s.lines, tag), HitWay(t.lines, tag), (line: Line) => Holds(line, tag));
    }
    assert FreeWay(s.lines) == FreeWay(t.lines) by {
      SameScan(s.lines, t.lines, FreeWay(s.lines), FreeWay(t.lines), (line: Line) => !line.valid);
    }
  }

  /** Two scans for a condition that holds at the same ways stop at the same way. */
  lemma SameScan(s: seq<Line>, t: seq<Line>, v: nat, w: nat, found: Line -> bool)
    requires |s| == |t| && v <= |s| && w <= |t|
    requires forall u :: 0 <= u < |s| ==> (found(s[u]) <==> found(t[u]))
    requires (v < |s| ==> found(s[v])) && forall u :: 0 <= u < v ==> !found(s[u])
    requires (w < |t| ==> found(t[w])) && forall u :: 0 <= u < w ==> !found(t[u])
    ensures v == w
  {
  }

  lemma {:induction false} RunIgnoresInvalid(s: CacheSet, t: CacheSet, k: nat, ops: seq<SetOp>)
    requires Shaped(s, k) && Shaped(t, k) && SameVisible(s, t)
    ensures SameVisible(SetRun(s, k, ops), SetRun(t, k, ops))
  {
    if ops != [] {
      var n := |ops| - 1;
      RunIgnoresInvalid(s, t, k, ops[..n]);
      var s', t', op := SetRun(s, k, ops[..n]), SetRun(t, k, ops[..n]), ops[n];
      if op.Use? {
        AccessIgnoresInvalid(s', t', k, op.tag, op.write);
      }
    }
  }

  // ----- the reuse guarantee

  /** The operations that may remove the block. */
  predicate Drops(op: SetOp, tag: nat) {
    op.DropAll? || op.Restart? || (op.Cbo? && op.invalidate && op.tag == tag)
  }

  /** The other blocks used by the operations. */
  ghost function Others(ops: seq<SetOp>, tag: nat): set<nat> {
    set i | 0 <= i < |ops| && ops[i].Use? && ops[i].tag != tag :: ops[i].tag
  }

  ghost function WaysOf(lines: seq<Line>, tags: set<nat>): set<nat> {
    set w | 0 <= w < |lines| && lines[w].tag in tags
  }

  /** The block is in way w, protected by what the other blocks used so far have left behind. */
  ghost predicate Protected(s: CacheSet, k: nat, w: nat, tag: nat, seen: set<nat>)
    requires Shaped(s, k)
  {
    w < Pow2(k) && Holds(s.lines[w], tag) && Guarded(s.tree, k, w, 0, WaysOf(s.lines, seen))
  }

  /** A protected block leaves only when at least k + 1 other blocks have been used. */
  lemma NotVictim(s: CacheSet, k: nat, w: nat, tag: nat, seen: set<nat>, x: nat)
    requires Valid(s, k) && Protected(s, k, w, tag, seen) && tag !in seen
    requires x != tag && |seen + {x}| <= k
    ensures WayFor(s, k, x) != w
  {
    if HitWay(s.lines, x) == Pow2(k) && FreeWay(s.lines) == Pow2(k) && Victim(s.tree, k) == w {
      var guards := GuardCount(s.tree, k, 0, WaysOf(s.lines, seen));
      TagsOfWays(s.lines, guards);
      var tags := TagsAt(s.lines, guards);
      assert tags <= seen && x !in tags;
      assert |tags + {x}| == k + 1;
      SubsetSize(tags + {x}, seen + {x});
    }
  }

  ghost function TagsAt(lines: seq<Line>, ways: set<nat>): set<nat> {
    set u | u in ways && u < |lines| :: lines[u].tag
  }

  lemma {:induction false} TagsOfWays(lines: seq<Line>, ways: set<nat>)
    requires Unique(lines)
    requires forall u :: u in ways ==> u < |lines| && lines[u].valid
    ensures |TagsAt(lines, ways)| == |ways|
    decreases |ways|
  {
    if ways != {} {
      var v :| v in ways;
      var rest := ways - {v};
      TagsOfWays(lines, rest);
      assert TagsAt(lines, ways) == TagsAt(lines, rest) + {lines[v].tag};
      assert lines[v].tag !in TagsAt(lines, rest);
    }
  }

  lemma UseKeepsProtected(s: CacheSet, k: nat, w: nat, tag: nat, seen: set<nat>, x: nat, write: bool)
    requires Valid(s, k) && Protected(s, k, w, tag, seen) && tag !in seen
    requires x != tag ==> |seen + {x}| <= k
    ensures Protected(Access(s, k, x, write).next, k, w, tag, if x == tag then seen else seen + {x})
  {
    var u := WayFor(s, k, x);
    AccessPut(s, k, x, write);
    var s' := Access(s, k, x, write).next;
    if x == tag {
      assert u == w;
      TouchGuards(s.tree, k, w, 0, WaysOf(s'.lines, seen));
    } else {
      NotVictim(s, k, w, tag, seen, x);
      assert s'.lines[u].tag == x;
      var ways, ways' := WaysOf(s.lines, seen), WaysOf(s'.lines, seen + {x});
      assert ways <= ways';
      GuardedMonotone(s.tree, k, w, 0, ways, ways');
      TouchKeepsGuarded(s.tree, k, w, u, 0, ways');
    }
  }

  lemma OthersLast(ops: seq<SetOp>, tag: nat)
    requires ops != []
    ensures var before, op := ops[..|ops| - 1], ops[|ops| - 1];
            && Others(ops, tag)
               == (if op.Use? && op.tag != tag then Others(before, tag) + {op.tag} else Others(before, tag))
            && |Others(before, tag)| <= |Others(ops, tag)|
  {
    var before := ops[..|ops| - 1];
    assert forall i :: 0 <= i < |ops| - 1 ==> ops[i] == before[i];
    SubsetSize(Others(before, tag), Others(ops, tag));
  }

  lemma StepKeepsProtected(s: CacheSet, k: nat, w: nat, tag: nat, seen: set<nat>, op: SetOp)
    requires Valid(s, k) && Protected(s, k, w, tag, seen) && !op.Use? && !Drops(op, tag)
    ensures Protected(SetStep(s, k, op), k, w, tag, seen)
  {
    assert WaysOf(SetStep(s, k, op).lines, seen) == WaysOf(s.lines, seen);
  }

  lemma {:induction false} RunKeepsProtected(s: CacheSet, k: nat, w: nat, tag: nat, ops: seq<SetOp>)
    requires Valid(s, k) && Protected(s, k, w, tag, {})
    requires forall op :: op in ops ==> !Drops(op, tag)
    requires |Others(ops, tag)| <= k
    ensures Protected(SetRun(s, k, ops), k, w, tag, Others(ops, tag))
  {
    if ops == [] {
      assert Others(ops, tag) == {};
    } else {
      var before, op := ops[..|ops| - 1], ops[|ops| - 1];
      OthersLast(ops, tag);
      RunKeepsProtected(s, k, w, tag, before);
      RunValid(s, k, before);
      var t := SetRun(s, k, before);
      if op.Use? {
        UseKeepsProtected(t, k, w, tag, Others(before, tag), op.tag, op.write);
      } else {
        StepKeepsProtected(t, k, w, tag, Others(before, tag), op);
      }
    }
  }

  /** After an access to a block, its next access is a hit as long as at most k = log2(ways)
      distinct other blocks of the set are used in between, any number of times and in any order,
      and nothing invalidates the block. */
  lemma SetReuse(s: CacheSet, k: nat, tag: nat, write: bool, ops: seq<SetOp>, write': bool)
    requires Valid(s, k)
    requires forall op :: op in ops ==> !Drops(op, tag)
    requires |Others(ops, tag)| <= k
    ensures Access(SetRun(Access(s, k, tag, write).next, k, ops), k, tag, write').outcome == Hit
  {
    var s' := Access(s, k, tag, write).next;
    var w := WayFor(s, k, tag);
    AccessPut(s, k, tag, write);
    StepValid(s, k, Use(tag, write));
    TouchGuards(s.tree, k, w, 0, WaysOf(s'.lines, {}));
    RunKeepsProtected(s', k, w, tag, ops);
  }

  // ----- the bound k is exact

  /** Ways whose accesses, in this order, turn every node on the path to w towards w. */
  function Pointing(h: nat, w: nat): (us: seq<nat>)
    requires w < Pow2(h)
    ensures |us| == h
    ensures forall i :: 0 <= i < h ==> us[i] < Pow2(h) && us[i] != w
    ensures forall i, j :: 0 <= i < j < h ==> us[i] != us[j]
  {
    if h == 0 then []
    else
      var half := Pow2(h - 1);
      if w < half then Pointing(h - 1, w) + [half]
      else
        var us := Pointing(h - 1, w - half);
        seq(h - 1, i requires 0 <= i < h - 1 => half + us[i]) + [0]
  }

  function TouchAll(t: Tree, h: nat, us: seq<nat>): (t': Tree)
    requires Perfect(t, h) && forall i :: 0 <= i < |us| ==> us[i] < Pow2(h)
    ensures Perfect(t', h)
  {
    if us == [] then t else Touch(TouchAll(t, h, us[..|us| - 1]), h, us[|us| - 1])
  }

  lemma {:induction false} TouchAllLeft(t: Tree, h: nat, us: seq<nat>)
    requires h > 0 && Perfect(t, h) && forall i :: 0 <= i < |us| ==> us[i] < Pow2(h - 1)
    ensures TouchAll(t, h, us).left == TouchAll(t.left, h - 1, us)
  {
    if us != [] {
      TouchAllLeft(t, h, us[..|us| - 1]);
    }
  }

  lemma {:induction false} TouchAllRight(t: Tree, h: nat, us: seq<nat>, vs: seq<nat>)
    requires h > 0 && Perfect(t, h) && |us| == |vs|
    requires forall i :: 0 <= i < |us| ==> us[i] < Pow2(h - 1) && vs[i] == Pow2(h - 1) + us[i]
    ensures TouchAll(t, h, vs).right == TouchAll(t.right, h - 1, us)
  {
    if us != [] {
      TouchAllRight(t, h, us[..|us| - 1], vs[..|us| - 1]);
    }
  }

  lemma {:induction false} TouchAllLast(t: Tree, h: nat, us: seq<nat>)
    requires Perfect(t, h) && us != [] && forall i :: 0 <= i < |us| ==> us[i] < Pow2(h)
    ensures TouchAll(t, h, us) == Touch(TouchAll(t, h, us[..|us| - 1]), h, us[|us| - 1])
  {
  }

  /** An access in one half sends the next victim into the other. */
  lemma {:induction false} VictimOpposite(t: Tree, h: nat, u: nat)
    requires h > 0 && Perfect(t, h) && u < Pow2(h)
    ensures u >= Pow2(h - 1) ==> Victim(Touch(t, h, u), h) == Victim(t.left, h - 1)
    ensures u < Pow2(h - 1) ==> Victim(Touch(t, h, u), h) == Pow2(h - 1) + Victim(t.right, h - 1)
  {
  }

  lemma PointingLeft(h: nat, w: nat)
    requires h > 0 && w < Pow2(h - 1)
    ensures w < Pow2(h) && Pointing(h, w)[..h - 1] == Pointing(h - 1, w) && Pointing(h, w)[h - 1] == Pow2(h - 1)
  {
  }

  lemma {:induction false} PointingSelects(t: Tree, h: nat, w: nat)
    requires Perfect(t, h) && w < Pow2(h)
    ensures Victim(TouchAll(t, h, Pointing(h, w)), h) == w
  {
    hide Victim, Touch, TouchAll, Pointing;
    if h == 0 {
      OnlyWay(t, w);
    } else {
      var half, us := Pow2(h - 1), Pointing(h, w);
      var first, last := us[..h - 1], us[h - 1];
      TouchAllLast(t, h, us);
      VictimOpposite(TouchAll(t, h, first), h, last);
      if w < half {
        PointingLeft(h, w);
        TouchAllLeft(t, h, first);
        PointingSelects(t.left, h - 1, w);
      } else {
        var inner := Pointing(h - 1, w - half);
        PointingRight(h, w, first, inner);
        TouchAllRight(t, h, inner, first);
        PointingSelects(t.right, h - 1, w - half);
      }
    }
  }

  lemma {:induction false} OnlyWay(t: Tree, w: nat)
    requires Perfect(t, 0) && w < Pow2(0)
    ensures Victim(TouchAll(t, 0, Pointing(0, w)), 0) == w
  {
  }

  lemma PointingRight(h: nat, w: nat, first: seq<nat>, inner: seq<nat>)
    requires h > 0 && Pow2(h - 1) <= w < Pow2(h)
    requires first == Pointing(h, w)[..h - 1] && inner == Pointing(h - 1, w - Pow2(h - 1))
    ensures Pointing(h, w)[h - 1] == 0 && |first| == |inner|
    ensures forall i :: 0 <= i < |inner| ==> inner[i] < Pow2(h - 1) && first[i] == Pow2(h - 1) + inner[i]
  {
  }

  /** Read accesses to the blocks in the given ways. */
  function Reads(lines: seq<Line>, ways: seq<nat>): (ops: seq<SetOp>)
    requires forall i :: 0 <= i < |ways| ==> ways[i] < |lines|
    ensures |ops| == |ways| && forall i :: 0 <= i < |ops| ==> ops[i] == Use(lines[ways[i]].tag, false)
  {
    seq(|ways|, i requires 0 <= i < |ways| => Use(lines[ways[i]].tag, false))
  }

  ghost predicate Full(s: CacheSet) {
    forall w :: 0 <= w < |s.lines| ==> s.lines[w].valid
  }

  lemma {:induction false} ReadsTouch(s: CacheSet, k: nat, ways: seq<nat>)
    requires Valid(s, k) && Full(s) && forall i :: 0 <= i < |ways| ==> ways[i] < Pow2(k)
    ensures SetRun(s, k, Reads(s.lines, ways)) == CacheSet(s.lines, TouchAll(s.tree, k, ways))
  {
    if ways != [] {
      var n := |ways| - 1;
      ReadsTouch(s, k, ways[..n]);
      assert Reads(s.lines, ways)[..n] == Reads(s.lines, ways[..n]);
      var t := CacheSet(s.lines, TouchAll(s.tree, k, ways[..n]));
      var tag := s.lines[ways[n]].tag;
      assert HitWay(t.lines, tag) == ways[n];
      assert Access(t, k, tag, false).next.lines == s.lines;
    }
  }

  /** In a full set, any resident block can be evicted by using k + 1 distinct other blocks: k
      resident ones and one new one. */
  lemma ReuseIsTight(s: CacheSet, k: nat, w: nat, x: nat) returns (ops: seq<SetOp>)
    requires Valid(s, k) && Full(s) && w < Pow2(k) && x !in Tags(s.lines)
    ensures |ops| == k + 1 && forall i :: 0 <= i < |ops| ==> ops[i].Use? && ops[i].tag != s.lines[w].tag
    ensures forall i, j :: 0 <= i < j < |ops| ==> ops[i].tag != ops[j].tag
    ensures s.lines[w].tag !in Tags(SetRun(s, k, ops).lines)
  {
    var uses := Reads(s.lines, Pointing(k, w));
    ops := uses + [Use(x, false)];
    assert forall i :: 0 <= i < k ==> ops[i] == uses[i];
    PointingTags(s, k, w);
    PointingEvicts(s, k, w, x);
  }

  lemma PointingEvicts(s: CacheSet, k: nat, w: nat, x: nat)
    requires Valid(s, k) && Full(s) && w < Pow2(k) && x !in Tags(s.lines)
    ensures s.lines[w].tag !in Tags(SetRun(s, k, Reads(s.lines, Pointing(k, w)) + [Use(x, false)]).lines)
  {
    var uses := Reads(s.lines, Pointing(k, w));
    var t := CacheSet(s.lines, TouchAll(s.tree, k, Pointing(k, w)));
    assert SetRun(s, k, uses + [Use(x, false)]) == SetStep(t, k, Use(x, false)) by {
      RunLast(s, k, uses, Use(x, false));
      ReadsTouch(s, k, Pointing(k, w));
    }
    assert Victim(t.tree, k) == w by {
      PointingSelects(s.tree, k, w);
    }
    EvictedGone(t, k, x);
  }

  lemma EvictedGone(s: CacheSet, k: nat, x: nat)
    requires Valid(s, k) && Full(s) && x !in Tags(s.lines)
    ensures s.lines[Victim(s.tree, k)].tag !in Tags(SetStep(s, k, Use(x, false)).lines)
  {
    var w := Victim(s.tree, k);
    MissEvicts(s, k, x, false);
    assert s.lines[w].tag in Tags(s.lines);
    PutElsewhere(s.lines, w, Line(x, true, false), s.lines[w].tag);
  }

  lemma PointingTags(s: CacheSet, k: nat, w: nat)
    requires Valid(s, k) && Full(s) && w < Pow2(k)
    ensures var ways := Pointing(k, w);
            && (forall i :: 0 <= i < k ==>
                              s.lines[ways[i]].tag in Tags(s.lines) && s.lines[ways[i]].tag != s.lines[w].tag)
            && (forall i, j :: 0 <= i < j < k ==> s.lines[ways[i]].tag != s.lines[ways[j]].tag)
  {
    var ways := Pointing(k, w);
    forall i, j | 0 <= i < j < k
      ensures s.lines[ways[i]].tag != s.lines[ways[j]].tag
    {
      assert ways[i] != ways[j];
    }
  }

  /** A new block used in a full set replaces the victim. */
  lemma MissEvicts(s: CacheSet, k: nat, x: nat, write: bool)
    requires Shaped(s, k) && Full(s) && x !in Tags(s.lines)
    ensures var v := Victim(s.tree, k);
            && Access(s, k, x, write).next == CacheSet(s.lines[v := Line(x, true, write)], Rotate(s.tree, k))
            && Access(s, k, x, write).outcome == if s.lines[v].dirty then EvictDirty else Evict
  {
    assert forall w :: 0 <= w < |s.lines| ==> s.lines[w].tag in Tags(s.lines);
  }
}
