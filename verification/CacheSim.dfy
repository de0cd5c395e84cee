/** The cache simulator: the whole cache as a list of sets, the addresses, the operations of a log,
    and the class whose methods update lines and replacement bits in place. */
module CacheSim {
  import opened Powers
  import opened PseudoLru
  import opened PlruBits
  import opened CacheModel
  import opened CacheHistory

  // ----- addresses

  /** 2^k ways, and the lengths in bits of the three fields of an address. */
  datatype Geometry = Geometry(k: nat, setlen: nat, taglen: nat, offsetlen: nat) {
    function SetOf(addr: nat): (r: nat)
      ensures r < Pow2(setlen)
    {
      LowBits(Shr(addr, offsetlen), setlen)
    }

    function TagOf(addr: nat): (r: nat)
      ensures r < Pow2(taglen)
    {
      LowBits(Shr(addr, setlen + offsetlen), taglen)
    }

    function OffsetOf(addr: nat): (r: nat)
      ensures r < Pow2(offsetlen)
    {
      LowBits(addr, offsetlen)
    }
  }

  /** Tag, set and offset together are the bits of the address up to its length: none of them is lost. */
  lemma SplitIsExact(g: Geometry, addr: nat)
    ensures var n := g.offsetlen + (g.setlen + g.taglen);
            var parts := Shl(Shl(g.TagOf(addr), g.setlen) + g.SetOf(addr), g.offsetlen) + g.OffsetOf(addr);
            parts == LowBits(addr, n) && (addr < Pow2(n) ==> parts == addr)
  {
    hide LowBits, Shr, Shl, Pow2;
    BlockSplit(g, addr);
    LowJoin(addr, g.offsetlen, g.setlen + g.taglen);
    if addr < Pow2(g.offsetlen + (g.setlen + g.taglen)) {
      LowBitsSmall(addr, g.offsetlen + (g.setlen + g.taglen));
    }
  }

  lemma BlockSplit(g: Geometry, addr: nat)
    ensures LowBits(Shr(addr, g.offsetlen), g.setlen + g.taglen) == Shl(g.TagOf(addr), g.setlen) + g.SetOf(addr)
  {
    hide LowBits, Shr, Shl;
    ShrShr(addr, g.offsetlen, g.setlen);
    assert g.offsetlen + g.setlen == g.setlen + g.offsetlen;
    LowJoin(Shr(addr, g.offsetlen), g.setlen, g.taglen);
  }

  /** Two addresses are looked up as the same block exactly when they agree above the offset, up to their
      length. */
  lemma SameBlock(g: Geometry, a: nat, b: nat)
    ensures g.TagOf(a) == g.TagOf(b) && g.SetOf(a) == g.SetOf(b) <==>
            LowBits(Shr(a, g.offsetlen), g.setlen + g.taglen) == LowBits(Shr(b, g.offsetlen), g.setlen + g.taglen)
    ensures a < Pow2(g.offsetlen + (g.setlen + g.taglen)) && b < Pow2(g.offsetlen + (g.setlen + g.taglen)) ==>
              (g.TagOf(a) == g.TagOf(b) && g.SetOf(a) == g.SetOf(b) <==> Shr(a, g.offsetlen) == Shr(b, g.offsetlen))
  {
    hide LowBits, Shr, Shl, Pow2;
    if a < Pow2(g.offsetlen + (g.setlen + g.taglen)) && b < Pow2(g.offsetlen + (g.setlen + g.taglen)) {
      ShrBound(a, g.offsetlen, g.setlen + g.taglen);
      ShrBound(b, g.offsetlen, g.setlen + g.taglen);
      LowBitsSmall(Shr(a, g.offsetlen), g.setlen + g.taglen);
      LowBitsSmall(Shr(b, g.offsetlen), g.setlen + g.taglen);
    }
    BlockSplit(g, a);
    BlockSplit(g, b);
    ShrJoin(g.TagOf(a), g.SetOf(a), g.setlen);
    ShrJoin(g.TagOf(b), g.SetOf(b), g.setlen);
  }

  // ----- operations on the whole cache

  datatype Op =
    | Flush
    | Invalidate
    | NewTest
    | CboOp(addr: nat, invalidate: bool)
    | AccessOp(addr: nat, write: bool)

  /** What an operation does to set j. */
  function OnSet(g: Geometry, op: Op, j: nat): SetOp {
    match op
    case Flush => CleanAll
    case Invalidate => DropAll
    case NewTest => Restart
    case CboOp(addr, invalidate) => if g.SetOf(addr) == j then Cbo(g.TagOf(addr), invalidate) else Idle
    case AccessOp(addr, write) => if g.SetOf(addr) == j then Use(g.TagOf(addr), write) else Idle
  }

  function OpsOnSet(g: Geometry, ops: seq<Op>, j: nat): (r: seq<SetOp>)
    ensures |r| == |ops| && forall i :: 0 <= i < |r| ==> r[i] == OnSet(g, ops[i], j)
  {
    seq(|ops|, i requires 0 <= i < |ops| => OnSet(g, ops[i], j))
  }

  predicate WellShaped(g: Geometry, c: seq<CacheSet>) {
    |c| == Pow2(g.setlen) && forall j :: 0 <= j < |c| ==> Shaped(c[j], g.k)
  }

  ghost predicate AllValid(g: Geometry, c: seq<CacheSet>) {
    |c| == Pow2(g.setlen) && forall j :: 0 <= j < |c| ==> CacheModel.Valid(c[j], g.k)
  }

  function Step(g: Geometry, c: seq<CacheSet>, op: Op): (c': seq<CacheSet>)
    requires WellShaped(g, c)
    ensures WellShaped(g, c')
  {
    seq(|c|, j requires 0 <= j < |c| => SetStep(c[j], g.k, OnSet(g, op, j)))
  }

  function Run(g: Geometry, c: seq<CacheSet>, ops: seq<Op>): (c': seq<CacheSet>)
    requires WellShaped(g, c)
    ensures WellShaped(g, c')
  {
    if ops == [] then c else Step(g, Run(g, c, ops[..|ops| - 1]), ops[|ops| - 1])
  }

  function OutcomeOf(g: Geometry, c: seq<CacheSet>, addr: nat, write: bool): Outcome
    requires WellShaped(g, c)
  {
    Access(c[g.SetOf(addr)], g.k, g.TagOf(addr), write).outcome
  }

  lemma {:induction false} RunBySet(g: Geometry, c: seq<CacheSet>, ops: seq<Op>, j: nat)
    requires WellShaped(g, c) && j < |c|
    ensures Run(g, c, ops)[j] == SetRun(c[j], g.k, OpsOnSet(g, ops, j))
  {
    if ops != [] {
      RunBySet(g, c, ops[..|ops| - 1], j);
      assert OpsOnSet(g, ops, j)[..|ops| - 1] == OpsOnSet(g, ops[..|ops| - 1], j);
    }
  }

  /** The distinct other blocks of addr's set that the operations access. */
  ghost function Competitors(g: Geometry, ops: seq<Op>, addr: nat): set<nat> {
    set i | 0 <= i < |ops| && ops[i].AccessOp? && g.SetOf(ops[i].addr) == g.SetOf(addr)
            && g.TagOf(ops[i].addr) != g.TagOf(addr) :: g.TagOf(ops[i].addr)
  }

  /** The operations that may take addr's block out of the cache. */
  predicate Removes(g: Geometry, op: Op, addr: nat) {
    op.Invalidate? || op.NewTest? ||
    (op.CboOp? && op.invalidate && g.SetOf(op.addr) == g.SetOf(addr) && g.TagOf(op.addr) == g.TagOf(addr))
  }

  lemma CompetitorsOnSet(g: Geometry, ops: seq<Op>, addr: nat)
    ensures var sops := OpsOnSet(g, ops, g.SetOf(addr));
            && Others(sops, g.TagOf(addr)) == Competitors(g, ops, addr)
            && ((forall i :: 0 <= i < |ops| ==> !Removes(g, ops[i], addr)) ==>
                  forall op :: op in sops ==> !Drops(op, g.TagOf(addr)))
  {
    var sops := OpsOnSet(g, ops, g.SetOf(addr));
    assert forall i :: 0 <= i < |ops| ==> sops[i] == OnSet(g, ops[i], g.SetOf(addr));
  }

  /** The reuse guarantee of tree pseudo-LRU, from any state without duplicates: if between two
      accesses to a block at most log2(ways) distinct other blocks of its set are accessed, any
      number of times, and nothing invalidates the block, then the second access is a hit. */
  lemma ReuseGuarantee(g: Geometry, c: seq<CacheSet>, addr: nat, write: bool, ops: seq<Op>, addr': nat, write': bool)
    requires WellShaped(g, c) && AllValid(g, c)
    requires g.SetOf(addr') == g.SetOf(addr) && g.TagOf(addr') == g.TagOf(addr)
    requires forall i :: 0 <= i < |ops| ==> !Removes(g, ops[i], addr)
    requires |Competitors(g, ops, addr)| <= g.k
    ensures OutcomeOf(g, Run(g, Step(g, c, AccessOp(addr, write)), ops), addr', write') == Hit
  {
    var j, tag := g.SetOf(addr), g.TagOf(addr);
    var c' := Step(g, c, AccessOp(addr, write));
    RunBySet(g, c', ops, j);
    var sops := OpsOnSet(g, ops, j);
    CompetitorsOnSet(g, ops, addr);
    SetReuse(c[j], g.k, tag, write, sops, write');
  }

  /** No operation ever puts one block in two ways. */
  lemma {:induction false} NeverDuplicates(g: Geometry, c: seq<CacheSet>, ops: seq<Op>)
    requires WellShaped(g, c) && AllValid(g, c)
    ensures AllValid(g, Run(g, c, ops))
  {
    forall j | 0 <= j < |c|
      ensures CacheModel.Valid(Run(g, c, ops)[j], g.k)
    {
      RunBySet(g, c, ops, j);
      RunValid(c[j], g.k, OpsOnSet(g, ops, j));
    }
  }

  /** The contents of invalid lines never show in an outcome. */
  lemma InvalidLinesNeverShow(g: Geometry, c: seq<CacheSet>, d: seq<CacheSet>, ops: seq<Op>, addr: nat, write: bool)
    requires WellShaped(g, c) && WellShaped(g, d)
    requires forall j :: 0 <= j < |c| ==> SameVisible(c[j], d[j])
    ensures OutcomeOf(g, Run(g, c, ops), addr, write) == OutcomeOf(g, Run(g, d, ops), addr, write)
  {
    var j := g.SetOf(addr);
    RunBySet(g, c, ops, j);
    RunBySet(g, d, ops, j);
    RunIgnoresInvalid(c[j], d[j], g.k, OpsOnSet(g, ops, j));
    AccessIgnoresInvalid(Run(g, c, ops)[j], Run(g, d, ops)[j], g.k, g.TagOf(addr), write);
  }

  // ----- from the empty cache

  function Empty(g: Geometry): (c: seq<CacheSet>)
    ensures WellShaped(g, c)
  {
    seq(Pow2(g.setlen), _ => CacheSet(seq(Pow2(g.k), _ => Line(0, false, false)), Zeros(g.k)))
  }

  /** What an observer has seen happen to set j. */
  function Observed(g: Geometry, ops: seq<Op>, j: nat): seq<Event>
    requires j < Pow2(g.setlen)
  {
    History(Empty(g)[j], g.k, OpsOnSet(g, ops, j))
  }

  lemma EmptySet(g: Geometry, j: nat)
    requires j < Pow2(g.setlen)
    ensures CacheModel.Valid(Empty(g)[j], g.k) && AllClean(Empty(g)[j]) && DirtyTags(Empty(g)[j].lines) == {}
  {
  }

  /** In every reachable state, an access that evicts reports a write-back exactly when the block
      it throws out was written since its last fill, flush or clean. */
  lemma WriteBacksAreExact(g: Geometry, ops: seq<Op>, addr: nat, write: bool)
    ensures var target := Run(g, Empty(g), ops)[g.SetOf(addr)];
            var outcome := OutcomeOf(g, Run(g, Empty(g), ops), addr, write);
            outcome.Evict? || outcome.EvictDirty? ==>
              (outcome.EvictDirty? <==>
                 Written(Observed(g, ops, g.SetOf(addr)), target.lines[Victim(target.tree, g.k)].tag))
  {
    var j := g.SetOf(addr);
    EmptySet(g, j);
    RunBySet(g, Empty(g), ops, j);
    WriteBackExact(Empty(g)[j], g.k, OpsOnSet(g, ops, j), g.TagOf(addr), write);
  }

  /** In every reachable state and for every set: the blocks that became dirty are the ones written
      back, cleaned or discarded, and the ones still dirty and resident. */
  lemma DirtyBlocksAreConserved(g: Geometry, ops: seq<Op>, j: nat)
    requires j < Pow2(g.setlen)
    ensures var t := TallyRun(Empty(g)[j], g.k, OpsOnSet(g, ops, j));
            t.dirtied == t.writtenBack + t.cleaned + t.discarded + |DirtyTags(Run(g, Empty(g), ops)[j].lines)|
  {
    EmptySet(g, j);
    RunBySet(g, Empty(g), ops, j);
    DirtyConserved(Empty(g)[j], g.k, OpsOnSet(g, ops, j));
  }

  // ----- the log

  /** A line of the log: the start of a test, another line without an address, or an operation with
      its address, its kind and the outcome that the hardware reported. */
  datatype LogLine = TestStart | Comment | Entry(addr: nat, kind: string, reported: string)

  function Letter(o: Outcome): string {
    match o
    case Hit => "H"
    case Miss => "M"
    case Evict => "E"
    case EvictDirty => "D"
  }

  function OpOf(line: LogLine): (r: seq<Op>) {
    match line
    case TestStart => [NewTest]
    case Comment => []
    case Entry(addr, kind, _) =>
      if kind == "F" then [Flush]
      else if kind == "I" then [Invalidate]
      else if kind == "V" || kind == "L" || kind == "C" then [CboOp(addr, kind != "C")]
      else [AccessOp(addr, kind == "W" || kind == "A" || kind == "Z")]
  }

  function OpsOf(log: seq<LogLine>): seq<Op> {
    if log == [] then [] else OpsOf(log[..|log| - 1]) + OpOf(log[|log| - 1])
  }

  /** The accesses whose outcome differs from the reported one. */
  function Mismatches(g: Geometry, c: seq<CacheSet>, log: seq<LogLine>): nat
    requires WellShaped(g, c)
  {
    if log == [] then 0
    else
      var before, line := log[..|log| - 1], log[|log| - 1];
      var op := OpOf(line);
      Mismatches(g, c, before) +
      if op != [] && op[0].AccessOp?
         && Letter(OutcomeOf(g, Run(g, c, OpsOf(before)), op[0].addr, op[0].write)) != line.reported
      then 1 else 0
  }

  // ----- the simulator

  class CacheLine {
    var tag: nat
    var valid: bool
    var dirty: bool

    constructor ()
      ensures tag == 0 && !valid && !dirty
    {
      tag, valid, dirty := 0, false, false;
    }

    ghost function Value(): Line
      reads this
    {
      Line(tag, valid, dirty)
    }
  }

  function Log2(n: nat): nat
    requires n > 0
  {
    if n == 1 then 0 else 1 + Log2(n / 2)
  }

  /** What the simulator's arguments must be. */
  predicate PowerOfTwo(n: nat) {
    n > 0 && n == Pow2(Log2(n))
  }

  lemma {:induction false} Log2Pow2(k: nat)
    ensures Log2(Pow2(k)) == k
  {
    if k > 0 {
      Log2Pow2(k - 1);
    }
  }

  /** Every power of two is accepted, and nothing else. */
  lemma {:induction false} PowersAccepted(n: nat)
    ensures PowerOfTwo(n) <==> exists k: nat :: n == Pow2(k)
  {
    hide Pow2, Log2;
    if k: nat :| n == Pow2(k) {
      Log2Pow2(k);
    }
  }

  /** A table of different fresh lines, all in the set. */
  ghost predicate Grid(rows: seq<seq<CacheLine>>, n: nat, all: set<CacheLine>)
    reads all
  {
    && (forall i :: 0 <= i < |rows| ==> |rows[i]| == n)
    && (forall i, j :: 0 <= i < |rows| && 0 <= j < n ==>
                         rows[i][j] in all && rows[i][j].Value() == Line(0, false, false))
    && (forall i, j, i', j' :: 0 <= i < |rows| && 0 <= j < n && 0 <= i' < |rows| && 0 <= j' < n ==>
                                 rows[i][j] == rows[i'][j'] ==> i == i' && j == j')
  }

  ghost predicate NewRow(row: seq<CacheLine>, before: set<CacheLine>, all: set<CacheLine>)
    reads all
  {
    && (forall j :: 0 <= j < |row| ==> row[j] in all && row[j] !in before && row[j].Value() == Line(0, false, false))
    && (forall j, j' :: 0 <= j < j' < |row| ==> row[j] != row[j'])
  }

  function ZeroTrees(c: seq<CacheSet>, k: nat): (c': seq<CacheSet>)
    ensures |c'| == |c| && forall j :: 0 <= j < |c| ==> c'[j] == CacheSet(c[j].lines, Zeros(k))
  {
    seq(|c|, j requires 0 <= j < |c| => CacheSet(c[j].lines, Zeros(k)))
  }

  /** Walk from the way's node on the bottom row to the root, turning every bit away from the way. */
  method MarkPath(bits: seq<Bit>, numways: nat, waynum: nat, ghost k: nat) returns (tree: seq<Bit>)
    requires numways == Pow2(k) && k > 0 && |bits| == numways - 1 && waynum < numways
    ensures |tree| == |bits| && Perfect(TreeAt(bits, 0), k)
    ensures TreeAt(tree, 0) == Touch(TreeAt(bits, 0), k, waynum)
  {
    tree := bits;
    var bottomrow := (numways - 1) / 2;
    var index: nat := waynum / 2 + bottomrow;
    ghost var d: nat, q: nat, h: nat, r: nat := k - 1, waynum / 2, 1, waynum % 2;
    WalkStart(tree, k, waynum);
    tree := tree[index := 1 - waynum % 2];
    while index > 0
      invariant Walking(bits, tree, k, index, d, q, h, r, waynum)
      decreases index
    {
      var parent := (index - 1) / 2;
      WalkUp(bits, tree, k, index, d, q, h, r, waynum);
      tree := tree[parent := index % 2];
      index := parent;
      d, q, h, r := d - 1, q / 2, h + 1, Widen(q % 2, h, r);
    }
    WalkEnd(bits, tree, k, d, q, h, r, waynum);
  }

  class Cache {
    const numways: nat
    const numsets: nat
    const addrlen: nat
    const taglen: nat
    const setlen: nat
    const offsetlen: nat
    const ways: seq<seq<CacheLine>>
    var pLRU: seq<seq<Bit>>

    ghost const g: Geometry
    ghost const Lines: set<CacheLine>
    ghost var Sets: seq<CacheSet>

    ghost predicate Fixed() {
      && g == Geometry(g.k, setlen, taglen, offsetlen)
      && numways == Pow2(g.k)
      && numsets == Pow2(setlen)
      && |ways| == numways
      && (forall i :: 0 <= i < numways ==> |ways[i]| == numsets)
      && (forall i, j :: 0 <= i < numways && 0 <= j < numsets ==> ways[i][j] in Lines)
      && (forall i, j, i', j' :: 0 <= i < numways && 0 <= j < numsets && 0 <= i' < numways && 0 <= j' < numsets ==>
                                   ways[i][j] == ways[i'][j'] ==> i == i' && j == j')
    }

    /** Every bit list has an entry for each inner node, and all are 0. */
    ghost predicate AllZero()
      reads this
    {
      && |pLRU| == numsets
      && forall j :: 0 <= j < numsets ==>
                       |pLRU[j]| == numways - 1 && forall n :: 0 <= n < numways - 1 ==> pLRU[j][n] == 0
    }

    /** Sets is what the lines and the replacement bits say. */
    ghost predicate Valid()
      reads this, Lines
    {
      && Fixed()
      && |pLRU| == numsets
      && WellShaped(g, Sets)
      && (forall j :: 0 <= j < numsets ==> |pLRU[j]| == numways - 1 && Sets[j].tree == TreeAt(pLRU[j], 0))
      && (forall i, j :: 0 <= i < numways && 0 <= j < numsets ==> ways[i][j].Value() == Sets[j].lines[i])
    }

    /** numsets and numways must be powers of two, and all three fields of an address nonempty. */
    constructor (numsets: nat, numways: nat, addrlen: nat, taglen: nat)
      requires numsets > 1 && PowerOfTwo(numsets)
      requires PowerOfTwo(numways)
      requires taglen > 0 && addrlen > taglen + Log2(numsets)
      ensures Valid() && fresh(Lines)
      ensures g == Geometry(Log2(numways), Log2(numsets), taglen, addrlen - taglen - Log2(numsets))
      ensures Sets == Empty(g)
      ensures this.numways == numways && this.numsets == numsets && this.addrlen == addrlen && this.taglen == taglen
      ensures numsets == Pow2(setlen) && setlen + taglen + offsetlen == addrlen
      ensures forall a, j :: 0 <= a < numways && 0 <= j < numsets ==>
                ways[a][j].tag == 0 && !ways[a][j].valid && !ways[a][j].dirty
      ensures AllZero()
    {
      this.numways := numways;
      this.numsets := numsets;
      this.addrlen := addrlen;
      this.taglen := taglen;
      this.setlen := Log2(numsets);
      this.offsetlen := addrlen - taglen - Log2(numsets);
      var rows: seq<seq<CacheLine>> := [];
      ghost var all: set<CacheLine> := {};
      var i := 0;
      while i < numways
        invariant 0 <= i <= numways && |rows| == i
        invariant fresh(all)
        invariant Grid(rows, numsets, all)
      {
        var row: seq<CacheLine> := [];
        ghost var before := all;
        var n := 0;
        while n < numsets
          invariant 0 <= n <= numsets && |row| == n
          invariant before <= all && fresh(all)
          invariant Grid(rows, numsets, before)
          invariant NewRow(row, before, all)
        {
          var line := new CacheLine();
          row := row + [line];
          all := all + {line};
          n := n + 1;
        }
        rows := rows + [row];
        i := i + 1;
      }
      ways := rows;
      pLRU := seq(numsets, _ => seq(numways - 1, _ => 0));
      g := Geometry(Log2(numways), Log2(numsets), taglen, addrlen - taglen - Log2(numsets));
      Lines := all;
      Sets := Empty(Geometry(Log2(numways), Log2(numsets), taglen, addrlen - taglen - Log2(numsets)));
      new;
      ZerosAt(seq(numways - 1, _ => 0), Log2(numways), 0, 0);
    }

    method Flush()
      requires Valid()
      modifies this, Lines
      ensures Valid() && Sets == Step(g, old(Sets), Op.Flush)
      ensures pLRU == old(pLRU)
      ensures forall a, j :: 0 <= a < numways && 0 <= j < numsets ==>
                !ways[a][j].dirty && ways[a][j].tag == old(ways[a][j].tag) && ways[a][j].valid == old(ways[a][j].valid)
    {
      var i := 0;
      while i < numways
        invariant 0 <= i <= numways
        invariant pLRU == old(pLRU) && Sets == old(Sets)
        invariant forall a, j :: 0 <= a < numways && 0 <= j < numsets ==>
                    ways[a][j].Value() == if a < i then Cleaned(Sets[j].lines[a]) else Sets[j].lines[a]
      {
        var way := ways[i];
        var w := 0;
        while w < |way|
          invariant 0 <= w <= |way|
          invariant pLRU == old(pLRU) && Sets == old(Sets)
          invariant forall a, j :: 0 <= a < numways && 0 <= j < numsets ==>
                      ways[a][j].Value() ==
                        if a < i || (a == i && j < w) then Cleaned(Sets[j].lines[a]) else Sets[j].lines[a]
        {
          way[w].dirty := false;
          w := w + 1;
        }
        i := i + 1;
      }
      forall a, j | 0 <= a < numways && 0 <= j < numsets
        ensures !ways[a][j].dirty && ways[a][j].tag == old(ways[a][j].tag) && ways[a][j].valid == old(ways[a][j].valid)
      {
        assert ways[a][j].Value() == Cleaned(Sets[j].lines[a]) && old(ways[a][j].Value()) == Sets[j].lines[a];
      }
      Sets := Step(g, Sets, Op.Flush);
    }

    method Invalidate()
      requires Valid()
      modifies Lines, this`Sets
      ensures Valid() && Sets == Step(g, old(Sets), Op.Invalidate)
      ensures forall a, j :: 0 <= a < numways && 0 <= j < numsets ==>
                !ways[a][j].valid && ways[a][j].tag == old(ways[a][j].tag) && ways[a][j].dirty == old(ways[a][j].dirty)
    {
      var i := 0;
      while i < numways
        invariant 0 <= i <= numways
        invariant Sets == old(Sets)
        invariant forall a, j :: 0 <= a < numways && 0 <= j < numsets ==>
                    ways[a][j].Value() == if a < i then Dropped(Sets[j].lines[a]) else Sets[j].lines[a]
      {
        var way := ways[i];
        var w := 0;
        while w < |way|
          invariant 0 <= w <= |way|
          invariant Sets == old(Sets)
          invariant forall a, j :: 0 <= a < numways && 0 <= j < numsets ==>
                      ways[a][j].Value() ==
                        if a < i || (a == i && j < w) then Dropped(Sets[j].lines[a]) else Sets[j].lines[a]
        {
          way[w].valid := false;
          w := w + 1;
        }
        i := i + 1;
      }
      forall a, j | 0 <= a < numways && 0 <= j < numsets
        ensures !ways[a][j].valid && ways[a][j].tag == old(ways[a][j].tag) && ways[a][j].dirty == old(ways[a][j].dirty)
      {
        assert ways[a][j].Value() == Dropped(Sets[j].lines[a]) && old(ways[a][j].Value()) == Sets[j].lines[a];
      }
      Sets := Step(g, Sets, Op.Invalidate);
    }

    /** Every replacement bit becomes 0. */
    method ClearPLRU()
      requires Valid()
      modifies this`pLRU, this`Sets
      ensures Valid()
      ensures Sets == ZeroTrees(old(Sets), g.k) && AllZero()
    {
      pLRU := [];
      var n := 0;
      while n < numsets
        invariant 0 <= n <= numsets && |pLRU| == n
        invariant forall j :: 0 <= j < n ==> pLRU[j] == seq(numways - 1, _ => 0)
        invariant Sets == old(Sets)
      {
        pLRU := pLRU + [seq(numways - 1, _ => 0)];
        n := n + 1;
      }
      ZerosAt(seq(numways - 1, _ => 0), g.k, 0, 0);
      Sets := ZeroTrees(Sets, g.k);
    }

    function SplitAddr(addr: nat): (r: (nat, nat, nat))
      requires Fixed()
      ensures r.0 == g.TagOf(addr) && r.1 == g.SetOf(addr) && r.2 == g.OffsetOf(addr)
    {
      (LowBits(Shr(addr, setlen + offsetlen), taglen), LowBits(Shr(addr, offsetlen), setlen), LowBits(addr, offsetlen))
    }

    /** Record an access to the way in the bit list of its set. */
    method UpdatePLRU(waynum: nat, setnum: nat)
      requires Valid() && waynum < numways && setnum < numsets
      modifies this`pLRU, this`Sets
      ensures Valid()
      ensures Sets == old(Sets)[setnum := CacheSet(old(Sets)[setnum].lines, Touch(old(Sets)[setnum].tree, g.k, waynum))]
      ensures pLRU == old(pLRU)[setnum := pLRU[setnum]]
      ensures TurnedAway(old(pLRU)[setnum], pLRU[setnum], g.k, waynum)
    {
      if numways == 1 {
        OneWay(g.k);
        assert pLRU[setnum] == [];
        return;
      }
      var tree := MarkPath(pLRU[setnum], numways, waynum, g.k);
      TouchTurns(pLRU[setnum], tree, g.k, waynum);
      pLRU := pLRU[setnum := tree];
      Sets := Sets[setnum := CacheSet(Sets[setnum].lines, TreeAt(tree, 0))];
    }

    /** Follow the bits from the root to a way. */
    method GetVictimWay(setnum: nat) returns (victim: nat)
      requires Valid() && setnum < numsets
      ensures victim == Victim(Sets[setnum].tree, g.k)
      ensures LeadsTo(pLRU[setnum], g.k, victim)
    {
      if numways == 1 {
        OneWay(g.k);
        return 0;
      }
      var tree: seq<Bit> := pLRU[setnum];
      var index: nat := 0;
      var bottomrow := (numways - 1) / 2;
      ghost var d: nat, q: nat, h: nat := 0, 0, g.k;
      DescentStart(tree, g.k);
      while index < bottomrow
        invariant Descending(tree, g.k, index, d, q, h)
        decreases h
      {
        DescentStep(tree, g.k, index, d, q, h);
        ghost var b := tree[index];
        if tree[index] == 0 {
          index := index * 2 + 1;
        } else {
          index := index * 2 + 2;
        }
        d, q, h := d + 1, 2 * q + b, h - 1;
      }
      DescentEnd(tree, g.k, index, d, q, h);
      victim := (index - bottomrow) * 2;
      if tree[index] == 1 {
        victim := victim + 1;
      }
      VictimLeads(tree, g.k, victim);
    }

    /** A cache-block operation: clean the block, and invalidate it if asked to. */
    method Cbo(addr: nat, invalidate: bool)
      requires Valid()
      modifies Lines, this`Sets
      ensures Valid() && Sets == Step(g, old(Sets), CboOp(addr, invalidate))
      ensures forall a, j :: 0 <= a < numways && 0 <= j < numsets ==>
                ways[a][j].tag == old(ways[a][j].tag) &&
                if j == g.SetOf(addr) && old(ways[a][j].valid) && old(ways[a][j].tag) == g.TagOf(addr)
                then !ways[a][j].dirty && ways[a][j].valid == !invalidate
                else ways[a][j].dirty == old(ways[a][j].dirty) && ways[a][j].valid == old(ways[a][j].valid)
    {
      hide Touch, Victim, TreeAt, LowBits, Shr, Pow2;
      var (tag, setnum, _) := SplitAddr(addr);
      var waynum := 0;
      while waynum < numways
        invariant 0 <= waynum <= numways
        invariant Sets == old(Sets)
        invariant forall a, j :: 0 <= a < numways && 0 <= j < numsets ==>
                    ways[a][j].Value() ==
                      if a < waynum && j == setnum then CboLine(Sets[j].lines[a], tag, invalidate) else Sets[j].lines[a]
      {
        var line := ways[waynum][setnum];
        if line.tag == tag && line.valid {
          line.dirty := false;
          if invalidate {
            line.valid := false;
          }
        }
        waynum := waynum + 1;
      }
      forall a, j | 0 <= a < numways && 0 <= j < numsets
        ensures ways[a][j].tag == old(ways[a][j].tag)
        ensures if j == setnum && old(ways[a][j].valid) && old(ways[a][j].tag) == tag
                then !ways[a][j].dirty && ways[a][j].valid == !invalidate
                else ways[a][j].dirty == old(ways[a][j].dirty) && ways[a][j].valid == old(ways[a][j].valid)
      {
        assert old(ways[a][j].Value()) == Sets[j].lines[a];
        assert ways[a][j].Value()
            == if j == setnum then CboLine(Sets[j].lines[a], tag, invalidate) else Sets[j].lines[a];
      }
      Sets := Step(g, Sets, CboOp(addr, invalidate));
    }

    /** Access an address: look for a hit, then for an empty way, then evict. The way is the one that
        holds the block afterwards: where it was, else the first invalid one, else the one that the
        replacement bits lead to. */
    method CacheAccess(addr: nat, write: bool) returns (outcome: Outcome, ghost way: nat)
      requires Valid()
      modifies this, Lines
      ensures Valid() && Sets == Step(g, old(Sets), AccessOp(addr, write))
      ensures outcome == OutcomeOf(g, old(Sets), addr, write)
      ensures way < numways
      ensures outcome == Hit <==> exists v :: 0 <= v < numways && old(Found(v, addr))
      ensures outcome == Hit ==> old(Found(way, addr))
      ensures outcome == Miss ==>
                old(!LineOf(way, addr).valid) && forall v :: 0 <= v < way ==> old(LineOf(v, addr).valid)
      ensures outcome == Evict || outcome == EvictDirty ==>
                (forall v :: 0 <= v < numways ==> old(LineOf(v, addr).valid)) &&
                LeadsTo(old(pLRU)[g.SetOf(addr)], g.k, way)
      ensures outcome == EvictDirty ==> old(LineOf(way, addr).dirty)
      ensures outcome == Evict ==> !old(LineOf(way, addr).dirty)
      ensures Found(way, addr)
      ensures LineOf(way, addr).dirty == (write || (outcome == Hit && old(LineOf(way, addr).dirty)))
      ensures forall a, j :: 0 <= a < numways && 0 <= j < numsets && (a != way || j != g.SetOf(addr)) ==>
                SameFields(ways[a][j])
      ensures pLRU == old(pLRU)[g.SetOf(addr) := pLRU[g.SetOf(addr)]]
      ensures TurnedAway(old(pLRU)[g.SetOf(addr)], pLRU[g.SetOf(addr)], g.k, way)
    {
      hide Touch, Victim, TreeAt, Access, LowBits, Shr, Pow2, TurnedAway, LeadsTo;
      var (tag, setnum, _) := SplitAddr(addr);
      ghost var s := Sets[setnum];
      ghost var c := Sets;
      StepAccess(g, Sets, addr, write);
      var waynum := 0;
      while waynum < numways
        invariant 0 <= waynum <= numways
        invariant Sets == c
        invariant forall v :: 0 <= v < waynum ==> !Holds(s.lines[v], tag) && !Found(v, addr)
      {
        var line := ways[waynum][setnum];
        if line.tag == tag && line.valid {
          AccessHit(s, g.k, tag, write, waynum);
          SetLine(waynum, setnum, line.tag, line.valid, line.dirty || write);
          assert old(Found(waynum, addr));
          return Hit, waynum;
        }
        waynum := waynum + 1;
      }
      waynum := 0;
      while waynum < numways
        invariant 0 <= waynum <= numways
        invariant Sets == c
        invariant forall v :: 0 <= v < waynum ==> s.lines[v].valid && LineOf(v, addr).valid
      {
        var line := ways[waynum][setnum];
        if !line.valid {
          AccessFill(s, g.k, tag, write, waynum);
          SetLine(waynum, setnum, tag, true, write);
          return Miss, waynum;
        }
        waynum := waynum + 1;
      }
      AccessEvict(s, g.k, tag, write);
      var victim := GetVictimWay(setnum);
      var prevdirty := ways[victim][setnum].dirty;
      SetLine(victim, setnum, tag, true, write);
      return if prevdirty then EvictDirty else Evict, victim;
    }

    /** The line of way v in the set of an address. */
    ghost function LineOf(v: nat, addr: nat): CacheLine
      requires Fixed() && v < numways
    {
      ways[v][g.SetOf(addr)]
    }

    /** Way v holds the block of the address. */
    ghost predicate Found(v: nat, addr: nat)
      requires Fixed() && v < numways
      reads Lines
    {
      LineOf(v, addr).valid && LineOf(v, addr).tag == g.TagOf(addr)
    }

    /** The line is as it was. */
    twostate predicate SameFields(line: CacheLine)
      reads line
    {
      line.tag == old(line.tag) && line.valid == old(line.valid) && line.dirty == old(line.dirty)
    }

    /** The assignments to the three fields of one line, and the record of the access. */
    method SetLine(waynum: nat, setnum: nat, tag: nat, valid: bool, dirty: bool)
      requires Valid() && waynum < numways && setnum < numsets
      modifies Lines, this`Sets, this`pLRU
      ensures Valid()
      ensures Sets == old(Sets)[setnum := CacheSet(old(Sets)[setnum].lines[waynum := Line(tag, valid, dirty)],
                                                   Touch(old(Sets)[setnum].tree, g.k, waynum))]
      ensures ways[waynum][setnum].tag == tag && ways[waynum][setnum].valid == valid
      ensures ways[waynum][setnum].dirty == dirty
      ensures forall a, j :: 0 <= a < numways && 0 <= j < numsets && (a != waynum || j != setnum) ==>
                SameFields(ways[a][j])
      ensures pLRU == old(pLRU)[setnum := pLRU[setnum]]
      ensures TurnedAway(old(pLRU)[setnum], pLRU[setnum], g.k, waynum)
    {
      hide Touch, TurnedAway;
      var line := ways[waynum][setnum];
      line.tag := tag;
      line.valid := valid;
      line.dirty := dirty;
      Sets := Sets[setnum := CacheSet(Sets[setnum].lines[waynum := Line(tag, valid, dirty)], Sets[setnum].tree)];
      UpdatePLRU(waynum, setnum);
    }

    /** One line of the log; reports whether the outcome of an access differs from the log's. */
    method Perform(line: LogLine) returns (mismatch: bool)
      requires Valid()
      modifies this, Lines
      ensures Valid() && Sets == Run(g, old(Sets), OpOf(line))
      ensures line.TestStart? ==>
                AllZero() && forall a, j :: 0 <= a < numways && 0 <= j < numsets ==> !ways[a][j].valid
      ensures mismatch <==>
                OpOf(line) != [] && OpOf(line)[0].AccessOp? &&
                Letter(OutcomeOf(g, old(Sets), OpOf(line)[0].addr, OpOf(line)[0].write)) != line.reported
    {
      mismatch := false;
      match line
      case TestStart =>
        RunOne(g, Sets, NewTest);
        RestartStep(g, Sets);
        Invalidate();
        ClearPLRU();
      case Comment =>
      case Entry(addr, kind, reported) =>
        if kind == "F" {
          RunOne(g, Sets, Op.Flush);
          Flush();
        } else if kind == "I" {
          RunOne(g, Sets, Op.Invalidate);
          Invalidate();
        } else if kind == "V" || kind == "L" || kind == "C" {
          RunOne(g, Sets, CboOp(addr, kind != "C"));
          Cbo(addr, kind != "C");
        } else {
          var iswrite := kind == "W" || kind == "A" || kind == "Z";
          RunOne(g, Sets, AccessOp(addr, iswrite));
          var result, _ := CacheAccess(addr, iswrite);
          mismatch := Letter(result) != reported;
        }
    }

    /** The main loop: run a log and count the mismatches. */
    method Simulate(log: seq<LogLine>) returns (mismatches: nat)
      requires Valid()
      modifies this, Lines
      ensures Valid() && Sets == Run(g, old(Sets), OpsOf(log))
      ensures mismatches == Mismatches(g, old(Sets), log)
    {
      mismatches := 0;
      var n := 0;
      while n < |log|
        invariant 0 <= n <= |log| && Valid()
        invariant Sets == Run(g, old(Sets), OpsOf(log[..n]))
        invariant mismatches == Mismatches(g, old(Sets), log[..n])
      {
        LogPrefix(g, old(Sets), log, n);
        var mismatch := Perform(log[n]);
        if mismatch {
          mismatches := mismatches + 1;
        }
        n := n + 1;
      }
      assert log[..n] == log;
    }
  }

  lemma {:induction false} OneWay(k: nat)
    requires Pow2(k) == 1
    ensures k == 0
  {
  }

  lemma AccessHit(s: CacheSet, k: nat, tag: nat, write: bool, w: nat)
    requires Shaped(s, k) && w < Pow2(k) && Holds(s.lines[w], tag)
    requires forall v :: 0 <= v < w ==> !Holds(s.lines[v], tag)
    ensures Access(s, k, tag, write)
         == AccessResult(Put(s, k, w, Line(s.lines[w].tag, s.lines[w].valid, s.lines[w].dirty || write)), Hit)
  {
    assert HitWay(s.lines, tag) == w;
  }

  lemma AccessFill(s: CacheSet, k: nat, tag: nat, write: bool, w: nat)
    requires Shaped(s, k) && w < Pow2(k) && !s.lines[w].valid
    requires forall v :: 0 <= v < Pow2(k) ==> !Holds(s.lines[v], tag)
    requires forall v :: 0 <= v < w ==> s.lines[v].valid
    ensures Access(s, k, tag, write) == AccessResult(Put(s, k, w, Line(tag, true, write)), Miss)
  {
    assert FreeWay(s.lines) == w;
  }

  lemma AccessEvict(s: CacheSet, k: nat, tag: nat, write: bool)
    requires Shaped(s, k)
    requires forall v :: 0 <= v < Pow2(k) ==> !Holds(s.lines[v], tag) && s.lines[v].valid
    ensures Access(s, k, tag, write).next == Put(s, k, Victim(s.tree, k), Line(tag, true, write))
    ensures Access(s, k, tag, write).outcome == if s.lines[Victim(s.tree, k)].dirty then EvictDirty else Evict
  {
  }

  lemma StepAccess(g: Geometry, c: seq<CacheSet>, addr: nat, write: bool)
    requires WellShaped(g, c)
    ensures Step(g, c, AccessOp(addr, write))
         == c[g.SetOf(addr) := Access(c[g.SetOf(addr)], g.k, g.TagOf(addr), write).next]
  {
  }

  lemma RunOne(g: Geometry, c: seq<CacheSet>, op: Op)
    requires WellShaped(g, c)
    ensures Run(g, c, [op]) == Step(g, c, op)
  {
    assert [op][..0] == [];
    assert Run(g, c, []) == c;
  }

  lemma RestartStep(g: Geometry, c: seq<CacheSet>)
    requires WellShaped(g, c)
    ensures Step(g, c, NewTest) == ZeroTrees(Step(g, c, Op.Invalidate), g.k)
  {
  }

  lemma LogPrefix(g: Geometry, c: seq<CacheSet>, log: seq<LogLine>, n: nat)
    requires n < |log| && WellShaped(g, c)
    ensures OpsOf(log[..n + 1]) == OpsOf(log[..n]) + OpOf(log[n])
    ensures Run(g, c, OpsOf(log[..n + 1])) == Run(g, Run(g, c, OpsOf(log[..n])), OpOf(log[n]))
    ensures log[..n + 1][..n] == log[..n]
  {
    assert log[..n + 1][..n] == log[..n];
    RunAppend(g, c, OpsOf(log[..n]), OpOf(log[n]));
  }

  lemma {:induction false} RunAppend(g: Geometry, c: seq<CacheSet>, a: seq<Op>, b: seq<Op>)
    requires WellShaped(g, c)
    ensures Run(g, c, a + b) == Run(g, Run(g, c, a), b)
    decreases |b|
  {
    if b == [] {
      assert a + b == a;
    } else {
      var n := |b| - 1;
      RunAppend(g, c, a, b[..n]);
      assert (a + b)[..|a + b| - 1] == a + b[..n];
    }
  }

  /** The upward walk for way w is at the given index, node q of row d. */
  ghost predicate Walking(was: seq<Bit>, a: seq<Bit>, k: nat, index: nat, d: nat, q: nat, h: nat, r: nat, w: nat) {
    && |was| == |a| == Pow2(k) - 1
    && h > 0
    && index < |a|
    && index == Pow2(d) - 1 + q
    && OnPath(k, d, q, h, r, w)
    && TouchedBelow(was, a, k, d, q, h, r)
  }

  lemma {:induction false} WalkStart(was: seq<Bit>, k: nat, w: nat)
    requires k > 0 && |was| == Pow2(k) - 1 && w < Pow2(k)
    ensures w / 2 + (Pow2(k) - 1) / 2 == Pow2(k - 1) - 1 + w / 2 < |was|
    ensures Walking(was, was[Pow2(k - 1) - 1 + w / 2 := 1 - w % 2], k, Pow2(k - 1) - 1 + w / 2,
                    k - 1, w / 2, 1, w % 2, w)
  {
    TouchStart(was, k, w / 2, w % 2);
    assert Shl(w / 2, 1) == 2 * Shl(w / 2, 0);
    assert Pow2(1) == 2 * Pow2(0);
  }

  lemma {:induction false} WalkUp(was: seq<Bit>, a: seq<Bit>, k: nat, index: nat, d: nat, q: nat, h: nat, r: nat,
                                  w: nat)
    requires index > 0 && Walking(was, a, k, index, d, q, h, r, w)
    ensures d > 0 && (index - 1) / 2 < |a|
    ensures Walking(was, a[(index - 1) / 2 := index % 2], k, (index - 1) / 2,
                    d - 1, q / 2, h + 1, Widen(q % 2, h, r), w)
  {
    ParentOf(d, q);
    PathUp(k, d - 1, q / 2, q % 2, h, r, w);
    TouchUp(was, a, k, d - 1, q / 2, q % 2, h, r);
  }

  lemma {:induction false} WalkEnd(was: seq<Bit>, a: seq<Bit>, k: nat, d: nat, q: nat, h: nat, r: nat, w: nat)
    requires Walking(was, a, k, 0, d, q, h, r, w)
    ensures w < Pow2(k) && Perfect(TreeAt(was, 0), k) && TreeAt(a, 0) == Touch(TreeAt(was, 0), k, w)
  {
    assert d == 0;
    ShlZero(h);
  }

  lemma {:induction false} ParentOf(d: nat, q: nat)
    requires q < Pow2(d) && Pow2(d) - 1 + q > 0
    ensures d > 0 && q == 2 * (q / 2) + q % 2
    ensures (Pow2(d) - 1 + q - 1) / 2 == Pow2(d - 1) - 1 + q / 2
    ensures (Pow2(d) - 1 + q) % 2 == 1 - q % 2
  {
    assert d > 0;
    assert Pow2(d) == 2 * Pow2(d - 1);
  }

  /** The downward walk is at the given index, node q of row d. */
  ghost predicate Descending(a: seq<Bit>, k: nat, index: nat, d: nat, q: nat, h: nat) {
    |a| == Pow2(k) - 1 && h > 0 && index == Pow2(d) - 1 + q < |a| && VictimBelow(a, k, d, q, h)
  }

  lemma {:induction false} DescentStart(a: seq<Bit>, k: nat)
    requires k > 0 && |a| == Pow2(k) - 1
    ensures Descending(a, k, 0, 0, 0, k)
  {
    TreeAtPerfect(a, k, 0, 0);
    ShlZero(k);
    BelowRow(k, 0, 0);
  }

  lemma {:induction false} DescentStep(a: seq<Bit>, k: nat, index: nat, d: nat, q: nat, h: nat)
    requires k > 0 && Descending(a, k, index, d, q, h) && index < (Pow2(k) - 1) / 2
    ensures h > 1 && Descending(a, k, 2 * index + 1 + a[index], d + 1, 2 * q + a[index], h - 1)
  {
    VictimDown(a, k, d, q, h);
    assert h != 1;
    BelowRow(k, d + 1, 2 * q + a[index]);
  }

  lemma {:induction false} DescentEnd(a: seq<Bit>, k: nat, index: nat, d: nat, q: nat, h: nat)
    requires k > 0 && Descending(a, k, index, d, q, h) && index >= (Pow2(k) - 1) / 2
    ensures Perfect(TreeAt(a, 0), k)
    ensures index - (Pow2(k) - 1) / 2 == q && Victim(TreeAt(a, 0), k) == 2 * q + a[index]
  {
    VictimDown(a, k, d, q, h);
    Pow2Order(d + 1, k - 1);
    assert h == 1;
  }
}
