/** The tree pseudo-LRU replacement state of one cache set with 2^h ways. The specification uses
    an inductive tree; TreeAt reads that tree out of the heap-shaped bit list the simulator keeps. */
module PseudoLru {
  import opened Powers

  type Bit = b: nat | b < 2

  /** A node's bit says which half holds the next victim: 0 is the left half, 1 the right. */
  datatype Tree = Leaf | Node(bit: Bit, left: Tree, right: Tree)

  predicate Perfect(t: Tree, h: nat) {
    if h == 0 then t.Leaf?
    else t.Node? && Perfect(t.left, h - 1) && Perfect(t.right, h - 1)
  }

  /** The tree after an access to way w: every node on the path to w points away from w. */
  function Touch(t: Tree, h: nat, w: nat): (t': Tree)
    requires Perfect(t, h) && w < Pow2(h)
    ensures Perfect(t', h)
  {
    if h == 0 then t
    else if w < Pow2(h - 1) then Node(1, Touch(t.left, h - 1, w), t.right)
    else Node(0, t.left, Touch(t.right, h - 1, w - Pow2(h - 1)))
  }

  /** The way found by following the bits from the root. */
  function Victim(t: Tree, h: nat): (w: nat)
    requires Perfect(t, h)
    ensures w < Pow2(h)
  {
    if h == 0 then 0
    else if t.bit == 0 then Victim(t.left, h - 1)
    else Pow2(h - 1) + Victim(t.right, h - 1)
  }

  // ----- what protects a way from being the victim

  ghost predicate Meets(ways: set<nat>, lo: nat, hi: nat) {
    exists u :: u in ways && lo <= u < hi
  }

  /** Ways are numbered from base. Wherever the path to w points towards w, the other half of
      that node holds one of the given ways. */
  ghost predicate Guarded(t: Tree, h: nat, w: nat, base: nat, ways: set<nat>)
    requires Perfect(t, h) && w < Pow2(h)
  {
    h == 0 ||
    var half := Pow2(h - 1);
    if w < half then
      && (t.bit == 0 ==> Meets(ways, base + half, base + 2 * half))
      && Guarded(t.left, h - 1, w, base, ways)
    else
      && (t.bit == 1 ==> Meets(ways, base, base + half))
      && Guarded(t.right, h - 1, w - half, base + half, ways)
  }

  /** Right after an access to w nothing points towards w. */
  lemma {:induction false} TouchGuards(t: Tree, h: nat, w: nat, base: nat, ways: set<nat>)
    requires Perfect(t, h) && w < Pow2(h)
    ensures Guarded(Touch(t, h, w), h, w, base, ways)
  {
    if h > 0 {
      if w < Pow2(h - 1) {
        TouchGuards(t.left, h - 1, w, base, ways);
      } else {
        TouchGuards(t.right, h - 1, w - Pow2(h - 1), base + Pow2(h - 1), ways);
      }
    }
  }

  lemma {:induction false} GuardedMonotone(t: Tree, h: nat, w: nat, base: nat, ways: set<nat>, more: set<nat>)
    requires Perfect(t, h) && w < Pow2(h) && ways <= more
    requires Guarded(t, h, w, base, ways)
    ensures Guarded(t, h, w, base, more)
  {
    if h > 0 {
      if w < Pow2(h - 1) {
        GuardedMonotone(t.left, h - 1, w, base, ways, more);
      } else {
        GuardedMonotone(t.right, h - 1, w - Pow2(h - 1), base + Pow2(h - 1), ways, more);
      }
    }
  }

  /** An access to another way u keeps w guarded, with u as a witness where the paths part. */
  lemma {:induction false} TouchKeepsGuarded(t: Tree, h: nat, w: nat, u: nat, base: nat, ways: set<nat>)
    requires Perfect(t, h) && w < Pow2(h) && u < Pow2(h) && u != w
    requires Guarded(t, h, w, base, ways) && base + u in ways
    ensures Guarded(Touch(t, h, u), h, w, base, ways)
  {
    if h > 0 {
      var half := Pow2(h - 1);
      if w < half && u < half {
        TouchKeepsGuarded(t.left, h - 1, w, u, base, ways);
      } else if w >= half && u >= half {
        TouchKeepsGuarded(t.right, h - 1, w - half, u - half, base + half, ways);
      }
    }
  }

  /** Where the path to the victim goes left it points left, so a guard is on the right; and the other
      way around. */
  lemma {:induction false} GuardStep(t: Tree, h: nat, base: nat, ways: set<nat>) returns (u: nat)
    requires h > 0 && Perfect(t, h) && Guarded(t, h, Victim(t, h), base, ways)
    ensures u in ways && Pow2(h) == 2 * Pow2(h - 1)
    ensures t.bit == 0 ==> base + Pow2(h - 1) <= u < base + Pow2(h) && Victim(t, h) == Victim(t.left, h - 1)
    ensures t.bit == 0 ==> Guarded(t.left, h - 1, Victim(t.left, h - 1), base, ways)
    ensures t.bit == 1 ==> base <= u < base + Pow2(h - 1) && Victim(t, h) == Pow2(h - 1) + Victim(t.right, h - 1)
    ensures t.bit == 1 ==> Guarded(t.right, h - 1, Victim(t.right, h - 1), base + Pow2(h - 1), ways)
  {
    if t.bit == 0 {
      u :| u in ways && base + Pow2(h - 1) <= u < base + Pow2(h);
    } else {
      u :| u in ways && base <= u < base + Pow2(h - 1);
    }
  }

  /** A guarded way is the victim only if at least h other ways guard it. */
  lemma {:induction false} GuardCount(t: Tree, h: nat, base: nat, ways: set<nat>) returns (guards: set<nat>)
    requires Perfect(t, h) && Guarded(t, h, Victim(t, h), base, ways)
    ensures guards <= ways && |guards| == h
    ensures forall u :: u in guards ==> base <= u < base + Pow2(h) && u != base + Victim(t, h)
  {
    hide Guarded, Victim, Pow2;
    if h == 0 {
      guards := {};
    } else {
      var u := GuardStep(t, h, base, ways);
      if t.bit == 0 {
        guards := GuardCount(t.left, h - 1, base, ways);
      } else {
        guards := GuardCount(t.right, h - 1, base + Pow2(h - 1), ways);
      }
      assert u !in guards;
      guards := guards + {u};
    }
  }

  // ----- eviction order

  /** Evict from the selected way and record the access. */
  function Rotate(t: Tree, h: nat): (t': Tree)
    requires Perfect(t, h)
    ensures Perfect(t', h)
  {
    Touch(t, h, Victim(t, h))
  }

  function After(t: Tree, h: nat, n: nat): (t': Tree)
    requires Perfect(t, h)
    ensures Perfect(t', h)
    decreases n
  {
    if n == 0 then t else After(Rotate(t, h), h, n - 1)
  }

  /** The ways picked by n successive evictions. */
  function Picks(t: Tree, h: nat, n: nat): (ws: seq<nat>)
    requires Perfect(t, h)
    ensures |ws| == n
    decreases n
  {
    if n == 0 then [] else [Victim(t, h)] + Picks(Rotate(t, h), h, n - 1)
  }

  lemma RotateTwice(t: Tree, h: nat)
    requires h > 0 && Perfect(t, h)
    ensures Rotate(Rotate(t, h), h) == Node(t.bit, Rotate(t.left, h - 1), Rotate(t.right, h - 1))
    ensures Victim(t, h) == Side(t.bit, h, Victim(t.left, h - 1), Victim(t.right, h - 1))
    ensures Victim(Rotate(t, h), h) == Side(1 - t.bit, h, Victim(t.left, h - 1), Victim(t.right, h - 1))
  {
  }

  /** The way number of u in the left half, or of v in the right half. */
  function Side(b: Bit, h: nat, u: nat, v: nat): nat
    requires h > 0
  {
    if b == 0 then u else Pow2(h - 1) + v
  }

  /** ps goes through the pairs (ls[i], rs[i]) in order, side b of each pair first. */
  ghost predicate Alternates(b: Bit, h: nat, ps: seq<nat>, ls: seq<nat>, rs: seq<nat>)
    requires h > 0
  {
    && |ls| == |rs|
    && |ps| == 2 * |ls|
    && forall j :: 0 <= j < |ps| ==> ps[j] == Side(if j % 2 == 0 then b else 1 - b, h, ls[j / 2], rs[j / 2])
  }

  lemma AlternatesCons(b: Bit, h: nat, ps: seq<nat>, ls: seq<nat>, rs: seq<nat>, l: nat, r: nat)
    requires h > 0 && Alternates(b, h, ps, ls, rs)
    ensures Alternates(b, h, [Side(b, h, l, r), Side(1 - b, h, l, r)] + ps, [l] + ls, [r] + rs)
  {
    var qs := [Side(b, h, l, r), Side(1 - b, h, l, r)] + ps;
    forall j | 0 <= j < |qs|
      ensures qs[j] == Side(if j % 2 == 0 then b else 1 - b, h, ([l] + ls)[j / 2], ([r] + rs)[j / 2])
    {
      if j >= 2 {
        assert qs[j] == ps[j - 2] && (j - 2) / 2 == j / 2 - 1;
      }
    }
  }

  /** Evictions alternate between the two halves. */
  lemma {:induction false} PicksAlternate(t: Tree, h: nat, n: nat)
    requires h > 0 && Perfect(t, h)
    ensures After(t, h, 2 * n) == Node(t.bit, After(t.left, h - 1, n), After(t.right, h - 1, n))
    ensures Alternates(t.bit, h, Picks(t, h, 2 * n), Picks(t.left, h - 1, n), Picks(t.right, h - 1, n))
    decreases n
  {
    hide Alternates, Side;
    if n == 0 {
      NoPicks(t, h);
    } else {
      RotateTwice(t, h);
      TwoRounds(t, h, 2 * n);
      PicksAlternate(Rotate(Rotate(t, h), h), h, n - 1);
      AlternatesCons(t.bit, h, Picks(Rotate(Rotate(t, h), h), h, 2 * (n - 1)),
                     Picks(Rotate(t.left, h - 1), h - 1, n - 1), Picks(Rotate(t.right, h - 1), h - 1, n - 1),
                     Victim(t.left, h - 1), Victim(t.right, h - 1));
    }
  }

  lemma {:induction false} NoPicks(t: Tree, h: nat)
    requires h > 0 && Perfect(t, h)
    ensures Alternates(t.bit, h, [], [], [])
  {
  }

  lemma {:induction false} TwoRounds(t: Tree, h: nat, n: nat)
    requires Perfect(t, h) && n >= 2
    ensures After(t, h, n) == After(Rotate(Rotate(t, h), h), h, n - 2)
    ensures Picks(t, h, n) == [Victim(t, h), Victim(Rotate(t, h), h)] + Picks(Rotate(Rotate(t, h), h), h, n - 2)
  {
    assert Picks(Rotate(t, h), h, n - 1) == [Victim(Rotate(t, h), h)] + Picks(Rotate(Rotate(t, h), h), h, n - 2);
  }

  /** Every number below n is in the list exactly once. */
  ghost predicate Permutes(ps: seq<nat>, n: nat) {
    && |ps| == n
    && (forall i :: 0 <= i < n ==> ps[i] < n)
    && (forall w :: 0 <= w < n ==> w in ps)
    && (forall i, j :: 0 <= i < j < n ==> ps[i] != ps[j])
  }

  /** From any bit pattern, 2^h successive evictions pick every way exactly once and leave the
      pattern as it was. */
  lemma {:induction false} EvictionFairness(t: Tree, h: nat)
    requires Perfect(t, h)
    ensures After(t, h, Pow2(h)) == t
    ensures Permutes(Picks(t, h, Pow2(h)), Pow2(h))
  {
    if h == 0 {
      assert Pow2(0) == 1;
      assert After(t, 0, 1) == After(t, 0, 0) == t;
      assert Picks(t, 0, 1) == [0] + Picks(t, 0, 0);
    } else {
      var n := Pow2(h - 1);
      EvictionFairness(t.left, h - 1);
      EvictionFairness(t.right, h - 1);
      PicksAlternate(t, h, n);
      AlternatesPermutes(t.bit, h, Picks(t, h, 2 * n), Picks(t.left, h - 1, n), Picks(t.right, h - 1, n));
    }
  }

  lemma AlternatesPermutes(b: Bit, h: nat, ps: seq<nat>, ls: seq<nat>, rs: seq<nat>)
    requires h > 0 && Alternates(b, h, ps, ls, rs)
    requires Permutes(ls, Pow2(h - 1)) && Permutes(rs, Pow2(h - 1))
    ensures Permutes(ps, Pow2(h))
  {
    var n := Pow2(h - 1);
    forall w | 0 <= w < 2 * n
      ensures w in ps
    {
      var side: Bit := if w < n then 0 else 1;
      var qs, v := if w < n then ls else rs, if w < n then w else w - n;
      assert v in qs;
      var i :| 0 <= i < n && qs[i] == v;
      var j := if side == b then 2 * i else 2 * i + 1;
      assert j / 2 == i && ps[j] == Side(side, h, ls[i], rs[i]) == w;
    }
    forall i, j | 0 <= i < j < 2 * n
      ensures ps[i] != ps[j]
    {
      if i / 2 == j / 2 {
        assert i % 2 == 0 && j % 2 == 1;
      } else {
        assert ls[i / 2] != ls[j / 2] && rs[i / 2] != rs[j / 2];
      }
    }
  }

  lemma {:induction false} PicksLast(t: Tree, h: nat, n: nat)
    requires Perfect(t, h) && n > 0
    ensures After(t, h, n) == Rotate(After(t, h, n - 1), h)
    ensures Picks(t, h, n) == Picks(t, h, n - 1) + [Victim(After(t, h, n - 1), h)]
    decreases n
  {
    if n > 1 {
      PicksLast(Rotate(t, h), h, n - 1);
      assert Picks(t, h, n) == [Victim(t, h)] + Picks(Rotate(t, h), h, n - 1);
    } else {
      assert Picks(t, h, 1) == [Victim(t, h)];
    }
  }

  lemma {:induction false} PicksPrefix(t: Tree, h: nat, m: nat, n: nat)
    requires Perfect(t, h) && m <= n
    ensures Picks(t, h, m) == Picks(t, h, n)[..m]
    decreases n
  {
    if m < n {
      PicksLast(t, h, n);
      PicksPrefix(t, h, m, n - 1);
    }
  }

  // ----- the heap-shaped list

  /** The tree rooted at index i of a heap-shaped list: the children of i are 2i+1 and 2i+2. */
  function TreeAt(a: seq<Bit>, i: nat): Tree
    decreases |a| - i
  {
    if i >= |a| then Leaf else Node(a[i], TreeAt(a, 2 * i + 1), TreeAt(a, 2 * i + 2))
  }

  /** Row d of the heap for 2^k ways holds perfect trees of height k - d. */
  lemma {:induction false} TreeAtPerfect(a: seq<Bit>, k: nat, d: nat, i: nat)
    requires |a| == Pow2(k) - 1 && d <= k
    requires Pow2(d) - 1 <= i < 2 * Pow2(d) - 1
    ensures Perfect(TreeAt(a, i), k - d)
    decreases k - d
  {
    Pow2Monotone(d, k);
    if d < k {
      Pow2Monotone(d + 1, k);
      TreeAtPerfect(a, k, d + 1, 2 * i + 1);
      TreeAtPerfect(a, k, d + 1, 2 * i + 2);
    }
  }

  lemma {:induction false} Pow2Monotone(m: nat, n: nat)
    requires m <= n
    ensures Pow2(m) <= Pow2(n)
  {
    if m < n {
      Pow2Monotone(m, n - 1);
    }
  }

  lemma {:induction false} Pow2Order(m: nat, n: nat)
    ensures m <= n ==> Pow2(m) <= Pow2(n)
  {
    if m <= n {
      Pow2Monotone(m, n);
    }
  }

  /** A tree depends only on the entries from its root on. */
  lemma {:induction false} TreeAtFrame(a: seq<Bit>, b: seq<Bit>, i: nat)
    requires |a| == |b| && forall j :: i <= j < |a| ==> a[j] == b[j]
    ensures TreeAt(a, i) == TreeAt(b, i)
    decreases |a| - i
  {
    if i < |a| {
      TreeAtFrame(a, b, 2 * i + 1);
      TreeAtFrame(a, b, 2 * i + 2);
    }
  }

  /** No information is lost: lists of one length with the same tree are equal. */
  lemma TreeAtInjective(a: seq<Bit>, b: seq<Bit>)
    requires |a| == |b| && TreeAt(a, 0) == TreeAt(b, 0)
    ensures a == b
  {
    forall j | 0 <= j < |a|
      ensures a[j] == b[j]
    {
      SubtreesEqual(a, b, j);
    }
  }

  /** On the bit list itself: 2^k successive evictions restore it. */
  lemma {:induction false} BitsRestored(a: seq<Bit>, b: seq<Bit>, k: nat)
    requires |a| == |b| == Pow2(k) - 1 && Perfect(TreeAt(a, 0), k)
    requires TreeAt(b, 0) == After(TreeAt(a, 0), k, Pow2(k))
    ensures a == b
  {
    hide *;
    EvictionFairness(TreeAt(a, 0), k);
    TreeAtInjective(a, b);
  }

  lemma {:induction false} SubtreesEqual(a: seq<Bit>, b: seq<Bit>, i: nat)
    requires |a| == |b| && TreeAt(a, 0) == TreeAt(b, 0)
    ensures TreeAt(a, i) == TreeAt(b, i)
  {
    if 0 < i <= |a| {
      SubtreesEqual(a, b, (i - 1) / 2);
      var p := (i - 1) / 2;
      assert i == 2 * p + 1 || i == 2 * p + 2;
    }
  }

  lemma {:induction false} ZerosAt(a: seq<Bit>, k: nat, d: nat, i: nat)
    requires |a| == Pow2(k) - 1 && d <= k && Pow2(d) - 1 <= i < 2 * Pow2(d) - 1
    requires forall j :: 0 <= j < |a| ==> a[j] == 0
    ensures TreeAt(a, i) == Zeros(k - d)
    decreases k - d
  {
    Pow2Monotone(d, k);
    if d < k {
      Pow2Monotone(d + 1, k);
      ZerosAt(a, k, d + 1, 2 * i + 1);
      ZerosAt(a, k, d + 1, 2 * i + 2);
    }
  }

  function Zeros(h: nat): (t: Tree)
    ensures Perfect(t, h)
  {
    if h == 0 then Leaf else Node(0, Zeros(h - 1), Zeros(h - 1))
  }

  // ----- the walks over the heap

  /** Node q of row d, with the 2^h ways below it; way w = q * 2^h + r is below it. */
  ghost predicate OnPath(k: nat, d: nat, q: nat, h: nat, r: nat, w: nat) {
    d + h == k && q < Pow2(d) && r < Pow2(h) && w == Shl(q, h) + r
  }

  /** The number of way r of a child among the ways of its parent. */
  function Widen(side: Bit, h: nat, r: nat): nat {
    if side == 0 then r else Pow2(h) + r
  }

  lemma {:induction false} PathUp(k: nat, d: nat, q: nat, side: Bit, h: nat, r: nat, w: nat)
    requires OnPath(k, d + 1, 2 * q + side, h, r, w)
    ensures OnPath(k, d, q, h + 1, Widen(side, h, r), w)
  {
    ShlDouble(q, h);
    ShlSucc(2 * q, h);
  }

  lemma BelowRow(k: nat, d: nat, q: nat)
    requires d < k && q < Pow2(d)
    ensures Pow2(d) - 1 + q < Pow2(k) - 1
  {
    Pow2Monotone(d + 1, k);
  }

  /** The upward walk has recorded the access in rows d and below, and nowhere else. */
  ghost predicate TouchedBelow(was: seq<Bit>, a: seq<Bit>, k: nat, d: nat, q: nat, h: nat, r: nat)
    requires |was| == Pow2(k) - 1
  {
    var first := Pow2(d) - 1;
    && |a| == |was| && d + h == k && q < Pow2(d) && r < Pow2(h)
    && Perfect(TreeAt(was, first + q), h)
    && TreeAt(a, first + q) == Touch(TreeAt(was, first + q), h, r)
    && (forall m :: 0 <= m < first && m < |a| ==> a[m] == was[m])
    && (forall m :: first <= m < 2 * Pow2(d) - 1 && m != first + q ==> TreeAt(a, m) == TreeAt(was, m))
  }

  lemma {:induction false} TouchStart(was: seq<Bit>, k: nat, q: nat, r: nat)
    requires k > 0 && |was| == Pow2(k) - 1 && q < Pow2(k - 1) && r < 2
    ensures Pow2(k - 1) - 1 + q < |was|
    ensures TouchedBelow(was, was[Pow2(k - 1) - 1 + q := 1 - r], k, k - 1, q, 1, r)
  {
    var i := Pow2(k - 1) - 1 + q;
    var a := was[i := 1 - r];
    TreeAtPerfect(was, k, k - 1, i);
    assert Pow2(0) == 1 && Pow2(1) == 2;
    assert TreeAt(a, i) == Node(1 - r, Leaf, Leaf);
    assert TreeAt(was, i) == Node(was[i], Leaf, Leaf);
    forall m | Pow2(k - 1) - 1 <= m < 2 * Pow2(k - 1) - 1 && m != i
      ensures TreeAt(a, m) == TreeAt(was, m)
    {
      RowUnchanged(was, was, a, i, m);
    }
  }

  /** From child 2q + side in row d + 1 to its parent q in row d. */
  lemma {:induction false} TouchUp(was: seq<Bit>, a: seq<Bit>, k: nat, d: nat, q: nat, side: Bit, h: nat, r: nat)
    requires |was| == Pow2(k) - 1 && h > 0 && TouchedBelow(was, a, k, d + 1, 2 * q + side, h, r)
    ensures Pow2(d) - 1 + q < |a|
    ensures TouchedBelow(was, a[Pow2(d) - 1 + q := 1 - side], k, d, q, h + 1, Widen(side, h, r))
  {
    var p := Pow2(d) - 1 + q;
    BelowRow(k, d, q);
    TreeAtPerfect(was, k, d, p);
    ParentTouched(was, a, p, side, h, r);
    RowAboveUnchanged(was, a, a[p := 1 - side], k, d, q, side);
  }

  lemma {:induction false} RowAboveUnchanged(was: seq<Bit>, a: seq<Bit>, b: seq<Bit>, k: nat, d: nat, q: nat, side: Bit)
    requires |was| == |a| == Pow2(k) - 1 && d < k && q < Pow2(d)
    requires Pow2(d) - 1 + q < |a| == |b| && b == a[Pow2(d) - 1 + q := b[Pow2(d) - 1 + q]]
    requires forall m :: 0 <= m < Pow2(d + 1) - 1 && m < |a| ==> a[m] == was[m]
    requires forall m :: Pow2(d + 1) - 1 <= m < 2 * Pow2(d + 1) - 1 && m != Pow2(d + 1) - 1 + (2 * q + side) ==>
                           TreeAt(a, m) == TreeAt(was, m)
    ensures forall m :: Pow2(d) - 1 <= m < 2 * Pow2(d) - 1 && m != Pow2(d) - 1 + q ==> TreeAt(b, m) == TreeAt(was, m)
  {
    var p := Pow2(d) - 1 + q;
    forall m | Pow2(d) - 1 <= m < 2 * Pow2(d) - 1 && m != p
      ensures TreeAt(b, m) == TreeAt(was, m)
    {
      BelowRow(k, d, m - (Pow2(d) - 1));
      RowUnchanged(was, a, b, p, m);
    }
  }

  /** The parent's bit is set to point away from the child that was touched. */
  lemma {:induction false} ParentTouched(was: seq<Bit>, a: seq<Bit>, p: nat, side: Bit, h: nat, r: nat)
    requires |was| == |a| && p < |a| && r < Pow2(h) && Perfect(TreeAt(was, p), h + 1)
    requires TreeAt(a, 2 * p + 1 + side) == Touch(TreeAt(was, 2 * p + 1 + side), h, r)
    requires TreeAt(a, 2 * p + 2 - side) == TreeAt(was, 2 * p + 2 - side)
    ensures TreeAt(a[p := 1 - side], p) == Touch(TreeAt(was, p), h + 1, if side == 0 then r else Pow2(h) + r)
  {
    var b := a[p := 1 - side];
    TreeAtFrame(a, b, 2 * p + 1);
    TreeAtFrame(a, b, 2 * p + 2);
    assert TreeAt(b, p) == Node(1 - side, TreeAt(b, 2 * p + 1), TreeAt(b, 2 * p + 2));
    assert TreeAt(was, p) == Node(was[p], TreeAt(was, 2 * p + 1), TreeAt(was, 2 * p + 2));
  }

  lemma {:induction false} RowUnchanged(was: seq<Bit>, a: seq<Bit>, b: seq<Bit>, p: nat, m: nat)
    requires |was| == |a| == |b| && p < |a| && b == a[p := b[p]] && m != p && m < |a|
    requires a[m] == was[m] && p < 2 * m + 1
    requires TreeAt(a, 2 * m + 1) == TreeAt(was, 2 * m + 1) && TreeAt(a, 2 * m + 2) == TreeAt(was, 2 * m + 2)
    ensures TreeAt(b, m) == TreeAt(was, m)
  {
    TreeAtFrame(a, b, 2 * m + 1);
    TreeAtFrame(a, b, 2 * m + 2);
  }

  /** The downward walk is at node q of row d on the way to the victim. */
  ghost predicate VictimBelow(a: seq<Bit>, k: nat, d: nat, q: nat, h: nat)
    requires |a| == Pow2(k) - 1
  {
    && d + h == k && q < Pow2(d)
    && Perfect(TreeAt(a, 0), k)
    && Perfect(TreeAt(a, Pow2(d) - 1 + q), h)
    && Victim(TreeAt(a, 0), k) == Shl(q, h) + Victim(TreeAt(a, Pow2(d) - 1 + q), h)
  }

  lemma {:induction false} VictimStep(a: seq<Bit>, i: nat, h: nat)
    requires i < |a| && h > 0 && Perfect(TreeAt(a, i), h)
    ensures Perfect(TreeAt(a, 2 * i + 1 + a[i]), h - 1)
    ensures Victim(TreeAt(a, i), h)
         == (if a[i] == 0 then 0 else Pow2(h - 1)) + Victim(TreeAt(a, 2 * i + 1 + a[i]), h - 1)
  {
    assert TreeAt(a, i) == Node(a[i], TreeAt(a, 2 * i + 1), TreeAt(a, 2 * i + 2));
  }

  lemma {:induction false} ShlDescend(q: nat, b: Bit, h: nat)
    requires h > 0
    ensures Shl(2 * q + b, h - 1) == Shl(q, h) + if b == 0 then 0 else Pow2(h - 1)
  {
    ShlDouble(q, h - 1);
    ShlSucc(2 * q, h - 1);
  }

  lemma {:induction false} VictimDown(a: seq<Bit>, k: nat, d: nat, q: nat, h: nat)
    requires |a| == Pow2(k) - 1 && h > 0 && VictimBelow(a, k, d, q, h)
    ensures Pow2(d) - 1 + q < |a|
    ensures VictimBelow(a, k, d + 1, 2 * q + a[Pow2(d) - 1 + q], h - 1)
  {
    hide TreeAt, Victim, Perfect, Shl;
    var i := Pow2(d) - 1 + q;
    BelowRow(k, d, q);
    VictimStep(a, i, h);
    ShlDescend(q, a[i], h);
    assert Pow2(d + 1) - 1 + (2 * q + a[i]) == 2 * i + 1 + a[i];
  }
}
