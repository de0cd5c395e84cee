/** The replacement tree bit by bit: which entries of the simulator's list an access changes, and to
    what, and which way a list selects. Row d of the heap starts at index 2^d - 1, and of 2^k ways, way
    w is below its node number w / 2^(k - d). */
module PlruBits {
  import opened Powers
  import opened PseudoLru

  /** Node q of row d. */
  function NodeAt(d: nat, q: nat): nat {
    Pow2(d) - 1 + q
  }

  /** The step to the next row on the way to w: 0 is left, 1 right. */
  function Turn(k: nat, d: nat, w: nat): Bit
    requires d < k
  {
    Shr(w, k - d - 1) % 2
  }

  /** In every row the node above way w turns away from it, and all other nodes are as they were. */
  ghost predicate TurnedAway(was: seq<Bit>, now: seq<Bit>, k: nat, w: nat) {
    && |was| == |now| == Pow2(k) - 1
    && forall d, q :: 0 <= d < k && 0 <= q < Pow2(d) && NodeAt(d, q) < |now| ==>
                        now[NodeAt(d, q)] == if q == Shr(w, k - d) then 1 - Turn(k, d, w) else was[NodeAt(d, q)]
  }

  /** The node of row d above way w points towards it. */
  predicate PointsTo(bits: seq<Bit>, k: nat, w: nat, d: nat)
    requires d < k
  {
    NodeAt(d, Shr(w, k - d)) < |bits| && bits[NodeAt(d, Shr(w, k - d))] == Turn(k, d, w)
  }

  /** In every row the node above way w points towards it. */
  ghost predicate LeadsTo(bits: seq<Bit>, k: nat, w: nat) {
    |bits| == Pow2(k) - 1 && w < Pow2(k) && forall d :: 0 <= d < k ==> PointsTo(bits, k, w, d)
  }

  // ----- halves

  lemma {:induction false} PowerNext(n: nat)
    ensures Pow2(n + 1) == 2 * Pow2(n) && Pow2(0) == 1
  {
  }

  lemma {:induction false} ShrUpper(r: nat, h: nat, m: nat)
    requires m <= h
    ensures Shr(Pow2(h) + r, m) == Pow2(h - m) + Shr(r, m)
    decreases m
  {
    if m > 0 {
      assert (Pow2(h) + r) / 2 == Pow2(h - 1) + r / 2;
      ShrUpper(r / 2, h - 1, m - 1);
    }
  }

  lemma {:induction false} ShrSmall(r: nat, h: nat, m: nat)
    requires r < Pow2(h) && m <= h
    ensures Shr(r, m) < Pow2(h - m)
  {
    ShrBound(r, m, h - m);
  }

  /** Way r below a node of height h, as a way below the child it is in. */
  lemma {:induction false} ChildWay(h: nat, r: nat, d: nat)
    requires 0 <= d < h && r < Pow2(h)
    ensures var half := Pow2(h - 1);
            var side, r' := if r < half then 0 else 1, if r < half then r else r - half;
            && r' < half
            && Shr(r, h - 1) == side
            && (d > 0 ==> Shr(r, h - d) == Shr(r', h - d) + (if side == 0 then 0 else Pow2(d - 1)))
            && (d > 0 ==> Shr(r', h - d) < Pow2(d - 1))
            && (d > 0 ==> Turn(h, d, r) == Turn(h - 1, d - 1, r'))
  {
    hide Shr;
    PowerNext(h - 1);
    var half := Pow2(h - 1);
    var r' := if r < half then r else r - half;
    ShrSmall(r', h - 1, h - 1);
    PowerNext(0);
    if r >= half {
      ShrUpper(r', h - 1, h - 1);
    }
    if d > 0 {
      ShrSmall(r', h - 1, h - d);
      PowerNext(d - 1);
      if r >= half {
        ShrUpper(r', h - 1, h - d);
        ShrUpper(r', h - 1, h - d - 1);
      }
    }
  }

  /** Node q of the row d below node i is node q' of the row d - 1 below one of its children. */
  lemma {:induction false} ChildNode(i: nat, d: nat, side: Bit, q: nat)
    requires d > 0
    ensures Shl(2 * i + 1 + side + 1, d - 1) + q == Shl(i + 1, d) + (if side == 0 then q else Pow2(d - 1) + q)
  {
    ShlDouble(i + 1, d - 1);
    if side == 1 {
      ShlSucc(2 * (i + 1), d - 1);
    }
  }

  lemma {:induction false} OneShifted(n: nat)
    ensures Shl(1, n) == Pow2(n)
  {
    ShlZero(n);
    ShlSucc(0, n);
  }

  // ----- the bits of a tree

  lemma {:induction false} NodeBit(a: seq<Bit>, i: nat, h: nat)
    requires h > 0 && Perfect(TreeAt(a, i), h)
    ensures i < |a| && TreeAt(a, i) == Node(a[i], TreeAt(a, 2 * i + 1), TreeAt(a, 2 * i + 2))
    ensures Perfect(TreeAt(a, 2 * i + 1), h - 1) && Perfect(TreeAt(a, 2 * i + 2), h - 1)
  {
  }

  /** Equal subtrees have equal bits. */
  lemma {:induction false} SameBit(a: seq<Bit>, b: seq<Bit>, i: nat, h: nat, d: nat, q: nat)
    requires Perfect(TreeAt(a, i), h) && TreeAt(a, i) == TreeAt(b, i) && d < h && q < Pow2(d)
    ensures 0 <= Shl(i + 1, d) + q - 1 < |a|
    ensures Shl(i + 1, d) + q - 1 < |b| && a[Shl(i + 1, d) + q - 1] == b[Shl(i + 1, d) + q - 1]
    decreases d
  {
    hide TreeAt, Perfect, Shl;
    NodeBit(a, i, h);
    NodeBit(b, i, h);
    if d == 0 {
      NothingShifted(i + 1, q);
    } else {
      PowerNext(d - 1);
      var side := if q < Pow2(d - 1) then 0 else 1;
      var q' := if side == 0 then q else q - Pow2(d - 1);
      ChildNode(i, d, side, q');
      SameBit(a, b, 2 * i + 1 + side, h - 1, d - 1, q');
    }
  }

  lemma {:induction false} NothingShifted(a: nat, q: nat)
    ensures Shl(a, 0) == a && Shr(a, 0) == a && (q < Pow2(0) ==> q == 0)
  {
  }

  lemma {:induction false} TouchSides(t: Tree, h: nat, r: nat)
    requires h > 0 && Perfect(t, h) && r < Pow2(h)
    ensures var t' := Touch(t, h, r);
            if r < Pow2(h - 1) then t' == Node(1, Touch(t.left, h - 1, r), t.right)
            else r - Pow2(h - 1) < Pow2(h - 1) && t' == Node(0, t.left, Touch(t.right, h - 1, r - Pow2(h - 1)))
  {
  }

  /** What an access to way r below node i does to node q of the d-th row below it. */
  lemma {:induction false} TouchedBit(a: seq<Bit>, b: seq<Bit>, i: nat, h: nat, r: nat, d: nat, q: nat)
    requires Perfect(TreeAt(a, i), h) && r < Pow2(h) && TreeAt(b, i) == Touch(TreeAt(a, i), h, r)
    requires d < h && q < Pow2(d)
    ensures 0 <= Shl(i + 1, d) + q - 1 < |a|
    ensures Shl(i + 1, d) + q - 1 < |b|
    ensures b[Shl(i + 1, d) + q - 1] == if q == Shr(r, h - d) then 1 - Turn(h, d, r) else a[Shl(i + 1, d) + q - 1]
    decreases d
  {
    hide TreeAt, Perfect, Touch, Shl, Shr, Turn;
    NodeBit(a, i, h);
    NodeBit(b, i, h);
    TouchSides(TreeAt(a, i), h, r);
    ChildWay(h, r, d);
    var half := Pow2(h - 1);
    if d == 0 {
      NothingShifted(i + 1, q);
      RootTurn(h, r);
    } else {
      PowerNext(d - 1);
      var side := if q < Pow2(d - 1) then 0 else 1;
      var q' := if side == 0 then q else q - Pow2(d - 1);
      ChildNode(i, d, side, q');
      if (side == 0) == (r < half) {
        TouchedBit(a, b, 2 * i + 1 + side, h - 1, if r < half then r else r - half, d - 1, q');
      } else {
        SameBit(a, b, 2 * i + 1 + side, h - 1, d - 1, q');
      }
    }
  }

  lemma {:induction false} RootTurn(h: nat, r: nat)
    requires h > 0 && r < Pow2(h)
    ensures Shr(r, h) == 0 && Turn(h, 0, r) == if r < Pow2(h - 1) then 0 else 1
  {
    hide Shr;
    ChildWay(h, r, 0);
    ShrSmall(r, h, h);
    PowerNext(0);
  }

  /** An access to a way, on the bit list of a set. */
  lemma {:induction false} TouchTurns(was: seq<Bit>, now: seq<Bit>, k: nat, w: nat)
    requires |was| == |now| == Pow2(k) - 1 && w < Pow2(k) && Perfect(TreeAt(was, 0), k)
    requires TreeAt(now, 0) == Touch(TreeAt(was, 0), k, w)
    ensures TurnedAway(was, now, k, w)
  {
    hide TreeAt, Perfect, Touch, Shl, Shr, Turn;
    forall d, q | 0 <= d < k && 0 <= q < Pow2(d) && NodeAt(d, q) < |now|
      ensures now[NodeAt(d, q)] == if q == Shr(w, k - d) then 1 - Turn(k, d, w) else was[NodeAt(d, q)]
    {
      TouchedBit(was, now, 0, k, w, d, q);
      OneShifted(d);
    }
  }

  // ----- the victim

  lemma {:induction false} VictimSides(t: Tree, h: nat)
    requires h > 0 && Perfect(t, h)
    ensures Victim(t, h) == if t.bit == 0 then Victim(t.left, h - 1) else Pow2(h - 1) + Victim(t.right, h - 1)
  {
  }

  lemma {:induction false} VictimBit(a: seq<Bit>, i: nat, h: nat, d: nat)
    requires Perfect(TreeAt(a, i), h) && d < h
    ensures var v := Victim(TreeAt(a, i), h);
            0 <= Shl(i + 1, d) + Shr(v, h - d) - 1 < |a| && a[Shl(i + 1, d) + Shr(v, h - d) - 1] == Turn(h, d, v)
    decreases d
  {
    hide TreeAt, Perfect, Victim, Shl, Shr, Turn;
    NodeBit(a, i, h);
    VictimSides(TreeAt(a, i), h);
    var v := Victim(TreeAt(a, i), h);
    ChildWay(h, v, d);
    if d == 0 {
      NothingShifted(i + 1, 0);
      RootTurn(h, v);
    } else {
      var side := a[i];
      var child := 2 * i + 1 + side;
      var v' := Victim(TreeAt(a, child), h - 1);
      ChildNode(i, d, side, Shr(v', h - d));
      VictimBit(a, child, h - 1, d - 1);
    }
  }

  /** The selected way, on the bit list of a set. */
  lemma {:induction false} VictimLeads(bits: seq<Bit>, k: nat, v: nat)
    requires |bits| == Pow2(k) - 1 && Perfect(TreeAt(bits, 0), k) && v == Victim(TreeAt(bits, 0), k)
    ensures LeadsTo(bits, k, v)
  {
    forall d | 0 <= d < k
      ensures PointsTo(bits, k, v, d)
    {
      hide TreeAt, Perfect, Victim, Shl, Shr, Turn;
      VictimBit(bits, 0, k, d);
      OneShifted(d);
    }
  }

  /** Only one way is selected. */
  lemma {:induction false} LeadsToOne(bits: seq<Bit>, k: nat, v: nat, w: nat)
    requires LeadsTo(bits, k, v) && LeadsTo(bits, k, w)
    ensures v == w
  {
    hide Shr;
    SameRow(bits, k, v, w, k);
    NothingShifted(v, 0);
    NothingShifted(w, 0);
  }

  lemma {:induction false} SameRow(bits: seq<Bit>, k: nat, v: nat, w: nat, d: nat)
    requires LeadsTo(bits, k, v) && LeadsTo(bits, k, w) && d <= k
    ensures Shr(v, k - d) == Shr(w, k - d)
    decreases d
  {
    hide Shr, NodeAt;
    if d == 0 {
      ShrSmall(v, k, k);
      ShrSmall(w, k, k);
      PowerNext(0);
    } else {
      SameRow(bits, k, v, w, d - 1);
      assert PointsTo(bits, k, v, d - 1) && PointsTo(bits, k, w, d - 1);
      LastStep(v, k - d);
      LastStep(w, k - d);
    }
  }

  lemma {:induction false} LastStep(w: nat, m: nat)
    ensures Shr(w, m) == 2 * Shr(w, m + 1) + Shr(w, m) % 2
  {
    ShrShr(w, m, 1);
  }
}
