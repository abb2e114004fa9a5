/** The Keccak-f permutation as the code runs it, in place on 25 lanes, against the step
    mappings of section 3.2 of FIPS 202. Lane (x, y) is at index x + 5 * y. Nothing but
    0 xor v = v is used of the lanes, so they are a parameter; the code's are those of Lanes. */
module Keccak {
  /** The operations on lanes; mix is the code's b ^ (~c & d). */
  datatype Ops<!L> = Ops(zero: L, xor: (L, L) -> L, rol: (L, nat) -> L, mix: (L, L, L) -> L)

  ghost predicate ZeroIsNeutral<L(!new)>(o: Ops<L>) {
    forall v :: o.xor(o.zero, v) == v
  }

  /** The code's table rho: the rotation of each step. */
  function RhoAt(t: nat): nat {
    match t
    case 0 => 1 case 1 => 3 case 2 => 6 case 3 => 10 case 4 => 15 case 5 => 21
    case 6 => 28 case 7 => 36 case 8 => 45 case 9 => 55 case 10 => 2 case 11 => 14
    case 12 => 27 case 13 => 41 case 14 => 56 case 15 => 8 case 16 => 25 case 17 => 43
    case 18 => 62 case 19 => 18 case 20 => 39 case 21 => 61 case 22 => 20 case _ => 44
  }

  /** The code's table pi: the lane written by each step. */
  function PiAt(t: nat): nat {
    match t
    case 0 => 10 case 1 => 7 case 2 => 11 case 3 => 17 case 4 => 18 case 5 => 3
    case 6 => 5 case 7 => 16 case 8 => 8 case 9 => 21 case 10 => 24 case 11 => 4
    case 12 => 15 case 13 => 23 case 14 => 19 case 15 => 13 case 16 => 12 case 17 => 2
    case 18 => 20 case 19 => 14 case 20 => 22 case 21 => 9 case 22 => 6 case _ => 1
  }

  function RHO(): (rho: seq<nat>)
    ensures |rho| == 24 && forall t: nat :: t < 24 ==> rho[t] == RhoAt(t)
  {
    seq(24, (t: nat) requires t < 24 => RhoAt(t))
  }

  function PI(): (pi: seq<nat>)
    ensures |pi| == 24 && forall t: nat :: t < 24 ==> pi[t] == PiAt(t)
  {
    seq(24, (t: nat) requires t < 24 => PiAt(t))
  }

  // ---------------------------------------------------------------- the step mappings

  /** Parity of column x (section 3.2.1). */
  function Parity<L>(o: Ops<L>, a: seq<L>, x: nat): L
    requires |a| == 25 && x < 5
  {
    o.xor(o.xor(o.xor(o.xor(a[x], a[x + 5]), a[x + 10]), a[x + 15]), a[x + 20])
  }

  function ThetaLane<L>(o: Ops<L>, a: seq<L>, i: nat): L
    requires |a| == 25 && i < 25
  {
    var x := i % 5;
    o.xor(a[i], o.xor(Parity(o, a, (x + 4) % 5), o.rol(Parity(o, a, (x + 1) % 5), 1)))
  }

  function Theta<L>(o: Ops<L>, a: seq<L>): (b: seq<L>)
    requires |a| == 25
    ensures |b| == 25
  {
    seq(25, (i: nat) requires i < 25 => ThetaLane(o, a, i))
  }

  /** The lane visited at step t of the walk of section 3.2.2: from (1, 0), always from
      (x, y) to (y, 2x + 3y). */
  function Walk(t: nat): (p: (nat, nat))
    ensures p.0 < 5 && p.1 < 5
  {
    if t == 0 then (1, 0) else Ahead(Walk(t - 1))
  }

  function Ahead(p: (nat, nat)): (q: (nat, nat))
    requires p.0 < 5 && p.1 < 5
    ensures q.0 < 5 && q.1 < 5
  {
    (p.1, (2 * p.0 + 3 * p.1) % 5)
  }

  function Index(p: (nat, nat)): nat {
    p.0 + 5 * p.1
  }

  /** The rotation of step t. */
  function Triangle(t: nat): nat {
    ((t + 1) * (t + 2) / 2) % 64
  }

  /** The rotation offsets of section 3.2.2, lane by lane. */
  function OffsetOf(t: nat): nat {
    match t
    case 0 => 0 case 1 => 1 case 2 => 62 case 3 => 28 case 4 => 27 case 5 => 36
    case 6 => 44 case 7 => 6 case 8 => 55 case 9 => 20 case 10 => 3 case 11 => 10
    case 12 => 43 case 13 => 25 case 14 => 39 case 15 => 41 case 16 => 45 case 17 => 15
    case 18 => 21 case 19 => 8 case 20 => 18 case 21 => 2 case 22 => 61 case 23 => 56
    case _ => 14
  }

  /** The step that writes a lane. */
  function WrittenAt(t: nat): nat {
    match t
    case 0 => 0 case 1 => 23 case 2 => 17 case 3 => 5 case 4 => 11 case 5 => 6
    case 6 => 22 case 7 => 1 case 8 => 8 case 9 => 21 case 10 => 0 case 11 => 2
    case 12 => 16 case 13 => 15 case 14 => 19 case 15 => 12 case 16 => 7 case 17 => 3
    case 18 => 4 case 19 => 14 case 20 => 18 case 21 => 9 case 22 => 20 case 23 => 13
    case _ => 10
  }

  function Rho<L>(o: Ops<L>, a: seq<L>): (b: seq<L>)
    requires |a| == 25
    ensures |b| == 25
  {
    seq(25, (i: nat) requires i < 25 => if i == 0 then a[0] else o.rol(a[i], OffsetOf(i)))
  }

  /** Rho: every lane of the walk is rotated by the offset of its step; lane (0, 0) stays
      (section 3.2.2). */
  ghost predicate IsRho<L>(o: Ops<L>, a: seq<L>, b: seq<L>)
    requires |a| == 25 && |b| == 25
  {
    && b[0] == a[0]
    && forall t: nat :: t < 24 ==> b[Index(Walk(t))] == o.rol(a[Index(Walk(t))], Triangle(t))
  }

  /** Pi: lane (x, y) comes from lane (x + 3y, x) (section 3.2.3). */
  function Pi<L>(a: seq<L>): (b: seq<L>)
    requires |a| == 25
    ensures |b| == 25
  {
    seq(25, (i: nat) requires i < 25 => a[(i % 5 + 3 * (i / 5)) % 5 + 5 * (i % 5)])
  }

  /** Section 3.2.4. */
  function ChiLane<L>(o: Ops<L>, a: seq<L>, i: nat): L
    requires |a| == 25 && i < 25
  {
    var y := i / 5 * 5;
    o.mix(a[i], a[y + (i + 1) % 5], a[y + (i + 2) % 5])
  }

  function Chi<L>(o: Ops<L>, a: seq<L>): (b: seq<L>)
    requires |a| == 25
    ensures |b| == 25
  {
    seq(25, (i: nat) requires i < 25 => ChiLane(o, a, i))
  }

  // ---------------------------------------------------------------- theta in place

  function PartialParity<L>(o: Ops<L>, a: seq<L>, x: nat, n: nat): L
    requires |a| == 25 && x < 5 && n <= 5
  {
    if n == 0 then o.zero else o.xor(PartialParity(o, a, x, n - 1), a[x + 5 * (n - 1)])
  }

  lemma WholeParity<L(!new)>(o: Ops<L>, a: seq<L>, x: nat)
    requires |a| == 25 && x < 5 && ZeroIsNeutral(o)
    ensures PartialParity(o, a, x, 5) == Parity(o, a, x)
  {
    assert PartialParity(o, a, x, 1) == a[x];
    assert PartialParity(o, a, x, 3) == o.xor(PartialParity(o, a, x, 2), a[x + 10]);
  }

  /** The column parities of a, in b. */
  method Parities<L(!new)>(o: Ops<L>, a: array<L>, b: array<L>)
    requires a.Length == 25 && b.Length == 5 && a != b && ZeroIsNeutral(o)
    modifies b
    ensures forall k :: 0 <= k < 5 ==> b[k] == Parity(o, a[..], k)
  {
    ghost var was := a[..];
    for x := 0 to 5
      invariant a[..] == was
      invariant forall k :: 0 <= k < x ==> b[k] == Parity(o, was, k)
    {
      b[x] := o.zero;
      for y := 0 to 5
        invariant a[..] == was
        invariant forall k :: 0 <= k < x ==> b[k] == Parity(o, was, k)
        invariant b[x] == PartialParity(o, was, x, y)
      {
        b[x] := o.xor(b[x], a[x + 5 * y]);
      }
      WholeParity(o, was, x);
    }
  }

  lemma Coordinates(x: nat, y: nat)
    requires x < 5 && y < 5
    ensures (5 * y + x) % 5 == x && (5 * y + x) / 5 == y
  {
  }

  /** The lanes of was, except that columns before x, and column x before row y, are those of now. */
  ghost predicate DoneUpTo<L>(a: seq<L>, was: seq<L>, now: seq<L>, x: nat, y: nat)
    requires |a| == |was| == |now| == 25
  {
    forall k :: 0 <= k < 25 ==> a[k] == if k % 5 < x || (k % 5 == x && k / 5 < y) then now[k] else was[k]
  }

  lemma ThetaStep<L>(o: Ops<L>, a: seq<L>, was: seq<L>, x: nat, y: nat)
    requires |a| == |was| == 25 && x < 5 && y < 5 && DoneUpTo(a, was, Theta(o, was), x, y)
    ensures var v := o.xor(a[5 * y + x], o.xor(Parity(o, was, (x + 4) % 5), o.rol(Parity(o, was, (x + 1) % 5), 1)));
      DoneUpTo(a[5 * y + x := v], was, Theta(o, was), x, y + 1)
  {
    Coordinates(x, y);
    assert a[5 * y + x] == was[5 * y + x];
    assert ThetaLane(o, was, 5 * y + x)
      == o.xor(was[5 * y + x], o.xor(Parity(o, was, (x + 4) % 5), o.rol(Parity(o, was, (x + 1) % 5), 1)));
  }

  method ThetaInPlace<L(!new)>(o: Ops<L>, a: array<L>, b: array<L>)
    requires a.Length == 25 && b.Length == 5 && a != b && ZeroIsNeutral(o)
    modifies a, b
    ensures a[..] == Theta(o, old(a[..]))
  {
    ghost var was, now := a[..], Theta(o, a[..]);
    Parities(o, a, b);
    assert a[..] == was;
    for x := 0 to 5
      invariant forall k :: 0 <= k < 5 ==> b[k] == Parity(o, was, k)
      invariant DoneUpTo(a[..], was, now, x, 0)
    {
      for y := 0 to 5
        invariant forall k :: 0 <= k < 5 ==> b[k] == Parity(o, was, k)
        invariant DoneUpTo(a[..], was, now, x, y)
      {
        ThetaStep(o, a[..], was, x, y);
        a[5 * y + x] := o.xor(a[5 * y + x], o.xor(b[(x + 4) % 5], o.rol(b[(x + 1) % 5], 1)));
      }
    }
  }

  // ---------------------------------------------------------------- rho and pi in place

  /** A walk through all lanes but lane 0 that comes back to lane 1. */
  ghost predicate IsCycle(pi: seq<nat>) {
    && |pi| == 24 && pi[23] == 1
    && (forall j :: 0 <= j < 24 ==> 0 < pi[j] < 25)
    && (forall j, k :: 0 <= j < k < 24 ==> pi[j] != pi[k])
  }

  /** After x steps: the lanes written so far are in place, the others untouched. */
  ghost predicate Moved<L>(o: Ops<L>, pi: seq<nat>, src: seq<nat>, rho: seq<nat>, was: seq<L>, now: seq<L>, x: nat)
    requires |was| == |now| == 25 && |rho| == |src| == 24 && IsCycle(pi) && x <= 24
    requires forall j :: 0 <= j < 24 ==> src[j] < 25
  {
    && now[0] == was[0]
    && (forall j :: 0 <= j < x ==> now[pi[j]] == o.rol(was[src[j]], rho[j]))
    && (forall j :: x <= j < 24 ==> now[pi[j]] == was[pi[j]])
  }

  lemma MoveOne<L>(o: Ops<L>, pi: seq<nat>, src: seq<nat>, rho: seq<nat>, was: seq<L>, now: seq<L>, x: nat)
    requires |was| == |now| == 25 && |rho| == |src| == 24 && IsCycle(pi) && x < 24
    requires forall j :: 0 <= j < 24 ==> src[j] < 25
    requires Moved(o, pi, src, rho, was, now, x)
    ensures Moved(o, pi, src, rho, was, now[pi[x] := o.rol(was[src[x]], rho[x])], x + 1)
  {
  }

  method RhoPiInPlace<L>(o: Ops<L>, pi: seq<nat>, ghost src: seq<nat>, rho: seq<nat>, a: array<L>)
    requires a.Length == 25 && |rho| == |src| == 24 && IsCycle(pi)
    requires src[0] == 1 && forall j :: 0 < j < 24 ==> src[j] == pi[j - 1]
    modifies a
    ensures Moved(o, pi, src, rho, old(a[..]), a[..], 24)
  {
    ghost var was := a[..];
    var t := a[1];
    var x := 0;
    while x < 24
      invariant 0 <= x <= 24
      invariant x < 24 ==> t == was[src[x]]
      invariant Moved(o, pi, src, rho, was, a[..], x)
    {
      MoveOne(o, pi, src, rho, was, a[..], x);
      var b0 := a[pi[x]];
      a[pi[x]] := o.rol(t, rho[x]);
      t := b0;
      x := x + 1;
    }
  }

  // ---------------------------------------------------------------- chi in place

  /** The lanes of now before position n, of was from there on. */
  ghost predicate DoneBefore<L>(a: seq<L>, was: seq<L>, now: seq<L>, n: nat)
    requires |a| == |was| == |now| == 25
  {
    forall k :: 0 <= k < 25 ==> a[k] == if k < n then now[k] else was[k]
  }

  method SaveRow<L>(a: array<L>, b: array<L>, y: nat)
    requires a.Length == 25 && b.Length == 5 && a != b && y <= 20
    modifies b
    ensures forall k :: 0 <= k < 5 ==> b[k] == a[y + k]
  {
    for x := 0 to 5
      invariant forall k :: 0 <= k < x ==> b[k] == a[y + k]
    {
      b[x] := a[y + x];
    }
  }

  /** One row, written from its saved copy. */
  method WriteRow<L>(o: Ops<L>, a: array<L>, b: array<L>, row: nat, ghost was: seq<L>)
    requires a.Length == 25 && b.Length == 5 && a != b && row < 5 && |was| == 25
    requires DoneBefore(a[..], was, Chi(o, was), 5 * row)
    requires forall k :: 0 <= k < 5 ==> b[k] == was[5 * row + k]
    modifies a
    ensures DoneBefore(a[..], was, Chi(o, was), 5 * row + 5)
  {
    var y := 5 * row;
    for x := 0 to 5
      invariant DoneBefore(a[..], was, Chi(o, was), y + x)
    {
      ChiStep(o, a[..], was, x, row);
      a[y + x] := o.mix(b[x], b[(x + 1) % 5], b[(x + 2) % 5]);
    }
  }

  lemma ChiRowLane<L>(o: Ops<L>, a: seq<L>, x: nat, row: nat)
    requires |a| == 25 && x < 5 && row < 5
    ensures var y := 5 * row;
      Chi(o, a)[y + x] == o.mix(a[y + x], a[y + (x + 1) % 5], a[y + (x + 2) % 5])
  {
    var i := 5 * row + x;
    Coordinates(x, row);
    assert (i + 1) % 5 == (x + 1) % 5 && (i + 2) % 5 == (x + 2) % 5;
  }

  lemma ChiStep<L>(o: Ops<L>, a: seq<L>, was: seq<L>, x: nat, row: nat)
    requires |a| == |was| == 25 && x < 5 && row < 5 && DoneBefore(a, was, Chi(o, was), 5 * row + x)
    ensures var y := 5 * row;
      var v := o.mix(was[y + x], was[y + (x + 1) % 5], was[y + (x + 2) % 5]);
      DoneBefore(a[y + x := v], was, Chi(o, was), y + x + 1)
  {
    ChiRowLane(o, was, x, row);
  }

  method ChiInPlace<L>(o: Ops<L>, a: array<L>, b: array<L>)
    requires a.Length == 25 && b.Length == 5 && a != b
    modifies a, b
    ensures a[..] == Chi(o, old(a[..]))
  {
    ghost var was := a[..];
    for row := 0 to 5
      invariant DoneBefore(a[..], was, Chi(o, was), 5 * row)
    {
      SaveRow(a, b, 5 * row);
      WriteRow(o, a, b, row, was);
    }
  }

  // ---------------------------------------------------------------- the tables

  /** The walk, step by step. */
  function WalkAt(t: nat): (p: (nat, nat))
    ensures p.0 < 5 && p.1 < 5
  {
    match t
    case 0 => (1, 0) case 1 => (0, 2) case 2 => (2, 1) case 3 => (1, 2) case 4 => (2, 3)
    case 5 => (3, 3) case 6 => (3, 0) case 7 => (0, 1) case 8 => (1, 3) case 9 => (3, 1)
    case 10 => (1, 4) case 11 => (4, 4) case 12 => (4, 0) case 13 => (0, 3) case 14 => (3, 4)
    case 15 => (4, 3) case 16 => (3, 2) case 17 => (2, 2) case 18 => (2, 0) case 19 => (0, 4)
    case 20 => (4, 2) case 21 => (2, 4) case 22 => (4, 1) case 23 => (1, 1) case _ => (1, 0)
  }

  lemma WalkStep(t: nat)
    requires t < 24
    ensures WalkAt(t + 1) == Ahead(WalkAt(t)) && PiAt(t) == Index(WalkAt(t + 1))
  {
    match t
    case 0 | 1 | 2 | 3 | 4 | 5 | 6 | 7 =>
    case 8 | 9 | 10 | 11 | 12 | 13 | 14 | 15 =>
    case _ =>
  }

  lemma OffsetStep(t: nat)
    requires t < 24
    ensures RhoAt(t) == OffsetOf(Index(WalkAt(t))) && WrittenAt(PiAt(t)) == t
  {
    match t
    case 0 | 1 | 2 | 3 | 4 | 5 | 6 | 7 =>
    case 8 | 9 | 10 | 11 | 12 | 13 | 14 | 15 =>
    case _ =>
  }

  /** The code's tables list the lanes and rotations of the walk, and WrittenAt inverts PiAt. */
  lemma TableStep(t: nat)
    requires t < 24
    ensures WalkAt(t + 1) == Ahead(WalkAt(t))
      && PiAt(t) == Index(WalkAt(t + 1))
      && RhoAt(t) == OffsetOf(Index(WalkAt(t)))
      && WrittenAt(PiAt(t)) == t
  {
    WalkStep(t);
    OffsetStep(t);
  }

  lemma TriangleStep(t: nat)
    requires t < 24
    ensures 0 < RhoAt(t) == Triangle(t) < 64
  {
    match t
    case 0 | 1 | 2 | 3 | 4 | 5 =>
    case 6 | 7 | 8 | 9 | 10 | 11 =>
    case 12 | 13 | 14 | 15 | 16 | 17 =>
    case _ =>
  }

  /** Every lane but lane 0 is written by some step. */
  lemma LaneStep(i: nat)
    requires 0 < i < 25
    ensures WrittenAt(i) < 24 && PiAt(WrittenAt(i)) == i
  {
  }

  lemma {:induction false} WalkIsTable(t: nat)
    requires t <= 24
    ensures Walk(t) == WalkAt(t)
  {
    if t > 0 {
      WalkIsTable(t - 1);
      TableStep(t - 1);
    }
  }

  // ---------------------------------------------------------------- rho and pi

  lemma PiMoves(p: (nat, nat))
    requires p.0 < 5 && p.1 < 5
    ensures var q := Ahead(p);
      Index(q) < 25 && (Index(q) % 5 + 3 * (Index(q) / 5)) % 5 + 5 * (Index(q) % 5) == Index(p)
  {
    var q := Ahead(p);
    Coordinates(q.0, q.1);
    assert (q.0 + 3 * ((2 * p.0 + 3 * p.1) % 5)) % 5 == p.0;
  }

  /** The table of offsets is rho as section 3.2.2 defines it. */
  lemma RhoIsRho<L>(o: Ops<L>, a: seq<L>)
    requires |a| == 25
    ensures IsRho(o, a, Rho(o, a))
  {
    forall t: nat | t < 24
      ensures Rho(o, a)[Index(Walk(t))] == o.rol(a[Index(Walk(t))], Triangle(t)) {
      WalkIsTable(t);
      TableStep(t);
      TriangleStep(t);
      WalkNotZero(t);
    }
  }

  lemma WalkNotZero(t: nat)
    requires t < 24
    ensures Index(WalkAt(t)) > 0
  {
  }

  /** Pi carries the lane of any position to the position ahead of it. */
  lemma PiTakes<L>(b: seq<L>, p: (nat, nat))
    requires |b| == 25 && p.0 < 5 && p.1 < 5
    ensures Index(Ahead(p)) < 25 && Pi(b)[Index(Ahead(p))] == b[Index(p)]
  {
    PiMoves(p);
  }

  /** Rho and pi carry the lane of step t to the lane that step t writes. */
  lemma PiRhoAt<L>(o: Ops<L>, a: seq<L>, t: nat)
    requires |a| == 25 && t < 24
    ensures PiAt(t) < 25 && Pi(Rho(o, a))[PiAt(t)] == o.rol(a[Index(WalkAt(t))], RhoAt(t))
  {
    PiTakes(Rho(o, a), WalkAt(t));
    TableStep(t);
    WalkNotZero(t);
  }

  /** Step t reads the lane that the walk visits at step t. */
  lemma ReadsWalk(src: seq<nat>, t: nat)
    requires |src| == 24 && t < 24
    requires src[0] == 1 && forall j: nat :: 0 < j < 24 ==> src[j] == PiAt(j - 1)
    ensures src[t] == Index(WalkAt(t))
  {
    if t > 0 { TableStep(t - 1); }
  }

  lemma StepIsRhoPi<L>(o: Ops<L>, a: seq<L>, b: seq<L>, src: seq<nat>, t: nat)
    requires |a| == |b| == 25 && |src| == 24 && t < 24
    requires src[0] == 1 && forall j: nat :: 0 < j < 24 ==> src[j] == PiAt(j - 1)
    requires PiAt(t) < 25 && src[t] < 25 && b[PiAt(t)] == o.rol(a[src[t]], RhoAt(t))
    ensures PiAt(t) < 25 && b[PiAt(t)] == Pi(Rho(o, a))[PiAt(t)]
  {
    PiRhoAt(o, a, t);
    ReadsWalk(src, t);
  }

  /** Every step of the cycle was done. */
  ghost predicate Rotated<L>(o: Ops<L>, src: seq<nat>, a: seq<L>, b: seq<L>)
    requires |a| == |b| == 25 && |src| == 24
  {
    && b[0] == a[0]
    && forall t: nat :: t < 24 ==> PiAt(t) < 25 && src[t] < 25 && b[PiAt(t)] == o.rol(a[src[t]], RhoAt(t))
  }

  lemma AllMoved<L>(o: Ops<L>, a: seq<L>, b: seq<L>, src: seq<nat>)
    requires |a| == |b| == 25 && |src| == 24 && IsCycle(PI())
    requires forall j :: 0 <= j < 24 ==> src[j] < 25
    requires Moved(o, PI(), src, RHO(), a, b, 24)
    ensures Rotated(o, src, a, b)
  {
    forall t: nat | t < 24
      ensures PiAt(t) < 25 && b[PiAt(t)] == o.rol(a[src[t]], RhoAt(t)) {
      assert PI()[t] == PiAt(t) && RHO()[t] == RhoAt(t);
    }
  }

  /** Following the cycle in place is rho and then pi on all lanes at once. */
  lemma CycleIsRhoPi<L>(o: Ops<L>, a: seq<L>, b: seq<L>, src: seq<nat>)
    requires |a| == |b| == 25 && |src| == 24 && Rotated(o, src, a, b)
    requires src[0] == 1 && forall j: nat :: 0 < j < 24 ==> src[j] == PiAt(j - 1)
    ensures b == Pi(Rho(o, a))
  {
    var r := Pi(Rho(o, a));
    assert r[0] == a[0];
    forall i | 0 < i < 25 ensures b[i] == r[i] {
      LaneStep(i);
      StepIsRhoPi(o, a, b, src, WrittenAt(i));
    }
    SameLanes(b, r);
  }

  lemma SameLanes<L>(a: seq<L>, b: seq<L>)
    requires |a| == |b| == 25 && a[0] == b[0] && forall i :: 0 < i < 25 ==> a[i] == b[i]
    ensures a == b
  {
  }

  lemma PiIsCycle()
    ensures IsCycle(PI())
  {
    forall j | 0 <= j < 24 ensures 0 < PI()[j] < 25 {
      TableStep(j);
      if j < 23 { WalkNotZero(j + 1); }
    }
    forall j, k | 0 <= j < k < 24 ensures PI()[j] != PI()[k] {
      TableStep(j);
      TableStep(k);
    }
  }

  // ---------------------------------------------------------------- the permutation

  function Iota<L>(o: Ops<L>, a: seq<L>, c: L): (b: seq<L>)
    requires |a| == 25
    ensures |b| == 25
  {
    a[0 := o.xor(a[0], c)]
  }

  /** One round: iota after chi after pi after rho after theta (section 3.3). */
  function Round<L>(o: Ops<L>, a: seq<L>, c: L): (b: seq<L>)
    requires |a| == 25
    ensures |b| == 25
  {
    Iota(o, Chi(o, Pi(Rho(o, Theta(o, a)))), c)
  }

  /** The rounds with the constants in rc, in order. */
  function Rounds<L>(o: Ops<L>, a: seq<L>, rc: seq<L>): (b: seq<L>)
    requires |a| == 25
    ensures |b| == 25
  {
    if rc == [] then a else Round(o, Rounds(o, a, rc[..|rc| - 1]), rc[|rc| - 1])
  }

  /** The lane read by step t: lane 1 first, then the one the previous step wrote. */
  function Sources(): (src: seq<nat>)
    ensures |src| == 24 && src[0] == 1
    ensures forall j: nat :: 0 < j < 24 ==> src[j] == PiAt(j - 1)
  {
    seq(24, (j: nat) requires j < 24 => if j == 0 then 1 else PiAt(j - 1))
  }

  lemma SourcesFollowPi(src: seq<nat>)
    requires |src| == 24 && src[0] == 1 && forall j: nat :: 0 < j < 24 ==> src[j] == PiAt(j - 1)
    ensures forall j :: 0 < j < 24 ==> src[j] == PI()[j - 1]
    ensures forall j :: 0 <= j < 24 ==> src[j] < 25
  {
    forall j | 0 < j < 24 ensures src[j] == PI()[j - 1] && src[j] < 25 {
      assert src[j] == PiAt(j - 1);
      TableStep(j - 1);
    }
  }

  /** The cycle with the code's tables is rho and then pi. */
  method RhoPi<L>(o: Ops<L>, a: array<L>)
    requires a.Length == 25
    modifies a
    ensures a[..] == Pi(Rho(o, old(a[..])))
  {
    ghost var src := Sources();
    SourcesFollowPi(src);
    PiIsCycle();
    RhoPiInPlace(o, PI(), src, RHO(), a);
    AllMoved(o, old(a[..]), a[..], src);
    CycleIsRhoPi(o, old(a[..]), a[..], src);
  }

  method RoundInPlace<L(!new)>(o: Ops<L>, a: array<L>, b: array<L>, c: L)
    requires a.Length == 25 && b.Length == 5 && a != b && ZeroIsNeutral(o)
    modifies a, b
    ensures a[..] == Round(o, old(a[..]), c)
  {
    ThetaInPlace(o, a, b);
    RhoPi(o, a);
    ChiInPlace(o, a, b);
    a[0] := o.xor(a[0], c);
  }

  lemma RoundsStep<L>(o: Ops<L>, a: seq<L>, rc: seq<L>, i: nat)
    requires |a| == 25 && i < |rc|
    ensures Rounds(o, a, rc[..i + 1]) == Round(o, Rounds(o, a, rc[..i]), rc[i])
  {
    assert rc[..i + 1][..i] == rc[..i];
  }

  method KeccakF<L(!new)>(o: Ops<L>, a: array<L>, rc: seq<L>)
    requires a.Length == 25 && ZeroIsNeutral(o)
    modifies a
    ensures a[..] == Rounds(o, old(a[..]), rc)
  {
    ghost var was := a[..];
    var b := new L[5](_ => o.zero);
    for i := 0 to |rc|
      invariant a[..] == Rounds(o, was, rc[..i])
    {
      RoundInPlace(o, a, b, rc[i]);
      RoundsStep(o, was, rc, i);
    }
    assert rc[..|rc|] == rc;
  }
}
