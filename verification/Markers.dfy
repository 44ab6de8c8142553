/** Moving overlapping map markers apart, over exact reals. */
module Markers {
  import opened Reals

  datatype Marker = Marker(x: real, y: real, radius: real)

  const PAD := 1.5
  const ROUNDS := 40

  function Gap(sqrt: real -> real, a: Marker, b: Marker): real {
    sqrt(Sq(b.x - a.x) + Sq(b.y - a.y))
  }

  /** The distance the code works with: a vanishing one is replaced. */
  function Dist(sqrt: real -> real, a: Marker, b: Marker): real {
    var gap := Gap(sqrt, a, b);
    if gap == 0.0 then 0.01 else gap
  }

  function MinDist(a: Marker, b: Marker): real {
    a.radius + b.radius + PAD
  }

  predicate SameCentre(a: Marker, b: Marker) {
    a.x == b.x && a.y == b.y
  }

  /** Both markers after one pair has been looked at, and whether the code counts that as a move. */
  function Pushed(sqrt: real -> real, a: Marker, b: Marker): (Marker, Marker, bool) {
    var dist, minDist := Dist(sqrt, a, b), MinDist(a, b);
    if dist < minDist then
      var push := (minDist - dist) / 2.0;
      var ux, uy := (b.x - a.x) / dist, (b.y - a.y) / dist;
      (a.(x := a.x - Along(ux, push), y := a.y - Along(uy, push)),
       b.(x := b.x + Along(ux, push), y := b.y + Along(uy, push)), true)
    else (a, b, false)
  }

  /** How far a push goes along one axis. */
  function Along(u: real, push: real): real {
    u * push
  }

  /** One round over the pairs, from the pair `(i, j)` on. */
  function Sweep(sqrt: real -> real, ms: seq<Marker>, i: nat, j: nat): (seq<Marker>, bool)
    requires i < j
    decreases |ms| - i, |ms| - j
  {
    if i >= |ms| then (ms, false)
    else if j >= |ms| then Sweep(sqrt, ms, i + 1, i + 2)
    else
      var (a, b, moved) := Pushed(sqrt, ms[i], ms[j]);
      var rest := Sweep(sqrt, ms[i := a][j := b], i, j + 1);
      (rest.0, moved || rest.1)
  }

  /** At most `n` rounds; the flag says that the last one moved nothing. */
  function Rounds(sqrt: real -> real, ms: seq<Marker>, n: nat): (seq<Marker>, bool)
    decreases n
  {
    if n == 0 then (ms, false)
    else
      var round := Sweep(sqrt, ms, 0, 1);
      if round.1 then Rounds(sqrt, round.0, n - 1) else (round.0, true)
  }

  /** Pushes one pair apart when it is too close. */
  method Dodge(sqrt: real -> real, markers: array<Marker>, i: nat, j: nat) returns (moved: bool)
    requires i < j < markers.Length
    modifies markers
    ensures var (a, b, m) := Pushed(sqrt, old(markers[i]), old(markers[j]));
      markers[..] == old(markers[..])[i := a][j := b] && moved == m
  {
    var a, b := markers[i], markers[j];
    var dx, dy := b.x - a.x, b.y - a.y;
    var gap := sqrt(Sq(dx) + Sq(dy));
    var dist := if gap == 0.0 then 0.01 else gap;
    var minDist := a.radius + b.radius + PAD;
    moved := dist < minDist;
    assert dist == Dist(sqrt, a, b) && moved == Pushed(sqrt, a, b).2;
    if moved {
      var push := (minDist - dist) / 2.0;
      var ux, uy := dx / dist, dy / dist;
      var p := a.(x := a.x - ux * push, y := a.y - uy * push);
      var q := b.(x := b.x + ux * push, y := b.y + uy * push);
      assert p == a.(x := a.x - Along(ux, push), y := a.y - Along(uy, push));
      assert q == b.(x := b.x + Along(ux, push), y := b.y + Along(uy, push));
      hide Along;
      assert Pushed(sqrt, a, b) == (p, q, true);
      markers[i] := p;
      markers[j] := q;
    }
  }

  /** The dodge pass, in place: rounds over all pairs until one moves nothing, or the rounds are used up. */
  method Separate(sqrt: real -> real, markers: array<Marker>) returns (settled: bool)
    modifies markers
    ensures (markers[..], settled) == Rounds(sqrt, old(markers[..]), 40)
  {
    settled := false;
    var iter := 0;
    while iter < ROUNDS && !settled
      invariant 0 <= iter <= ROUNDS
      invariant Rounds(sqrt, old(markers[..]), ROUNDS) ==
        if settled then (markers[..], true) else Rounds(sqrt, markers[..], ROUNDS - iter)
      decreases ROUNDS - iter
    {
      ghost var round := Sweep(sqrt, markers[..], 0, 1);
      var moved := false;
      var i := 0;
      while i < markers.Length
        invariant 0 <= i
        invariant Remaining(round, moved, Sweep(sqrt, markers[..], i, i + 1))
      {
        var j := i + 1;
        while j < markers.Length
          invariant i < j
          invariant Remaining(round, moved, Sweep(sqrt, markers[..], i, j))
        {
          var pushed := Dodge(sqrt, markers, i, j);
          moved := moved || pushed;
          j := j + 1;
        }
        i := i + 1;
      }
      settled := !moved;
      iter := iter + 1;
    }
  }

  /** What is left of a round, given what has been moved before. */
  ghost predicate Remaining(round: (seq<Marker>, bool), moved: bool, rest: (seq<Marker>, bool)) {
    round == (rest.0, moved || rest.1)
  }

  // ---------------------------------------------------------------- one push

  lemma GapOfSame(sqrt: real -> real, a: Marker, b: Marker)
    requires IsSqrt(sqrt)
    ensures Gap(sqrt, a, b) >= 0.0
    ensures Sq(Gap(sqrt, a, b)) == Sq(b.x - a.x) + Sq(b.y - a.y)
    ensures Gap(sqrt, a, b) == 0.0 <==> SameCentre(a, b)
  {
    hide Sq;
    SqPos(b.x - a.x);
    SqPos(b.y - a.y);
    SqPos(Gap(sqrt, a, b));
  }

  /** A push of two markers that are too close leaves them exactly as far apart as they must be
      if and only if their centres differ; coincident markers stay where they are. */
  lemma PushSeparates(sqrt: real -> real, a: Marker, b: Marker)
    requires IsSqrt(sqrt) && a.radius >= 0.0 && b.radius >= 0.0 && Dist(sqrt, a, b) < MinDist(a, b)
    ensures var (p, q, moved) := Pushed(sqrt, a, b);
      && moved
      && (Gap(sqrt, p, q) == a.radius + b.radius + 1.5 <==> !SameCentre(a, b))
      && (SameCentre(a, b) ==> p == a && q == b)
  {
    hide Sq, IsSqrt;
    GapOfSame(sqrt, a, b);
    var (p, q, _) := Pushed(sqrt, a, b);
    if SameCentre(a, b) {
      StayPut(sqrt, a, b);
    } else {
      var d, m := Gap(sqrt, a, b), MinDist(a, b);
      var u, v := (b.x - a.x) / d, (b.y - a.y) / d;
      UnitVector(b.x - a.x, b.y - a.y, d);
      StretchedBy(b.x - a.x, d, m);
      StretchedBy(b.y - a.y, d, m);
      assert q.x - p.x == u * m && q.y - p.y == v * m;
      Stretched(sqrt, u, v, m);
    }
  }

  /** A push keeps the pair's middle and its direction: the line from one centre to the other is stretched, in place. */
  lemma PushStretches(sqrt: real -> real, a: Marker, b: Marker)
    requires IsSqrt(sqrt) && a.radius >= 0.0 && b.radius >= 0.0 && Dist(sqrt, a, b) < MinDist(a, b) && !SameCentre(a, b)
    ensures var (p, q, _) := Pushed(sqrt, a, b); var d := Gap(sqrt, a, b);
      && p.x + q.x == a.x + b.x && p.y + q.y == a.y + b.y
      && d > 0.0 && (q.x - p.x) * d == (b.x - a.x) * (a.radius + b.radius + 1.5)
      && (q.y - p.y) * d == (b.y - a.y) * (a.radius + b.radius + 1.5)
  {
    hide Sq, IsSqrt;
    GapOfSame(sqrt, a, b);
    var (p, q, _) := Pushed(sqrt, a, b);
    var d, m := Gap(sqrt, a, b), MinDist(a, b);
    PushBalances(sqrt, a, b);
    StretchedBy(b.x - a.x, d, m);
    StretchedBy(b.y - a.y, d, m);
    var u, v := (b.x - a.x) / d, (b.y - a.y) / d;
    assert q.x - p.x == u * m && q.y - p.y == v * m;
    Product(u, m, d);
    Product(v, m, d);
    assert u * d == b.x - a.x && v * d == b.y - a.y;
  }

  lemma Product(u: real, m: real, d: real)
    ensures u * m * d == u * d * m
  {
  }

  lemma StayPut(sqrt: real -> real, a: Marker, b: Marker)
    requires IsSqrt(sqrt) && SameCentre(a, b)
    ensures Pushed(sqrt, a, b).0 == a && Pushed(sqrt, a, b).1 == b
  {
    GapOfSame(sqrt, a, b);
    assert 0.0 / 0.01 == 0.0;
  }

  // ---------------------------------------------------------------- whole runs

  function SumX(ms: seq<Marker>): real {
    if ms == [] then 0.0 else ms[0].x + SumX(ms[1..])
  }

  function SumY(ms: seq<Marker>): real {
    if ms == [] then 0.0 else ms[0].y + SumY(ms[1..])
  }

  lemma {:induction false} SumUpdate(ms: seq<Marker>, i: nat, m: Marker)
    requires i < |ms|
    ensures SumX(ms[i := m]) == SumX(ms) - ms[i].x + m.x
    ensures SumY(ms[i := m]) == SumY(ms) - ms[i].y + m.y
  {
    if i > 0 {
      assert ms[i := m][1..] == ms[1..][i - 1 := m];
      SumUpdate(ms[1..], i - 1, m);
    } else {
      assert ms[i := m][1..] == ms[1..];
    }
  }

  ghost predicate SameRadii(ms: seq<Marker>, ns: seq<Marker>) {
    |ms| == |ns| && forall i | 0 <= i < |ms| :: ms[i].radius == ns[i].radius
  }

  ghost predicate Balanced(ms: seq<Marker>, ns: seq<Marker>) {
    SumX(ms) == SumX(ns) && SumY(ms) == SumY(ns) && SameRadii(ms, ns)
  }

  ghost predicate RadiiOk(ms: seq<Marker>) {
    forall i | 0 <= i < |ms| :: ms[i].radius >= 0.0
  }

  /** Every pair from `(i, j)` on is far enough apart. */
  ghost predicate ApartFrom(sqrt: real -> real, ms: seq<Marker>, i: nat, j: nat) {
    forall p, q | i <= p < q < |ms| && (p == i ==> j <= q) :: Gap(sqrt, ms[p], ms[q]) >= MinDist(ms[p], ms[q])
  }

  ghost predicate Apart(sqrt: real -> real, ms: seq<Marker>) {
    ApartFrom(sqrt, ms, 0, 1)
  }

  lemma PushBalances(sqrt: real -> real, a: Marker, b: Marker)
    ensures var (p, q, _) := Pushed(sqrt, a, b);
      p.x + q.x == a.x + b.x && p.y + q.y == a.y + b.y && p.radius == a.radius && q.radius == b.radius
  {
  }

  /** A round moves nothing on the whole: the sums of the coordinates stay, whatever is pushed. */
  lemma {:induction false} SweepBalances(sqrt: real -> real, ms: seq<Marker>, i: nat, j: nat)
    requires i < j
    ensures Balanced(Sweep(sqrt, ms, i, j).0, ms)
    decreases |ms| - i, |ms| - j
  {
    if i < |ms| {
      if j < |ms| {
        var (a, b, _) := Pushed(sqrt, ms[i], ms[j]);
        PushBalances(sqrt, ms[i], ms[j]);
        hide Pushed;
        SumUpdate(ms, i, a);
        SumUpdate(ms[i := a], j, b);
        SweepBalances(sqrt, ms[i := a][j := b], i, j + 1);
      } else {
        SweepBalances(sqrt, ms, i + 1, i + 2);
      }
    }
  }

  /** A round moves nothing exactly when every pair is far enough apart already. */
  lemma {:induction false} SweepMoves(sqrt: real -> real, ms: seq<Marker>, i: nat, j: nat)
    requires IsSqrt(sqrt) && RadiiOk(ms) && i < j
    ensures !Sweep(sqrt, ms, i, j).1 <==> ApartFrom(sqrt, ms, i, j)
    ensures !Sweep(sqrt, ms, i, j).1 ==> Sweep(sqrt, ms, i, j).0 == ms
    decreases |ms| - i, |ms| - j
  {
    if i < |ms| {
      if j < |ms| {
        if Dist(sqrt, ms[i], ms[j]) >= MinDist(ms[i], ms[j]) {
          assert ms[i := ms[i]][j := ms[j]] == ms;
          SweepMoves(sqrt, ms, i, j + 1);
        }
      } else {
        SweepMoves(sqrt, ms, i + 1, i + 2);
      }
    }
  }

  /** However many rounds are run, the sums of the coordinates and every radius stay,
      and leaving early means that no two markers overlap. */
  lemma {:induction false} RoundsBalanceAndSettle(sqrt: real -> real, ms: seq<Marker>, n: nat)
    requires IsSqrt(sqrt) && RadiiOk(ms)
    ensures Balanced(Rounds(sqrt, ms, n).0, ms)
    ensures Rounds(sqrt, ms, n).1 ==> Apart(sqrt, Rounds(sqrt, ms, n).0)
    ensures n > 0 && Apart(sqrt, ms) ==> Rounds(sqrt, ms, n) == (ms, true)
    decreases n
  {
    if n > 0 {
      SweepMoves(sqrt, ms, 0, 1);
      SweepBalances(sqrt, ms, 0, 1);
      if !Apart(sqrt, ms) { RoundsBalanceAndSettle(sqrt, Sweep(sqrt, ms, 0, 1).0, n - 1); }
    }
  }

  ghost predicate AllCoincide(ms: seq<Marker>) {
    forall i, j | 0 <= i < j < |ms| :: SameCentre(ms[i], ms[j])
  }

  lemma {:induction false} SweepStays(sqrt: real -> real, ms: seq<Marker>, i: nat, j: nat)
    requires IsSqrt(sqrt) && RadiiOk(ms) && AllCoincide(ms) && i < j
    ensures Sweep(sqrt, ms, i, j).0 == ms
    ensures i < |ms| && j < |ms| ==> Sweep(sqrt, ms, i, j).1
    decreases |ms| - i, |ms| - j
  {
    if i < |ms| {
      if j < |ms| {
        StayPut(sqrt, ms[i], ms[j]);
        GapOfSame(sqrt, ms[i], ms[j]);
        assert ms[i := ms[i]][j := ms[j]] == ms;
        SweepStays(sqrt, ms, i, j + 1);
      } else {
        SweepStays(sqrt, ms, i + 1, i + 2);
      }
    }
  }

  /** Markers that all have the same centre are never separated, however long the pass runs. */
  lemma {:induction false} CoincidentNeverSettle(sqrt: real -> real, ms: seq<Marker>, n: nat)
    requires IsSqrt(sqrt) && RadiiOk(ms) && |ms| >= 2 && AllCoincide(ms)
    ensures Rounds(sqrt, ms, n) == (ms, false)
    decreases n
  {
    if n > 0 {
      SweepStays(sqrt, ms, 0, 1);
      CoincidentNeverSettle(sqrt, ms, n - 1);
    }
  }

  /** Two markers that overlap settle, exactly as far apart as they must be, if and only if their centres differ. */
  lemma TwoSettle(sqrt: real -> real, ms: seq<Marker>, n: nat)
    requires IsSqrt(sqrt) && RadiiOk(ms) && |ms| == 2 && n >= 2 && !Apart(sqrt, ms)
    ensures var (ns, settled) := Rounds(sqrt, ms, n);
      && (settled <==> !SameCentre(ms[0], ms[1]))
      && (settled ==> |ns| == 2 && Gap(sqrt, ns[0], ns[1]) == MinDist(ms[0], ms[1]))
  {
    SweepMoves(sqrt, ms, 0, 1);
    if SameCentre(ms[0], ms[1]) {
      CoincidentNeverSettle(sqrt, ms, n);
    } else {
      assert Dist(sqrt, ms[0], ms[1]) < MinDist(ms[0], ms[1]);
      PushSeparates(sqrt, ms[0], ms[1]);
      var (a, b, _) := Pushed(sqrt, ms[0], ms[1]);
      var ns := ms[0 := a][1 := b];
      assert Sweep(sqrt, ms, 0, 1).0 == ns by {
        assert Sweep(sqrt, ns, 0, 2) == Sweep(sqrt, ns, 1, 2) == Sweep(sqrt, ns, 2, 3) == (ns, false);
      }
      assert Apart(sqrt, ns);
      RoundsBalanceAndSettle(sqrt, ns, n - 1);
    }
  }
}
