/** The algebra of one Jacobi rotation: what it keeps and what it removes. */
module Rotations {
  import opened Reals
  import opened Sums
  import opened Matrices

  /** The cosine `c`, sine `s` and tangent `t` of a plane rotation. */
  datatype Angle = Angle(c: real, s: real, t: real)

  /** The rotation is a rotation, and it annihilates the entry `apq`. */
  ghost predicate Annihilates(g: Angle, app: real, aqq: real, apq: real) {
    && g.s == g.t * g.c
    && g.c * g.c + g.s * g.s == 1.0
    && apq * (g.t * g.t - 1.0) + g.t * (aqq - app) == 0.0
  }

  /** The coordinates `p` and `q` of a turned pair. */
  function First(g: Angle, x: real, y: real): real {
    g.c * x - g.s * y
  }

  function Second(g: Angle, x: real, y: real): real {
    g.s * x + g.c * y
  }

  /** Entry (i, j) after rotating rows and columns `p` and `q` of a symmetric `a`. */
  function RotatedEntry(a: Matrix, p: int, q: int, g: Angle, i: int, j: int): real {
    if i == p && j == p then At(a, p, p) - g.t * At(a, p, q)
    else if i == q && j == q then At(a, q, q) + g.t * At(a, p, q)
    else if (i == p && j == q) || (i == q && j == p) then 0.0
    else if j == p then First(g, At(a, i, p), At(a, i, q))
    else if i == p then First(g, At(a, j, p), At(a, j, q))
    else if j == q then Second(g, At(a, i, p), At(a, i, q))
    else if i == q then Second(g, At(a, j, p), At(a, j, q))
    else At(a, i, j)
  }

  /** Entry (i, j) after rotating only the columns `p` and `q` of `v`. */
  function TurnedEntry(v: Matrix, p: int, q: int, g: Angle, i: int, j: int): real {
    if j == p then First(g, At(v, i, p), At(v, i, q))
    else if j == q then Second(g, At(v, i, p), At(v, i, q))
    else At(v, i, j)
  }

  ghost predicate IsRotated(a: Matrix, b: Matrix, p: int, q: int, g: Angle, n: nat) {
    forall i, j :: 0 <= i < n && 0 <= j < n ==> At(b, i, j) == RotatedEntry(a, p, q, g, i, j)
  }

  ghost predicate IsTurned(v: Matrix, w: Matrix, p: int, q: int, g: Angle, n: nat) {
    forall i, j :: 0 <= i < n && 0 <= j < n ==> At(w, i, j) == TurnedEntry(v, p, q, g, i, j)
  }

  function Turn(x: Vec, p: int, q: int, g: Angle): Vec {
    k => if k == p then First(g, x(p), x(q)) else if k == q then Second(g, x(p), x(q)) else x(k)
  }

  ghost predicate OrthonormalRows(v: Matrix, n: nat) {
    forall a, b :: 0 <= a < n && 0 <= b < n ==>
      Dot(Row(v, a), Row(v, b), n) == if a == b then 1.0 else 0.0
  }

  ghost predicate OrthonormalCols(v: Matrix, n: nat) {
    forall a, b :: 0 <= a < n && 0 <= b < n ==>
      Dot(Col(v, a), Col(v, b), n) == if a == b then 1.0 else 0.0
  }

  ghost predicate Orthogonal(v: Matrix, n: nat) {
    OrthonormalRows(v, n) && OrthonormalCols(v, n)
  }

  /** `a` equals `v m v^T`, entry by entry. */
  ghost predicate Conjugates(a: Matrix, v: Matrix, m: Matrix, n: nat) {
    forall i, j :: 0 <= i < n && 0 <= j < n ==>
      At(a, i, j) == Form(m, Row(v, i), Row(v, j), n)
  }

  function OffEntry(a: Matrix, i: int, j: int): real {
    if i == j then 0.0 else At(a, i, j) * At(a, i, j)
  }

  function OffRow(a: Matrix, i: int, n: nat): real {
    Sum(j => OffEntry(a, i, j), n)
  }

  /** The sum of the squares off the diagonal. */
  function OffSquares(a: Matrix, n: nat): real {
    Sum(i => OffRow(a, i, n), n)
  }

  function Hypotenuse(e: Elementary, x: real): (h: real)
    requires e.Lawful()
    ensures h > 0.0 && h * h == 1.0 + x * x
  {
    assert Product(x, x) == x * x;
    e.SqrtOf(1.0 + x * x);
    e.sqrt(1.0 + x * x)
  }

  function Tangent(e: Elementary, tau: real): real
    requires e.Lawful()
  {
    (if tau >= 0.0 then 1.0 else -1.0) / (Abs(tau) + Hypotenuse(e, tau))
  }

  function Cosine(e: Elementary, t: real): real
    requires e.Lawful()
  {
    1.0 / Hypotenuse(e, t)
  }

  /** The angle the code computes to remove an entry `apq`. */
  function AngleFor(e: Elementary, app: real, aqq: real, apq: real): Angle
    requires e.Lawful() && apq != 0.0
  {
    var t := Tangent(e, (aqq - app) / (2.0 * apq));
    var c := Cosine(e, t);
    Angle(c, t * c, t)
  }

  /** The code's tangent solves t^2 + 2 tau t - 1 = 0, and c, s lie on the unit circle. */
  lemma AngleAnnihilates(e: Elementary, app: real, aqq: real, apq: real)
    requires e.Lawful() && apq != 0.0
    ensures Annihilates(AngleFor(e, app, aqq, apq), app, aqq, apq)
  {
    hide Hypotenuse;
    var tau := (aqq - app) / (2.0 * apq);
    var t := Tangent(e, tau);
    TangentSolves(tau, Hypotenuse(e, tau), t);
    TwiceTau(app, aqq, apq, tau, t);
    UnitCircle(t, Hypotenuse(e, t), Cosine(e, t));
  }

  /** The angles that annihilate the pivot and turn by at most an eighth of the circle; equal diagonal entries turn forwards. */
  ghost predicate SmallTurn(g: Angle, app: real, aqq: real, apq: real) {
    Annihilates(g, app, aqq, apq) && g.c > 0.0 && -1.0 <= g.t <= 1.0 && (app == aqq ==> g.t == 1.0)
  }

  /** There is one such angle, the one the code computes. */
  lemma SmallestAngle(e: Elementary, app: real, aqq: real, apq: real, g: Angle)
    requires e.Lawful() && apq != 0.0
    ensures SmallTurn(g, app, aqq, apq) <==> g == AngleFor(e, app, aqq, apq)
  {
    hide AngleFor, Elementary.Lawful, SmallTurn;
    TurnsLittle(e, app, aqq, apq);
    if SmallTurn(g, app, aqq, apq) {
      OneSmallTurn(AngleFor(e, app, aqq, apq), g, app, aqq, apq);
    }
  }

  lemma OneSmallTurn(g: Angle, g': Angle, app: real, aqq: real, apq: real)
    requires apq != 0.0 && SmallTurn(g, app, aqq, apq) && SmallTurn(g', app, aqq, apq)
    ensures g == g'
  {
    hide SmallTurn;
    SmallRoots(g, g', app, aqq, apq);
    TurnOnCircle(g, app, aqq, apq);
    TurnOnCircle(g', app, aqq, apq);
    SameCosine(g.t, g.c, g.s, g'.t, g'.c, g'.s);
  }

  lemma SmallRoots(g: Angle, g': Angle, app: real, aqq: real, apq: real)
    requires apq != 0.0 && SmallTurn(g, app, aqq, apq) && SmallTurn(g', app, aqq, apq)
    ensures g.t == g'.t
  {
    SameRoot(g.t, g'.t, apq, app, aqq);
  }

  lemma TurnOnCircle(g: Angle, app: real, aqq: real, apq: real)
    requires SmallTurn(g, app, aqq, apq)
    ensures g.c > 0.0 && g.s == g.t * g.c && g.c * g.c + g.s * g.s == 1.0
  {
  }

  lemma SameRoot(t: real, t': real, apq: real, app: real, aqq: real)
    requires apq != 0.0 && -1.0 <= t <= 1.0 && -1.0 <= t' <= 1.0
    requires apq * (t * t - 1.0) + t * (aqq - app) == 0.0 && apq * (t' * t' - 1.0) + t' * (aqq - app) == 0.0
    requires app == aqq ==> t == 1.0 && t' == 1.0
    ensures t == t'
  {
    if t != t' {
      RootsDiffer(t, t', apq, aqq - app);
      assert false;
    }
  }

  lemma TurnsLittle(e: Elementary, app: real, aqq: real, apq: real)
    requires e.Lawful() && apq != 0.0
    ensures SmallTurn(AngleFor(e, app, aqq, apq), app, aqq, apq)
  {
    AngleAnnihilates(e, app, aqq, apq);
    hide Hypotenuse, Annihilates, Elementary.Lawful;
    var tau := (aqq - app) / (2.0 * apq);
    assert app == aqq ==> tau == 0.0;
    TangentSmall(tau, Hypotenuse(e, tau), Tangent(e, tau));
    var h := Hypotenuse(e, Tangent(e, tau));
    assert Mul(1.0 / h, h) == 1.0 && Product(1.0 / h, h) == Mul(1.0 / h, h);
  }

  lemma TangentSmall(tau: real, root: real, t: real)
    requires root > 0.0 && root * root == 1.0 + tau * tau && t == (if tau >= 0.0 then 1.0 else -1.0) / (Abs(tau) + root)
    ensures -1.0 <= t <= 1.0 && (tau == 0.0 ==> t == 1.0)
  {
    var size := Abs(tau) + root;
    assert Product(tau, tau) == tau * tau;
    SquaresOrder(1.0, root);
    assert t * size == if tau >= 0.0 then 1.0 else -1.0;
    assert Product(1.0 - t, size) == size - t * size && Product(1.0 + t, size) == size + t * size;
    if tau == 0.0 {
      SquaresOrder(root, 1.0);
    }
  }

  /** Two small roots differ only when the diagonal entries are equal. */
  lemma RootsDiffer(t: real, t': real, apq: real, gap: real)
    requires apq != 0.0 && -1.0 <= t <= 1.0 && -1.0 <= t' <= 1.0 && t != t'
    requires apq * (t * t - 1.0) + t * gap == 0.0 && apq * (t' * t' - 1.0) + t' * gap == 0.0
    ensures gap == 0.0
  {
    var total := apq * (t + t') + gap;
    RootsSum(t, t', apq, gap, total);
    assert Product(t - t', total) == Mul(t - t', total);
    assert Product(apq, 1.0 + t * t') == Mul(apq, 1.0 + t * t');
    OppositeEnds(t, t');
    assert Mul(apq, t + t') == 0.0;
  }

  lemma RootsSum(t: real, t': real, apq: real, gap: real, total: real)
    requires apq * (t * t - 1.0) + t * gap == 0.0 && apq * (t' * t' - 1.0) + t' * gap == 0.0
    requires total == apq * (t + t') + gap
    ensures Mul(t - t', total) == 0.0
    ensures total == 0.0 ==> Mul(apq, 1.0 + t * t') == 0.0
  {
    assert Mul(t - t', total) == (apq * (t * t - 1.0) + t * gap) - (apq * (t' * t' - 1.0) + t' * gap);
    assert Mul(t, total) == Mul(t, apq * (t + t') + gap);
    assert Mul(apq, 1.0 + t * t') == Mul(t, total) - (apq * (t * t - 1.0) + t * gap);
  }

  lemma OppositeEnds(a: real, b: real)
    requires -1.0 <= a <= 1.0 && -1.0 <= b <= 1.0 && a * b == -1.0
    ensures a + b == 0.0
  {
    assert Product(1.0 - a, 1.0 + b) == 1.0 + b - a - a * b;
    assert Product(1.0 + a, 1.0 - b) == 1.0 + a - b - a * b;
    assert Mul(a + b, a + b) == a * a + b * b + 2.0 * (a * b);
    assert Product(1.0 - a, 1.0 + a) == 1.0 - a * a && Product(1.0 - b, 1.0 + b) == 1.0 - b * b;
    SquareVanishes(a + b);
  }

  lemma SameCosine(t: real, c: real, s: real, t': real, c': real, s': real)
    requires t == t' && c > 0.0 && c' > 0.0 && s == t * c && s' == t' * c'
    requires c * c + s * s == 1.0 && c' * c' + s' * s' == 1.0
    ensures c == c' && s == s'
  {
    var scale := 1.0 + t * t;
    assert Mul(t', c') == Mul(t, c');
    assert Product(t, t) == t * t;
    assert Mul(scale, c * c) == c * c + Mul(t * c, t * c);
    assert Mul(scale, c' * c') == c' * c' + Mul(t * c', t * c');
    assert Product(scale, c * c - c' * c') == Mul(scale, c * c) - Mul(scale, c' * c');
    SquaresOrder(c, c');
    SquaresOrder(c', c);
    assert Mul(t, c) == Mul(t', c');
  }

  lemma UnitCircle(t: real, h: real, c: real)
    requires h != 0.0 && h * h == 1.0 + t * t && c == 1.0 / h
    ensures c * c + (t * c) * (t * c) == 1.0
  {
    assert c * h == 1.0;
    assert Mul(c * h, c * h) == Mul(1.0, c * h);
    assert Mul(h * h, c * c) == Mul(1.0 + t * t, c * c);
  }

  lemma TangentSolves(tau: real, root: real, t: real)
    requires root >= 0.0 && root * root == 1.0 + tau * tau && Abs(tau) + root != 0.0
    requires t == (if tau >= 0.0 then 1.0 else -1.0) / (Abs(tau) + root)
    ensures t * t + 2.0 * tau * t - 1.0 == 0.0
  {
    var sign := if tau >= 0.0 then 1.0 else -1.0;
    var m := Abs(tau);
    var d := m + root;
    assert m == sign * tau && sign * sign == 1.0;
    assert t * d == sign;
    // d^2 = 1 + 2 m d, because root^2 = 1 + m^2.
    assert Mul(m, m) == Mul(sign * tau, m);
    assert Mul(m, sign * tau) == Mul(sign * tau, sign * tau);
    assert Mul(sign * sign, tau * tau) == Mul(1.0, tau * tau);
    assert Mul(d, d) == Mul(m + root, d);
    assert Mul(d, m) == Mul(m + root, m);
    assert Mul(d, root) == Mul(m + root, root);
    assert d * d == 1.0 + 2.0 * (m * d);
    // Multiplied by t^2, with t d = sign.
    assert Mul(d * d, t * t) == Mul(1.0 + 2.0 * (m * d), t * t);
    assert Mul(t * d, t * d) == Mul(sign, t * d);
    assert Mul(t * d, sign) == Mul(sign, sign);
    assert Mul(t * d, m * t) == Mul(sign, m * t);
    assert Mul(m, sign * t) == Mul(sign * tau, sign * t);
    assert Mul(sign * sign, tau * t) == Mul(1.0, tau * t);
  }

  lemma TwiceTau(app: real, aqq: real, apq: real, tau: real, t: real)
    requires apq != 0.0 && tau == (aqq - app) / (2.0 * apq)
    requires t * t + 2.0 * tau * t - 1.0 == 0.0
    ensures apq * (t * t - 1.0) + t * (aqq - app) == 0.0
  {
    assert tau * (2.0 * apq) == aqq - app;
    assert Mul(tau * (2.0 * apq), t) == Mul(aqq - app, t);
    assert Mul(t * t + 2.0 * tau * t - 1.0, apq) == Mul(0.0, apq);
  }

  /** Two pairs turned by the same rotation keep their inner product. */
  lemma PlaneTurn(g: Angle, a: real, b: real, x: real, y: real)
    requires g.c * g.c + g.s * g.s == 1.0
    ensures Mul(First(g, a, b), First(g, x, y)) + Mul(Second(g, a, b), Second(g, x, y)) ==
            Mul(a, x) + Mul(b, y)
  {
    var c, s := g.c, g.s;
    assert Mul(First(g, a, b), First(g, x, y)) == Mul(c * a - s * b, c * x - s * y);
    assert Mul(Second(g, a, b), Second(g, x, y)) == Mul(s * a + c * b, s * x + c * y);
    assert Mul(c * c + s * s, a * x) == Mul(1.0, a * x);
    assert Mul(c * c + s * s, b * y) == Mul(1.0, b * y);
  }

  /** Two inner products that agree off `p` and `q`, and in total at `p` and `q`. */
  lemma DotTwoPoints(x: Vec, y: Vec, x': Vec, y': Vec, p: int, q: int, n: nat)
    requires 0 <= p < n && 0 <= q < n && p != q
    requires forall i :: 0 <= i < n && i != p && i != q ==> x(i) == x'(i) && y(i) == y'(i)
    requires Mul(x(p), y(p)) + Mul(x(q), y(q)) == Mul(x'(p), y'(p)) + Mul(x'(q), y'(q))
    ensures Dot(x, y, n) == Dot(x', y', n)
  {
    hide Sum, Mul;
    var f, h := i => Mul(x(i), y(i)), i => Mul(x'(i), y'(i));
    SumTwoPoints(f, h, p, q, n);
    DotIsSum(x, y, n);
    DotIsSum(x', y', n);
  }

  lemma DotIsSum(x: Vec, y: Vec, n: nat)
    ensures Dot(x, y, n) == Sum(i => Mul(x(i), y(i)), n)
  {
    hide Sum;
    var f, g := i => Mul(x(i), y(i)), i => x(i) * y(i);
    forall i | 0 <= i < n ensures f(i) == g(i) {
      assert f(i) == Mul(x(i), y(i));
    }
    SumCongruent(f, g, n);
  }

  lemma TurnKeepsDot(x: Vec, y: Vec, p: int, q: int, g: Angle, n: nat)
    requires 0 <= p < n && 0 <= q < n && p != q
    requires g.c * g.c + g.s * g.s == 1.0
    ensures Dot(Turn(x, p, q, g), Turn(y, p, q, g), n) == Dot(x, y, n)
  {
    PlaneTurn(g, x(p), x(q), y(p), y(q));
    DotTwoPoints(Turn(x, p, q, g), Turn(y, p, q, g), x, y, p, q, n);
  }

  lemma TurnKeepsRows(v: Matrix, w: Matrix, p: int, q: int, g: Angle, n: nat)
    requires 0 <= p < n && 0 <= q < n && p != q
    requires g.c * g.c + g.s * g.s == 1.0
    requires IsTurned(v, w, p, q, g, n) && OrthonormalRows(v, n)
    ensures OrthonormalRows(w, n)
  {
    forall a, b | 0 <= a < n && 0 <= b < n
      ensures Dot(Row(w, a), Row(w, b), n) == if a == b then 1.0 else 0.0
    {
      TurnKeepsDot(Row(v, a), Row(v, b), p, q, g, n);
      RowTurns(v, w, p, q, g, a, n);
      RowTurns(v, w, p, q, g, b, n);
      DotCongruent(Row(w, a), Row(w, b), Turn(Row(v, a), p, q, g), Turn(Row(v, b), p, q, g), n);
    }
  }

  lemma RowTurns(v: Matrix, w: Matrix, p: int, q: int, g: Angle, i: int, n: nat)
    requires 0 <= p < n && 0 <= q < n && p != q && 0 <= i < n
    requires IsTurned(v, w, p, q, g, n)
    ensures forall k :: 0 <= k < n ==> Row(w, i)(k) == Turn(Row(v, i), p, q, g)(k)
  {
  }

  /** A turned column is a combination of at most two columns. */
  lemma TurnedColumnDot(v: Matrix, w: Matrix, p: int, q: int, g: Angle, b: int, z: Vec, n: nat)
    requires 0 <= p < n && 0 <= q < n && p != q && 0 <= b < n
    requires IsTurned(v, w, p, q, g, n)
    ensures Dot(Col(w, b), z, n) ==
            if b == p then g.c * Dot(Col(v, p), z, n) - g.s * Dot(Col(v, q), z, n)
            else if b == q then g.s * Dot(Col(v, p), z, n) + g.c * Dot(Col(v, q), z, n)
            else Dot(Col(v, b), z, n)
  {
    if b == p {
      DotCombines(Col(w, b), g.c, Col(v, p), -g.s, Col(v, q), z, n);
    } else if b == q {
      DotCombines(Col(w, b), g.s, Col(v, p), g.c, Col(v, q), z, n);
    } else {
      DotCongruent(Col(w, b), z, Col(v, b), z, n);
    }
  }

  /** The weight of the old column `k` in the turned column `b`. */
  function Weight(p: int, q: int, g: Angle, b: int, k: int): real {
    if b == p then (if k == p then g.c else if k == q then -g.s else 0.0)
    else if b == q then (if k == p then g.s else if k == q then g.c else 0.0)
    else if b == k then 1.0 else 0.0
  }

  lemma TurnedColumnWeight(v: Matrix, w: Matrix, p: int, q: int, g: Angle, b: int, k: int, n: nat)
    requires 0 <= p < n && 0 <= q < n && p != q && 0 <= b < n && 0 <= k < n
    requires IsTurned(v, w, p, q, g, n) && OrthonormalCols(v, n)
    ensures Dot(Col(v, k), Col(w, b), n) == Weight(p, q, g, b, k)
  {
    DotSymmetric(Col(v, k), Col(w, b), n);
    TurnedColumnDot(v, w, p, q, g, b, Col(v, k), n);
    assert Dot(Col(v, p), Col(v, k), n) == if p == k then 1.0 else 0.0;
    assert Dot(Col(v, q), Col(v, k), n) == if q == k then 1.0 else 0.0;
    assert Dot(Col(v, b), Col(v, k), n) == if b == k then 1.0 else 0.0;
  }

  lemma TurnKeepsCols(v: Matrix, w: Matrix, p: int, q: int, g: Angle, n: nat)
    requires 0 <= p < n && 0 <= q < n && p != q
    requires g.c * g.c + g.s * g.s == 1.0
    requires IsTurned(v, w, p, q, g, n) && OrthonormalCols(v, n)
    ensures OrthonormalCols(w, n)
  {
    hide Dot;
    forall a, b | 0 <= a < n && 0 <= b < n
      ensures Dot(Col(w, a), Col(w, b), n) == if a == b then 1.0 else 0.0
    {
      TurnedColumnDot(v, w, p, q, g, a, Col(w, b), n);
      TurnedColumnWeight(v, w, p, q, g, b, p, n);
      TurnedColumnWeight(v, w, p, q, g, b, q, n);
      TurnedColumnWeight(v, w, p, q, g, b, a, n);
      assert g.c * -g.s == -(g.s * g.c);
    }
  }

  /** Turning two rows turns their inner products with any vector. */
  lemma TurnedRowsDot(g: Angle, r: Vec, row: Vec, row': Vec, y: Vec, n: nat)
    ensures (forall j :: 0 <= j < n ==> r(j) == First(g, row(j), row'(j))) ==>
              Dot(r, y, n) == First(g, Dot(row, y, n), Dot(row', y, n))
    ensures (forall j :: 0 <= j < n ==> r(j) == Second(g, row(j), row'(j))) ==>
              Dot(r, y, n) == Second(g, Dot(row, y, n), Dot(row', y, n))
  {
    hide Dot;
    if forall j :: 0 <= j < n ==> r(j) == First(g, row(j), row'(j)) {
      DotCombines(r, g.c, row, -g.s, row', y, n);
    }
    if forall j :: 0 <= j < n ==> r(j) == Second(g, row(j), row'(j)) {
      DotCombines(r, g.s, row, g.c, row', y, n);
    }
  }

  /** Rows `p` and `q` of the rotated matrix, applied to a turned vector. */
  lemma RotationTurnsPivotRows(a: Matrix, b: Matrix, p: int, q: int, g: Angle, y: Vec, n: nat)
    requires 0 <= p < n && 0 <= q < n && p != q
    requires Symmetric(a, n) && IsRotated(a, b, p, q, g, n)
    requires Annihilates(g, At(a, p, p), At(a, q, q), At(a, p, q))
    ensures Act(b, p, Turn(y, p, q, g), n) == First(g, Act(a, p, y, n), Act(a, q, y, n))
    ensures Act(b, q, Turn(y, p, q, g), n) == Second(g, Act(a, p, y, n), Act(a, q, y, n))
  {
    hide First, Second;
    var r := j => First(g, At(a, p, j), At(a, q, j));
    var r' := j => Second(g, At(a, p, j), At(a, q, j));
    PivotRowFirst(g, At(a, p, p), At(a, q, q), At(a, p, q), y(p), y(q));
    PivotRowSecond(g, At(a, p, p), At(a, q, q), At(a, p, q), y(p), y(q));
    assert Mul(0.0, First(g, y(p), y(q))) == 0.0 == Mul(0.0, Second(g, y(p), y(q)));
    DotTwoPoints(Row(b, p), Turn(y, p, q, g), r, y, p, q, n);
    DotTwoPoints(Row(b, q), Turn(y, p, q, g), r', y, p, q, n);
    TurnedRowsDot(g, r, Row(a, p), Row(a, q), y, n);
    TurnedRowsDot(g, r', Row(a, p), Row(a, q), y, n);
  }

  lemma RotationKeepsAct(a: Matrix, b: Matrix, p: int, q: int, g: Angle, y: Vec, i: int, n: nat)
    requires 0 <= p < n && 0 <= q < n && p != q && 0 <= i < n && i != p && i != q
    requires IsRotated(a, b, p, q, g, n)
    requires g.c * g.c + g.s * g.s == 1.0
    ensures Act(b, i, Turn(y, p, q, g), n) == Act(a, i, y, n)
  {
    hide First, Second;
    PlaneTurn(g, At(a, i, p), At(a, i, q), y(p), y(q));
    DotTwoPoints(Row(b, i), Turn(y, p, q, g), Row(a, i), y, p, q, n);
  }

  /** The pivot block is diagonalised: row `p` of it, then row `q`. */
  lemma PivotRowFirst(g: Angle, app: real, aqq: real, apq: real, x: real, y: real)
    requires Annihilates(g, app, aqq, apq)
    ensures Mul(app - g.t * apq, First(g, x, y)) ==
            Mul(First(g, app, apq), x) + Mul(First(g, apq, aqq), y)
  {
    assert Mul(app - g.t * apq, First(g, x, y)) == Mul(app - g.t * apq, g.c * x - g.s * y);
    assert Mul(First(g, app, apq), x) == Mul(g.c * app - g.s * apq, x);
    assert Mul(First(g, apq, aqq), y) == Mul(g.c * apq - g.s * aqq, y);
    assert Mul(apq * (g.t * g.t - 1.0) + g.t * (aqq - app), g.c * y) == Mul(0.0, g.c * y);
    assert Mul(g.s, app * y) == Mul(g.t * g.c, app * y);
    assert Mul(g.s, g.t * apq * y) == Mul(g.t * g.c, g.t * apq * y);
    assert Mul(g.s, aqq * y) == Mul(g.t * g.c, aqq * y);
    assert Mul(g.s, apq * x) == Mul(g.t * g.c, apq * x);
  }

  lemma PivotRowSecond(g: Angle, app: real, aqq: real, apq: real, x: real, y: real)
    requires Annihilates(g, app, aqq, apq)
    ensures Mul(aqq + g.t * apq, Second(g, x, y)) ==
            Mul(Second(g, app, apq), x) + Mul(Second(g, apq, aqq), y)
  {
    assert Mul(aqq + g.t * apq, Second(g, x, y)) == Mul(aqq + g.t * apq, g.s * x + g.c * y);
    assert Mul(Second(g, app, apq), x) == Mul(g.s * app + g.c * apq, x);
    assert Mul(Second(g, apq, aqq), y) == Mul(g.s * apq + g.c * aqq, y);
    assert Mul(apq * (g.t * g.t - 1.0) + g.t * (aqq - app), g.c * x) == Mul(0.0, g.c * x);
    assert Mul(g.s, app * x) == Mul(g.t * g.c, app * x);
    assert Mul(g.s, g.t * apq * x) == Mul(g.t * g.c, g.t * apq * x);
    assert Mul(g.s, aqq * x) == Mul(g.t * g.c, aqq * x);
    assert Mul(g.s, apq * y) == Mul(g.t * g.c, apq * y);
  }

  /** A rotation keeps the bilinear form: the new matrix on turned vectors is the old one. */
  lemma RotationKeepsForm(a: Matrix, b: Matrix, p: int, q: int, g: Angle, x: Vec, y: Vec, n: nat)
    requires 0 <= p < n && 0 <= q < n && p != q
    requires Symmetric(a, n) && IsRotated(a, b, p, q, g, n)
    requires Annihilates(g, At(a, p, p), At(a, q, q), At(a, p, q))
    ensures Form(b, Turn(x, p, q, g), Turn(y, p, q, g), n) == Form(a, x, y, n)
  {
    hide First, Second;
    var z := k => Act(a, k, y, n);
    var z' := Turn(z, p, q, g);
    forall i | 0 <= i < n ensures Act(b, i, Turn(y, p, q, g), n) == z'(i) {
      if i == p || i == q {
        RotationTurnsPivotRows(a, b, p, q, g, y, n);
      } else {
        RotationKeepsAct(a, b, p, q, g, y, i, n);
      }
    }
    FormIsDot(b, Turn(x, p, q, g), Turn(y, p, q, g), z', n);
    TurnKeepsDot(x, z, p, q, g, n);
    FormIsDot(a, x, y, z, n);
  }

  /** Similarity survives the rotation: a = v m v^T becomes a = v' m' v'^T. */
  lemma RotationKeepsConjugation(a: Matrix, v: Matrix, m: Matrix, v': Matrix, m': Matrix,
                                 p: int, q: int, g: Angle, n: nat)
    requires 0 <= p < n && 0 <= q < n && p != q
    requires Symmetric(m, n) && IsRotated(m, m', p, q, g, n) && IsTurned(v, v', p, q, g, n)
    requires Annihilates(g, At(m, p, p), At(m, q, q), At(m, p, q))
    requires Conjugates(a, v, m, n)
    ensures Conjugates(a, v', m', n)
  {
    forall i, j | 0 <= i < n && 0 <= j < n
      ensures At(a, i, j) == Form(m', Row(v', i), Row(v', j), n)
    {
      RotationKeepsForm(m, m', p, q, g, Row(v, i), Row(v, j), n);
      RowTurns(v, v', p, q, g, i, n);
      RowTurns(v, v', p, q, g, j, n);
      FormCongruent(m', Row(v', i), Row(v', j), m', Turn(Row(v, i), p, q, g), Turn(Row(v, j), p, q, g), n);
    }
  }

  lemma RotatedSymmetric(a: Matrix, b: Matrix, p: int, q: int, g: Angle, n: nat)
    requires 0 <= p < n && 0 <= q < n && p != q
    requires Symmetric(a, n) && IsRotated(a, b, p, q, g, n)
    ensures Symmetric(b, n)
  {
  }

  lemma RotationKeepsOtherRow(a: Matrix, b: Matrix, p: int, q: int, g: Angle, i: int, n: nat)
    requires 0 <= p < n && 0 <= q < n && p != q && 0 <= i < n && i != p && i != q
    requires g.c * g.c + g.s * g.s == 1.0
    requires IsRotated(a, b, p, q, g, n)
    ensures OffRow(b, i, n) == OffRow(a, i, n)
  {
    var f, h := j => OffEntry(b, i, j), j => OffEntry(a, i, j);
    assert f(p) + f(q) == h(p) + h(q) by {
      PlaneTurn(g, At(a, i, p), At(a, i, q), At(a, i, p), At(a, i, q));
    }
    SumTwoPoints(f, h, p, q, n);
  }

  function PairEntry(a: Matrix, p: int, q: int, j: int): real {
    OffEntry(a, p, j) + OffEntry(a, q, j)
  }

  lemma RotationKeepsPair(a: Matrix, b: Matrix, p: int, q: int, g: Angle, j: int, n: nat)
    requires 0 <= p < n && 0 <= q < n && p != q && 0 <= j < n && j != p && j != q
    requires g.c * g.c + g.s * g.s == 1.0
    requires Symmetric(a, n) && IsRotated(a, b, p, q, g, n)
    ensures PairEntry(b, p, q, j) == PairEntry(a, p, q, j)
  {
    PlaneTurn(g, At(a, j, p), At(a, j, q), At(a, j, p), At(a, j, q));
  }

  lemma RotationShrinksPair(a: Matrix, b: Matrix, p: int, q: int, g: Angle, n: nat)
    requires 0 <= p < n && 0 <= q < n && p != q
    requires g.c * g.c + g.s * g.s == 1.0
    requires Symmetric(a, n) && IsRotated(a, b, p, q, g, n)
    ensures OffRow(b, p, n) + OffRow(b, q, n) ==
            OffRow(a, p, n) + OffRow(a, q, n) - 2.0 * (At(a, p, q) * At(a, p, q))
  {
    hide First, Second, Sum;
    var f, h := j => PairEntry(b, p, q, j), j => PairEntry(a, p, q, j);
    forall j | 0 <= j < n && j != p && j != q ensures f(j) == h(j) {
      RotationKeepsPair(a, b, p, q, g, j, n);
    }
    SumTwoPoints(f, h, p, q, n);
    hide OffEntry;
    SumAdds(h, j => OffEntry(a, p, j), j => OffEntry(a, q, j), n);
    SumAdds(f, j => OffEntry(b, p, j), j => OffEntry(b, q, j), n);
  }

  /** The rotation removes exactly 2 apq^2 from the off-diagonal sum of squares. */
  lemma RotationShrinksOff(a: Matrix, b: Matrix, p: int, q: int, g: Angle, n: nat)
    requires 0 <= p < n && 0 <= q < n && p != q
    requires g.c * g.c + g.s * g.s == 1.0
    requires Symmetric(a, n) && IsRotated(a, b, p, q, g, n)
    ensures OffSquares(b, n) == OffSquares(a, n) - 2.0 * (At(a, p, q) * At(a, p, q))
  {
    forall i | 0 <= i < n && i != p && i != q ensures OffRow(b, i, n) == OffRow(a, i, n) {
      RotationKeepsOtherRow(a, b, p, q, g, i, n);
    }
    RotationShrinksPair(a, b, p, q, g, n);
    SumTwoPoints(i => OffRow(b, i, n), i => OffRow(a, i, n), p, q, n);
  }

  /** When `apq` is a largest entry, the sum shrinks by the factor 1 - 2 / (n (n - 1)). */
  lemma LargestPivotContracts(a: Matrix, b: Matrix, p: int, q: int, g: Angle, n: nat)
    requires 0 <= p < n && 0 <= q < n && p != q
    requires g.c * g.c + g.s * g.s == 1.0
    requires Symmetric(a, n) && IsRotated(a, b, p, q, g, n)
    requires forall i, j :: 0 <= i < n && 0 <= j < n && i != j ==> Abs(At(a, i, j)) <= Abs(At(a, p, q))
    ensures 0.0 <= OffSquares(b, n) <= Contraction(n) * OffSquares(a, n)
  {
    hide First, Second, IsRotated, Pairs, OffSquares;
    var top := At(a, p, q) * At(a, p, q);
    OffBound(a, top, Abs(At(a, p, q)), n);
    RotationShrinksOff(a, b, p, q, g, n);
    OffNonNegative(b, n);
    Contracted(OffSquares(a, n), top, Pairs(n));
  }

  /** The number of off-diagonal entries. */
  function Pairs(n: nat): (pairs: real)
    requires n >= 2
    ensures pairs >= 2.0
  {
    assert Product(n as real - 2.0, n as real) == (n as real - 2.0) * (n as real);
    (n as real) * (n as real - 1.0)
  }

  lemma OffBound(a: Matrix, top: real, size: real, n: nat)
    requires n >= 2 && top == size * size && size >= 0.0
    requires forall i, j :: 0 <= i < n && 0 <= j < n && i != j ==> Abs(At(a, i, j)) <= size
    ensures OffSquares(a, n) <= Pairs(n) * top
  {
    hide Pairs, OffRow;
    var rowBound := Mul(n as real - 1.0, top);
    var f, bound := i => OffRow(a, i, n), (i: int) => rowBound;
    forall i | 0 <= i < n ensures f(i) <= bound(i) {
      OffRowBound(a, i, top, size, n);
    }
    SumMonotone(f, bound, n);
    SumConstant(bound, rowBound, n);
    PairsTimes(n, top);
  }

  lemma PairsTimes(n: nat, top: real)
    requires n >= 2
    ensures (n as real) * Mul(n as real - 1.0, top) == Pairs(n) * top
  {
    assert Mul(Pairs(n), top) == Mul((n as real) * (n as real - 1.0), top);
  }

  /** The factor by which a rotation on a largest pivot shrinks the sum of squares. */
  function Contraction(n: nat): real
    requires n >= 2
  {
    1.0 - 2.0 / Pairs(n)
  }

  lemma Contracted(off: real, top: real, pairs: real)
    requires pairs > 0.0 && off <= pairs * top
    ensures off - 2.0 * top <= (1.0 - 2.0 / pairs) * off
  {
    var w := 2.0 / pairs;
    assert w * pairs == 2.0;
    assert Mul(w * pairs, top) == Mul(2.0, top);
    assert Product(w, pairs * top - off) == w * (pairs * top - off);
  }

  lemma OffRowBound(a: Matrix, i: int, top: real, size: real, n: nat)
    requires 0 <= i < n && top == size * size && size >= 0.0
    requires forall j :: 0 <= j < n && j != i ==> Abs(At(a, i, j)) <= size
    ensures OffRow(a, i, n) <= Mul(n as real - 1.0, top)
  {
    var rest := j => if j == i then 0.0 else top;
    forall j | 0 <= j < n ensures OffEntry(a, i, j) <= rest(j) {
      if j != i {
        SquareBelow(At(a, i, j), size);
      }
    }
    SumMonotone(j => OffEntry(a, i, j), rest, n);
    SumButOne(rest, i, top, n);
  }

  lemma SumButOne(rest: Vec, i: int, top: real, n: nat)
    requires 0 <= i < n
    requires forall j :: 0 <= j < n ==> rest(j) == if j == i then 0.0 else top
    ensures Sum(rest, n) == Mul(n as real - 1.0, top)
  {
    var spike := j => if j == i then top else 0.0;
    var all := (j: int) => top;
    SumCombines(rest, 1.0, all, -1.0, spike, n);
    SumConstant(all, top, n);
    SumOnePoint(spike, i, n);
  }

  lemma SquareBelow(x: real, size: real)
    requires Abs(x) <= size
    ensures x * x <= size * size
  {
    assert Product(size - x, size + x) == size * size - x * x;
  }

  lemma OffNonNegative(a: Matrix, n: nat)
    ensures OffSquares(a, n) >= 0.0
  {
    forall i | 0 <= i < n ensures OffRow(a, i, n) >= 0.0 {
      forall j | 0 <= j < n ensures OffEntry(a, i, j) >= 0.0 {
        assert Product(At(a, i, j), At(a, i, j)) >= 0.0;
      }
      SumNonNegative(j => OffEntry(a, i, j), n);
    }
    SumNonNegative(i => OffRow(a, i, n), n);
  }
}
