/** Standard normals from uniforms by the Box-Muller transform, with one spare kept. */
module NormalRandom {
  import opened Reals

  /** The largest uniform rejected as too small for the logarithm: the least normal double, 2 to the -1022. */
  function MinUniform(): (least: real)
    ensures 0.0 < least < 1.0
  {
    1.0 /
    44942328371557897693232629769725618340449424473557664318357520289433168951375240783177119330601884005280028469967848339414697442203604155623211857659868531094441973356216371319075554900311523529863270738021251442209537670585615720368478277635206809290837627671146574559986811484619929076208839082406056034304.0
  }

  /** An engine's uniform draws, numbered from zero. */
  type Uniforms = nat -> real

  /** A source of uniforms: one fixed stream and a position in it. */
  class RandomEngine {
    const stream: Uniforms
    var position: nat

    constructor (stream: Uniforms)
      ensures this.stream == stream && position == 0
    {
      this.stream := stream;
      position := 0;
    }

    method NextUniform() returns (u: real)
      modifies this
      ensures u == stream(old(position)) && position == old(position) + 1
    {
      u := stream(position);
      position := position + 1;
    }
  }

  // ---- Which pairs of uniforms are used ----

  predicate Accepted(u: Uniforms, at: nat) {
    u(at) > MinUniform()
  }

  /** Draws lie in [0, 1), and from any position on some pair is accepted. */
  ghost predicate Productive(u: Uniforms) {
    && (forall k: nat {:trigger u(k)} :: 0.0 <= u(k) < 1.0)
    && (forall k: nat {:trigger SomeAccepted(u, k)} :: SomeAccepted(u, k))
  }

  ghost predicate SomeAccepted(u: Uniforms, from: nat) {
    exists tries: nat :: Accepted(u, from + 2 * tries)
  }

  ghost predicate FirstAccepted(u: Uniforms, from: nat, tries: nat) {
    Accepted(u, from + 2 * tries) && forall t: nat :: t < tries ==> !Accepted(u, from + 2 * t)
  }

  lemma {:induction false} FirstExists(u: Uniforms, from: nat, bound: nat) returns (tries: nat)
    requires Accepted(u, from + 2 * bound)
    ensures FirstAccepted(u, from, tries)
  {
    tries := 0;
    while !Accepted(u, from + 2 * tries)
      invariant tries <= bound
      invariant forall t: nat :: t < tries ==> !Accepted(u, from + 2 * t)
      decreases bound - tries
    {
      tries := tries + 1;
    }
  }

  lemma FirstUnique(u: Uniforms, from: nat, a: nat, b: nat)
    requires FirstAccepted(u, from, a) && FirstAccepted(u, from, b)
    ensures a == b
  {
  }

  lemma FirstFrom(u: Uniforms, from: nat)
    requires Productive(u)
    ensures exists tries: nat :: FirstAccepted(u, from, tries)
  {
    assert SomeAccepted(u, from);
    var bound: nat :| Accepted(u, from + 2 * bound);
    var tries := FirstExists(u, from, bound);
  }

  /** Where the first accepted pair from a position on begins. */
  ghost function NextPair(u: Uniforms, from: nat): nat
    requires Productive(u)
  {
    FirstFrom(u, from);
    var tries: nat :| FirstAccepted(u, from, tries);
    from + 2 * tries
  }

  /** Where pair `k` begins, counting accepted pairs from a starting position. */
  ghost function PairStart(u: Uniforms, start: nat, k: nat): nat
    requires Productive(u)
  {
    NextPair(u, PairEnd(u, start, k))
  }

  /** The position after the first `k` accepted pairs. */
  ghost function PairEnd(u: Uniforms, start: nat, k: nat): nat
    requires Productive(u)
    decreases k
  {
    if k == 0 then start else NextPair(u, PairEnd(u, start, k - 1)) + 2
  }

  /** Successive pairs never share a uniform. */
  lemma {:induction false} PairsDisjoint(u: Uniforms, start: nat, j: nat, k: nat)
    requires Productive(u) && j < k
    ensures start <= PairStart(u, start, j) && PairStart(u, start, j) + 2 <= PairStart(u, start, k)
    ensures Accepted(u, PairStart(u, start, j))
    decreases k
  {
    hide NextPair, Productive, Accepted;
    if j + 1 < k {
      PairsDisjoint(u, start, j, k - 1);
      NextPairIsAccepted(u, PairEnd(u, start, k - 1));
      NextPairIsAccepted(u, PairEnd(u, start, k));
    } else {
      PairEndAfter(u, start, j);
      NextPairIsAccepted(u, PairEnd(u, start, j));
      NextPairIsAccepted(u, PairEnd(u, start, k));
    }
  }

  lemma {:induction false} PairEndAfter(u: Uniforms, start: nat, k: nat)
    requires Productive(u)
    ensures PairEnd(u, start, k) >= start
  {
    hide NextPair, Productive;
    if k > 0 {
      PairEndAfter(u, start, k - 1);
      NextPairIsAccepted(u, PairEnd(u, start, k - 1));
    }
  }

  lemma NextPairIsAccepted(u: Uniforms, from: nat)
    requires Productive(u)
    ensures NextPair(u, from) >= from && Accepted(u, NextPair(u, from))
  {
    FirstFrom(u, from);
  }

  lemma NextPairIs(u: Uniforms, from: nat, tries: nat)
    requires Productive(u) && FirstAccepted(u, from, tries)
    ensures NextPair(u, from) == from + 2 * tries
  {
    FirstFrom(u, from);
    var found: nat :| FirstAccepted(u, from, found) && NextPair(u, from) == from + 2 * found;
    FirstUnique(u, from, tries, found);
  }

  // ---- The transform ----

  /** `std::cos` and `std::sin`, known by their laws, and the constant they are scaled by. */
  datatype Circle = Circle(cos: real -> real, sin: real -> real, pi: real)
  {
    ghost predicate Unit(angle: real) {
      cos(angle) * cos(angle) + sin(angle) * sin(angle) == 1.0
    }

    ghost predicate Round() {
      forall angle :: Unit(angle)
    }

    ghost predicate Adds(a: real, b: real) {
      cos(a + b) == cos(a) * cos(b) - sin(a) * sin(b) && sin(a + b) == sin(a) * cos(b) + cos(a) * sin(b)
    }

    /** The addition laws hold, and a quarter of the circle is a quarter of twice `pi`. */
    ghost predicate Turns() {
      && (forall a, b :: Adds(a, b))
      && cos(0.0) == 1.0 && sin(0.0) == 0.0
      && cos(Mul(2.0 * pi, 0.25)) == 0.0 && sin(Mul(2.0 * pi, 0.25)) == 1.0
    }
  }

  function BoxMuller(e: Elementary, c: Circle, u1: real, u2: real): (real, real) {
    var radius := e.sqrt(-2.0 * e.ln(u1));
    var angle := Mul(2.0 * c.pi, u2);
    (Mul(radius, c.cos(angle)), Mul(radius, c.sin(angle)))
  }

  function SquaredLength(pair: (real, real)): real {
    pair.0 * pair.0 + pair.1 * pair.1
  }

  /** The pair's squared length gives its first uniform back. */
  lemma BoxMullerInverts(e: Elementary, c: Circle, u1: real, u2: real)
    requires e.Lawful() && c.Round() && 0.0 < u1 <= 1.0
    ensures e.exp(-0.5 * SquaredLength(BoxMuller(e, c, u1, u2))) == u1
  {
    e.LnOf(u1);
    var radius := e.sqrt(-2.0 * e.ln(u1));
    e.SqrtOf(-2.0 * e.ln(u1));
    var angle := Mul(2.0 * c.pi, u2);
    assert c.Unit(angle);
    RadiusOf(radius, c.cos(angle), c.sin(angle));
    hide Mul;
    var pair := BoxMuller(e, c, u1, u2);
    assert SquaredLength(pair) == -2.0 * e.ln(u1);
    hide SquaredLength;
    assert -0.5 * SquaredLength(pair) == e.ln(u1);
  }

  /** At no second uniform the pair lies on the first axis, as far out as the first uniform puts it. */
  lemma BoxMullerStarts(e: Elementary, c: Circle, u1: real)
    requires e.Lawful() && c.Turns() && 0.0 < u1 <= 1.0
    ensures var pair := BoxMuller(e, c, u1, 0.0);
            pair.1 == 0.0 && pair.0 >= 0.0 && pair.0 * pair.0 == -2.0 * e.ln(u1)
  {
    e.LnOf(u1);
    e.SqrtOf(-2.0 * e.ln(u1));
    hide Elementary.Lawful;
    assert Mul(2.0 * c.pi, 0.0) == 0.0;
    TimesOne(e.sqrt(-2.0 * e.ln(u1)));
  }

  /** Adding to the second uniform turns the pair by that share of the circle. */
  lemma BoxMullerTurns(e: Elementary, c: Circle, u1: real, u2: real, share: real)
    requires c.Turns()
    ensures var before, after, angle := BoxMuller(e, c, u1, u2), BoxMuller(e, c, u1, u2 + share), Mul(2.0 * c.pi, share);
            && after.0 == before.0 * c.cos(angle) - before.1 * c.sin(angle)
            && after.1 == before.1 * c.cos(angle) + before.0 * c.sin(angle)
  {
    var a, b := Mul(2.0 * c.pi, u2), Mul(2.0 * c.pi, share);
    AnglesAdd(2.0 * c.pi, u2, share);
    assert c.Adds(a, b);
    TurnedPair(e.sqrt(-2.0 * e.ln(u1)), c.cos(a), c.sin(a), c.cos(b), c.sin(b));
  }

  /** A quarter added turns the pair by a right angle, and a whole turn brings it back. */
  lemma QuarterTurn(e: Elementary, c: Circle, u1: real, u2: real)
    requires c.Turns()
    ensures BoxMuller(e, c, u1, u2 + 0.25) == (-BoxMuller(e, c, u1, u2).1, BoxMuller(e, c, u1, u2).0)
  {
    hide BoxMuller;
    BoxMullerTurns(e, c, u1, u2, 0.25);
    var before, quarter := BoxMuller(e, c, u1, u2), Mul(2.0 * c.pi, 0.25);
    RightAngle(before.0, before.1, c.cos(quarter), c.sin(quarter));
  }

  lemma RightAngle(x: real, y: real, turnX: real, turnY: real)
    requires turnX == 0.0 && turnY == 1.0
    ensures x * turnX - y * turnY == -y && y * turnX + x * turnY == x
  {
  }

  lemma AnglesAdd(circle: real, u2: real, share: real)
    ensures Mul(circle, u2 + share) == Mul(circle, u2) + Mul(circle, share)
  {
  }

  lemma TurnedPair(radius: real, x: real, y: real, turnX: real, turnY: real)
    ensures Mul(radius, x * turnX - y * turnY) == Mul(radius, x) * turnX - Mul(radius, y) * turnY
    ensures Mul(radius, y * turnX + x * turnY) == Mul(radius, y) * turnX + Mul(radius, x) * turnY
  {
  }

  lemma WholeTurn(e: Elementary, c: Circle, u1: real, u2: real)
    requires c.Turns()
    ensures BoxMuller(e, c, u1, u2 + 1.0) == BoxMuller(e, c, u1, u2)
  {
    hide BoxMuller, Circle.Turns;
    QuarterTurn(e, c, u1, u2);
    QuarterTurn(e, c, u1, u2 + 0.25);
    QuarterTurn(e, c, u1, u2 + 0.5);
    QuarterTurn(e, c, u1, u2 + 0.75);
    var pair := BoxMuller(e, c, u1, u2);
    assert u2 + 0.25 + 0.25 == u2 + 0.5 && u2 + 0.5 + 0.25 == u2 + 0.75 && u2 + 0.75 + 0.25 == u2 + 1.0;
  }

  lemma RadiusOf(radius: real, x: real, y: real)
    requires x * x + y * y == 1.0
    ensures Mul(radius, x) * Mul(radius, x) + Mul(radius, y) * Mul(radius, y) == radius * radius
  {
    assert Mul(radius * radius, x * x + y * y) == radius * radius;
  }

  /** The one stream of normals an engine's uniforms carry from a starting position. */
  ghost function NormalAt(e: Elementary, c: Circle, u: Uniforms, start: nat, i: nat): real
    requires Productive(u)
  {
    var at := PairStart(u, start, i / 2);
    var pair := BoxMuller(e, c, u(at), u(at + 1));
    if i % 2 == 0 then pair.0 else pair.1
  }

  /** That stream as a function of the draw's number. */
  ghost function NormalsFrom(e: Elementary, c: Circle, u: Uniforms, start: nat): nat -> real
    requires Productive(u)
  {
    (i: nat) => NormalAt(e, c, u, start, i)
  }

  class StandardNormalGenerator {
    const engine: RandomEngine
    const elementary: Elementary
    const circle: Circle
    var hasSpare: bool
    var spare: real
    ghost const start: nat
    ghost var drawn: nat

    /** The engine stands after the pairs drawn, and a spare is the second half of the last of them. */
    ghost predicate Valid()
      reads this, engine
    {
      && Productive(engine.stream)
      && engine.position == PairEnd(engine.stream, start, (drawn + 1) / 2)
      && (hasSpare <==> drawn % 2 == 1)
      && (hasSpare ==> spare == Normal(drawn))
    }

    ghost function Normal(i: nat): real
      requires Productive(engine.stream)
    {
      NormalAt(elementary, circle, engine.stream, start, i)
    }

    ghost function Stream(): nat -> real
      requires Productive(engine.stream)
    {
      NormalsFrom(elementary, circle, engine.stream, start)
    }

    constructor (engine: RandomEngine, elementary: Elementary, circle: Circle)
      requires Productive(engine.stream)
      ensures Valid() && drawn == 0 && start == engine.position
      ensures this.engine == engine && this.elementary == elementary && this.circle == circle
    {
      this.engine := engine;
      this.elementary := elementary;
      this.circle := circle;
      hasSpare := false;
      spare := 0.0;
      start := engine.position;
      drawn := 0;
    }

    /** The next two uniforms whose first is large enough; rejected pairs are skipped. */
    method DrawUniforms() returns (u1: real, u2: real, ghost tries: nat)
      requires Productive(engine.stream)
      modifies engine
      ensures FirstAccepted(engine.stream, old(engine.position), tries)
      ensures engine.position == old(engine.position) + 2 * tries + 2
      ensures u1 == engine.stream(engine.position - 2) && u2 == engine.stream(engine.position - 1)
    {
      hide Productive, MinUniform;
      ghost var from, u := engine.position, engine.stream;
      assert SomeAccepted(u, from) by { Finds(u, from); }
      ghost var bound: nat :| Accepted(u, from + 2 * bound);
      tries := 0;
      u1 := engine.NextUniform();
      u2 := engine.NextUniform();
      while u1 <= MinUniform()
        invariant tries <= bound && engine.position == from + 2 * tries + 2
        invariant u1 == u(from + 2 * tries) && u2 == u(from + 2 * tries + 1)
        invariant forall t: nat :: t < tries ==> !Accepted(u, from + 2 * t)
        decreases bound - tries
      {
        u1 := engine.NextUniform();
        u2 := engine.NextUniform();
        tries := tries + 1;
      }
    }

    /** One accepted pair, transformed. */
    method DrawPair() returns (z0: real, z1: real)
      requires Valid() && !hasSpare
      modifies engine
      ensures engine.position == PairEnd(engine.stream, start, drawn / 2 + 1)
      ensures z0 == Normal(drawn) && z1 == Normal(drawn + 1)
    {
      hide PairEnd, NextPair, Productive, NormalAt, MinUniform, BoxMuller, FirstAccepted;
      ghost var from, u := engine.position, engine.stream;
      var u1, u2, tries := DrawUniforms();
      NextPairIs(u, from, tries);
      var pair := BoxMuller(elementary, circle, u1, u2);
      z0, z1 := pair.0, pair.1;
      DrawnPair(elementary, circle, u, start, drawn);
    }

    method Next() returns (z: real)
      requires Valid()
      modifies this, engine
      ensures Valid() && z == Normal(old(drawn)) && drawn == old(drawn) + 1
    {
      hide PairEnd, NormalAt, Productive, MinUniform, Accepted;
      if hasSpare {
        hasSpare := false;
        drawn := drawn + 1;
        return spare;
      }
      var z0, z1 := DrawPair();
      spare := z1;
      hasSpare := true;
      drawn := drawn + 1;
      return z0;
    }

    /** Fills from an index on, two normals at a time. */
    method FillPairs(out: array<real>, from: nat) returns (i: nat)
      requires Valid() && from <= out.Length && (from < out.Length ==> !hasSpare) && from <= drawn
      modifies this`drawn, engine, out
      ensures Valid() && hasSpare == old(hasSpare) && spare == old(spare)
      ensures i <= out.Length <= i + 1 && drawn == old(drawn) + i - from
      ensures i < out.Length ==> !hasSpare
      ensures forall k: nat :: k < out.Length && k < from ==> out[k] == old(out[k])
      ensures forall k: nat :: from <= k < i ==> out[k] == Normal(old(drawn) - from + k)
    {
      hide PairEnd, NormalAt, Productive, MinUniform, Accepted;
      i := from;
      while i + 1 < out.Length
        invariant from <= i <= out.Length && Valid() && drawn == old(drawn) + i - from && (i < out.Length ==> !hasSpare)
        invariant forall k: nat :: k < from ==> out[k] == old(out[k])
        invariant forall k: nat :: from <= k < i ==> out[k] == Normal(old(drawn) - from + k)
      {
        var z0, z1 := DrawPair();
        out[i], out[i + 1] := z0, z1;
        drawn := drawn + 2;
        i := i + 2;
      }
    }

    /** Fills a buffer with the next normals of the stream, the same ones that many calls of `Next` return. */
    method Fill(out: array<real>)
      requires Valid()
      modifies this, engine, out
      ensures Valid() && drawn == old(drawn) + out.Length
      ensures forall k: nat :: k < out.Length ==> out[k] == Normal(old(drawn) + k)
    {
      hide PairEnd, NormalAt, Productive, MinUniform, Accepted;
      ghost var before := drawn;
      var i := 0;
      if hasSpare && out.Length > 0 {
        out[0] := spare;
        hasSpare := false;
        drawn := drawn + 1;
        i := 1;
      }
      i := FillPairs(out, i);
      if i < out.Length {
        var z0, z1 := DrawPair();
        out[i] := z0;
        spare := z1;
        hasSpare := true;
        drawn := drawn + 1;
      }
    }
  }

  lemma Finds(u: Uniforms, from: nat)
    requires Productive(u)
    ensures SomeAccepted(u, from)
  {
  }

  lemma DrawnPair(e: Elementary, c: Circle, u: Uniforms, start: nat, i: nat)
    requires Productive(u) && i % 2 == 0
    ensures PairEnd(u, start, i / 2 + 1) == NextPair(u, PairEnd(u, start, i / 2)) + 2
    ensures (i + 1) / 2 == i / 2 && (i + 2) / 2 == i / 2 + 1
    ensures var at := NextPair(u, PairEnd(u, start, i / 2));
            && NormalAt(e, c, u, start, i) == BoxMuller(e, c, u(at), u(at + 1)).0
            && NormalAt(e, c, u, start, i + 1) == BoxMuller(e, c, u(at), u(at + 1)).1
  {
    hide NextPair, Productive, BoxMuller;
  }
}
