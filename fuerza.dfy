/**
 * The pairwise gravitational force law `calcular_fuerza_gravitacional`
 * (fisica3cuerpos.py:75-85), over exact reals.
 *
 * The source computes `math.sqrt`, `math.atan2`, `math.cos` and `math.sin` on
 * floats.  Here the square root is a parameter `raiz` that is only assumed to
 * return the non-negative root of a non-negative real (`EsRaiz`), and the pair
 * `(cos(atan2(dy, dx)), sin(atan2(dy, dx)))` is the unit vector
 * `(dx / d, dy / d)` of the separation, which is what it equals for `d > 0`.
 */
module Fuerza {

  /** A plane vector: a force, or a pair of force components. */
  datatype Vec = Vec(x: real, y: real)

  const Cero: Vec := Vec(0.0, 0.0)

  function Negado(v: Vec): Vec
  {
    Vec(-v.x, -v.y)
  }

  /** What the force law reads of a body: its position and its mass. */
  datatype PuntoMasa = PuntoMasa(x: real, y: real, masa: real)

  /** Separations closer than this exert no force at all (line 79). */
  const DistanciaCorte: real := 40.0

  /** `raiz` behaves as the square root on every non-negative real. */
  ghost predicate EsRaiz(raiz: real -> real)
  {
    forall s :: 0.0 <= s ==> 0.0 <= raiz(s) && raiz(s) * raiz(s) == s
  }

  /** `dx**2 + dy**2` for the separation from `p1` to `p2` (lines 76-78). */
  function SeparacionCuadrada(p1: PuntoMasa, p2: PuntoMasa): real
  {
    (p2.x - p1.x) * (p2.x - p1.x) + (p2.y - p1.y) * (p2.y - p1.y)
  }

  function Max(a: real, b: real): real
  {
    if a < b then b else a
  }

  /** What `EsRaiz` promises at one point. */
  lemma RaizEn(raiz: real -> real, s: real)
    requires EsRaiz(raiz) && 0.0 <= s
    ensures 0.0 <= raiz(s) && raiz(s) * raiz(s) == s
  {
  }

  /** A non-negative root lies under the cutoff exactly when its square lies under 1600. */
  lemma RaizBajoCorte(d: real, s: real)
    requires 0.0 <= d && d * d == s
    ensures s < DistanciaCorte * DistanciaCorte <==> d < DistanciaCorte
  {
    if d < DistanciaCorte {
      CuadradoCreciente(d, DistanciaCorte);
    } else if DistanciaCorte < d {
      CuadradoCreciente(DistanciaCorte, d);
    }
  }

  lemma ProductoPositivo(a: real, b: real)
    requires 0.0 < a && 0.0 < b
    ensures 0.0 < a * b
  {
  }

  /** Squaring is strictly increasing on the non-negative reals. */
  lemma CuadradoCreciente(a: real, b: real)
    requires 0.0 <= a < b
    ensures a * a < b * b
  {
    ProductoPositivo(b - a, b + a);
    assert (b - a) * (b + a) == b * b - a * a;
  }

  /** Magnitude `g * m1 * m2 / d^2` of the attraction at distance `d` (line 81). */
  function Magnitud(g: real, m1: real, m2: real, d: real): real
    requires d != 0.0
  {
    (g * m1 * m2) / (d * d)
  }

  /** The force of magnitude `fuerza` along the unit vector `(dx / d, dy / d)`. */
  function Proyectar(fuerza: real, dx: real, dy: real, d: real): Vec
    requires d != 0.0
  {
    Vec(fuerza * (dx / d), fuerza * (dy / d))
  }

  /**
   * The force that `p2` exerts on `p1` under gravitational constant `g`, with
   * `raiz` standing for `math.sqrt`.  A non-zero force always comes from a
   * distance of at least 40, so the `max(1, ·)` clamp of line 78 never decides
   * a non-zero result and the divisor `distancia**2` is at least 1600.
   */
  function CalcularFuerzaGravitacional(p1: PuntoMasa, p2: PuntoMasa, g: real, raiz: real -> real): (f: Vec)
    ensures f != Cero ==>
              DistanciaCorte <= raiz(SeparacionCuadrada(p1, p2)) &&
              Max(1.0, raiz(SeparacionCuadrada(p1, p2))) == raiz(SeparacionCuadrada(p1, p2))
  {
    var distancia := Max(1.0, raiz(SeparacionCuadrada(p1, p2)));
    if distancia < DistanciaCorte then
      Cero
    else
      Proyectar(Magnitud(g, p1.masa, p2.masa, distancia), p2.x - p1.x, p2.y - p1.y, distancia)
  }

  /**
   * The close-range cutoff stated on the squared separation: closer than 40
   * units (`dx*dx + dy*dy < 1600`) the force is exactly zero, whatever the
   * masses and `g`; conversely a non-zero force needs `dx*dx + dy*dy >= 1600`.
   */
  lemma CorteCercano(p1: PuntoMasa, p2: PuntoMasa, g: real, raiz: real -> real)
    requires EsRaiz(raiz)
    ensures SeparacionCuadrada(p1, p2) < DistanciaCorte * DistanciaCorte ==>
              CalcularFuerzaGravitacional(p1, p2, g, raiz) == Cero
    ensures CalcularFuerzaGravitacional(p1, p2, g, raiz) != Cero ==>
              DistanciaCorte * DistanciaCorte <= SeparacionCuadrada(p1, p2)
  {
    var s := SeparacionCuadrada(p1, p2);
    RaizEn(raiz, s);
    RaizBajoCorte(raiz(s), s);
  }

  /** Two bodies at the same place exert no force on each other (no division by zero arises). */
  lemma MismaPosicionSinFuerza(p1: PuntoMasa, p2: PuntoMasa, g: real, raiz: real -> real)
    requires EsRaiz(raiz)
    requires p1.x == p2.x && p1.y == p2.y
    ensures CalcularFuerzaGravitacional(p1, p2, g, raiz) == Cero
  {
    CorteCercano(p1, p2, g, raiz);
  }

  /** Swapping the two bodies negates the force exactly (Newton's third law). */
  lemma Antisimetria(p1: PuntoMasa, p2: PuntoMasa, g: real, raiz: real -> real)
    ensures CalcularFuerzaGravitacional(p2, p1, g, raiz) == Negado(CalcularFuerzaGravitacional(p1, p2, g, raiz))
  {
    SeparacionSimetrica(p1, p2);
    var d := Max(1.0, raiz(SeparacionCuadrada(p1, p2)));
    if DistanciaCorte <= d {
      var dx, dy := p2.x - p1.x, p2.y - p1.y;
      var m := Magnitud(g, p1.masa, p2.masa, d);
      assert CalcularFuerzaGravitacional(p1, p2, g, raiz) == Proyectar(m, dx, dy, d);
      assert CalcularFuerzaGravitacional(p2, p1, g, raiz)
          == Proyectar(Magnitud(g, p2.masa, p1.masa, d), p1.x - p2.x, p1.y - p2.y, d);
      assert g * p2.masa * p1.masa == g * p1.masa * p2.masa;
      assert p1.x - p2.x == -dx && p1.y - p2.y == -dy;
      ProyectarOpuesto(m, dx, dy, d);
    }
  }

  lemma SeparacionSimetrica(p1: PuntoMasa, p2: PuntoMasa)
    ensures SeparacionCuadrada(p2, p1) == SeparacionCuadrada(p1, p2)
  {
    var dx, dy := p2.x - p1.x, p2.y - p1.y;
    assert (-dx) * (-dx) == dx * dx;
    assert (-dy) * (-dy) == dy * dy;
  }

  lemma ProyectarOpuesto(fuerza: real, dx: real, dy: real, d: real)
    requires d != 0.0
    ensures Proyectar(fuerza, -dx, -dy, d) == Negado(Proyectar(fuerza, dx, dy, d))
  {
    assert (-dx) / d == -(dx / d);
    assert (-dy) / d == -(dy / d);
  }

  /**
   * Beyond the cutoff the force has the inverse-square magnitude
   * |f|^2 == (g * m1 * m2 / s)^2, where s is the squared separation.
   */
  lemma MagnitudInversaCuadrada(p1: PuntoMasa, p2: PuntoMasa, g: real, raiz: real -> real)
    requires EsRaiz(raiz)
    requires DistanciaCorte * DistanciaCorte <= SeparacionCuadrada(p1, p2)
    ensures var f := CalcularFuerzaGravitacional(p1, p2, g, raiz);
            var k := g * p1.masa * p2.masa;
            f.x * f.x + f.y * f.y == (k / SeparacionCuadrada(p1, p2)) * (k / SeparacionCuadrada(p1, p2))
  {
    var s := SeparacionCuadrada(p1, p2);
    RaizEn(raiz, s);
    var d := raiz(s);
    RaizBajoCorte(d, s);
    var k := g * p1.masa * p2.masa;
    assert Max(1.0, d) == d;
    assert d * d == s;
    assert Magnitud(g, p1.masa, p2.masa, d) == k / s;
    ProyectarMagnitud(Magnitud(g, p1.masa, p2.masa, d), p2.x - p1.x, p2.y - p1.y, d);
  }

  lemma ProyectarMagnitud(fuerza: real, dx: real, dy: real, d: real)
    requires 0.0 < d && d * d == dx * dx + dy * dy
    ensures var f := Proyectar(fuerza, dx, dy, d);
            f.x * f.x + f.y * f.y == fuerza * fuerza
  {
    var ux, uy := dx / d, dy / d;
    assert dx == ux * d && dy == uy * d;
    calc {
      (ux * ux + uy * uy) * (d * d);
      (ux * d) * (ux * d) + (uy * d) * (uy * d);
      dx * dx + dy * dy;
      d * d;
    }
    assert ux * ux + uy * uy == 1.0;
    calc {
      (fuerza * ux) * (fuerza * ux) + (fuerza * uy) * (fuerza * uy);
      fuerza * fuerza * (ux * ux + uy * uy);
    }
  }

  /**
   * The force lies along the separation from `p1` to `p2`, and when
   * `g * m1 * m2 > 0` it points towards `p2` (it attracts).
   */
  lemma DireccionAtractiva(p1: PuntoMasa, p2: PuntoMasa, g: real, raiz: real -> real)
    ensures var f := CalcularFuerzaGravitacional(p1, p2, g, raiz);
            f.x * (p2.y - p1.y) == f.y * (p2.x - p1.x)
    ensures var f := CalcularFuerzaGravitacional(p1, p2, g, raiz);
            0.0 < g * p1.masa * p2.masa ==> 0.0 <= f.x * (p2.x - p1.x) && 0.0 <= f.y * (p2.y - p1.y)
  {
    var d := Max(1.0, raiz(SeparacionCuadrada(p1, p2)));
    if DistanciaCorte <= d {
      ProyectarDireccion(Magnitud(g, p1.masa, p2.masa, d), p2.x - p1.x, p2.y - p1.y, d);
      if 0.0 < g * p1.masa * p2.masa {
        assert 0.0 < Magnitud(g, p1.masa, p2.masa, d);
      }
    }
  }

  lemma ProyectarDireccion(fuerza: real, dx: real, dy: real, d: real)
    requires 0.0 < d
    ensures var f := Proyectar(fuerza, dx, dy, d);
            f.x * dy == f.y * dx && (0.0 < fuerza ==> 0.0 <= f.x * dx && 0.0 <= f.y * dy)
  {
    var ux, uy := dx / d, dy / d;
    assert dx == ux * d && dy == uy * d;
    assert (fuerza * ux) * (uy * d) == (fuerza * uy) * (ux * d);
    if 0.0 < fuerza {
      assert (fuerza * ux) * (ux * d) == (fuerza * d) * (ux * ux);
      assert (fuerza * uy) * (uy * d) == (fuerza * d) * (uy * uy);
    }
  }
}
