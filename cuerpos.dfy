/**
 * The body `Cuerpo` (fisica3cuerpos.py:17-67): its state as a value `Estado`
 * with the step functions that specify each update, and the class `Cuerpo`
 * whose methods update the fields in place as the source does.
 */
module Cuerpos {
  import opened Fuerza
  import opened Tuplas

  /** A recorded trail position `(x, y)`. */
  datatype Punto = Punto(x: real, y: real)

  /** Length at which `actualizar_trazo` drops the oldest point (line 52). */
  const LimiteTrazo: nat := 100

  /** Everything the physics reads or writes of one body. */
  datatype Estado = Estado(
    x: real, y: real, vx: real, vy: real, trazo: seq<Punto>,
    masa: real, factorRebote: real, ancho: real, alto: real)
  {
    function Particula(): PuntoMasa
    {
      PuntoMasa(x, y, masa)
    }

    predicate LimitesValidos()
    {
      0.0 <= ancho && 0.0 <= alto
    }

    predicate DentroDeLimites()
    {
      0.0 <= x <= ancho && 0.0 <= y <= alto
    }

    /** Mass, restitution and world bounds agree: no step ever changes them. */
    predicate MismasConstantes(otro: Estado)
    {
      masa == otro.masa && factorRebote == otro.factorRebote && ancho == otro.ancho && alto == otro.alto
    }
  }

  /** Position and velocity along one axis. */
  datatype Eje = Eje(pos: real, vel: real)

  /**
   * One axis of `verificar_limites` (lines 56-67).  A position strictly
   * outside `[0, limite]` is moved to the edge it crossed and its velocity is
   * multiplied by `-factor`; a position inside the range, edges included, is
   * left alone together with its velocity.
   */
  function Rebotar(e: Eje, limite: real, factor: real): (r: Eje)
    ensures 0.0 <= limite ==> 0.0 <= r.pos <= limite
    ensures 0.0 <= e.pos <= limite ==> r == e
  {
    if e.pos < 0.0 then Eje(0.0, e.vel * -factor)
    else if e.pos > limite then Eje(limite, e.vel * -factor)
    else e
  }

  lemma RebotarCorrecto(e: Eje, limite: real, factor: real)
    ensures var r := Rebotar(e, limite, factor);
            (0.0 <= limite ==> 0.0 <= r.pos <= limite) &&
            (0.0 <= e.pos <= limite ==> r == e) &&
            (e.pos < 0.0 || limite < e.pos ==> r.vel == -factor * e.vel) &&
            (e.pos < 0.0 ==> r.pos == 0.0) &&
            (0.0 <= e.pos && limite < e.pos ==> r.pos == limite)
  {
  }

  /** Bouncing twice with nothing in between is bouncing once. */
  lemma RebotarIdempotente(e: Eje, limite: real, factor: real)
    requires 0.0 <= limite
    ensures Rebotar(Rebotar(e, limite, factor), limite, factor) == Rebotar(e, limite, factor)
  {
  }

  /**
   * `verificar_limites` on a whole state: the y axis against `alto`, the x
   * axis against `ancho`, each independently.
   */
  function Limitado(b: Estado): (r: Estado)
    ensures r.trazo == b.trazo && r.MismasConstantes(b)
  {
    var ey := Rebotar(Eje(b.y, b.vy), b.alto, b.factorRebote);
    var ex := Rebotar(Eje(b.x, b.vx), b.ancho, b.factorRebote);
    b.(y := ey.pos, vy := ey.vel, x := ex.pos, vx := ex.vel)
  }

  /**
   * After `verificar_limites` a body with non-negative bounds lies inside
   * them, a body already inside is untouched, and each axis is bounced
   * independently of the other.
   */
  lemma LimitadoCorrecto(b: Estado)
    ensures var r := Limitado(b);
            (b.LimitesValidos() ==> r.DentroDeLimites()) &&
            (b.DentroDeLimites() ==> r == b) &&
            Eje(r.x, r.vx) == Rebotar(Eje(b.x, b.vx), b.ancho, b.factorRebote) &&
            Eje(r.y, r.vy) == Rebotar(Eje(b.y, b.vy), b.alto, b.factorRebote)
  {
    RebotarCorrecto(Eje(b.x, b.vx), b.ancho, b.factorRebote);
    RebotarCorrecto(Eje(b.y, b.vy), b.alto, b.factorRebote);
  }

  /** A second `verificar_limites` right after the first changes neither position nor velocity. */
  lemma LimitadoIdempotente(b: Estado)
    requires b.LimitesValidos()
    ensures Limitado(Limitado(b)) == Limitado(b)
  {
  }

  /**
   * The semi-implicit Euler step of `actualizar` before the clamp (lines
   * 41-46), with a unit time step: the velocity changes by force / mass and the
   * position then moves by the NEW velocity.
   */
  function PasoEuler(b: Estado, f: Vec): (r: Estado)
    requires b.masa != 0.0
    ensures r.trazo == b.trazo && r.MismasConstantes(b)
  {
    var vx := b.vx + f.x / b.masa;
    var vy := b.vy + f.y / b.masa;
    b.(vx := vx, vy := vy, x := b.x + vx, y := b.y + vy)
  }

  /** Newton's second law over one unit step, and the position advanced by the new velocity. */
  lemma PasoEulerCorrecto(b: Estado, f: Vec)
    requires b.masa != 0.0
    ensures var r := PasoEuler(b, f);
            b.masa * (r.vx - b.vx) == f.x && b.masa * (r.vy - b.vy) == f.y &&
            r.x - b.x == r.vx && r.y - b.y == r.vy
  {
  }

  /**
   * `actualizar_trazo` (lines 50-53): the point is appended and, when the
   * trail has just reached `LimiteTrazo` entries, the oldest one is dropped.
   * Below the cap the old trail is kept as a prefix; at the cap exactly the
   * oldest entry goes and the others keep their order.
   */
  function TrazoSiguiente(t: seq<Punto>, p: Punto): (r: seq<Punto>)
    ensures |r| > 0 && r[|r| - 1] == p
    ensures |t| < LimiteTrazo ==> |r| < LimiteTrazo
  {
    var u := t + [p];
    if |u| == LimiteTrazo then u[1..] else u
  }

  lemma TrazoSiguienteCorrecto(t: seq<Punto>, p: Punto)
    ensures var r := TrazoSiguiente(t, p);
            |r| > 0 && r[|r| - 1] == p &&
            (|t| + 1 == LimiteTrazo ==> r[..|r| - 1] == t[1..]) &&
            (|t| + 1 != LimiteTrazo ==> r[..|r| - 1] == t) &&
            (|t| < LimiteTrazo ==> |r| < LimiteTrazo)
  {
  }

  /** The trail recorded, from an empty one, for the successive positions `ps`. */
  function Historial(ps: seq<Punto>): (r: seq<Punto>)
    ensures |r| < LimiteTrazo
    ensures ps != [] ==> |r| > 0 && r[|r| - 1] == ps[|ps| - 1]
  {
    if ps == [] then [] else TrazoSiguiente(Historial(ps[..|ps| - 1]), ps[|ps| - 1])
  }

  /**
   * From the empty trail the trail is always the most recent
   * `LimiteTrazo - 1` positions (all of them while there are fewer), oldest
   * first: it never holds more than 99 points.
   */
  lemma {:induction false} HistorialConservaUltimos(ps: seq<Punto>)
    ensures |ps| < LimiteTrazo ==> Historial(ps) == ps
    ensures LimiteTrazo - 1 <= |ps| ==> Historial(ps) == ps[|ps| - (LimiteTrazo - 1)..]
  {
    if ps != [] {
      var n := |ps| - 1;
      HistorialConservaUltimos(ps[..n]);
      assert Historial(ps) == TrazoSiguiente(Historial(ps[..n]), ps[n]);
      if n < LimiteTrazo - 1 {
        TrazoSinCorte(ps);
      } else {
        TrazoEnCorte(ps);
      }
    }
  }

  // Proof helpers of `HistorialConservaUltimos`, one per case of `TrazoSiguiente`.
  lemma TrazoSinCorte(ps: seq<Punto>)
    requires 0 < |ps| < LimiteTrazo
    ensures TrazoSiguiente(ps[..|ps| - 1], ps[|ps| - 1]) == ps
  {
    assert ps[..|ps| - 1] + [ps[|ps| - 1]] == ps;
  }

  lemma TrazoEnCorte(ps: seq<Punto>)
    requires LimiteTrazo <= |ps|
    ensures TrazoSiguiente(ps[|ps| - LimiteTrazo..|ps| - 1], ps[|ps| - 1]) == ps[|ps| - (LimiteTrazo - 1)..]
  {
    var n := |ps| - 1;
    var u := ps[n - 99..n] + [ps[n]];
    assert |u| == LimiteTrazo;
    assert u[1..] == ps[n - 98..n] + [ps[n]];
    assert ps[n - 98..n] + [ps[n]] == ps[n - 98..];
  }

  /** Everything `actualizar` does for a net force `f`: Euler step, clamp, trail (lines 40-48). */
  function Avanzado(b: Estado, f: Vec): (r: Estado)
    requires b.masa != 0.0
    ensures r.MismasConstantes(b)
  {
    var c := Limitado(PasoEuler(b, f));
    c.(trazo := TrazoSiguiente(c.trazo, Punto(c.x, c.y)))
  }

  /**
   * After `actualizar` the body lies within non-negative bounds, the last
   * trail entry is the CLAMPED position, and a trail under the cap stays
   * under it.
   */
  lemma AvanzadoCorrecto(b: Estado, f: Vec)
    requires b.masa != 0.0
    ensures var r := Avanzado(b, f);
            (b.LimitesValidos() ==> r.DentroDeLimites()) &&
            |r.trazo| > 0 && r.trazo[|r.trazo| - 1] == Punto(r.x, r.y) &&
            (|b.trazo| < LimiteTrazo ==> |r.trazo| < LimiteTrazo)
  {
    var c := Limitado(PasoEuler(b, f));
    LimitadoCorrecto(PasoEuler(b, f));
    TrazoSiguienteCorrecto(c.trazo, Punto(c.x, c.y));
  }

  /**
   * The pairwise forces on `yo` from the bodies of `cs`, in list order,
   * skipping every entry that IS `yo` (line 35 compares objects, not states).
   * When `yo` is not in the list every body contributes, in particular one
   * whose state is identical to that of `yo`.
   */
  function FuerzasSobre(yo: Cuerpo, cs: seq<Cuerpo>, g: real, raiz: real -> real): (r: seq<Vec>)
    reads yo, cs
    ensures |r| <= |cs|
    ensures yo !in cs ==> |r| == |cs|
  {
    if cs == [] then []
    else
      var anteriores := FuerzasSobre(yo, cs[..|cs| - 1], g, raiz);
      var otro := cs[|cs| - 1];
      if otro != yo then
        anteriores + [CalcularFuerzaGravitacional(yo.Valor().Particula(), otro.Valor().Particula(), g, raiz)]
      else
        anteriores
  }

  /** A simulated body; the source updates its fields in place. */
  class Cuerpo {
    var x: real
    var y: real
    var vx: real
    var vy: real
    var trazo: seq<Punto>
    const masa: real
    const factorRebote: real
    const anchoPantalla: real
    const altoPantalla: real

    function Valor(): Estado
      reads this
    {
      Estado(x, y, vx, vy, trazo, masa, factorRebote, anchoPantalla, altoPantalla)
    }

    /** `Cuerpo.__init__` (lines 18-30): the trail starts empty. */
    constructor (x: real, y: real, masa: real, velocidad: Vec, factorRebote: real,
                 anchoPantalla: real, altoPantalla: real)
      ensures Valor() == Estado(x, y, velocidad.x, velocidad.y, [], masa, factorRebote,
                                anchoPantalla, altoPantalla)
    {
      this.x := x;
      this.y := y;
      this.masa := masa;
      this.vx := velocidad.x;
      this.vy := velocidad.y;
      this.trazo := [];
      this.factorRebote := factorRebote;
      this.anchoPantalla := anchoPantalla;
      this.altoPantalla := altoPantalla;
    }

    /** `actualizar_trazo` (lines 50-53). */
    method ActualizarTrazo()
      modifies this`trazo
      ensures trazo == TrazoSiguiente(old(trazo), Punto(x, y))
    {
      trazo := trazo + [Punto(x, y)];
      if |trazo| == LimiteTrazo {
        trazo := trazo[1..];
      }
    }

    /** `verificar_limites` (lines 55-67). */
    method VerificarLimites()
      modifies this`x, this`y, this`vx, this`vy
      ensures Valor() == Limitado(old(Valor()))
      ensures Valor().LimitesValidos() ==> Valor().DentroDeLimites()
    {
      LimitadoCorrecto(Valor());
      if y < 0.0 {
        y := 0.0;
        vy := vy * -factorRebote;
      } else if y > altoPantalla {
        y := altoPantalla;
        vy := vy * -factorRebote;
      }
      if x < 0.0 {
        x := 0.0;
        vx := vx * -factorRebote;
      } else if x > anchoPantalla {
        x := anchoPantalla;
        vx := vx * -factorRebote;
      }
    }

    /** `actualizar` (lines 40-48); a zero mass raises ZeroDivisionError in the source. */
    method Actualizar(fuerzaX: real, fuerzaY: real)
      requires masa != 0.0
      modifies this
      ensures Valor() == Avanzado(old(Valor()), Vec(fuerzaX, fuerzaY))
    {
      var ax := fuerzaX / masa;
      var ay := fuerzaY / masa;
      vx := vx + ax;
      vy := vy + ay;
      x := x + vx;
      y := y + vy;
      VerificarLimites();
      ActualizarTrazo();
    }

    /**
     * `calcular_fuerza_gravitatoria` (lines 32-38): the pairwise forces from
     * every other body are concatenated onto `(0, 0)`, split by index parity
     * into `(fuerza_x, fuerza_y)`, and applied with `Actualizar`.  The body
     * moves by the componentwise sum of those forces.
     */
    method CalcularFuerzaGravitatoria(cuerpos: seq<Cuerpo>, g: real, raiz: real -> real)
      requires masa != 0.0
      modifies this
      ensures Valor() == Avanzado(old(Valor()), SumaVectorial(old(FuerzasSobre(this, cuerpos, g, raiz))))
    {
      ghost var fuerzas := FuerzasSobre(this, cuerpos, g, raiz);
      var fuerza := [0.0, 0.0];
      for i := 0 to |cuerpos|
        modifies {}
        invariant fuerza == TuplaFuerza(FuerzasSobre(this, cuerpos[..i], g, raiz))
      {
        ghost var previas := FuerzasSobre(this, cuerpos[..i], g, raiz);
        assert cuerpos[..i + 1][..i] == cuerpos[..i];
        var cuerpo := cuerpos[i];
        if cuerpo != this {
          var f := CalcularFuerzaGravitacional(Valor().Particula(), cuerpo.Valor().Particula(), g, raiz);
          assert FuerzasSobre(this, cuerpos[..i + 1], g, raiz) == previas + [f];
          TuplaFuerzaAgregar(previas, f);
          fuerza := fuerza + [f.x, f.y];
        } else {
          assert FuerzasSobre(this, cuerpos[..i + 1], g, raiz) == previas;
        }
      }
      assert cuerpos[..|cuerpos|] == cuerpos;
      assert fuerza == TuplaFuerza(fuerzas);
      var fuerzaX, fuerzaY := SumarTuplas(fuerza);
      SumaPorParidad(fuerzas);
      assert Vec(fuerzaX, fuerzaY) == SumaVectorial(fuerzas);
      Actualizar(fuerzaX, fuerzaY);
    }
  }
}
