/**
 * The spawn guard and the per-frame update loop of `main`
 * (fisica3cuerpos.py:151, 159-174, 178-179), as methods over the list of
 * bodies, with value-level functions that specify them.
 */
module Simulacion {
  import opened Fuerza
  import opened Tuplas
  import opened Cuerpos

  /** Number of entries of the palette `COLORES` (lines 7-15). */
  const TamanoPaleta: int := 7

  /** Bodies created before the frame loop starts (line 151). */
  const CuerposIniciales: int := 3

  /** Velocity of a body spawned by a click (line 166). */
  const VelocidadInicial: Vec := Vec(0.1, 0.1)

  /** What a click does to the list of bodies. */
  datatype Generacion =
    | Agregado(indiceColor: int)  // a body painted `COLORES[indiceColor]` is appended
    | Rechazado                   // the list is full: a warning is logged, nothing changes
    | IndiceFueraDeRango          // `COLORES[len(cuerpos) - 3]` raises IndexError

  /**
   * The decision taken on a click when `n` bodies exist (lines 159-174): a
   * body is appended only when `n < maxCuerpos`, with the palette entry
   * `COLORES[n - 3]` under Python's indexing rules (a negative index counts
   * from the end; anything else outside the list raises IndexError before
   * the append happens).
   */
  function Admitir(n: int, maxCuerpos: int): (r: Generacion)
    ensures r.Rechazado? <==> maxCuerpos <= n
    ensures r.IndiceFueraDeRango? <==>
              n < maxCuerpos && !(-TamanoPaleta <= n - CuerposIniciales < TamanoPaleta)
    ensures r.Agregado? ==>
              0 <= r.indiceColor < TamanoPaleta &&
              (r.indiceColor == n - CuerposIniciales || r.indiceColor == n - CuerposIniciales + TamanoPaleta)
  {
    if n < maxCuerpos then
      var k := n - CuerposIniciales;
      if 0 <= k < TamanoPaleta then Agregado(k)
      else if -TamanoPaleta <= k < 0 then Agregado(k + TamanoPaleta)
      else IndiceFueraDeRango
    else
      Rechazado
  }

  /**
   * Starting from the three initial bodies with `max_cuerpos <= 10`, a click
   * never raises IndexError and the palette index is `n - 3`, within `0..6`.
   */
  lemma PaletaEnRango(n: int, maxCuerpos: int)
    requires CuerposIniciales <= n && maxCuerpos <= 10
    ensures Admitir(n, maxCuerpos) == if n < maxCuerpos then Agregado(n - CuerposIniciales) else Rechazado
  {
  }

  /** Every body of the list is a different object. */
  ghost predicate Distintos(cs: seq<Cuerpo>)
  {
    forall i, j :: 0 <= i < j < |cs| ==> cs[i] != cs[j]
  }

  /**
   * A click at `raton` (lines 159-174).  The list grows by one fresh body
   * exactly when `Admitir` says so; otherwise it is returned unchanged.
   */
  method Generar(cuerpos: seq<Cuerpo>, maxCuerpos: int, raton: Punto, masa: real, factorRebote: real,
                 ancho: real, alto: real)
    returns (nuevos: seq<Cuerpo>, r: Generacion)
    ensures r == Admitir(|cuerpos|, maxCuerpos)
    ensures r.Agregado? ==>
              |nuevos| == |cuerpos| + 1 && nuevos[..|cuerpos|] == cuerpos && fresh(nuevos[|cuerpos|]) &&
              nuevos[|cuerpos|].Valor() ==
                Estado(raton.x, raton.y, VelocidadInicial.x, VelocidadInicial.y, [], masa, factorRebote, ancho, alto)
    ensures !r.Agregado? ==> nuevos == cuerpos
    ensures |cuerpos| <= maxCuerpos ==> |nuevos| <= maxCuerpos
    ensures Distintos(cuerpos) ==> Distintos(nuevos)
  {
    r := Admitir(|cuerpos|, maxCuerpos);
    if r.Agregado? {
      var cuerpo := new Cuerpo(raton.x, raton.y, masa, VelocidadInicial, factorRebote, ancho, alto);
      nuevos := cuerpos + [cuerpo];
    } else {
      nuevos := cuerpos;
    }
  }

  /** The states of the bodies of `cs`, in list order. */
  function Valores(cs: seq<Cuerpo>): (vs: seq<Estado>)
    reads cs
    ensures |vs| == |cs| && forall i :: 0 <= i < |cs| ==> vs[i] == cs[i].Valor()
  {
    seq(|cs|, i reads cs requires 0 <= i < |cs| => cs[i].Valor())
  }

  predicate MasasNoNulas(bs: seq<Estado>)
  {
    forall j :: 0 <= j < |bs| ==> bs[j].masa != 0.0
  }

  /**
   * The pairwise forces on `yo`, standing at position `k` of the list, from
   * every OTHER position of `bs`, in list order.
   */
  function FuerzasIndice(yo: Estado, k: int, bs: seq<Estado>, g: real, raiz: real -> real): (r: seq<Vec>)
    ensures 0 <= k < |bs| ==> |r| == |bs| - 1
    ensures !(0 <= k < |bs|) ==> |r| == |bs|
  {
    if bs == [] then []
    else
      var anteriores := FuerzasIndice(yo, k, bs[..|bs| - 1], g, raiz);
      if |bs| - 1 != k then
        anteriores + [CalcularFuerzaGravitacional(yo.Particula(), bs[|bs| - 1].Particula(), g, raiz)]
      else
        anteriores
  }

  /** With distinct bodies, skipping the body itself by identity is skipping its position. */
  lemma {:induction false} FuerzasPorIdentidad(cs: seq<Cuerpo>, k: int, n: nat, g: real, raiz: real -> real)
    requires Distintos(cs) && 0 <= k < |cs| && n <= |cs|
    ensures FuerzasSobre(cs[k], cs[..n], g, raiz) == FuerzasIndice(cs[k].Valor(), k, Valores(cs)[..n], g, raiz)
  {
    hide Valores;
    if n > 0 {
      FuerzasPorIdentidad(cs, k, n - 1, g, raiz);
      assert cs[..n][..n - 1] == cs[..n - 1];
      assert Valores(cs)[..n][..n - 1] == Valores(cs)[..n - 1];
      assert cs[n - 1] == cs[k] <==> n - 1 == k;
    }
  }

  /** The forces `calcular_fuerza_gravitatoria` gathers for the body at `k`, read off the states of the list. */
  lemma FuerzasEnLista(cs: seq<Cuerpo>, k: int, g: real, raiz: real -> real)
    requires Distintos(cs) && 0 <= k < |cs|
    ensures FuerzasSobre(cs[k], cs, g, raiz) == FuerzasIndice(Valores(cs)[k], k, Valores(cs), g, raiz)
  {
    FuerzasPorIdentidad(cs, k, |cs|, g, raiz);
    assert cs[..|cs|] == cs;
    assert Valores(cs)[..|cs|] == Valores(cs);
  }

  /**
   * The list of states after the body at position `k` has run
   * `calcular_fuerza_gravitatoria` against the whole list: it alone moves.
   */
  function Siguiente(bs: seq<Estado>, k: int, g: real, raiz: real -> real): (r: seq<Estado>)
    requires 0 <= k < |bs| && bs[k].masa != 0.0
    ensures |r| == |bs| && r[k].MismasConstantes(bs[k])
    ensures forall j :: 0 <= j < |bs| && j != k ==> r[j] == bs[j]
  {
    bs[k := Avanzado(bs[k], SumaVectorial(FuerzasIndice(bs[k], k, bs, g, raiz)))]
  }

  /**
   * The body at `k` advances under the net force of all the others.  Proof
   * helper only: it lets proofs that hide `Siguiente` (to stay cheap to
   * verify) still use its value at `k`.
   */
  lemma SiguienteEn(bs: seq<Estado>, k: int, g: real, raiz: real -> real)
    requires 0 <= k < |bs| && bs[k].masa != 0.0
    ensures Siguiente(bs, k, g, raiz)[k] == Avanzado(bs[k], SumaVectorial(FuerzasIndice(bs[k], k, bs, g, raiz)))
  {
  }

  /**
   * The states after the loop of lines 178-179 has updated the first `n`
   * bodies in place, one after another: each body sees the NEW states of the
   * bodies updated before it.
   */
  function PasoParcial(bs: seq<Estado>, n: nat, g: real, raiz: real -> real): (r: seq<Estado>)
    requires n <= |bs| && MasasNoNulas(bs)
    ensures |r| == |bs|
    ensures forall j :: 0 <= j < |bs| ==> r[j].MismasConstantes(bs[j])
    ensures forall j :: n <= j < |bs| ==> r[j] == bs[j]
  {
    if n == 0 then bs
    else
      Siguiente(PasoParcial(bs, n - 1, g, raiz), n - 1, g, raiz)
  }

  /**
   * After the first `n` updates, those bodies lie within their world bounds
   * (when these are non-negative), and no trail has reached `LimiteTrazo`
   * entries that had not before.
   */
  lemma {:induction false} PasoParcialAcotado(bs: seq<Estado>, n: nat, g: real, raiz: real -> real)
    requires n <= |bs| && MasasNoNulas(bs)
    ensures var r := PasoParcial(bs, n, g, raiz);
            forall j :: 0 <= j < |bs| ==>
              (j < n && r[j].LimitesValidos() ==> r[j].DentroDeLimites()) &&
              (|bs[j].trazo| < LimiteTrazo ==> |r[j].trazo| < LimiteTrazo)
  {
    hide Siguiente;
    if n > 0 {
      PasoParcialAcotado(bs, n - 1, g, raiz);
      var antes := PasoParcial(bs, n - 1, g, raiz);
      var k := n - 1;
      SiguienteEn(antes, k, g, raiz);
      AvanzadoCorrecto(antes[k], SumaVectorial(FuerzasIndice(antes[k], k, antes, g, raiz)));
    }
  }

  /** After a whole frame every body lies within its (non-negative) world bounds. */
  lemma FotogramaDentroDeLimites(bs: seq<Estado>, vs: seq<Estado>, g: real, raiz: real -> real)
    requires MasasNoNulas(bs) && vs == PasoParcial(bs, |bs|, g, raiz)
    ensures forall j :: 0 <= j < |vs| ==> vs[j].LimitesValidos() ==> vs[j].DentroDeLimites()
  {
    PasoParcialAcotado(bs, |bs|, g, raiz);
  }

  /** A body, once updated, is left alone by the updates of the bodies after it. */
  lemma {:induction false} PasoParcialFija(bs: seq<Estado>, m: nat, j: nat, g: real, raiz: real -> real)
    requires m <= |bs| && j < m && MasasNoNulas(bs)
    ensures PasoParcial(bs, m, g, raiz)[j] == PasoParcial(bs, j + 1, g, raiz)[j]
  {
    hide Siguiente;
    if m > j + 1 {
      PasoParcialFija(bs, m - 1, j, g, raiz);
      var antes := PasoParcial(bs, m - 1, g, raiz);
      assert PasoParcial(bs, m, g, raiz)[j] == antes[j];
    }
  }

  /**
   * Non-simultaneous update: after the whole frame, body `k` has moved under
   * the forces of the bodies before it in their NEW states and of the bodies
   * after it in their OLD states.
   */
  lemma ActualizacionSecuencial(bs: seq<Estado>, k: nat, g: real, raiz: real -> real)
    requires MasasNoNulas(bs) && k < |bs|
    ensures var fin := PasoParcial(bs, |bs|, g, raiz);
            fin[k] == Avanzado(bs[k], SumaVectorial(FuerzasIndice(bs[k], k, fin[..k] + bs[k..], g, raiz)))
  {
    hide Siguiente;
    var fin := PasoParcial(bs, |bs|, g, raiz);
    var antes := PasoParcial(bs, k, g, raiz);
    PasoParcialFija(bs, |bs|, k, g, raiz);
    SiguienteEn(antes, k, g, raiz);
    forall j | 0 <= j < k
      ensures antes[j] == fin[j]
    {
      PasoParcialFija(bs, |bs|, j, g, raiz);
      PasoParcialFija(bs, k, j, g, raiz);
    }
    assert antes == fin[..k] + bs[k..];
  }

  /**
   * The call `cuerpo.calcular_fuerza_gravitatoria(cuerpos, G)` of line 179 for
   * the body at position `i`, seen on the states of the whole list: only the
   * `i`-th state changes, and it advances under the forces of all the others.
   */
  method ActualizarEn(cuerpos: seq<Cuerpo>, i: int, g: real, raiz: real -> real)
    requires Distintos(cuerpos) && 0 <= i < |cuerpos| && cuerpos[i].masa != 0.0
    modifies cuerpos[i]
    ensures Valores(cuerpos) == Siguiente(old(Valores(cuerpos)), i, g, raiz)
  {
    ghost var antes := Valores(cuerpos);
    FuerzasEnLista(cuerpos, i, g, raiz);
    cuerpos[i].CalcularFuerzaGravitatoria(cuerpos, g, raiz);
    forall j | 0 <= j < |cuerpos| && j != i
      ensures cuerpos[j].Valor() == antes[j]
    {
      assert cuerpos[j] != cuerpos[i];
    }
  }

  /**
   * One frame of the loop at lines 178-179: every body, in list order, is
   * updated in place against the whole list.  Afterwards every body lies
   * within its world bounds.
   */
  method ActualizarCuerpos(cuerpos: seq<Cuerpo>, g: real, raiz: real -> real)
    requires Distintos(cuerpos)
    requires forall j :: 0 <= j < |cuerpos| ==> cuerpos[j].masa != 0.0
    modifies cuerpos
    ensures Valores(cuerpos) == PasoParcial(old(Valores(cuerpos)), |cuerpos|, g, raiz)
    ensures forall j :: 0 <= j < |cuerpos| ==>
              cuerpos[j].Valor().LimitesValidos() ==> cuerpos[j].Valor().DentroDeLimites()
  {
    hide Siguiente, Valores;
    ghost var inicial := Valores(cuerpos);
    assert MasasNoNulas(inicial);
    for i := 0 to |cuerpos|
      invariant Valores(cuerpos) == PasoParcial(inicial, i, g, raiz)
    {
      ActualizarEn(cuerpos, i, g, raiz);
    }
    FotogramaDentroDeLimites(inicial, Valores(cuerpos), g, raiz);
  }
}
