/**
 * The flat force tuple of `calcular_fuerza_gravitatoria` and its parity split
 * `sumar_tuplas` (fisica3cuerpos.py:32-37, 88-96).
 *
 * `fuerza` starts as `(0, 0)` and grows by tuple concatenation, one pair per
 * other body, so even positions hold x-components and odd positions
 * y-components.  `SumaPorParidad` proves that the parity split is therefore
 * exactly the componentwise vector sum.
 */
module Tuplas {
  import opened Fuerza

  /** The tuple `(0, 0) + (f1x, f1y) + ... + (fkx, fky)` built at lines 33 and 36. */
  function TuplaFuerza(fs: seq<Vec>): (t: seq<real>)
    ensures |t| == 2 * |fs| + 2
    ensures t[0] == 0.0 && t[1] == 0.0
    ensures forall i :: 0 <= i < |fs| ==> t[2 * i + 2] == fs[i].x && t[2 * i + 3] == fs[i].y
  {
    if fs == [] then [0.0, 0.0]
    else TuplaFuerza(fs[..|fs| - 1]) + [fs[|fs| - 1].x, fs[|fs| - 1].y]
  }

  /** Concatenating one more pair onto the tuple is adding one more force. */
  lemma TuplaFuerzaAgregar(fs: seq<Vec>, f: Vec)
    ensures TuplaFuerza(fs + [f]) == TuplaFuerza(fs) + [f.x, f.y]
  {
    assert (fs + [f])[..|fs|] == fs;
  }

  /** Sum of the entries of `t` whose index leaves remainder `resto` modulo 2. */
  function SumaIndices(t: seq<real>, resto: int): (r: real)
    ensures |t| <= resto ==> r == 0.0
    ensures resto != 0 && resto != 1 ==> r == 0.0
  {
    if t == [] then 0.0
    else SumaIndices(t[..|t| - 1], resto) + (if (|t| - 1) % 2 == resto then t[|t| - 1] else 0.0)
  }

  /** `sumar_tuplas`: even-indexed entries into `pares`, odd-indexed into `impares`. */
  method SumarTuplas(tupla: seq<real>) returns (pares: real, impares: real)
    ensures pares == SumaIndices(tupla, 0)
    ensures impares == SumaIndices(tupla, 1)
  {
    pares, impares := 0.0, 0.0;
    for i := 0 to |tupla|
      invariant pares == SumaIndices(tupla[..i], 0)
      invariant impares == SumaIndices(tupla[..i], 1)
    {
      assert tupla[..i + 1][..i] == tupla[..i];
      if i % 2 == 0 {
        pares := pares + tupla[i];
      } else {
        impares := impares + tupla[i];
      }
    }
    assert tupla[..|tupla|] == tupla;
  }

  function Sumar(a: Vec, b: Vec): Vec
  {
    Vec(a.x + b.x, a.y + b.y)
  }

  /** The componentwise vector sum of `fs`, the physically intended net force. */
  function SumaVectorial(fs: seq<Vec>): Vec
  {
    if fs == [] then Cero else Sumar(SumaVectorial(fs[..|fs| - 1]), fs[|fs| - 1])
  }

  /** Appending one entry adds it to the sum of its own parity class only. */
  lemma SumaIndicesUltimo(t: seq<real>, x: real, resto: int)
    ensures SumaIndices(t + [x], resto) == SumaIndices(t, resto) + (if |t| % 2 == resto then x else 0.0)
  {
    assert (t + [x])[..|t|] == t;
  }

  // Proof helper only: isolates the `%` step so that `SumaIndicesPar` stays cheap to verify.
  lemma ImparTrasPar(n: int)
    requires n % 2 == 0
    ensures (n + 1) % 2 == 1
  {
  }

  /** Appending a pair after an even-length prefix adds its first entry to the even sum and its second to the odd sum. */
  lemma SumaIndicesPar(t: seq<real>, a: real, b: real)
    requires |t| % 2 == 0
    ensures SumaIndices(t + [a, b], 0) == SumaIndices(t, 0) + a
    ensures SumaIndices(t + [a, b], 1) == SumaIndices(t, 1) + b
  {
    assert t + [a, b] == (t + [a]) + [b];
    ImparTrasPar(|t|);
    SumaIndicesUltimo(t, a, 0);
    SumaIndicesUltimo(t, a, 1);
    SumaIndicesUltimo(t + [a], b, 0);
    SumaIndicesUltimo(t + [a], b, 1);
  }

  /**
   * The parity split of the accumulated tuple equals the componentwise sum of
   * the pairwise forces: even indices give the x total, odd indices the y total.
   */
  lemma {:induction false} SumaPorParidad(fs: seq<Vec>)
    ensures SumaIndices(TuplaFuerza(fs), 0) == SumaVectorial(fs).x
    ensures SumaIndices(TuplaFuerza(fs), 1) == SumaVectorial(fs).y
  {
    hide SumaIndices;
    if fs == [] {
      SumaIndicesPar([], 0.0, 0.0);
      assert [] + [0.0, 0.0] == [0.0, 0.0];
    } else {
      var n := |fs| - 1;
      SumaPorParidad(fs[..n]);
      SumaIndicesPar(TuplaFuerza(fs[..n]), fs[n].x, fs[n].y);
    }
  }
}
