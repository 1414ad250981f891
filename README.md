# Three-body gravity sandbox: physics core in Dafny

This project models the physics of `fisica3cuerpos.py`, a small pygame
sandbox in which a few bodies attract each other by gravity, bounce off the
window edges and leave a trail. The model is written over exact reals.

- `fuerza.dfy` (module `Fuerza`): the pairwise force law
  `calcular_fuerza_gravitacional`.
  - Pairs closer than 40 units exert no force.
  - Otherwise the force is inverse-square, aimed along the separation.
  - `math.sqrt` is the function parameter `raiz`. The lemmas that need it
    assume only that `raiz` returns the non-negative square root (`EsRaiz`).
  - `cos(atan2(dy, dx))` and `sin(atan2(dy, dx))` become `dx / d` and
    `dy / d`. They are equal whenever `d > 0`, and they are only used when
    `d >= 40`.
- `tuplas.dfy` (module `Tuplas`): the flat force tuple that
  `calcular_fuerza_gravitatoria` builds by tuple concatenation, and
  `sumar_tuplas`, which splits it by index parity.
- `cuerpos.dfy` (module `Cuerpos`): the body.
  - The value `Estado` holds everything the physics reads or writes of one
    body.
  - The step functions `Limitado`, `PasoEuler`, `TrazoSiguiente` and
    `Avanzado` specify each update.
  - The class `Cuerpo` has the source's mutable fields. Its methods update
    them in place, and each method is proved equal to its step function.
- `simulacion.dfy` (module `Simulacion`): two parts of `main`.
  - The spawn rule on a mouse click (`Admitir`, `Generar`).
  - One frame of the update loop (`ActualizarCuerpos`). It updates the bodies
    in place, one after another, so a later body sees the new states of the
    earlier ones. `PasoParcial` is the value-level specification of that
    loop.

Points of the code's behaviour that the model makes explicit:

- **Trail length.** `actualizar_trazo` appends the current position and then
  removes the oldest point when the length reaches 100, so a trail holds at
  most 99 points. `HistorialConservaUltimos` proves that it holds the last
  99 positions.
- **Parity split.** `fuerza += (fx, fy)` concatenates tuples, so even
  positions of the force tuple hold x-components and odd positions hold
  y-components. `SumaPorParidad` proves that the parity split of
  `sumar_tuplas` is exactly the componentwise vector sum.
- **Capacity.** The capacity bound `len(cuerpos) <= max_cuerpos` only holds
  when `max_cuerpos >= 3`, because three bodies exist before any click.
  `Generar` keeps the bound when it already held and never creates it.
- **Palette index.** `COLORES[len(cuerpos) - 3]` uses Python list indexing.
  `Admitir` models the wrap-around of negative indices and the IndexError
  for any other index outside the list. `PaletaEnRango` shows that neither
  happens with the program's default settings.

## Model

| member | source | states |
|---|---|---|
| Fuerza.CalcularFuerzaGravitacional | fisica3cuerpos.py:75-85 | a non-zero force arises only when the root distance is at least 40, and then the `max(1, ·)` clamp has no effect |
| Fuerza.CorteCercano | fisica3cuerpos.py:76-80 | when `dx*dx + dy*dy < 1600` the force is exactly zero, whatever the masses and `g`; a non-zero force implies `dx*dx + dy*dy >= 1600` |
| Fuerza.MismaPosicionSinFuerza | fisica3cuerpos.py:76-80 | two bodies at the same position exert no force on each other, and no division by zero occurs |
| Fuerza.Antisimetria | fisica3cuerpos.py:75-85 | swapping the two bodies negates the force exactly (action and reaction) |
| Fuerza.MagnitudInversaCuadrada | fisica3cuerpos.py:78-84 | beyond the cutoff, the squared length of the force is `(g*m1*m2 / s)**2`, with `s` the squared separation (inverse-square law) |
| Fuerza.DireccionAtractiva | fisica3cuerpos.py:82-84 | the force is parallel to the separation from `p1` to `p2`; when `g*m1*m2 > 0` each component has the sign of the separation's component (attraction) |
| Tuplas.TuplaFuerza | fisica3cuerpos.py:33-36 | with `k` forces the tuple has length `2k+2`, starts with `(0, 0)`, and holds force `i` at positions `2i+2` (x) and `2i+3` (y) |
| Tuplas.TuplaFuerzaAgregar | fisica3cuerpos.py:36 | concatenating one more pair onto the tuple is the tuple of the force list with that force appended |
| Tuplas.SumaIndices | fisica3cuerpos.py:91-95 | the sum of the entries whose index leaves remainder `resto` modulo 2 (the `pares`/`impares` accumulators); it is zero for an empty tuple, and zero for any remainder other than 0 and 1 |
| Tuplas.SumarTuplas | fisica3cuerpos.py:88-96 | `pares` is the sum of the even-indexed entries and `impares` the sum of the odd-indexed entries |
| Tuplas.SumaIndicesUltimo | fisica3cuerpos.py:91-95 | appending an entry adds it to the accumulator of its index's parity and leaves the other accumulator unchanged |
| Tuplas.SumaIndicesPar | fisica3cuerpos.py:91-95 | a pair appended after an even-length prefix adds its first entry to the even sum and its second to the odd sum |
| Tuplas.SumaPorParidad | fisica3cuerpos.py:32-37 | the parity split of the accumulated tuple equals the componentwise sum of the pairwise forces |
| Cuerpos.Rebotar | fisica3cuerpos.py:56-67 | one axis of `verificar_limites`: a position below 0 or above `limite` is put on that edge with velocity times `-factor`, otherwise the axis is kept; with a non-negative limit the result lies in `[0, limite]`, and an in-range axis is unchanged |
| Cuerpos.RebotarCorrecto | fisica3cuerpos.py:56-61 | one axis of the bounce: with a non-negative limit the result lies in `[0, limite]`; an in-range axis is unchanged; an out-of-range axis is moved to the edge it crossed and its velocity is multiplied by `-factor` |
| Cuerpos.RebotarIdempotente | fisica3cuerpos.py:56-61 | bouncing an axis twice gives the same result as bouncing it once |
| Cuerpos.Limitado | fisica3cuerpos.py:55-67 | `verificar_limites` leaves the trail, mass, restitution and world bounds unchanged |
| Cuerpos.LimitadoCorrecto | fisica3cuerpos.py:55-67 | with non-negative bounds the body ends inside them; a body already inside is unchanged; y is bounced against `alto` and x against `ancho`, independently |
| Cuerpos.LimitadoIdempotente | fisica3cuerpos.py:55-67 | a second `verificar_limites` right after the first changes nothing |
| Cuerpos.PasoEuler | fisica3cuerpos.py:41-46 | the Euler step leaves the trail and the constants unchanged |
| Cuerpos.PasoEulerCorrecto | fisica3cuerpos.py:41-46 | `masa * (vx' - vx) == fx` and `masa * (vy' - vy) == fy` (Newton's second law with unit time step); the position moves by the new velocity |
| Cuerpos.TrazoSiguiente | fisica3cuerpos.py:50-53 | `actualizar_trazo`: append the point, then drop the oldest entry when the length reaches 100; the newest entry is the point, and a trail under 100 entries stays under 100 |
| Cuerpos.TrazoSiguienteCorrecto | fisica3cuerpos.py:50-53 | the newest trail entry is the recorded point; below the cap the old trail is kept in front of it; at the cap exactly the oldest entry is dropped, in order; a trail under 100 entries stays under 100 |
| Cuerpos.Historial | fisica3cuerpos.py:27 | the trail built from the empty list of line 27 by `actualizar_trazo` (lines 50-53) over successive positions; it never reaches 100 entries and ends with the latest position |
| Cuerpos.HistorialConservaUltimos | fisica3cuerpos.py:50-53 | starting empty, the trail equals the full position history while it has fewer than 100 entries, and afterwards the last 99 positions, oldest first |
| Cuerpos.Avanzado | fisica3cuerpos.py:40-48 | `actualizar` never changes mass, restitution or world bounds |
| Cuerpos.AvanzadoCorrecto | fisica3cuerpos.py:40-48 | after `actualizar` the body lies within non-negative bounds, the last trail point is the clamped position, and the trail stays under the cap |
| Cuerpos.FuerzasSobre | fisica3cuerpos.py:34-36 | the pairwise forces on `self` from the entries of the list that are not `self` (object identity), in list order: at most one per entry, and one for every entry when `self` is absent |
| Cuerpos.Cuerpo.constructor | fisica3cuerpos.py:18-30 | the new body has the given position, velocity, mass, restitution and world bounds, and an empty trail |
| Cuerpos.Cuerpo.ActualizarTrazo | fisica3cuerpos.py:50-53 | the new trail is `TrazoSiguiente` of the old trail and the current position |
| Cuerpos.Cuerpo.VerificarLimites | fisica3cuerpos.py:55-67 | the new state is `Limitado` of the old one, so a body with non-negative bounds ends inside them |
| Cuerpos.Cuerpo.Actualizar | fisica3cuerpos.py:40-48 | the new state is `Avanzado` of the old state under the force `(fuerza_x, fuerza_y)` |
| Cuerpos.Cuerpo.CalcularFuerzaGravitatoria | fisica3cuerpos.py:32-38 | the body advances under the componentwise sum of the pairwise forces from every other object in the list |
| Simulacion.Admitir | fisica3cuerpos.py:159-174 | a click is rejected exactly when `len(cuerpos) >= max_cuerpos`; it raises IndexError exactly when the list has room and `len - 3` is outside `-7..6`; otherwise the palette index is in `0..6` and is `len - 3`, wrapped when negative |
| Simulacion.PaletaEnRango | fisica3cuerpos.py:159-167 | with at least the 3 initial bodies and `max_cuerpos <= 10`, a click never raises and uses palette entry `len - 3` |
| Simulacion.Generar | fisica3cuerpos.py:159-174 | the list grows by one fresh body at the mouse position, with velocity `(0.1, 0.1)` and an empty trail, exactly when `Admitir` accepts; otherwise it is unchanged; the capacity bound and the distinctness of the bodies are kept |
| Simulacion.FuerzasPorIdentidad | fisica3cuerpos.py:34-35 | in a list of distinct objects, skipping `self` by identity is skipping its position |
| Simulacion.FuerzasIndice | fisica3cuerpos.py:34-36 | the same gather by position: the forces on the state at position `k` from every other position, in list order, so exactly one fewer than the list length |
| Simulacion.FuerzasEnLista | fisica3cuerpos.py:34-36 | the forces gathered for the body at position `k` are the pairwise forces from every other position, computed on the current states |
| Simulacion.Siguiente | fisica3cuerpos.py:179 | one body's update changes only its own entry of the list, and never its constants |
| Simulacion.PasoParcial | fisica3cuerpos.py:178-179 | after the first `n` updates the list has the same length; constants are unchanged; bodies from position `n` on are untouched |
| Simulacion.PasoParcialAcotado | fisica3cuerpos.py:178-179 | every body already updated lies within its non-negative bounds, and no trail grows past the cap |
| Simulacion.FotogramaDentroDeLimites | fisica3cuerpos.py:178-179 | after a whole frame every body lies within its non-negative world bounds |
| Simulacion.PasoParcialFija | fisica3cuerpos.py:178-179 | once a body is updated, the later updates of the frame leave it alone |
| Simulacion.ActualizacionSecuencial | fisica3cuerpos.py:178-179 | the update is not simultaneous: body `k` moves under the NEW states of the bodies before it and the OLD states of the bodies after it |
| Simulacion.ActualizarEn | fisica3cuerpos.py:179 | the call for the body at position `i` changes only that body, which becomes `Siguiente` of the old list |
| Simulacion.ActualizarCuerpos | fisica3cuerpos.py:178-179 | after the in-place loop the states are `PasoParcial` of the old states over the whole list, and every body lies within its non-negative bounds |

## Left out

- Drawing (`dibujar`), the pygame window, event queue and clock, the `typer` command line and `logging` are left out. A rejected click is the result `Rechazado`, which stands for the logged warning.
- The body's `radio` and `color` only serve drawing and are not modelled; nor are the palette's colour values, only the palette's length.
- The coordinates of the three initial bodies (the triangle at lines 116-150) are left out. Only their number, 3, enters the model.
- The outer `while corriendo` loop is left out. One frame is modelled, and its properties hold for every frame.
- Floating point is not modelled: all arithmetic is over exact reals. `math.sqrt` is the parameter `raiz`, and `atan2`, `cos` and `sin` are replaced by the unit vector of the separation.
- The command line types `g` as `int` with a default of 9.8; the model takes `g` as a real.
- Cuerpos.Cuerpo.Actualizar: a zero mass raises ZeroDivisionError in the source; here non-zero mass is a precondition of `Actualizar`, `CalcularFuerzaGravitatoria` and `ActualizarCuerpos`.
- Cuerpos.Cuerpo.constructor: a negative mass, which the source rejects with ValueError when it computes `int(math.sqrt(masa) * 2)` for the radius (line 24), is accepted here, since the radius is not modelled; the same holds for the bodies `Simulacion.Generar` creates with `--masa`.
- Simulacion.ActualizarCuerpos: assumes the bodies of the list are distinct objects. `main` only ever appends fresh bodies, and `Generar` proves that this keeps them distinct.
- Simulacion.Admitir: in the source an IndexError ends the program; here it is the result `IndiceFueraDeRango` and the list is left unchanged.
