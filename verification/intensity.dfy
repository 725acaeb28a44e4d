/** The percentile rescaling at the end of `getHeatmapData`: per-cell rates
    become heat intensities in [0, 1] through piecewise-linear bands whose
    breakpoints are the 10th … 99th percentiles of the rates. */
module Intensity {
  import opened Seqs

  /** A heat-map point `[lat, lng, value]`. */
  datatype PuntoCalor = PuntoCalor(lat: real, lng: real, valor: real)

  function Valores(ps: seq<PuntoCalor>): (vs: seq<real>)
    ensures |vs| == |ps|
    ensures forall i :: 0 <= i < |ps| ==> vs[i] == ps[i].valor
  {
    seq(|ps|, i requires 0 <= i < |ps| => ps[i].valor)
  }

  datatype Percentiles = Percentiles(p10: real, p25: real, p50: real, p75: real,
                                     p90: real, p95: real, p99: real)

  /** `tasas[Math.floor(n * q)]` for the seven quantiles, read from the rates
      sorted ascending. `x || 0` is `x` for every number that is not NaN; the
      99th percentile falls back to `maxTasa` when it is 0. */
  function PercentilesDe(tasas: seq<real>, maxTasa: real): Percentiles
    requires |tasas| > 0
  {
    var n := |tasas|;
    var q99 := tasas[99 * n / 100];
    Percentiles(tasas[n / 10], tasas[n / 4], tasas[n / 2], tasas[3 * n / 4],
                tasas[9 * n / 10], tasas[19 * n / 20], if q99 == 0.0 then maxTasa else q99)
  }

  /** `lo + ((t - a) / (b - a)) * ancho`, the interpolation inside a band. */
  function Lerp(t: real, a: real, b: real, lo: real, ancho: real): real
    requires a < b
  {
    lo + ((t - a) / (b - a)) * ancho
  }

  /** The intensity before clamping, as the chain of bands is written. */
  function Intensidad(tasa: real, p: Percentiles, maxTasa: real): real
  {
    if p.p10 > 0.0 && tasa <= p.p10 then (tasa / p.p10) * 0.1
    else if p.p25 > p.p10 && tasa <= p.p25 then Lerp(tasa, p.p10, p.p25, 0.1, 0.1)
    else if p.p50 > p.p25 && tasa <= p.p50 then Lerp(tasa, p.p25, p.p50, 0.2, 0.15)
    else if p.p75 > p.p50 && tasa <= p.p75 then Lerp(tasa, p.p50, p.p75, 0.35, 0.15)
    else if p.p90 > p.p75 && tasa <= p.p90 then Lerp(tasa, p.p75, p.p90, 0.5, 0.15)
    else if p.p95 > p.p90 && tasa <= p.p95 then Lerp(tasa, p.p90, p.p95, 0.65, 0.15)
    else if p.p99 > p.p95 && tasa <= p.p99 then Lerp(tasa, p.p95, p.p99, 0.8, 0.15)
    else
      var diff := maxTasa - p.p99;
      if diff > 0.0 then
        0.95 + (var x := ((tasa - p.p99) / diff) * 0.05; if x < 0.05 then x else 0.05)
      else 0.95
  }

  /** `Math.min(1.0, Math.max(0.0, x))`. */
  function Clamp01(x: real): (y: real)
    ensures 0.0 <= y <= 1.0
    ensures 0.0 <= x <= 1.0 ==> y == x
  {
    var m := if x > 0.0 then x else 0.0;
    if m < 1.0 then m else 1.0
  }

  /** Breakpoints of a list of positive rates: positive and ascending. */
  predicate Ordenados(p: Percentiles)
  {
    0.0 < p.p10 <= p.p25 <= p.p50 <= p.p75 <= p.p90 <= p.p95 <= p.p99
  }

  /** The band a rate falls in, by the breakpoint intervals
      (−∞, p10], (p10, p25], …, (p95, p99], (p99, ∞). */
  function Banda(t: real, p: Percentiles): nat
  {
    if t <= p.p10 then 0 else if t <= p.p25 then 1 else if t <= p.p50 then 2
    else if t <= p.p75 then 3 else if t <= p.p90 then 4 else if t <= p.p95 then 5
    else if t <= p.p99 then 6 else 7
  }

  /** Lower and upper output bounds of each band. */
  function Piso(b: nat): real
  {
    [0.0, 0.1, 0.2, 0.35, 0.5, 0.65, 0.8, 0.95][if b < 8 then b else 7]
  }

  function Techo(b: nat): real
  {
    [0.1, 0.2, 0.35, 0.5, 0.65, 0.8, 0.95, 1.0][if b < 8 then b else 7]
  }

  /** Division by a positive number: sign, bound and order of the
      quotient. */
  lemma CocientePositivo(t: real, d: real)
    requires 0.0 < d
    ensures 0.0 <= t ==> 0.0 <= t / d
    ensures 0.0 < t ==> 0.0 < t / d
  {
    var q := t / d;
    assert q * d == t;
  }

  lemma CocienteAcotado(t: real, d: real)
    requires 0.0 < d && t <= d
    ensures t / d <= 1.0
  {
    var q := t / d;
    assert q * d == t;
  }

  lemma CocienteMonotono(t1: real, t2: real, d: real)
    requires 0.0 < d && t1 <= t2
    ensures t1 / d <= t2 / d
  {
    var q1, q2 := t1 / d, t2 / d;
    assert q1 * d == t1 && q2 * d == t2;
  }

  lemma LerpRange(t: real, a: real, b: real, lo: real, ancho: real)
    requires a < t <= b && 0.0 < ancho
    ensures lo < Lerp(t, a, b, lo, ancho) <= lo + ancho
  {
    CocientePositivo(t - a, b - a);
    CocienteAcotado(t - a, b - a);
  }

  lemma LerpMono(t1: real, t2: real, a: real, b: real, lo: real, ancho: real)
    requires a < b && t1 <= t2 && 0.0 < ancho
    ensures Lerp(t1, a, b, lo, ancho) <= Lerp(t2, a, b, lo, ancho)
  {
    CocienteMonotono(t1 - a, t2 - a, b - a);
  }

  /** The value each band's formula gives. */
  function EnBanda(b: nat, t: real, p: Percentiles, maxTasa: real): real
    requires Ordenados(p)
  {
    if b == 0 then (t / p.p10) * 0.1
    else if b == 1 && p.p10 < p.p25 then Lerp(t, p.p10, p.p25, 0.1, 0.1)
    else if b == 2 && p.p25 < p.p50 then Lerp(t, p.p25, p.p50, 0.2, 0.15)
    else if b == 3 && p.p50 < p.p75 then Lerp(t, p.p50, p.p75, 0.35, 0.15)
    else if b == 4 && p.p75 < p.p90 then Lerp(t, p.p75, p.p90, 0.5, 0.15)
    else if b == 5 && p.p90 < p.p95 then Lerp(t, p.p90, p.p95, 0.65, 0.15)
    else if b == 6 && p.p95 < p.p99 then Lerp(t, p.p95, p.p99, 0.8, 0.15)
    else
      var diff := maxTasa - p.p99;
      if diff > 0.0 then
        0.95 + (var x := ((t - p.p99) / diff) * 0.05; if x < 0.05 then x else 0.05)
      else 0.95
  }

  /** With ordered breakpoints the chain of tests picks the band of the
      rate. */
  lemma BandaElegida(t: real, p: Percentiles, maxTasa: real)
    requires Ordenados(p)
    ensures Intensidad(t, p, maxTasa) == EnBanda(Banda(t, p), t, p, maxTasa)
  {
  }

  /** Each band's value lies within that band's output range (and above 0
      for a positive rate). */
  lemma {:induction false} IntensidadEnBanda(t: real, p: Percentiles, maxTasa: real)
    requires Ordenados(p)
    ensures Intensidad(t, p, maxTasa) <= Techo(Banda(t, p))
    ensures Banda(t, p) > 0 ==> Piso(Banda(t, p)) <= Intensidad(t, p, maxTasa)
    ensures 0.0 < t ==> 0.0 < Intensidad(t, p, maxTasa)
  {
    BandaElegida(t, p, maxTasa);
    var b := Banda(t, p);
    if b == 0 {
      CocientePositivo(t, p.p10);
      CocienteAcotado(t, p.p10);
    } else if b == 1 {
      LerpRange(t, p.p10, p.p25, 0.1, 0.1);
    } else if b == 2 {
      LerpRange(t, p.p25, p.p50, 0.2, 0.15);
    } else if b == 3 {
      LerpRange(t, p.p50, p.p75, 0.35, 0.15);
    } else if b == 4 {
      LerpRange(t, p.p75, p.p90, 0.5, 0.15);
    } else if b == 5 {
      LerpRange(t, p.p90, p.p95, 0.65, 0.15);
    } else if b == 6 {
      LerpRange(t, p.p95, p.p99, 0.8, 0.15);
    } else {
      var diff := maxTasa - p.p99;
      if diff > 0.0 {
        CocientePositivo(t - p.p99, diff);
      }
    }
  }

  /** Same band, larger rate: the band's formula does not decrease. */
  lemma {:induction false} EnBandaMonotona(b: nat, t1: real, t2: real, p: Percentiles, maxTasa: real)
    requires Ordenados(p) && t1 <= t2
    requires b == 7 ==> p.p99 < t1
    ensures EnBanda(b, t1, p, maxTasa) <= EnBanda(b, t2, p, maxTasa)
  {
    if b == 0 {
      CocienteMonotono(t1, t2, p.p10);
    } else if b == 1 && p.p10 < p.p25 {
      LerpMono(t1, t2, p.p10, p.p25, 0.1, 0.1);
    } else if b == 2 && p.p25 < p.p50 {
      LerpMono(t1, t2, p.p25, p.p50, 0.2, 0.15);
    } else if b == 3 && p.p50 < p.p75 {
      LerpMono(t1, t2, p.p50, p.p75, 0.35, 0.15);
    } else if b == 4 && p.p75 < p.p90 {
      LerpMono(t1, t2, p.p75, p.p90, 0.5, 0.15);
    } else if b == 5 && p.p90 < p.p95 {
      LerpMono(t1, t2, p.p90, p.p95, 0.65, 0.15);
    } else if b == 6 && p.p95 < p.p99 {
      LerpMono(t1, t2, p.p95, p.p99, 0.8, 0.15);
    } else {
      var diff := maxTasa - p.p99;
      if diff > 0.0 {
        CocienteMonotono(t1 - p.p99, t2 - p.p99, diff);
      }
    }
  }

  /** A larger rate never gets a smaller intensity. */
  lemma IntensidadMonotona(t1: real, t2: real, p: Percentiles, maxTasa: real)
    requires Ordenados(p) && t1 <= t2
    ensures Clamp01(Intensidad(t1, p, maxTasa)) <= Clamp01(Intensidad(t2, p, maxTasa))
  {
    if Banda(t1, p) == Banda(t2, p) {
      BandaElegida(t1, p, maxTasa);
      BandaElegida(t2, p, maxTasa);
      EnBandaMonotona(Banda(t1, p), t1, t2, p, maxTasa);
    } else {
      IntensidadEnBanda(t1, p, maxTasa);
      IntensidadEnBanda(t2, p, maxTasa);
      assert Techo(Banda(t1, p)) <= Piso(Banda(t2, p));
    }
  }

  /** The sorted positive rates give ordered breakpoints. */
  lemma PercentilesOrdenados(tasas: seq<real>, maxTasa: real)
    requires |tasas| > 0 && Sorted(tasas, false)
    requires forall i :: 0 <= i < |tasas| ==> 0.0 < tasas[i]
    ensures Ordenados(PercentilesDe(tasas, maxTasa))
  {
    var n := |tasas|;
    assert n / 10 <= n / 4 <= n / 2 <= 3 * n / 4 <= 9 * n / 10 <= 19 * n / 20 <= 99 * n / 100 < n;
  }

  /** The rescaled points: same length, order and positions, values in
      [0, 1]; nothing changes when the maximum rate is not positive. The
      values themselves are stated by `NormalizarBandas`. */
  function Normalizar(puntos: seq<PuntoCalor>, maxTasa: real): (r: seq<PuntoCalor>)
    ensures |r| == |puntos|
    ensures forall i :: 0 <= i < |r| ==> r[i].lat == puntos[i].lat && r[i].lng == puntos[i].lng
    ensures maxTasa > 0.0 ==> forall i :: 0 <= i < |r| ==> 0.0 <= r[i].valor <= 1.0
    ensures !(maxTasa > 0.0) ==> r == puntos
  {
    if |puntos| > 0 && maxTasa > 0.0 then
      var p := PercentilesDePuntos(puntos, maxTasa);
      seq(|puntos|, i requires 0 <= i < |puntos| =>
        puntos[i].(valor := Clamp01(Intensidad(puntos[i].valor, p, maxTasa))))
    else puntos
  }

  /** The values `Normalizar` gives, under the breakpoints of the points'
      own rates: a rate at or below a positive 10th percentile gets
      `rate / p10 · 0.1`, and with ordered breakpoints every value lies in
      the output range of its rate's band. */
  lemma NormalizarBandas(puntos: seq<PuntoCalor>, maxTasa: real)
    requires |puntos| > 0 && maxTasa > 0.0
    ensures var p := PercentilesDePuntos(puntos, maxTasa);
      var r := Normalizar(puntos, maxTasa);
      && (forall i :: 0 <= i < |r| && 0.0 < p.p10 && 0.0 <= puntos[i].valor <= p.p10 ==>
            r[i].valor == (puntos[i].valor / p.p10) * 0.1)
      && (Ordenados(p) ==>
            forall i :: 0 <= i < |r| ==>
              Piso(Banda(puntos[i].valor, p)) <= r[i].valor <= Techo(Banda(puntos[i].valor, p)))
  {
    var p := PercentilesDePuntos(puntos, maxTasa);
    var r := Normalizar(puntos, maxTasa);
    forall i | 0 <= i < |r| && 0.0 < p.p10 && 0.0 <= puntos[i].valor <= p.p10
      ensures r[i].valor == (puntos[i].valor / p.p10) * 0.1
    {
      BandaBaja(puntos[i].valor, p, maxTasa);
    }
    if Ordenados(p) {
      forall i | 0 <= i < |r|
        ensures Piso(Banda(puntos[i].valor, p)) <= r[i].valor <= Techo(Banda(puntos[i].valor, p))
      {
        ClampEnBanda(puntos[i].valor, p, maxTasa);
      }
    }
  }

  /** After clamping, each rate's intensity still lies in its band's
      range. */
  lemma ClampEnBanda(t: real, p: Percentiles, maxTasa: real)
    requires Ordenados(p)
    ensures Piso(Banda(t, p)) <= Clamp01(Intensidad(t, p, maxTasa)) <= Techo(Banda(t, p))
  {
    IntensidadEnBanda(t, p, maxTasa);
  }

  /** The breakpoints `Normalizar` uses. */
  function PercentilesDePuntos(puntos: seq<PuntoCalor>, maxTasa: real): Percentiles
    requires |puntos| > 0
  {
    PercentilesDe(Sort(Valores(puntos), false), maxTasa)
  }

  /** Positive rates give ordered breakpoints. */
  lemma PercentilesPositivos(puntos: seq<PuntoCalor>, maxTasa: real)
    requires |puntos| > 0
    requires forall i :: 0 <= i < |puntos| ==> 0.0 < puntos[i].valor
    ensures Ordenados(PercentilesDePuntos(puntos, maxTasa))
  {
    var tasas := Sort(Valores(puntos), false);
    forall i | 0 <= i < |tasas|
      ensures 0.0 < tasas[i]
    {
      assert tasas[i] in multiset(Valores(puntos));
    }
    PercentilesOrdenados(tasas, maxTasa);
  }

  /** For positive rates, every intensity is in (0, 1]. */
  lemma NormalizarPositivos(puntos: seq<PuntoCalor>, maxTasa: real)
    requires maxTasa > 0.0
    requires forall i :: 0 <= i < |puntos| ==> 0.0 < puntos[i].valor
    ensures var r := Normalizar(puntos, maxTasa);
      forall i :: 0 <= i < |r| ==> 0.0 < r[i].valor <= 1.0
  {
    var r := Normalizar(puntos, maxTasa);
    if |puntos| > 0 {
      var p := PercentilesDePuntos(puntos, maxTasa);
      PercentilesPositivos(puntos, maxTasa);
      forall i | 0 <= i < |r|
        ensures 0.0 < r[i].valor <= 1.0
      {
        IntensidadEnBanda(puntos[i].valor, p, maxTasa);
      }
    }
  }

  /** For positive rates, rescaling keeps their order. */
  lemma NormalizarMonotona(puntos: seq<PuntoCalor>, maxTasa: real)
    requires maxTasa > 0.0
    requires forall i :: 0 <= i < |puntos| ==> 0.0 < puntos[i].valor
    ensures var r := Normalizar(puntos, maxTasa);
      forall i, j :: 0 <= i < |r| && 0 <= j < |r| && puntos[i].valor <= puntos[j].valor ==>
        r[i].valor <= r[j].valor
  {
    var r := Normalizar(puntos, maxTasa);
    if |puntos| > 0 {
      var p := PercentilesDePuntos(puntos, maxTasa);
      PercentilesPositivos(puntos, maxTasa);
      forall i, j | 0 <= i < |r| && 0 <= j < |r| && puntos[i].valor <= puntos[j].valor
        ensures r[i].valor <= r[j].valor
      {
        IntensidadMonotona(puntos[i].valor, puntos[j].valor, p, maxTasa);
      }
    }
  }

  /** A rate at or below a positive 10th percentile gets `tasa / p10 * 0.1`. */
  lemma BandaBaja(tasa: real, p: Percentiles, maxTasa: real)
    requires 0.0 < p.p10 && 0.0 <= tasa <= p.p10
    ensures Clamp01(Intensidad(tasa, p, maxTasa)) == (tasa / p.p10) * 0.1
  {
    CocientePositivo(tasa, p.p10);
    CocienteAcotado(tasa, p.p10);
  }
}
