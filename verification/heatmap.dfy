/** `getHeatmapData`: filtered crimes become heat-map points, one per ~500 m
    cell, weighted by a time-normalised crime rate. */
module Heatmap {
  import opened Seqs
  import opened Grouping
  import opened Types
  import opened Intensity

  /** Cell side in degrees (about 500 m). */
  const TamanoGrid: real := 0.005
  /** Above this many crimes, sampling (when asked for) thins the input. */
  const MaxPuntos: nat := 10000
  /** `1000 * 60 * 60 * 24`. */
  const MsPorDia: nat := 86400000
  const DiasPorMes: real := 30.44
  /** Cells with fewer distinct dates than this are "concentrated". */
  const UmbralConcentracion: nat := 30
  const FactorConcentrado: real := 1.5

  /** `Math.round`: the nearest integer, halves rounded up. */
  function Redondear(x: real): (n: int)
    ensures n as real - 0.5 <= x < n as real + 0.5
  {
    (x + 0.5).Floor
  }

  /** `Math.ceil`. */
  function RedondearArriba(x: real): (n: int)
    ensures x <= n as real < x + 1.0
  {
    -((-x).Floor)
  }

  type Celda = (int, int)

  /** The cell of a crime: `Math.round(coord / gridSize)` on each axis. The
      cell's point `(key * gridSize)` is within half a cell of the crime. */
  function CeldaRedondeada(d: Delito): (c: Celda)
    ensures -TamanoGrid / 2.0 <= d.lat - c.0 as real * TamanoGrid < TamanoGrid / 2.0
    ensures -TamanoGrid / 2.0 <= d.lng - c.1 as real * TamanoGrid < TamanoGrid / 2.0
  {
    (Redondear(d.lat / TamanoGrid), Redondear(d.lng / TamanoGrid))
  }

  function Clave(): Delito -> Celda
  {
    d => CeldaRedondeada(d)
  }

  // ---------------------------------------------------------------- sampling

  /** `Math.ceil(n / 10000)`. */
  function Paso(n: nat): (p: nat)
    ensures n > 0 ==> p > 0
    ensures p * MaxPuntos >= n
    ensures n > 0 ==> (p - 1) * MaxPuntos < n
  {
    (n + MaxPuntos - 1) / MaxPuntos
  }

  /** `s.filter((_, i) => i % paso === 0)`: the elements at indices 0, paso,
      2·paso, …, which are ⌈|s| / paso⌉ many. */
  function Cada<T>(s: seq<T>, paso: nat): (r: seq<T>)
    requires paso > 0
    ensures |s| == 0 ==> r == []
    ensures |s| > 0 ==> |r| > 0 && r[0] == s[0]
    decreases |s|
  {
    if |s| == 0 then []
    else if |s| <= paso then [s[0]]
    else [s[0]] + Cada(s[paso..], paso)
  }

  /** ⌈|s| / paso⌉ elements are kept. */
  lemma {:induction false} CadaLongitud<T>(s: seq<T>, paso: nat)
    requires paso > 0 && |s| > 0
    ensures (|Cada(s, paso)| - 1) * paso < |s| <= |Cada(s, paso)| * paso
    decreases |s|
  {
    if |s| > paso {
      var rest := Cada(s[paso..], paso);
      CadaLongitud(s[paso..], paso);
      assert |Cada(s, paso)| == |rest| + 1;
      assert (|rest| + 1) * paso == |rest| * paso + paso;
    }
  }

  lemma MulMono(a: nat, b: nat, c: nat)
    requires a <= b
    ensures a * c <= b * c
  {
  }

  lemma MulCancela(a: int, b: int, c: int)
    requires c > 0 && a * c < b * c
    ensures a < b
  {
  }

  /** The `k`-th kept element is the one at index `k · paso`. */
  lemma {:induction false} CadaElemento<T>(s: seq<T>, paso: nat, k: nat)
    requires paso > 0 && k < |Cada(s, paso)|
    ensures k * paso < |s| && Cada(s, paso)[k] == s[k * paso]
    decreases k
  {
    if k > 0 {
      var t := s[paso..];
      assert Cada(s, paso) == [s[0]] + Cada(t, paso);
      CadaElemento(t, paso, k - 1);
      assert paso + (k - 1) * paso == k * paso;
      assert t[(k - 1) * paso] == s[k * paso];
    }
  }

  /** Every index that is a multiple of `paso` is kept. */
  lemma CadaMultiplos<T>(s: seq<T>, paso: nat, k: nat)
    requires paso > 0 && k * paso < |s|
    ensures k < |Cada(s, paso)| && Cada(s, paso)[k] == s[k * paso]
  {
    var r := Cada(s, paso);
    CadaLongitud(s, paso);
    if k >= |r| {
      MulMono(|r|, k, paso);
    }
    CadaElemento(s, paso, k);
  }

  /** Sampling is applied only when asked for and above 10000 crimes; it
      keeps the first crime, leaves at most 10000, and keeps exactly the
      crimes whose index is a multiple of the stride: the k-th kept crime
      is the one at k·stride, and there are ⌈n / stride⌉ of them. */
  function Muestrear(datos: seq<Delito>, muestreo: bool): (r: seq<Delito>)
    ensures !muestreo || |datos| <= MaxPuntos ==> r == datos
    ensures muestreo ==> |r| <= MaxPuntos
    ensures |r| <= |datos|
    ensures |datos| > 0 ==> |r| > 0 && r[0] == datos[0]
    ensures forall k :: 0 <= k < |r| ==> r[k] in datos
    ensures muestreo && |datos| > MaxPuntos ==>
              forall k :: 0 <= k < |r| ==> k * Paso(|datos|) < |datos| && r[k] == datos[k * Paso(|datos|)]
    ensures muestreo && |datos| > MaxPuntos ==>
              (|r| - 1) * Paso(|datos|) < |datos| <= |r| * Paso(|datos|)
  {
    if muestreo && |datos| > MaxPuntos then
      var n := |datos|;
      var p := Paso(n);
      var r := Cada(datos, p);
      CadaLongitud(datos, p);
      MulCancela(|r| - 1, MaxPuntos, p);
      MulCancela(|r| - 1, n, p);
      forall k | 0 <= k < |r|
        ensures k * p < n && r[k] == datos[k * p]
      {
        CadaElemento(datos, p, k);
      }
      r
    else datos
  }

  // ------------------------------------------------------------ time window

  /** The valid time values among the crimes' dates, in input order. */
  function Tiempos(ds: seq<Delito>): (ts: seq<int>)
    ensures forall t :: t in ts <==> exists i :: 0 <= i < |ds| && ds[i].fecha == Valido(t)
  {
    if |ds| == 0 then []
    else
      var rest := Tiempos(ds[1..]);
      assert forall i :: 1 <= i < |ds| ==> ds[i] == ds[1..][i - 1];
      if ds[0].fecha.Valido? then [ds[0].fecha.ms] + rest else rest
  }

  /** `Math.max(1, Math.ceil((fin - inicio) / msPerDay))`. */
  function DiasTotales(inicio: int, fin: int): (dias: nat)
    requires inicio <= fin
    ensures dias >= 1
    ensures (fin - inicio) as real <= (dias * MsPorDia) as real
    ensures dias > 1 ==> ((dias - 1) * MsPorDia) as real < (fin - inicio) as real
  {
    var c := RedondearArriba((fin - inicio) as real / MsPorDia as real);
    if c > 1 then c else 1
  }

  /** Days spanned by the crimes' valid dates, from the earliest to the
      latest, and 1 when none is valid: the shortest whole number of days (at
      least one) that covers every pair of valid dates. */
  function DiasDelPeriodo(ds: seq<Delito>): (dias: nat)
    ensures dias >= 1
    ensures forall i, j :: 0 <= i < |ds| && 0 <= j < |ds| && ds[i].fecha.Valido? && ds[j].fecha.Valido? ==>
              ds[j].fecha.ms - ds[i].fecha.ms <= dias * MsPorDia
    ensures dias > 1 ==>
              exists i, j :: 0 <= i < |ds| && 0 <= j < |ds| && ds[i].fecha.Valido? && ds[j].fecha.Valido? &&
                (dias - 1) * MsPorDia < ds[j].fecha.ms - ds[i].fecha.ms
  {
    var ts := Tiempos(ds);
    if |ts| == 0 then 1
    else
      var lo, hi := MinInt(ts), MaxInt(ts);
      var dias := DiasTotales(lo, hi);
      assert forall i :: 0 <= i < |ds| && ds[i].fecha.Valido? ==> ds[i].fecha.ms in ts;
      assert dias > 1 ==> exists i, j :: 0 <= i < |ds| && 0 <= j < |ds| && ds[i].fecha == Valido(lo) && ds[j].fecha == Valido(hi);
      dias
  }

  /** `Math.max(1, dias / 30.44)`. */
  function MesesTotales(dias: nat): (meses: real)
    ensures meses >= 1.0
    ensures meses * DiasPorMes >= dias as real
    ensures meses == 1.0 || meses * DiasPorMes == dias as real
  {
    var m := dias as real / DiasPorMes;
    if m > 1.0 then m else 1.0
  }

  // ------------------------------------------------------------------ rates

  /** Number of distinct valid dates among a cell's crimes. */
  function FechasUnicas(items: seq<Delito>): nat
  {
    |set i | 0 <= i < |items| && items[i].fecha.Valido? :: items[i].fecha.ms|
  }

  /** Crimes per month over the whole period, times 1.5 for a cell whose
      crimes fall on fewer than 30 distinct dates. */
  function Tasa(count: nat, fechasUnicas: nat, meses: real): (t: real)
    requires meses >= 1.0
    ensures count > 0 ==> 0.0 < t
    ensures t <= FactorConcentrado * count as real
    ensures count as real / meses <= t
    ensures fechasUnicas < UmbralConcentracion ==> t * meses == FactorConcentrado * count as real
    ensures fechasUnicas >= UmbralConcentracion ==> t * meses == count as real
  {
    var diasConDelitos := if fechasUnicas > 1 then fechasUnicas else 1;
    var factor := if diasConDelitos < UmbralConcentracion then FactorConcentrado else 1.0;
    var porMes := count as real / meses;
    assert porMes * meses == count as real;
    assert porMes <= count as real;
    assert (porMes * factor) * meses == (porMes * meses) * factor;
    porMes * factor
  }

  /** At the same count and period, a concentrated cell weighs exactly 1.5
      times a spread-out one. */
  lemma Concentracion(count: nat, u1: nat, u2: nat, meses: real)
    requires meses >= 1.0 && u1 < UmbralConcentracion <= u2
    ensures Tasa(count, u1, meses) == FactorConcentrado * Tasa(count, u2, meses)
  {
  }

  /** Three crimes on three consecutive days in one cell: the period
      clamps to one month, so the rate is 3 × 1.5 = 4.5. */
  lemma TresDiasSeguidos()
    ensures Tasa(3, 3, MesesTotales(DiasTotales(0, 2 * MsPorDia))) == 4.5
  {
    assert DiasTotales(0, 2 * MsPorDia) == 2;
  }

  /** The heat point of one cell: its rounded position and its rate. */
  function PuntoDeCelda(b: Bucket<Celda, Delito>, meses: real): PuntoCalor
    requires meses >= 1.0
  {
    var pos := PosicionDe(b.key);
    PuntoCalor(pos.0, pos.1, Tasa(|b.items|, FechasUnicas(b.items), meses))
  }

  /** Position of a cell's heat point: `Math.round(c / gridSize) * gridSize`. */
  function PosicionDe(c: Celda): (real, real)
  {
    (c.0 as real * TamanoGrid, c.1 as real * TamanoGrid)
  }

  /** Positions of the cells of a list of crimes. */
  function Centros(ds: seq<Delito>): set<(real, real)>
  {
    set d | d in ds :: PosicionDe(CeldaRedondeada(d))
  }

  /** Every cell position of `ds` carries one of the points `r`. */
  predicate CubreCentros(r: seq<PuntoCalor>, ds: seq<Delito>)
  {
    forall c :: c in Centros(ds) ==> exists i :: 0 <= i < |r| && (r[i].lat, r[i].lng) == c
  }

  /** The points of a list of cells, in the same order. */
  function PuntosDe(gs: seq<Bucket<Celda, Delito>>, meses: real): (r: seq<PuntoCalor>)
    requires meses >= 1.0
    ensures |r| == |gs|
    ensures forall i :: 0 <= i < |r| ==> r[i] == PuntoDeCelda(gs[i], meses)
  {
    seq(|gs|, i requires 0 <= i < |gs| => PuntoDeCelda(gs[i], meses))
  }

  /** One point per occupied cell, in first-occurrence order: at most one
      per crime, each with a positive rate; the positions of the points are
      exactly the positions of the crimes' cells, each once. */
  function PuntosCalor(datos: seq<Delito>, meses: real): (r: seq<PuntoCalor>)
    requires meses >= 1.0
    ensures |r| <= |datos|
    ensures |datos| > 0 ==> |r| > 0
    ensures forall i :: 0 <= i < |r| ==> 0.0 < r[i].valor
    ensures forall i :: 0 <= i < |r| ==> (r[i].lat, r[i].lng) in Centros(datos)
    ensures forall i, j :: 0 <= i < j < |r| ==> (r[i].lat, r[i].lng) != (r[j].lat, r[j].lng)
    ensures CubreCentros(r, datos)
  {
    PuntosCalorCuenta(datos, meses);
    PuntosCalorCentros(datos, meses);
    PuntosCalorDistintos(datos, meses);
    PuntosCalorCubre(datos, meses);
    PuntosDe(GroupBy(Clave(), datos), meses)
  }

  /** Every crime's cell gets a point. */
  lemma PuntosCalorCubre(datos: seq<Delito>, meses: real)
    requires meses >= 1.0
    ensures CubreCentros(PuntosDe(GroupBy(Clave(), datos), meses), datos)
  {
    var gs := GroupBy(Clave(), datos);
    var r := PuntosDe(gs, meses);
    forall c | c in Centros(datos)
      ensures exists i :: 0 <= i < |r| && (r[i].lat, r[i].lng) == c
    {
      var i := CeldaCubierta(datos, c);
      assert r[i] == PuntoDeCelda(gs[i], meses);
      assert (r[i].lat, r[i].lng) == c;
    }
    assert CubreCentros(r, datos);
  }

  /** The bucket of a crime's cell. */
  lemma CeldaCubierta(datos: seq<Delito>, c: (real, real)) returns (i: nat)
    requires c in Centros(datos)
    ensures i < |GroupBy(Clave(), datos)| && PosicionDe(GroupBy(Clave(), datos)[i].key) == c
  {
    var gs := GroupBy(Clave(), datos);
    var d :| d in datos && PosicionDe(CeldaRedondeada(d)) == c;
    var k :| 0 <= k < |datos| && datos[k] == d;
    assert 0 <= IndexOfKey(gs, Clave()(datos[k]));
    i := IndexOfKey(gs, Clave()(datos[k]));
  }

  /** One point per cell: a cell's point carries its position and the
      cell's rate, crimes per month times 1.5 when the cell's crimes fall
      on fewer than 30 distinct dates. */
  lemma PuntosCalorPorCelda(datos: seq<Delito>, meses: real, i: nat)
    requires meses >= 1.0 && i < |GroupBy(Clave(), datos)|
    ensures var b := GroupBy(Clave(), datos)[i];
      var p := PuntosCalor(datos, meses)[i];
      && (p.lat, p.lng) == PosicionDe(b.key)
      && 0.0 < p.valor <= FactorConcentrado * |b.items| as real
      && p.valor == Tasa(|b.items|, FechasUnicas(b.items), meses)
  {
    var gs := GroupBy(Clave(), datos);
    assert |gs[i].items| > 0;
  }

  lemma PuntosCalorCuenta(datos: seq<Delito>, meses: real)
    requires meses >= 1.0
    ensures var r := PuntosDe(GroupBy(Clave(), datos), meses);
      && |r| <= |datos|
      && (|datos| > 0 ==> |r| > 0)
      && forall i :: 0 <= i < |r| ==> 0.0 < r[i].valor
  {
    var gs := GroupBy(Clave(), datos);
    BucketsAtMostSize(gs);
    if |datos| > 0 {
      assert 0 <= IndexOfKey(gs, Clave()(datos[0]));
    }
    assert forall i :: 0 <= i < |gs| ==> |gs[i].items| > 0;
  }

  lemma PuntosCalorCentros(datos: seq<Delito>, meses: real)
    requires meses >= 1.0
    ensures var r := PuntosDe(GroupBy(Clave(), datos), meses);
      forall i :: 0 <= i < |r| ==> (r[i].lat, r[i].lng) in Centros(datos)
  {
    var r := PuntosDe(GroupBy(Clave(), datos), meses);
    forall i | 0 <= i < |r|
      ensures (r[i].lat, r[i].lng) in Centros(datos)
    {
      CentroDeCelda(datos, i);
    }
  }

  lemma PuntosCalorDistintos(datos: seq<Delito>, meses: real)
    requires meses >= 1.0
    ensures var r := PuntosDe(GroupBy(Clave(), datos), meses);
      forall i, j :: 0 <= i < j < |r| ==> (r[i].lat, r[i].lng) != (r[j].lat, r[j].lng)
  {
    var gs := GroupBy(Clave(), datos);
    var r := PuntosDe(gs, meses);
    assert DistinctKeys(gs);
    forall i, j | 0 <= i < j < |r|
      ensures (r[i].lat, r[i].lng) != (r[j].lat, r[j].lng)
    {
      PosicionInyectiva(gs[i].key, gs[j].key);
      assert (r[i].lat, r[i].lng) == PosicionDe(gs[i].key);
      assert (r[j].lat, r[j].lng) == PosicionDe(gs[j].key);
    }
  }

  /** Distinct cells have distinct positions. */
  lemma PosicionInyectiva(a: Celda, b: Celda)
    requires a != b
    ensures PosicionDe(a) != PosicionDe(b)
  {
  }

  /** A cell's position is the rounded position of a crime in it. */
  lemma CentroDeCelda(datos: seq<Delito>, i: nat)
    requires i < |GroupBy(Clave(), datos)|
    ensures PosicionDe(GroupBy(Clave(), datos)[i].key) in Centros(datos)
  {
    var b := GroupBy(Clave(), datos)[i];
    BucketKeyOfInput(Clave(), datos, i);
    var d := b.items[0];
    assert PosicionDe(CeldaRedondeada(d)) in Centros(datos);
  }

  // --------------------------------------------------------- critical zones

  function Supera(umbral: real): PuntoCalor -> bool
  {
    (p: PuntoCalor) => p.valor >= umbral
  }

  function AlMenos(umbral: real): real -> bool
  {
    (x: real) => x >= umbral
  }

  /** Filtering points by rate keeps as many as filtering the rates. */
  lemma {:induction false} FiltroValores(ps: seq<PuntoCalor>, umbral: real)
    ensures |Filter(Supera(umbral), ps)| == |Filter(AlMenos(umbral), Valores(ps))|
    decreases |ps|
  {
    if |ps| > 0 {
      assert Valores(ps)[1..] == Valores(ps[1..]);
      FiltroValores(ps[1..], umbral);
    }
  }

  function Excede(umbral: real): real -> bool
  {
    (x: real) => x > umbral
  }

  /** `tasas.sort(desc)[Math.floor(n * 0.25)]`: the threshold of the top
      quarter, the (⌊n/4⌋ + 1)-th largest rate. It is a rate; at least
      ⌊n/4⌋ + 1 rates reach it and at most ⌊n/4⌋ exceed it, which fixes it
      uniquely. */
  function UmbralCritico(ps: seq<PuntoCalor>): (u: real)
    requires |ps| > 0
    ensures u in Valores(ps)
    ensures |Filter(AlMenos(u), Valores(ps))| >= |ps| / 4 + 1
    ensures |Filter(Excede(u), Valores(ps))| <= |ps| / 4
  {
    var tasas := Sort(Valores(ps), true);
    var u := tasas[|tasas| / 4];
    assert u in multiset(Valores(ps)) by {
      assert u in multiset(tasas);
    }
    RangoOrdenado(tasas);
    FilterLengthOfPermutation(AlMenos(u), Valores(ps), tasas);
    FilterLengthOfPermutation(Excede(u), Valores(ps), tasas);
    u
  }

  /** In a descending list, the element at ⌊n/4⌋ is reached by the first
      ⌊n/4⌋ + 1 elements and exceeded by at most the first ⌊n/4⌋. */
  lemma RangoOrdenado(tasas: seq<real>)
    requires |tasas| > 0 && Sorted(tasas, true)
    ensures |Filter(AlMenos(tasas[|tasas| / 4]), tasas)| >= |tasas| / 4 + 1
    ensures |Filter(Excede(tasas[|tasas| / 4]), tasas)| <= |tasas| / 4
  {
    var m := |tasas| / 4;
    var u := tasas[m];
    forall k | 0 <= k < m + 1
      ensures AlMenos(u)(tasas[k])
    {
      assert k == m || InOrder(tasas[k], tasas[m], true);
    }
    FilterKeepsPrefix(AlMenos(u), tasas, m + 1);
    forall k | m <= k < |tasas|
      ensures !Excede(u)(tasas[k])
    {
      assert k == m || InOrder(tasas[m], tasas[k], true);
    }
    FilterKeepsAtMostPrefix(Excede(u), tasas, m);
  }

  /** The critical zones: the points whose rate reaches the top-quarter
      threshold, in their order. A point is kept exactly when its rate
      reaches the threshold; at least ⌊n/4⌋ + 1 of them survive, and every
      dropped point has a smaller rate than every kept one. */
  function ZonasCriticas(ps: seq<PuntoCalor>): (r: seq<PuntoCalor>)
    ensures IsSubseq(r, ps)
    ensures |ps| == 0 ==> r == []
    ensures |ps| > 0 ==> |ps| / 4 + 1 <= |r|
    ensures forall i :: 0 <= i < |r| ==> r[i] in ps
    ensures |ps| > 0 ==> forall j :: 0 <= j < |ps| ==> (ps[j] in r <==> ps[j].valor >= UmbralCritico(ps))
    ensures forall i, j :: 0 <= i < |r| && 0 <= j < |ps| && ps[j] !in r ==> ps[j].valor < r[i].valor
  {
    if |ps| == 0 then []
    else
      var umbral := UmbralCritico(ps);
      var r := Filter(Supera(umbral), ps);
      FiltroValores(ps, umbral);
      r
  }

  // ---------------------------------------------------------------- pipeline

  /** The rated cells of the (possibly sampled) crimes, with the period
      measured on all of them. */
  function PuntosDelPeriodo(filtrados: seq<Delito>, muestreo: bool): (r: seq<PuntoCalor>)
    ensures |r| <= |filtrados|
    ensures muestreo ==> |r| <= MaxPuntos
    ensures |filtrados| > 0 ==> |r| > 0
    ensures forall i :: 0 <= i < |r| ==> 0.0 < r[i].valor
    ensures forall i :: 0 <= i < |r| ==> (r[i].lat, r[i].lng) in Centros(filtrados)
    ensures forall i, j :: 0 <= i < j < |r| ==> (r[i].lat, r[i].lng) != (r[j].lat, r[j].lng)
    ensures !muestreo || |filtrados| <= MaxPuntos ==>
              CubreCentros(r, filtrados)
  {
    var meses := MesesTotales(DiasDelPeriodo(filtrados));
    var datos := Muestrear(filtrados, muestreo);
    CentrosMuestra(filtrados, datos);
    PuntosCalor(datos, meses)
  }

  /** All points, or only the critical ones. */
  function Seleccion(puntos: seq<PuntoCalor>, soloZonasCriticas: bool): (r: seq<PuntoCalor>)
    ensures |r| <= |puntos|
    ensures |puntos| > 0 ==> |r| > 0
    ensures forall i :: 0 <= i < |r| ==> r[i] in puntos
    ensures !soloZonasCriticas ==> r == puntos
  {
    if soloZonasCriticas then ZonasCriticas(puntos) else puntos
  }

  /** The heat-map points of the filtered crimes: none for no crimes,
      otherwise at least one, never more than the crimes (nor than 10000
      when sampling), each at the rounded cell of some crime, with an
      intensity in (0, 1]. */
  function GetHeatmapData(filtrados: seq<Delito>, soloZonasCriticas: bool, muestreo: bool): (r: seq<PuntoCalor>)
    ensures |filtrados| == 0 ==> r == []
    ensures |filtrados| > 0 ==> |r| > 0
    ensures |r| <= |filtrados|
    ensures muestreo ==> |r| <= MaxPuntos
    ensures forall i :: 0 <= i < |r| ==> 0.0 < r[i].valor <= 1.0
    ensures forall i :: 0 <= i < |r| ==> (r[i].lat, r[i].lng) in Centros(filtrados)
    ensures !soloZonasCriticas ==> forall i, j :: 0 <= i < j < |r| ==> (r[i].lat, r[i].lng) != (r[j].lat, r[j].lng)
    ensures !soloZonasCriticas && (!muestreo || |filtrados| <= MaxPuntos) ==>
              CubreCentros(r, filtrados)
  {
    if |filtrados| == 0 then []
    else Dibujar(filtrados, PuntosDelPeriodo(filtrados, muestreo), soloZonasCriticas, muestreo)
  }

  /** The points drawn from the period's points: the selection, rescaled.
      One output point per selected point, at its position, with an
      intensity in (0, 1] that never puts a smaller rate above a larger
      one. */
  function Dibujar(filtrados: seq<Delito>, puntos: seq<PuntoCalor>, soloZonasCriticas: bool, muestreo: bool)
    : (r: seq<PuntoCalor>)
    requires |puntos| > 0
    requires forall i :: 0 <= i < |puntos| ==> 0.0 < puntos[i].valor
    requires forall i :: 0 <= i < |puntos| ==> (puntos[i].lat, puntos[i].lng) in Centros(filtrados)
    requires forall i, j :: 0 <= i < j < |puntos| ==> (puntos[i].lat, puntos[i].lng) != (puntos[j].lat, puntos[j].lng)
    requires !muestreo || |filtrados| <= MaxPuntos ==> CubreCentros(puntos, filtrados)
    ensures 0 < |r| <= |puntos|
    ensures forall i :: 0 <= i < |r| ==> 0.0 < r[i].valor <= 1.0
    ensures forall i :: 0 <= i < |r| ==> (r[i].lat, r[i].lng) in Centros(filtrados)
    ensures !soloZonasCriticas ==> forall i, j :: 0 <= i < j < |r| ==> (r[i].lat, r[i].lng) != (r[j].lat, r[j].lng)
    ensures !soloZonasCriticas && (!muestreo || |filtrados| <= MaxPuntos) ==> CubreCentros(r, filtrados)
  {
    var finales := Seleccion(puntos, soloZonasCriticas);
    EscalarEnCentros(filtrados, puntos, finales, soloZonasCriticas, muestreo);
    Escalar(puntos, finales)
  }

  /** What the rescaled selection inherits from the period's points: the
      positions stay at crimes' cells, distinct and covering when the
      selection is all the points. */
  lemma EscalarEnCentros(filtrados: seq<Delito>, puntos: seq<PuntoCalor>, finales: seq<PuntoCalor>,
                         soloZonasCriticas: bool, muestreo: bool)
    requires |puntos| > 0
    requires forall i :: 0 <= i < |puntos| ==> 0.0 < puntos[i].valor
    requires forall i :: 0 <= i < |puntos| ==> (puntos[i].lat, puntos[i].lng) in Centros(filtrados)
    requires forall i, j :: 0 <= i < j < |puntos| ==> (puntos[i].lat, puntos[i].lng) != (puntos[j].lat, puntos[j].lng)
    requires !muestreo || |filtrados| <= MaxPuntos ==> CubreCentros(puntos, filtrados)
    requires forall i :: 0 <= i < |finales| ==> finales[i] in puntos
    requires !soloZonasCriticas ==> finales == puntos
    ensures var r := Escalar(puntos, finales);
      && (forall i :: 0 <= i < |r| ==> (r[i].lat, r[i].lng) in Centros(filtrados))
      && (!soloZonasCriticas ==> forall i, j :: 0 <= i < j < |r| ==> (r[i].lat, r[i].lng) != (r[j].lat, r[j].lng))
      && (!soloZonasCriticas && (!muestreo || |filtrados| <= MaxPuntos) ==> CubreCentros(r, filtrados))
  {
    var r := Escalar(puntos, finales);
    forall i | 0 <= i < |r|
      ensures (r[i].lat, r[i].lng) in Centros(filtrados)
    {
      var k :| 0 <= k < |puntos| && puntos[k] == finales[i];
    }
    MismasPosiciones(finales, r, filtrados);
  }

  /** What the final rescaling needs: some period points, all with a
      positive rate, and a selection drawn from them. */
  predicate Escalable(puntos: seq<PuntoCalor>, finales: seq<PuntoCalor>)
  {
    && |puntos| > 0
    && (forall i :: 0 <= i < |puntos| ==> 0.0 < puntos[i].valor)
    && (forall i :: 0 <= i < |finales| ==> finales[i] in puntos)
  }

  /** The final rescaling: the selection through `Normalizar` with the
      maximum rate of all the period's points. Each selected point keeps
      its position and gets an intensity in (0, 1], and a point with a
      rate no larger than another's never gets a larger intensity. */
  function Escalar(puntos: seq<PuntoCalor>, finales: seq<PuntoCalor>): (r: seq<PuntoCalor>)
    requires Escalable(puntos, finales)
    ensures |r| == |finales|
    ensures forall i :: 0 <= i < |r| ==> r[i].lat == finales[i].lat && r[i].lng == finales[i].lng
    ensures forall i :: 0 <= i < |r| ==> 0.0 < r[i].valor <= 1.0
  {
    var maxTasa := MaxFrom(0.0, Valores(puntos));
    assert Valores(puntos)[0] <= maxTasa;
    assert forall i :: 0 <= i < |finales| ==> 0.0 < finales[i].valor;
    NormalizarPositivos(finales, maxTasa);
    Normalizar(finales, maxTasa)
  }

  /** Rescaling never puts a smaller rate above a larger one. */
  lemma EscalarMonotona(puntos: seq<PuntoCalor>, finales: seq<PuntoCalor>)
    requires Escalable(puntos, finales)
    ensures var r := Escalar(puntos, finales);
      forall i, j :: 0 <= i < |r| && 0 <= j < |r| && finales[i].valor <= finales[j].valor ==>
        r[i].valor <= r[j].valor
  {
    var maxTasa := MaxFrom(0.0, Valores(puntos));
    assert Valores(puntos)[0] <= maxTasa;
    assert forall i :: 0 <= i < |finales| ==> 0.0 < finales[i].valor;
    NormalizarMonotona(finales, maxTasa);
  }

  /** The map's intensities follow the rates: one output point per
      selected point, and a selected point with a rate no larger than
      another's never gets a larger intensity. */
  lemma HeatmapMonotona(filtrados: seq<Delito>, soloZonasCriticas: bool, muestreo: bool)
    requires |filtrados| > 0
    ensures var finales := Seleccion(PuntosDelPeriodo(filtrados, muestreo), soloZonasCriticas);
      var r := GetHeatmapData(filtrados, soloZonasCriticas, muestreo);
      && |r| == |finales|
      && forall i, j :: 0 <= i < |r| && 0 <= j < |r| && finales[i].valor <= finales[j].valor ==>
           r[i].valor <= r[j].valor
  {
    var puntos := PuntosDelPeriodo(filtrados, muestreo);
    HeatmapEscala(filtrados, soloZonasCriticas, muestreo);
    EscalarMonotona(puntos, Seleccion(puntos, soloZonasCriticas));
  }

  /** Each point of the map has the intensity of its selected rate's band,
      with the breakpoints of the selected rates and the maximum rate of
      all the period's points. */
  lemma HeatmapEnBandas(filtrados: seq<Delito>, soloZonasCriticas: bool, muestreo: bool)
    requires |filtrados| > 0
    ensures var puntos := PuntosDelPeriodo(filtrados, muestreo);
      EnSusBandas(Seleccion(puntos, soloZonasCriticas), GetHeatmapData(filtrados, soloZonasCriticas, muestreo),
                  MaxFrom(0.0, Valores(puntos)))
  {
    var puntos := PuntosDelPeriodo(filtrados, muestreo);
    HeatmapEscala(filtrados, soloZonasCriticas, muestreo);
    EscalarEnBandas(puntos, Seleccion(puntos, soloZonasCriticas));
  }

  /** One intensity per selected point, each in the output range of its
      rate's band, under the breakpoints of the selected rates and the
      maximum rate `maxTasa`. */
  predicate EnSusBandas(finales: seq<PuntoCalor>, r: seq<PuntoCalor>, maxTasa: real)
  {
    && |finales| > 0
    && |r| == |finales|
    && var p := PercentilesDePuntos(finales, maxTasa);
       forall i :: 0 <= i < |r| ==>
         Piso(Banda(finales[i].valor, p)) <= r[i].valor <= Techo(Banda(finales[i].valor, p))
  }

  /** The rescaled selection lies in the bands of the selected rates. */
  lemma EscalarEnBandas(puntos: seq<PuntoCalor>, finales: seq<PuntoCalor>)
    requires Escalable(puntos, finales) && |finales| > 0
    ensures EnSusBandas(finales, Escalar(puntos, finales), MaxFrom(0.0, Valores(puntos)))
  {
    var maxTasa := MaxFrom(0.0, Valores(puntos));
    assert Valores(puntos)[0] <= maxTasa;
    assert forall i :: 0 <= i < |finales| ==> 0.0 < finales[i].valor;
    PercentilesPositivos(finales, maxTasa);
    NormalizarBandas(finales, maxTasa);
  }

  /** For a non-empty list the map is the selection of the period's points,
      rescaled against the largest rate of all of them. */
  lemma HeatmapEscala(filtrados: seq<Delito>, soloZonasCriticas: bool, muestreo: bool)
    requires |filtrados| > 0
    ensures var puntos := PuntosDelPeriodo(filtrados, muestreo);
      && Escalable(puntos, Seleccion(puntos, soloZonasCriticas))
      && GetHeatmapData(filtrados, soloZonasCriticas, muestreo) == Escalar(puntos, Seleccion(puntos, soloZonasCriticas))
  {
    var puntos := PuntosDelPeriodo(filtrados, muestreo);
    assert GetHeatmapData(filtrados, soloZonasCriticas, muestreo) ==
           Dibujar(filtrados, puntos, soloZonasCriticas, muestreo);
    DibujarEscala(filtrados, puntos, soloZonasCriticas, muestreo);
  }

  /** The drawn points are the rescaled selection. */
  lemma DibujarEscala(filtrados: seq<Delito>, puntos: seq<PuntoCalor>, soloZonasCriticas: bool, muestreo: bool)
    requires |puntos| > 0
    requires forall i :: 0 <= i < |puntos| ==> 0.0 < puntos[i].valor
    requires forall i :: 0 <= i < |puntos| ==> (puntos[i].lat, puntos[i].lng) in Centros(filtrados)
    requires forall i, j :: 0 <= i < j < |puntos| ==> (puntos[i].lat, puntos[i].lng) != (puntos[j].lat, puntos[j].lng)
    requires !muestreo || |filtrados| <= MaxPuntos ==> CubreCentros(puntos, filtrados)
    ensures Dibujar(filtrados, puntos, soloZonasCriticas, muestreo) == Escalar(puntos, Seleccion(puntos, soloZonasCriticas))
  {
  }

  /** Positions of a list of points. */
  function Posiciones(ps: seq<PuntoCalor>): set<(real, real)>
  {
    set i | 0 <= i < |ps| :: (ps[i].lat, ps[i].lng)
  }

  /** With only critical zones asked for, a cell of the period is on the
      map exactly when its rate reaches the top-quarter threshold of all
      the period's rates. */
  lemma CriticasPorUmbral(filtrados: seq<Delito>, muestreo: bool)
    requires |filtrados| > 0
    ensures var puntos := PuntosDelPeriodo(filtrados, muestreo);
      var r := GetHeatmapData(filtrados, true, muestreo);
      forall j :: 0 <= j < |puntos| ==>
        ((puntos[j].lat, puntos[j].lng) in Posiciones(r) <==> puntos[j].valor >= UmbralCritico(puntos))
  {
    var puntos := PuntosDelPeriodo(filtrados, muestreo);
    var finales := ZonasCriticas(puntos);
    var r := GetHeatmapData(filtrados, true, muestreo);
    assert r == Dibujar(filtrados, puntos, true, muestreo);
    PosicionesVisibles(puntos, finales, r);
  }

  /** Points at distinct positions, a selection of them, and a list with
      the selection's positions: a point's position shows exactly when the
      point was selected. */
  lemma PosicionesVisibles(puntos: seq<PuntoCalor>, finales: seq<PuntoCalor>, r: seq<PuntoCalor>)
    requires forall i, j :: 0 <= i < j < |puntos| ==> (puntos[i].lat, puntos[i].lng) != (puntos[j].lat, puntos[j].lng)
    requires forall i :: 0 <= i < |finales| ==> finales[i] in puntos
    requires |r| == |finales|
    requires forall i :: 0 <= i < |r| ==> r[i].lat == finales[i].lat && r[i].lng == finales[i].lng
    ensures forall j :: 0 <= j < |puntos| ==> ((puntos[j].lat, puntos[j].lng) in Posiciones(r) <==> puntos[j] in finales)
  {
    forall j | 0 <= j < |puntos|
      ensures (puntos[j].lat, puntos[j].lng) in Posiciones(r) <==> puntos[j] in finales
    {
      if puntos[j] in finales {
        var k :| 0 <= k < |finales| && finales[k] == puntos[j];
        assert (r[k].lat, r[k].lng) == (puntos[j].lat, puntos[j].lng);
      }
      if (puntos[j].lat, puntos[j].lng) in Posiciones(r) {
        var k :| 0 <= k < |r| && (r[k].lat, r[k].lng) == (puntos[j].lat, puntos[j].lng);
        var m :| 0 <= m < |puntos| && puntos[m] == finales[k];
        assert m == j;
      }
    }
  }

  /** Two point lists with the same positions index by index: distinct
      positions and the covering of a list of crimes carry over. */
  lemma MismasPosiciones(a: seq<PuntoCalor>, b: seq<PuntoCalor>, ds: seq<Delito>)
    requires |a| == |b|
    requires forall i :: 0 <= i < |b| ==> b[i].lat == a[i].lat && b[i].lng == a[i].lng
    ensures (forall i, j :: 0 <= i < j < |a| ==> (a[i].lat, a[i].lng) != (a[j].lat, a[j].lng)) ==>
              forall i, j :: 0 <= i < j < |b| ==> (b[i].lat, b[i].lng) != (b[j].lat, b[j].lng)
    ensures CubreCentros(a, ds) ==> CubreCentros(b, ds)
  {
    if CubreCentros(a, ds) {
      forall c | c in Centros(ds)
        ensures exists i :: 0 <= i < |b| && (b[i].lat, b[i].lng) == c
      {
        var i :| 0 <= i < |a| && (a[i].lat, a[i].lng) == c;
        assert (b[i].lat, b[i].lng) == c;
      }
    }
  }

  lemma CentrosMuestra(ds: seq<Delito>, sub: seq<Delito>)
    requires forall k :: 0 <= k < |sub| ==> sub[k] in ds
    ensures Centros(sub) <= Centros(ds)
  {
  }
}
