/** The safety-zone layer: crimes inside the city box are counted per
    floor-keyed cell, every swept cell whose centre lies inside the city
    gets a density (crimes per km², zero for a cell without crimes) and a
    safety level with its colour. */
module SafetyZones {
  import opened Seqs
  import opened Grouping
  import opened Types
  import opened Grid

  datatype Nivel = MuySeguro | Seguro | Moderado | Peligroso | MuyPeligroso

  /** The level with the fill colour and opacity of its rectangle. */
  datatype Seguridad = Seguridad(nivel: Nivel, color: string, opacidad: real)

  /** Position of a level on the scale from safest to most dangerous. */
  function Gravedad(n: Nivel): (k: nat)
    ensures k <= 4
  {
    match n
    case MuySeguro => 0
    case Seguro => 1
    case Moderado => 2
    case Peligroso => 3
    case MuyPeligroso => 4
  }

  /** Classifies a density in crimes per km². */
  function ClasificarSeguridad(densidad: real): (s: Seguridad)
    ensures s.color in ColoresZona
    ensures 0.4 <= s.opacidad <= 0.6
    ensures s.nivel == MuySeguro <==> densidad == 0.0
    ensures s.nivel == Seguro <==> densidad != 0.0 && densidad < 5.0
    ensures s.nivel == Moderado <==> 5.0 <= densidad < 15.0
    ensures s.nivel == Peligroso <==> 15.0 <= densidad < 30.0
    ensures s.nivel == MuyPeligroso <==> 30.0 <= densidad
  {
    if densidad == 0.0 then Seguridad(MuySeguro, "#22c55e", 0.6)
    else if densidad < 5.0 then Seguridad(Seguro, "#84cc16", 0.5)
    else if densidad < 15.0 then Seguridad(Moderado, "#eab308", 0.4)
    else if densidad < 30.0 then Seguridad(Peligroso, "#f97316", 0.5)
    else Seguridad(MuyPeligroso, "#ef4444", 0.6)
  }

  /** The fill colours the disabled layer removes from the map. */
  const ColoresZona: seq<string> := ["#22c55e", "#84cc16", "#eab308", "#f97316", "#ef4444"]

  /** A rectangle is removed by the disabled layer exactly when its fill
      colour is one of the zone colours. */
  predicate SeRetira(color: string)
  {
    color in ColoresZona
  }

  /** Over non-negative densities a larger density never gives a safer
      level. */
  lemma SeveridadMonotona(d1: real, d2: real)
    requires 0.0 <= d1 <= d2
    ensures Gravedad(ClasificarSeguridad(d1).nivel) <= Gravedad(ClasificarSeguridad(d2).nivel)
  {
  }

  /** A negative density (which the layer never computes) falls through
      the zero test into the second level. */
  lemma DensidadNegativa(d: real)
    requires d < 0.0
    ensures ClasificarSeguridad(d).nivel == Seguro
  {
  }

  /** The colour identifies the level: two densities get the same colour
      exactly when they get the same level. */
  lemma ColorIdentificaNivel(d1: real, d2: real)
    ensures ClasificarSeguridad(d1).color == ClasificarSeguridad(d2).color <==>
              ClasificarSeguridad(d1).nivel == ClasificarSeguridad(d2).nivel
  {
  }

  /** Every colour of the removal list is the colour of some level, so the
      list is exactly the set of colours the layer paints with; no
      background cell colour is among them. */
  lemma ColoresZonaExactos()
    ensures |ColoresZona| == 5
    ensures forall i, j :: 0 <= i < j < |ColoresZona| ==> ColoresZona[i] != ColoresZona[j]
    ensures ClasificarSeguridad(0.0).color == ColoresZona[0]
    ensures ClasificarSeguridad(1.0).color == ColoresZona[1]
    ensures ClasificarSeguridad(5.0).color == ColoresZona[2]
    ensures ClasificarSeguridad(15.0).color == ColoresZona[3]
    ensures ClasificarSeguridad(30.0).color == ColoresZona[4]
    ensures !SeRetira("#e5e7eb")
  {
  }

  /** The cell of a crime. */
  function ClaveCelda(g: real): (key: Delito -> Celda)
    requires g > 0.0
    ensures forall d :: key(d) == CeldaDelDelito(d, g)
  {
    (d: Delito) => CeldaDelDelito(d, g)
  }

  predicate DentroDeCaja(d: Delito)
  {
    EnCdmx(d.lat, d.lng)
  }

  /** The crimes the counting loop processes: those inside the box, in
      order. */
  function EnCaja(ds: seq<Delito>): (r: seq<Delito>)
    ensures IsSubseq(r, ds)
    ensures forall i :: 0 <= i < |r| ==> EnCdmx(r[i].lat, r[i].lng)
    ensures forall i :: 0 <= i < |ds| && EnCdmx(ds[i].lat, ds[i].lng) ==> ds[i] in r
  {
    Filter(DentroDeCaja, ds)
  }

  /** The map from cell to crime count, as first-seen-ordered buckets. */
  function Celdas(ds: seq<Delito>, g: real): seq<Bucket<Celda, Delito>>
    requires g > 0.0
  {
    GroupBy(ClaveCelda(g), EnCaja(ds))
  }

  /** The count the zone loop reads for a cell: the bucket's size, or 0
      when the cell has no bucket. */
  function Conteo(gs: seq<Bucket<Celda, Delito>>, c: Celda): nat
  {
    var i := IndexOfKey(gs, c);
    if 0 <= i then |gs[i].items| else 0
  }

  /** The count of a cell is the number of in-box crimes whose floor cell
      it is. */
  lemma ConteoEsCuenta(ds: seq<Delito>, g: real, c: Celda)
    requires g > 0.0
    ensures Conteo(Celdas(ds, g), c) == |Having(ClaveCelda(g), c, EnCaja(ds))|
  {
    var key := ClaveCelda(g);
    var s := EnCaja(ds);
    var gs := Celdas(ds, g);
    if IndexOfKey(gs, c) < 0 {
      forall j | 0 <= j < |s|
        ensures key(s[j]) != c
      {
        assert 0 <= IndexOfKey(gs, key(s[j]));
      }
      HavingNone(key, c, s);
    }
  }

  /** A cell reads 0 exactly when no crime of the box falls in it. */
  lemma ConteoCero(ds: seq<Delito>, g: real, c: Celda)
    requires g > 0.0
    ensures Conteo(Celdas(ds, g), c) == 0 <==>
              forall d :: d in ds && EnCdmx(d.lat, d.lng) ==> CeldaDelDelito(d, g) != c
  {
    var key := ClaveCelda(g);
    var s := EnCaja(ds);
    var gs := Celdas(ds, g);
    var i := IndexOfKey(gs, c);
    if i < 0 {
      forall d | d in ds && EnCdmx(d.lat, d.lng)
        ensures CeldaDelDelito(d, g) != c
      {
        var j :| 0 <= j < |s| && s[j] == d;
        assert 0 <= IndexOfKey(gs, key(s[j]));
      }
    } else {
      var x := gs[i].items[0];
      assert x in s && key(x) == c;
    }
  }

  /** Every in-box crime is counted once: the counts of the cells add up to
      the number of crimes inside the box, and no cell holds a count of 0. */
  lemma CuentasSuman(ds: seq<Delito>, g: real)
    requires g > 0.0
    ensures TotalSize(Celdas(ds, g)) == |EnCaja(ds)|
    ensures forall i :: 0 <= i < |Celdas(ds, g)| ==> |Celdas(ds, g)[i].items| > 0
    ensures DistinctKeys(Celdas(ds, g))
  {
  }

  /** Area of a cell in km²: 111 km per degree of latitude, and
      `111·cos(lat)` per degree of longitude at the cell's southern edge.
      The cosine is a parameter. */
  function AreaKm2(c: Celda, g: real, coseno: real -> real): real
  {
    (g * 111.0) * (g * 111.0 * coseno(c.0 as real * g))
  }

  /** Crimes per km², or 0 when the area is not positive. */
  function Densidad(n: nat, area: real): (d: real)
    ensures d >= 0.0
    ensures d == 0.0 <==> n == 0 || area <= 0.0
    ensures area > 0.0 ==> d * area == n as real
  {
    if area > 0.0 then n as real / area else 0.0
  }

  /** One emitted rectangle. */
  datatype Zona = Zona(celda: Celda, delitos: nat, densidad: real, seguridad: Seguridad)

  /** The zone's density is its count per km² of `area`, or 0 when the
      area is not positive. */
  predicate DensidadExacta(z: Zona, area: real)
  {
    && (area > 0.0 ==> z.densidad * area == z.delitos as real)
    && (area <= 0.0 ==> z.densidad == 0.0)
  }

  /** The zone of one cell: its count, its density in crimes per km² (0
      for a cell whose area is not positive) and the level of that
      density. */
  function ZonaDe(gs: seq<Bucket<Celda, Delito>>, c: Celda, g: real, coseno: real -> real): (z: Zona)
    ensures z.celda == c && z.delitos == Conteo(gs, c)
    ensures DensidadExacta(z, AreaKm2(c, g, coseno))
    ensures z.seguridad == ClasificarSeguridad(z.densidad)
    ensures z.seguridad.nivel == MuySeguro <==> z.delitos == 0 || AreaKm2(c, g, coseno) <= 0.0
  {
    var n := Conteo(gs, c);
    var d := Densidad(n, AreaKm2(c, g, coseno));
    Zona(c, n, d, ClasificarSeguridad(d))
  }

  /** The cells the layer paints: the swept cells whose centre the city
      boundary contains, in sweep order. */
  function CeldasDentro(contiene: ((real, real)) -> bool, g: real): (cs: seq<Celda>)
    requires g > 0.0
    ensures forall c :: c in cs <==> c in CeldasDelBarrido(g, g) && contiene(Centro(c, g))
  {
    Filter((c: Celda) => contiene(Centro(c, g)), CeldasDelBarrido(g, g))
  }

  /** The rectangles of the layer. Nothing is painted when the layer is
      disabled, when there are no crimes, or when the boundary could not be
      built; otherwise every swept cell inside the boundary gets one zone
      (a cell without crimes included, with count 0). */
  function ZonasSeguridad(ds: seq<Delito>, habilitado: bool, limite: Limite, g: real, coseno: real -> real)
    : (zs: seq<Zona>)
    requires g > 0.0
    ensures !habilitado || |ds| == 0 || limite.SinLimite? ==> zs == []
    ensures limite.Poligono? ==>
              forall i :: 0 <= i < |zs| ==>
                zs[i].celda in CeldasDelBarrido(g, g) && limite.contiene(Centro(zs[i].celda, g))
    ensures forall i :: 0 <= i < |zs| ==> zs[i].delitos == Conteo(Celdas(ds, g), zs[i].celda)
    ensures forall i :: 0 <= i < |zs| ==>
              DensidadExacta(zs[i], AreaKm2(zs[i].celda, g, coseno))
              && zs[i].seguridad == ClasificarSeguridad(zs[i].densidad)
  {
    if !habilitado || |ds| == 0 then []
    else
      match limite
      case SinLimite => []
      case Poligono(contiene) =>
        ZonasDe(Celdas(ds, g), CeldasDentro(contiene, g), g, coseno)
  }

  /** The zones of a list of cells, in the same order. */
  function ZonasDe(gs: seq<Bucket<Celda, Delito>>, cs: seq<Celda>, g: real, coseno: real -> real)
    : (zs: seq<Zona>)
    ensures |zs| == |cs|
    ensures forall i :: 0 <= i < |zs| ==> zs[i] == ZonaDe(gs, cs[i], g, coseno)
  {
    seq(|cs|, i requires 0 <= i < |cs| => ZonaDe(gs, cs[i], g, coseno))
  }

  /** When the layer paints, every swept cell inside the boundary is
      painted. */
  lemma ZonasCompletas(ds: seq<Delito>, limite: Limite, g: real, coseno: real -> real, c: Celda)
    requires g > 0.0 && |ds| > 0 && limite.Poligono?
    requires c in CeldasDelBarrido(g, g) && limite.contiene(Centro(c, g))
    ensures exists i :: 0 <= i < |ZonasSeguridad(ds, true, limite, g, coseno)| &&
              ZonasSeguridad(ds, true, limite, g, coseno)[i].celda == c
  {
    var cs := CeldasDentro(limite.contiene, g);
    var i :| 0 <= i < |cs| && cs[i] == c;
    assert ZonasSeguridad(ds, true, limite, g, coseno)[i].celda == c;
  }

  /** A painted cell is at the most-safe level exactly when no crime of the
      box falls in it (given a positive area). */
  lemma SinDelitosMuySeguro(ds: seq<Delito>, limite: Limite, g: real, coseno: real -> real, i: nat)
    requires g > 0.0
    requires i < |ZonasSeguridad(ds, true, limite, g, coseno)|
    requires AreaKm2(ZonasSeguridad(ds, true, limite, g, coseno)[i].celda, g, coseno) > 0.0
    ensures var z := ZonasSeguridad(ds, true, limite, g, coseno)[i];
      z.seguridad.nivel == MuySeguro <==>
        forall d :: d in ds && EnCdmx(d.lat, d.lng) ==> CeldaDelDelito(d, g) != z.celda
  {
    var z := ZonasSeguridad(ds, true, limite, g, coseno)[i];
    ConteoCero(ds, g, z.celda);
  }
}
