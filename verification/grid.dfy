/** The square grid the two map layers lay over Mexico City: the city's
    bounding box, floor-keyed cells, the loop that sweeps the box, and the
    city boundary that decides which cells are painted. */
module Grid {
  import opened Seqs
  import opened Types

  /** The approximate bounds of the city, in degrees. */
  const MinLat: real := 19.0
  const MaxLat: real := 19.7
  const MinLng: real := -99.4
  const MaxLng: real := -98.9

  /** The default cell side of both layers (about 1 km). */
  const TamanoPorDefecto: real := 0.01

  /** A crime is processed unless one coordinate falls outside the box. */
  predicate EnCdmx(lat: real, lng: real)
  {
    !(lat < MinLat || lat > MaxLat || lng < MinLng || lng > MaxLng)
  }

  /** The bounds test keeps exactly the box with its edges included. */
  lemma EnCdmxInclusivo(lat: real, lng: real)
    ensures EnCdmx(lat, lng) <==> MinLat <= lat <= MaxLat && MinLng <= lng <= MaxLng
  {
  }

  /** A cell: `(Math.floor(lat / g), Math.floor(lng / g))`; the source keys
      it by the corner `(floor(lat / g) * g, floor(lng / g) * g)`, which is
      determined by these two integers. */
  type Celda = (int, int)

  lemma MulMenorIgual(a: real, b: real, g: real)
    requires a <= b && g > 0.0
    ensures a * g <= b * g
  {
  }

  lemma MulMenor(a: real, b: real, g: real)
    requires a < b && g > 0.0
    ensures a * g < b * g
  {
  }

  lemma PisoCotaInferior(x: real, g: real)
    requires g > 0.0
    ensures (x / g).Floor as real * g <= x
  {
    var q := x / g;
    assert q * g == x;
    MulMenorIgual(q.Floor as real, q, g);
  }

  lemma PisoCotaSuperior(x: real, g: real)
    requires g > 0.0
    ensures x < ((x / g).Floor + 1) as real * g
  {
    var q := x / g;
    assert q * g == x;
    MulMenor(q, (q.Floor + 1) as real, g);
  }

  /** `Math.floor(x / g)`. */
  function Franja(x: real, g: real): int
    requires g > 0.0
  {
    (x / g).Floor
  }

  /** `x` lies in the strip `[k·g, (k+1)·g)` of its index. */
  lemma FranjaCota(x: real, g: real)
    requires g > 0.0
    ensures Franja(x, g) as real * g <= x < (Franja(x, g) + 1) as real * g
  {
    PisoCotaInferior(x, g);
    PisoCotaSuperior(x, g);
  }

  /** No other strip holds `x`. */
  lemma EnFranja(x: real, g: real, k: int)
    requires g > 0.0 && k as real * g <= x < (k + 1) as real * g
    ensures Franja(x, g) == k
  {
    CocienteAlMenos(x, g, k as real);
    CocienteMenor(x, g, (k + 1) as real);
    FranjaUnica((x / g).Floor, k, x / g);
  }

  /** Dividing `c·g <= x` by a positive `g`. */
  lemma CocienteAlMenos(x: real, g: real, c: real)
    requires g > 0.0 && c * g <= x
    ensures c <= x / g
  {
    var q := x / g;
    assert (q - c) * g == x - c * g;
  }

  /** Dividing `x < c·g` by a positive `g`. */
  lemma CocienteMenor(x: real, g: real, c: real)
    requires g > 0.0 && x < c * g
    ensures x / g < c
  {
    var q := x / g;
    assert (c - q) * g == c * g - x;
  }

  /** Unit strips do not overlap: a value lies in at most one `[a, a + 1)`. */
  lemma FranjaUnica(a: int, b: int, q: real)
    requires a as real <= q < (a + 1) as real
    requires b as real <= q < (b + 1) as real
    ensures a == b
  {
  }

  function CeldaDe(lat: real, lng: real, g: real): Celda
    requires g > 0.0
  {
    (Franja(lat, g), Franja(lng, g))
  }

  /** Two points share a cell exactly when the second lies in the first's
      `g × g` square. */
  lemma MismaCelda(lat1: real, lng1: real, lat2: real, lng2: real, g: real)
    requires g > 0.0
    ensures CeldaDe(lat1, lng1, g) == CeldaDe(lat2, lng2, g) <==>
              && Franja(lat1, g) as real * g <= lat2 < (Franja(lat1, g) + 1) as real * g
              && Franja(lng1, g) as real * g <= lng2 < (Franja(lng1, g) + 1) as real * g
  {
    FranjaCota(lat2, g);
    FranjaCota(lng2, g);
    var a, b := Franja(lat1, g), Franja(lng1, g);
    if a as real * g <= lat2 < (a + 1) as real * g {
      EnFranja(lat2, g, a);
    }
    if b as real * g <= lng2 < (b + 1) as real * g {
      EnFranja(lng2, g, b);
    }
  }

  function CeldaDelDelito(d: Delito, g: real): Celda
    requires g > 0.0
  {
    CeldaDe(d.lat, d.lng, g)
  }

  /** The cell's centre as the GeoJSON point `[lng, lat]` handed to the
      containment test. */
  function Centro(c: Celda, g: real): (real, real)
  {
    (c.1 as real * g + g / 2.0, c.0 as real * g + g / 2.0)
  }

  /** The city boundary: absent when the file lists no polygon (or the
      union of its polygons has no geometry), else the containment test of
      a `[lng, lat]` point in the union of the borough polygons. */
  datatype Limite = SinLimite | Poligono(contiene: ((real, real)) -> bool)

  lemma TechoCotaInferior(x: real, p: real)
    requires p > 0.0
    ensures x <= (-((-(x / p)).Floor)) as real * p
  {
    var q := x / p;
    assert q * p == x;
    MulMenorIgual(q, (-((-q).Floor)) as real, p);
  }

  lemma TechoCotaSuperior(x: real, p: real)
    requires p > 0.0
    ensures (-((-(x / p)).Floor) - 1) as real * p < x
  {
    var q := x / p;
    assert q * p == x;
    var c := (-q).Floor;
    assert c as real <= -q < c as real + 1.0;
    assert (-c - 1) as real < q;
    MulMenor((-c - 1) as real, q, p);
    assert (-c - 1) as real * p < x;
    assert -((-(x / p)).Floor) - 1 == -c - 1;
  }

  /** Number of passes of `for (x = desde; x < hasta; x += paso)`. */
  function Pasos(desde: real, hasta: real, paso: real): (n: nat)
    requires paso > 0.0
    ensures desde + n as real * paso >= hasta
    ensures n > 0 ==> desde + (n - 1) as real * paso < hasta
  {
    if desde < hasta then
      TechoCotaInferior(hasta - desde, paso);
      TechoCotaSuperior(hasta - desde, paso);
      -((-((hasta - desde) / paso)).Floor)
    else 0
  }

  /** A pass before the last one lies below the bound as well. */
  lemma PasoBajoTope(desde: real, hasta: real, paso: real, n: int, k: int)
    requires paso > 0.0 && 0 <= k < n
    requires desde + (n - 1) as real * paso < hasta
    ensures desde + k as real * paso < hasta
  {
    MulMenorIgual(k as real, (n - 1) as real, paso);
  }

  /** The values the loop variable takes: `desde + k·paso` for each pass,
      each below `hasta`, and the next one would not be. The sum is exact;
      the source accumulates `x += paso` in doubles. */
  function Barrido(desde: real, hasta: real, paso: real): (xs: seq<real>)
    requires paso > 0.0
    ensures forall k :: 0 <= k < |xs| ==> xs[k] == desde + k as real * paso && xs[k] < hasta
    ensures desde + |xs| as real * paso >= hasta
  {
    var n := Pasos(desde, hasta, paso);
    var xs := seq(n, k requires 0 <= k < n => desde + k as real * paso);
    assert forall k :: 0 <= k < n ==> xs[k] < hasta by {
      forall k | 0 <= k < n
        ensures xs[k] < hasta
      {
        assert xs[k] == desde + k as real * paso;
        PasoBajoTope(desde, hasta, paso, n, k);
      }
    }
    xs
  }

  /** The strip indices of a list of coordinates. */
  function Franjas(xs: seq<real>, g: real): (ks: seq<int>)
    requires g > 0.0
    ensures |ks| == |xs|
    ensures forall i :: 0 <= i < |xs| ==> ks[i] == Franja(xs[i], g)
  {
    seq(|xs|, i requires 0 <= i < |xs| => Franja(xs[i], g))
  }

  /** The pairs of the nested loops, row by row: `(a, b)` for each `a` in
      `as_` and, inside, each `b` in `bs`. */
  function Producto(as_: seq<int>, bs: seq<int>): (r: seq<Celda>)
    ensures forall c :: c in r <==> c.0 in as_ && c.1 in bs
    decreases |as_|
  {
    if |as_| == 0 then []
    else
      var fila := seq(|bs|, j requires 0 <= j < |bs| => (as_[0], bs[j]));
      var resto := Producto(as_[1..], bs);
      assert forall c :: c in fila <==> c.0 == as_[0] && c.1 in bs by {
        forall c: Celda | c.0 == as_[0] && c.1 in bs
          ensures c in fila
        {
          var j :| 0 <= j < |bs| && bs[j] == c.1;
          assert fila[j] == c;
        }
      }
      assert forall a :: a in as_ <==> a == as_[0] || a in as_[1..] by {
        assert as_ == [as_[0]] + as_[1..];
      }
      fila + resto
  }

  /** The cells the nested sweep of the box visits, in visiting order: a
      cell is visited exactly when its latitude strip is the strip of some
      swept latitude and its longitude strip the strip of some swept
      longitude. */
  function CeldasDelBarrido(g: real, paso: real): (cs: seq<Celda>)
    requires g > 0.0 && paso > 0.0
    ensures forall c :: c in cs <==>
              c.0 in Franjas(Barrido(MinLat, MaxLat, paso), g) && c.1 in Franjas(Barrido(MinLng, MaxLng, paso), g)
  {
    Producto(Franjas(Barrido(MinLat, MaxLat, paso), g), Franjas(Barrido(MinLng, MaxLng, paso), g))
  }

  /** With 0.01° cells swept one cell at a time from strip `a` up to
      strip `b`, the swept strips are exactly `a … b - 1`. */
  lemma {:induction false} FranjasPasoSimple(a: int, b: int, x: int)
    requires a < b
    ensures x in Franjas(Barrido(a as real * 0.01, b as real * 0.01, 0.01), 0.01) <==> a <= x < b
  {
    var xs := Barrido(a as real * 0.01, b as real * 0.01, 0.01);
    var fs := Franjas(xs, 0.01);
    assert |xs| == b - a by {
      assert |xs| == 0 || xs[|xs| - 1] < b as real * 0.01;
    }
    forall k | 0 <= k < |xs|
      ensures fs[k] == a + k
    {
      EnFranja(xs[k], 0.01, a + k);
    }
    if a <= x < b {
      assert fs[x - a] == x;
    }
  }

  /** Swept two cells at a time in exact arithmetic, only every other
      strip is visited: `a, a + 2, …` below `b`. */
  lemma {:induction false} FranjasPasoDoble(a: int, b: int, x: int)
    requires a < b
    ensures x in Franjas(Barrido(a as real * 0.01, b as real * 0.01, 0.02), 0.01) <==>
              a <= x < b && (x - a) % 2 == 0
  {
    var xs := Barrido(a as real * 0.01, b as real * 0.01, 0.02);
    var fs := Franjas(xs, 0.01);
    forall k | 0 <= k < |xs|
      ensures fs[k] == a + 2 * k
    {
      EnFranja(xs[k], 0.01, a + 2 * k);
    }
    if a <= x < b && (x - a) % 2 == 0 {
      var k := (x - a) / 2;
      assert a + 2 * k == x;
      assert k < |xs| by {
        assert a as real * 0.01 + |xs| as real * 0.02 >= b as real * 0.01;
      }
      assert fs[k] == x;
    }
  }

  /** The box in strips of 0.01°: latitudes 1900 … 1969, longitudes
      -9940 … -9891. */
  lemma CajaEnFranjas()
    ensures MinLat == 1900 as real * 0.01 && MaxLat == 1970 as real * 0.01
    ensures MinLng == -9940 as real * 0.01 && MaxLng == -9890 as real * 0.01
  {
  }

  /** The full sweep with the default cell visits exactly the cells of the
      box's strips, the northern row 1970 and the eastern column -9890 not
      among them. */
  lemma RejillaCompleta(c: Celda)
    ensures c in CeldasDelBarrido(TamanoPorDefecto, TamanoPorDefecto) <==>
              1900 <= c.0 < 1970 && -9940 <= c.1 < -9890
  {
    CajaEnFranjas();
    FranjasPasoSimple(1900, 1970, c.0);
    FranjasPasoSimple(-9940, -9890, c.1);
  }

  /** In exact arithmetic the sweep with a double step visits one cell in
      four: those whose strips are both even. */
  lemma RejillaDeFondo(c: Celda)
    ensures c in CeldasDelBarrido(TamanoPorDefecto, 2.0 * TamanoPorDefecto) <==>
              1900 <= c.0 < 1970 && -9940 <= c.1 < -9890 && c.0 % 2 == 0 && c.1 % 2 == 0
  {
    CajaEnFranjas();
    FranjasPasoDoble(1900, 1970, c.0);
    FranjasPasoDoble(-9940, -9890, c.1);
    Paridad(c.0, 1900);
    Paridad(c.1, -9940);
  }

  lemma Paridad(x: int, a: int)
    requires a % 2 == 0
    ensures (x - a) % 2 == 0 <==> x % 2 == 0
  {
  }

  /** A crime on the northern edge of the box passes the bounds test, but
      with the default cell the sweep never visits its cell. */
  lemma BordeNorteNoVisitado(lng: real)
    ensures MinLng <= lng <= MaxLng ==> EnCdmx(MaxLat, lng)
    ensures CeldaDe(MaxLat, lng, TamanoPorDefecto) !in CeldasDelBarrido(TamanoPorDefecto, TamanoPorDefecto)
  {
    EnFranja(MaxLat, TamanoPorDefecto, 1970);
    RejillaCompleta(CeldaDe(MaxLat, lng, TamanoPorDefecto));
  }
}
