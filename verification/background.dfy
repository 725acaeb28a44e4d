/** The background layer: grey rectangles over the swept cells of the city
    that hold no crime. The sweep steps two cells at a time. */
module Background {
  import opened Seqs
  import opened Types
  import opened Grid

  /** The cells that hold at least one crime inside the box. */
  function Ocupadas(ds: seq<Delito>, g: real): (occ: set<Celda>)
    requires g > 0.0
    ensures forall c :: c in occ <==> exists d :: d in ds && EnCdmx(d.lat, d.lng) && CeldaDelDelito(d, g) == c
  {
    set d | d in ds && EnCdmx(d.lat, d.lng) :: CeldaDelDelito(d, g)
  }

  /** A grey rectangle goes on a visited cell when no crime occupies it and
      its centre lies inside the city. */
  predicate Vacia(occ: set<Celda>, contiene: ((real, real)) -> bool, g: real, c: Celda)
  {
    c !in occ && contiene(Centro(c, g))
  }

  /** The grey cells, in sweep order. Nothing is drawn when the layer is
      disabled or the boundary could not be built; an empty crime list
      does not stop the layer. */
  function CeldasDeFondo(ds: seq<Delito>, habilitado: bool, limite: Limite, g: real): (cs: seq<Celda>)
    requires g > 0.0
    ensures !habilitado || limite.SinLimite? ==> cs == []
    ensures forall i :: 0 <= i < |cs| ==> cs[i] in CeldasDelBarrido(g, 2.0 * g)
    ensures IsSubseq(cs, CeldasDelBarrido(g, 2.0 * g))
    ensures forall i :: 0 <= i < |cs| ==> cs[i] !in Ocupadas(ds, g)
    ensures limite.Poligono? ==> forall i :: 0 <= i < |cs| ==> limite.contiene(Centro(cs[i], g))
  {
    if !habilitado then []
    else
      match limite
      case SinLimite => []
      case Poligono(contiene) =>
        var occ := Ocupadas(ds, g);
        Filter((c: Celda) => Vacia(occ, contiene, g, c), CeldasDelBarrido(g, 2.0 * g))
  }

  /** A grey cell never holds a crime of the box. */
  lemma FondoSinDelitos(ds: seq<Delito>, limite: Limite, g: real, d: Delito)
    requires g > 0.0
    requires d in ds && EnCdmx(d.lat, d.lng)
    ensures CeldaDelDelito(d, g) !in CeldasDeFondo(ds, true, limite, g)
  {
    assert CeldaDelDelito(d, g) in Ocupadas(ds, g);
  }

  /** Every visited empty cell inside the boundary is drawn, so a visited
      cell is grey exactly when it is empty and inside. */
  lemma FondoCompleto(ds: seq<Delito>, limite: Limite, g: real, c: Celda)
    requires g > 0.0 && limite.Poligono?
    requires c in CeldasDelBarrido(g, 2.0 * g)
    ensures c in CeldasDeFondo(ds, true, limite, g) <==> Vacia(Ocupadas(ds, g), limite.contiene, g, c)
  {
  }

  /** With the default cell and the exact-arithmetic sweep, the grey cells
      are cells of the box with even strips only. */
  lemma FondoPares(ds: seq<Delito>, limite: Limite, c: Celda)
    requires c in CeldasDeFondo(ds, true, limite, TamanoPorDefecto)
    ensures 1900 <= c.0 < 1970 && -9940 <= c.1 < -9890 && c.0 % 2 == 0 && c.1 % 2 == 0
  {
    var g := TamanoPorDefecto;
    assert c in CeldasDelBarrido(g, 2.0 * g) by {
      var cs := CeldasDeFondo(ds, true, limite, g);
      var i :| 0 <= i < |cs| && cs[i] == c;
    }
    RejillaDeFondo(c);
  }
}
