/** The citizen-report store: a list of reports kept as JSON text under one
    key of the browser's key-value storage. */
module Reports {
  import opened Options
  import opened Seqs
  import opened Types

  /** The storage key of the report list. */
  const ClaveAlmacen: string := "zonasegura-reportes"

  /** What the text under a key parses to. */
  datatype Guardado =
    | Vacio                                   // the empty string
    | Corrupto                                // text `JSON.parse` rejects
    | NoLista                                 // valid JSON that is not an array (`null`, an object, …)
    | Lista(reportes: seq<ReporteCiudadano>)  // a JSON array of reports

  /** The key-value storage; an absent key is what `getItem` reports as
      `null`. */
  type Almacen = map<string, Guardado>

  /** Pushing onto, or filtering, a parsed value that is not an array
      raises a `TypeError`. */
  datatype Falla = NoEsLista

  /** The two stores agree on every key other than the report key. */
  ghost predicate IgualFuera(a: Almacen, b: Almacen)
  {
    forall k :: k != ClaveAlmacen ==> (k in a <==> k in b) && (k in a ==> a[k] == b[k])
  }

  /** `obtenerReportes()`: an absent key, an empty string and unparseable
      text all read as the empty list; a parsed non-array is handed back
      as is, which the model reports as `Err`. */
  function Obtener(a: Almacen): (r: Result<seq<ReporteCiudadano>, Falla>)
    ensures r.Err? <==> ClaveAlmacen in a && a[ClaveAlmacen] == NoLista
    ensures ClaveAlmacen !in a ==> r == Ok([])
    ensures ClaveAlmacen in a && (a[ClaveAlmacen] == Vacio || a[ClaveAlmacen] == Corrupto) ==> r == Ok([])
    ensures ClaveAlmacen in a && a[ClaveAlmacen].Lista? ==> r == Ok(a[ClaveAlmacen].reportes)
  {
    if ClaveAlmacen !in a then Ok([])
    else match a[ClaveAlmacen]
      case Vacio => Ok([])
      case Corrupto => Ok([])
      case NoLista => Err(NoEsLista)
      case Lista(rs) => Ok(rs)
  }

  /** `guardarReporte(r)`: reads the list, appends `r` and writes the list
      back. */
  function Guardar(a: Almacen, r: ReporteCiudadano): (a': Result<Almacen, Falla>)
    ensures a'.Err? <==> Obtener(a).Err?
    ensures a'.Ok? ==> Obtener(a'.value) == Ok(Obtener(a).value + [r])
    ensures a'.Ok? ==> IgualFuera(a'.value, a)
  {
    match Obtener(a)
    case Err(e) => Err(e)
    case Ok(rs) => Ok(a[ClaveAlmacen := Lista(rs + [r])])
  }

  /** The filter of the deletion: a report is kept unless it has the id. */
  function Conserva(id: string): (p: ReporteCiudadano -> bool)
    ensures forall x :: p(x) <==> x.id != id
  {
    (x: ReporteCiudadano) => x.id != id
  }

  /** The list `eliminarReporte` writes back: the reports without the id,
      every copy of every other report kept, in their order. */
  function SinReportes(rs: seq<ReporteCiudadano>, id: string): (r: seq<ReporteCiudadano>)
    ensures IsSubseq(r, rs)
    ensures SinId(r, id)
    ensures forall i :: 0 <= i < |rs| && rs[i].id != id ==> rs[i] in r
    ensures forall x :: multiset(r)[x] == if x.id != id then multiset(rs)[x] else 0
  {
    var p := Conserva(id);
    forall x
      ensures multiset(Filter(p, rs))[x] == if x.id != id then multiset(rs)[x] else 0
    {
      FilterCuenta(p, rs, x);
    }
    Filter(p, rs)
  }

  /** `eliminarReporte(id)`: writes back the list without the reports with
      that id. */
  function Eliminar(a: Almacen, id: string): (a': Result<Almacen, Falla>)
    ensures a'.Err? <==> Obtener(a).Err?
    ensures a'.Ok? ==> Obtener(a'.value).Ok?
    ensures a'.Ok? ==> IsSubseq(Obtener(a'.value).value, Obtener(a).value)
    ensures a'.Ok? ==> SinId(Obtener(a'.value).value, id)
    ensures a'.Ok? ==> forall i :: 0 <= i < |Obtener(a).value| && Obtener(a).value[i].id != id ==>
              Obtener(a).value[i] in Obtener(a'.value).value
    ensures a'.Ok? ==>
              forall x :: multiset(Obtener(a'.value).value)[x] == if x.id != id then multiset(Obtener(a).value)[x] else 0
    ensures a'.Ok? ==> IgualFuera(a'.value, a)
  {
    match Obtener(a)
    case Err(e) => Err(e)
    case Ok(rs) => Ok(a[ClaveAlmacen := Lista(SinReportes(rs, id))])
  }

  /** `limpiarReportes()`: removes the key. */
  function Limpiar(a: Almacen): (a': Almacen)
    ensures Obtener(a') == Ok([])
    ensures ClaveAlmacen !in a'
    ensures IgualFuera(a', a)
  {
    a - {ClaveAlmacen}
  }

  /** No stored report carries the id. */
  predicate SinId(rs: seq<ReporteCiudadano>, id: string)
  {
    forall i :: 0 <= i < |rs| ==> rs[i].id != id
  }

  /** Deleting an id no report carries leaves the list as it was. */
  lemma EliminarAusente(a: Almacen, id: string)
    requires Obtener(a).Ok? && SinId(Obtener(a).value, id)
    ensures Eliminar(a, id).Ok? && Obtener(Eliminar(a, id).value) == Obtener(a)
  {
    FilterKeepsAll(Conserva(id), Obtener(a).value);
  }

  /** Deleting twice is deleting once. */
  lemma EliminarIdempotente(a: Almacen, id: string)
    requires Eliminar(a, id).Ok?
    ensures Eliminar(Eliminar(a, id).value, id).Ok?
    ensures Obtener(Eliminar(Eliminar(a, id).value, id).value) == Obtener(Eliminar(a, id).value)
  {
    var rs := Obtener(Eliminar(a, id).value).value;
    assert SinId(rs, id);
    EliminarAusente(Eliminar(a, id).value, id);
  }

  /** Saving a report with a fresh id and then deleting that id gives back
      the list from before. */
  lemma GuardarEliminar(a: Almacen, r: ReporteCiudadano)
    requires Obtener(a).Ok? && SinId(Obtener(a).value, r.id)
    ensures Guardar(a, r).Ok? && Eliminar(Guardar(a, r).value, r.id).Ok?
    ensures Obtener(Eliminar(Guardar(a, r).value, r.id).value) == Obtener(a)
  {
    var rs := Obtener(a).value;
    var p := Conserva(r.id);
    var a1 := Guardar(a, r).value;
    assert Obtener(a1).value == rs + [r];
    assert Obtener(Eliminar(a1, r.id).value).value == Filter(p, rs + [r]);
    FilterAppend(p, rs, [r]);
    FilterKeepsAll(p, rs);
    assert Filter(p, [r]) == [] by {
      assert !p(r);
    }
    assert Filter(p, rs + [r]) == rs + [];
    assert rs + [] == rs;
  }

  /** After clearing, saving gives a list of just that report. */
  lemma LimpiarGuardar(a: Almacen, r: ReporteCiudadano)
    ensures Guardar(Limpiar(a), r).Ok?
    ensures Obtener(Guardar(Limpiar(a), r).value) == Ok([r])
  {
    assert [] + [r] == [r];
  }
}
