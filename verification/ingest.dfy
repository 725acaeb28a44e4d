/** The offline conversion of the prosecutor's CSV into the crime GeoJSON
    (`scripts/csv_to_geojson.py`): coordinate validation, classification
    into robbery, assault or homicide, the seriousness flag, and the
    per-row acceptance with its counters. */
module Ingest {
  import opened Options
  import opened Text
  import opened IsoDate
  import opened Types

  /** Python's `float(s)` on a non-empty stripped string: `None` when it
      raises `ValueError` or yields a value that is not finite (such a value
      fails every range test below just as a failed parse does). The
      parser is a parameter. */
  type Parser = string -> Option<real>

  /** `float(s) if s else 0`. */
  function Coordenada(s: string, parse: Parser): Option<real>
  {
    if s == "" then Some(0.0) else parse(s)
  }

  /** `es_coordenada_valida(lon, lat)`: both values parse, neither is 0,
      and the point lies strictly inside the longitude range (-100, -98)
      and the latitude range (19, 20). A parse failure gives `false`. */
  predicate EsCoordenadaValida(lon: string, lat: string, parse: Parser)
  {
    match (Coordenada(lon, parse), Coordenada(lat, parse))
    case (Some(x), Some(y)) => x != 0.0 && y != 0.0 && -100.0 < x < -98.0 && 19.0 < y < 20.0
    case _ => false
  }

  /** The validation holds exactly for two non-empty strings that parse to
      a point strictly inside the range; an empty string reads as 0 and is
      rejected. */
  lemma CoordenadaValidaSiYSoloSi(lon: string, lat: string, parse: Parser)
    ensures EsCoordenadaValida(lon, lat, parse) <==>
              && lon != "" && lat != ""
              && parse(lon).Some? && parse(lat).Some?
              && -100.0 < parse(lon).value < -98.0
              && 19.0 < parse(lat).value < 20.0
  {
  }

  /** `clasificar_delito`: on the upper-cased text, a homicide that is not
      `CULPOSO` first, then a robbery with violence (an assault), then any
      robbery; `None` for empty text and for everything else. */
  function ClasificarDelito(s: string): (r: Option<TipoDelito>)
    ensures s == "" ==> r == None
    ensures r == Some(Homicidio) <==>
              s != "" && Contains(ToUpper(s), "HOMICIDIO") && !Contains(ToUpper(s), "CULPOSO")
    ensures r == Some(Asalto) <==>
              && s != "" && !(Contains(ToUpper(s), "HOMICIDIO") && !Contains(ToUpper(s), "CULPOSO"))
              && Contains(ToUpper(s), "ROBO") && Contains(ToUpper(s), "VIOLENCIA")
    ensures r == Some(Robo) <==>
              && s != "" && !(Contains(ToUpper(s), "HOMICIDIO") && !Contains(ToUpper(s), "CULPOSO"))
              && Contains(ToUpper(s), "ROBO") && !Contains(ToUpper(s), "VIOLENCIA")
    ensures r == None <==>
              s == "" || (!Contains(ToUpper(s), "ROBO") &&
                          !(Contains(ToUpper(s), "HOMICIDIO") && !Contains(ToUpper(s), "CULPOSO")))
  {
    if s == "" then None
    else
      var u := ToUpper(s);
      if Contains(u, "HOMICIDIO") && !Contains(u, "CULPOSO") then Some(Homicidio)
      else if Contains(u, "ROBO") && Contains(u, "VIOLENCIA") then Some(Asalto)
      else if Contains(u, "ROBO") then Some(Robo)
      else None
  }

  /** The words that make a crime serious unless it is `CULPOSO`. */
  const Graves: seq<string> := ["HOMICIDIO", "FEMINICIDIO", "VIOLACION", "SECUESTRO"]

  /** The `for grave in graves` loop: true at the first word found while
      `CULPOSO` is absent. */
  function AlgunGrave(u: string, graves: seq<string>): (b: bool)
    ensures b <==> exists i :: 0 <= i < |graves| && Contains(u, graves[i]) && !Contains(u, "CULPOSO")
  {
    if |graves| == 0 then false
    else if Contains(u, graves[0]) && !Contains(u, "CULPOSO") then true
    else
      var b := AlgunGrave(u, graves[1..]);
      assert forall i :: 1 <= i < |graves| ==> graves[i] == graves[1..][i - 1];
      b
  }

  /** `es_delito_grave`: one of the serious words without `CULPOSO`, or a
      robbery with violence; empty text is not serious. */
  function EsDelitoGrave(s: string): (b: bool)
    ensures b <==>
              s != "" &&
              ((!Contains(ToUpper(s), "CULPOSO") &&
                exists i :: 0 <= i < |Graves| && Contains(ToUpper(s), Graves[i]))
               || (Contains(ToUpper(s), "ROBO") && Contains(ToUpper(s), "VIOLENCIA")))
  {
    if s == "" then false
    else
      var u := ToUpper(s);
      AlgunGrave(u, Graves) || (Contains(u, "ROBO") && Contains(u, "VIOLENCIA"))
  }

  /** A homicide or an assault is always serious; a plain robbery is
      serious only through one of the serious words. */
  lemma ClasificadoGrave(s: string)
    ensures ClasificarDelito(s) == Some(Homicidio) || ClasificarDelito(s) == Some(Asalto) ==> EsDelitoGrave(s)
    ensures ClasificarDelito(s) == Some(Robo) ==>
              (EsDelitoGrave(s) <==>
                 !Contains(ToUpper(s), "CULPOSO") &&
                 exists i :: 1 <= i < |Graves| && Contains(ToUpper(s), Graves[i]))
  {
    if ClasificarDelito(s) == Some(Homicidio) {
      assert Contains(ToUpper(s), Graves[0]);
    }
  }

  /** A CSV row as `csv.DictReader` yields it: a column missing from the
      header is absent from the map; a column the row is too short to fill
      maps to `None`. */
  type Fila = map<string, Option<string>>

  /** `.strip()` on `None` raises `AttributeError`, which nothing in the
      loop catches: the whole conversion stops. */
  datatype Falla = CampoFaltante(campo: string)

  /** `row.get(campo, '').strip()`. */
  function Campo(fila: Fila, campo: string): (r: Result<string, Falla>)
    ensures r.Err? <==> campo in fila && fila[campo].None?
    ensures campo !in fila ==> r == Ok("")
    ensures r.Err? ==> r.error == CampoFaltante(campo)
  {
    if campo !in fila then Ok("")
    else match fila[campo]
      case None => Err(CampoFaltante(campo))
      case Some(v) => Ok(Strip(v))
  }

  /** One GeoJSON feature. The geometry is `[lon, lat]`. */
  datatype Feature = Feature(
    coordenadas: (real, real),
    fecha: string,
    delito: string,
    categoria: string,
    alcaldia: string,
    colonia: string,
    tipo: TipoDelito,
    esGrave: bool,
    hora: string,
    anio: int,
    mes: int)

  /** What became of a row that raised nothing. */
  datatype Destino = SinCoordenadas | Descartada | Aceptada(feature: Feature)

  /** The date test: present, not `NA`, parsed, and not before the minimum
      year. */
  function FechaAceptada(fechaStr: string, anioMinimo: int): (r: Option<Fecha>)
    ensures r.Some? <==>
              fechaStr != "" && fechaStr != "NA" && Strptime(fechaStr).Some? &&
              Strptime(fechaStr).value.anio >= anioMinimo
    ensures r.Some? ==> r == Strptime(fechaStr)
  {
    if fechaStr == "" || fechaStr == "NA" then None
    else match Strptime(fechaStr)
      case None => None
      case Some(f) => if f.anio < anioMinimo then None else Some(f)
  }

  /** The feature built for an accepted row whose remaining fields have
      been read. */
  function Construir(lon: real, lat: real, fechaStr: string, f: Fecha, delito: string, tipo: TipoDelito,
                     categoria: string, alcaldia: string, colonia: string, hora: string): (ft: Feature)
    ensures ft.coordenadas == (lon, lat) && ft.anio == f.anio && ft.mes == f.mes
    ensures ft.esGrave == EsDelitoGrave(delito)
  {
    Feature((lon, lat), fechaStr, delito, categoria, alcaldia, colonia, tipo, EsDelitoGrave(delito), hora,
            f.anio, f.mes)
  }

  /** One pass of the row loop: the fields are read in the order the
      source reads them, and a row stops at the first test it fails. */
  function ProcesarFila(fila: Fila, anioMinimo: int, parse: Parser): (r: Result<Destino, Falla>)
  {
    match (Campo(fila, "longitud"), Campo(fila, "latitud"))
    case (Err(e), _) => Err(e)
    case (Ok(_), Err(e)) => Err(e)
    case (Ok(lon), Ok(lat)) =>
      if !EsCoordenadaValida(lon, lat, parse) then Ok(SinCoordenadas)
      else ConCoordenadas(fila, lon, lat, anioMinimo, parse)
  }

  /** The rest of the pass for a row with valid coordinates: the date, the
      classification, then the remaining fields. */
  function ConCoordenadas(fila: Fila, lon: string, lat: string, anioMinimo: int, parse: Parser)
    : (r: Result<Destino, Falla>)
    requires EsCoordenadaValida(lon, lat, parse)
    ensures r != Ok(SinCoordenadas)
  {
    match Campo(fila, "FechaHecho")
    case Err(e) => Err(e)
    case Ok(fechaStr) =>
      match FechaAceptada(fechaStr, anioMinimo)
      case None => Ok(Descartada)
      case Some(f) =>
        match Campo(fila, "delito")
        case Err(e) => Err(e)
        case Ok(delito) =>
          match ClasificarDelito(delito)
          case None => Ok(Descartada)
          case Some(tipo) =>
            LeerResto(fila, parse(lon).value, parse(lat).value, fechaStr, f, delito, tipo)
  }

  /** The fields read only for an accepted row. */
  function LeerResto(fila: Fila, lon: real, lat: real, fechaStr: string, f: Fecha, delito: string, tipo: TipoDelito)
    : (r: Result<Destino, Falla>)
    ensures r.Ok? <==>
              Campo(fila, "categoria_delito").Ok? && Campo(fila, "AlcaldiaHechos").Ok? &&
              Campo(fila, "colonia_datos").Ok? && Campo(fila, "HoraHecho").Ok?
    ensures r.Ok? ==>
              && r.value.Aceptada? && r.value.feature.coordenadas == (lon, lat)
              && r.value.feature.fecha == fechaStr && r.value.feature.delito == delito
              && r.value.feature.tipo == tipo && r.value.feature.anio == f.anio && r.value.feature.mes == f.mes
              && r.value.feature.esGrave == EsDelitoGrave(delito)
  {
    match (Campo(fila, "categoria_delito"), Campo(fila, "AlcaldiaHechos"),
           Campo(fila, "colonia_datos"), Campo(fila, "HoraHecho"))
    case (Err(e), _, _, _) => Err(e)
    case (Ok(_), Err(e), _, _) => Err(e)
    case (Ok(_), Ok(_), Err(e), _) => Err(e)
    case (Ok(_), Ok(_), Ok(_), Err(e)) => Err(e)
    case (Ok(categoria), Ok(alcaldia), Ok(colonia), Ok(hora)) =>
      Ok(Aceptada(Construir(lon, lat, fechaStr, f, delito, tipo, categoria, alcaldia, colonia, hora)))
  }

  /** A row is accepted exactly when none of the fields it reads is
      short, its coordinates are valid, its date passes and its text
      classifies. */
  lemma FilaAceptada(fila: Fila, anioMinimo: int, parse: Parser)
    ensures ProcesarFila(fila, anioMinimo, parse).Ok? && ProcesarFila(fila, anioMinimo, parse).value.Aceptada? <==>
              && Campo(fila, "longitud").Ok? && Campo(fila, "latitud").Ok?
              && EsCoordenadaValida(Campo(fila, "longitud").value, Campo(fila, "latitud").value, parse)
              && Campo(fila, "FechaHecho").Ok?
              && FechaAceptada(Campo(fila, "FechaHecho").value, anioMinimo).Some?
              && Campo(fila, "delito").Ok?
              && ClasificarDelito(Campo(fila, "delito").value).Some?
              && Campo(fila, "categoria_delito").Ok? && Campo(fila, "AlcaldiaHechos").Ok?
              && Campo(fila, "colonia_datos").Ok? && Campo(fila, "HoraHecho").Ok?
  {
  }

  /** A row counts towards the valid coordinates exactly when the
      validation accepts its two stripped fields. */
  lemma FilaSinCoordenadas(fila: Fila, anioMinimo: int, parse: Parser)
    ensures ProcesarFila(fila, anioMinimo, parse) == Ok(SinCoordenadas) <==>
              && Campo(fila, "longitud").Ok? && Campo(fila, "latitud").Ok?
              && !EsCoordenadaValida(Campo(fila, "longitud").value, Campo(fila, "latitud").value, parse)
  {
  }

  /** The feature of an accepted row carries the parsed `[lon, lat]`, the
      row's text with its class and seriousness, and the year and month of
      the parsed date. */
  lemma FeatureDeFila(fila: Fila, anioMinimo: int, parse: Parser)
    requires ProcesarFila(fila, anioMinimo, parse).Ok?
    requires ProcesarFila(fila, anioMinimo, parse).value.Aceptada?
    ensures Campo(fila, "longitud").Ok? && Campo(fila, "latitud").Ok?
    ensures Campo(fila, "FechaHecho").Ok? && Campo(fila, "delito").Ok?
    ensures Strptime(Campo(fila, "FechaHecho").value).Some?
    ensures var ft := ProcesarFila(fila, anioMinimo, parse).value.feature;
            var lon := Campo(fila, "longitud").value;
            var lat := Campo(fila, "latitud").value;
            var f := Strptime(Campo(fila, "FechaHecho").value).value;
            && parse(lon).Some? && parse(lat).Some?
            && ft.coordenadas == (parse(lon).value, parse(lat).value)
            && ft.fecha == Campo(fila, "FechaHecho").value
            && ft.delito == Campo(fila, "delito").value
            && Some(ft.tipo) == ClasificarDelito(ft.delito)
            && ft.esGrave == EsDelitoGrave(ft.delito)
            && ft.anio == f.anio && ft.mes == f.mes && ft.anio >= anioMinimo
  {
  }

  /** A feature as the conversion emits it. */
  predicate FeatureValida(ft: Feature, anioMinimo: int)
  {
    && -100.0 < ft.coordenadas.0 < -98.0
    && 19.0 < ft.coordenadas.1 < 20.0
    && anioMinimo <= ft.anio <= 9999
    && 1 <= ft.mes <= 12
    && Some(ft.tipo) == ClasificarDelito(ft.delito)
    && ft.esGrave == EsDelitoGrave(ft.delito)
  }

  lemma AceptadaValida(fila: Fila, anioMinimo: int, parse: Parser)
    requires ProcesarFila(fila, anioMinimo, parse).Ok?
    requires ProcesarFila(fila, anioMinimo, parse).value.Aceptada?
    ensures FeatureValida(ProcesarFila(fila, anioMinimo, parse).value.feature, anioMinimo)
  {
    FeatureDeFila(fila, anioMinimo, parse);
  }

  datatype Contador = Contador(total: nat, conCoordenadas: nat, filtrados: nat, robos: nat, asaltos: nat,
                               homicidios: nat)

  /** Number of features of one kind. */
  function CuentaTipo(fs: seq<Feature>, t: TipoDelito): (n: nat)
    ensures n <= |fs|
  {
    if |fs| == 0 then 0
    else CuentaTipo(fs[..|fs| - 1], t) + (if fs[|fs| - 1].tipo == t then 1 else 0)
  }

  /** Every kind is one of the three. */
  lemma {:induction false} CuentaTipoSuma(fs: seq<Feature>)
    ensures CuentaTipo(fs, Robo) + CuentaTipo(fs, Asalto) + CuentaTipo(fs, Homicidio) == |fs|
  {
    if |fs| > 0 {
      CuentaTipoSuma(fs[..|fs| - 1]);
    }
  }

  /** The counters agree with the features: the three kind counters add up
      to `filtrados`, which is the number of features, which is at most the
      rows with valid coordinates, which is at most the rows read. */
  predicate Consistente(fs: seq<Feature>, c: Contador)
  {
    && c.robos == CuentaTipo(fs, Robo)
    && c.asaltos == CuentaTipo(fs, Asalto)
    && c.homicidios == CuentaTipo(fs, Homicidio)
    && c.filtrados == c.robos + c.asaltos + c.homicidios == |fs|
    && |fs| <= c.conCoordenadas <= c.total
  }

  /** The counter and list updates of one row. */
  function Registrar(fs: seq<Feature>, c: Contador, d: Destino): (r: (seq<Feature>, Contador))
    requires Consistente(fs, c)
    ensures Consistente(r.0, r.1)
    ensures r.1.total == c.total + 1
    ensures r.0 == (if d.Aceptada? then fs + [d.feature] else fs)
    ensures r.1.conCoordenadas == c.conCoordenadas + (if d.SinCoordenadas? then 0 else 1)
  {
    match d
    case SinCoordenadas => (fs, c.(total := c.total + 1))
    case Descartada => (fs, c.(total := c.total + 1, conCoordenadas := c.conCoordenadas + 1))
    case Aceptada(ft) =>
      var fs' := fs + [ft];
      assert fs'[..|fs'| - 1] == fs;
      CuentaTipoSuma(fs);
      var c' := c.(total := c.total + 1, conCoordenadas := c.conCoordenadas + 1, filtrados := c.filtrados + 1);
      match ft.tipo
      case Robo => (fs', c'.(robos := c.robos + 1))
      case Asalto => (fs', c'.(asaltos := c.asaltos + 1))
      case Homicidio => (fs', c'.(homicidios := c.homicidios + 1))
  }

  /** What the loop does with each row. */
  type Paso = Fila -> Result<Destino, Falla>

  /** The row loop for any per-row step, `Err` at the first row that
      raises. */
  function Recorrer(filas: seq<Fila>, paso: Paso): (r: Result<(seq<Feature>, Contador), Falla>)
    ensures r.Ok? ==> Consistente(r.value.0, r.value.1) && r.value.1.total == |filas|
    decreases |filas|
  {
    if |filas| == 0 then Ok(([], Contador(0, 0, 0, 0, 0, 0)))
    else
      var n := |filas| - 1;
      match Recorrer(filas[..n], paso)
      case Err(e) => Err(e)
      case Ok((fs, c)) =>
        match paso(filas[n])
        case Err(e) => Err(e)
        case Ok(d) => Ok(Registrar(fs, c, d))
  }

  /** The loop completes exactly when no row raises. */
  lemma RecorrerCompleto(filas: seq<Fila>, paso: Paso)
    ensures Recorrer(filas, paso).Ok? <==> forall i :: 0 <= i < |filas| ==> paso(filas[i]).Ok?
  {
    if Recorrer(filas, paso).Ok? {
      forall i | 0 <= i < |filas|
        ensures paso(filas[i]).Ok?
      {
        RecorrerFilaOk(filas, paso, i);
      }
    }
    if forall i :: 0 <= i < |filas| ==> paso(filas[i]).Ok? {
      RecorrerSinFallas(filas, paso);
    }
  }

  /** In a completed loop no row raised. */
  lemma {:induction false} RecorrerFilaOk(filas: seq<Fila>, paso: Paso, i: nat)
    requires Recorrer(filas, paso).Ok? && i < |filas|
    ensures paso(filas[i]).Ok?
    decreases |filas|
  {
    var n := |filas| - 1;
    RecorrerUltima(filas, paso);
    if i < n {
      RecorrerFilaOk(filas[..n], paso, i);
      assert filas[..n][i] == filas[i];
    }
  }

  /** A loop in which no row raises completes. */
  lemma {:induction false} RecorrerSinFallas(filas: seq<Fila>, paso: Paso)
    requires forall i :: 0 <= i < |filas| ==> paso(filas[i]).Ok?
    ensures Recorrer(filas, paso).Ok?
    decreases |filas|
  {
    if |filas| > 0 {
      var n := |filas| - 1;
      assert forall i :: 0 <= i < n ==> filas[..n][i] == filas[i];
      RecorrerSinFallas(filas[..n], paso);
      assert paso(filas[n]).Ok?;
    }
  }

  /** A completed loop completed on the rows before the last one, and the
      last row added its feature when it was accepted. */
  lemma RecorrerUltima(filas: seq<Fila>, paso: Paso)
    requires |filas| > 0 && Recorrer(filas, paso).Ok?
    ensures Recorrer(filas[..|filas| - 1], paso).Ok? && paso(filas[|filas| - 1]).Ok?
    ensures var fs0 := Recorrer(filas[..|filas| - 1], paso).value.0;
            var d := paso(filas[|filas| - 1]).value;
            Recorrer(filas, paso).value.0 == if d.Aceptada? then fs0 + [d.feature] else fs0
  {
  }

  /** Each feature comes from an accepted row. */
  lemma RecorrerDeAceptadas(filas: seq<Fila>, paso: Paso)
    requires Recorrer(filas, paso).Ok?
    ensures var fs := Recorrer(filas, paso).value.0;
            forall k :: 0 <= k < |fs| ==> exists i :: 0 <= i < |filas| && paso(filas[i]) == Ok(Aceptada(fs[k]))
  {
    var fs := Recorrer(filas, paso).value.0;
    forall k | 0 <= k < |fs|
      ensures exists i :: 0 <= i < |filas| && paso(filas[i]) == Ok(Aceptada(fs[k]))
    {
      var i := FilaDeFeature(filas, paso, k);
    }
  }

  /** The row the `k`-th feature came from. */
  lemma {:induction false} FilaDeFeature(filas: seq<Fila>, paso: Paso, k: nat) returns (i: nat)
    requires Recorrer(filas, paso).Ok? && k < |Recorrer(filas, paso).value.0|
    ensures i < |filas| && paso(filas[i]) == Ok(Aceptada(Recorrer(filas, paso).value.0[k]))
    decreases |filas|
  {
    var n := |filas| - 1;
    RecorrerUltima(filas, paso);
    var fs0 := Recorrer(filas[..n], paso).value.0;
    var fs := Recorrer(filas, paso).value.0;
    if k < |fs0| {
      assert fs[k] == fs0[k];
      i := FilaDeFeature(filas[..n], paso, k);
      assert filas[..n][i] == filas[i];
    } else {
      i := n;
    }
  }

  /** Each accepted row's feature is among the features. */
  lemma RecorrerTodas(filas: seq<Fila>, paso: Paso)
    requires Recorrer(filas, paso).Ok?
    ensures var fs := Recorrer(filas, paso).value.0;
            forall i :: 0 <= i < |filas| && paso(filas[i]).Ok? && paso(filas[i]).value.Aceptada? ==>
              paso(filas[i]).value.feature in fs
  {
    forall i | 0 <= i < |filas| && paso(filas[i]).Ok? && paso(filas[i]).value.Aceptada?
      ensures paso(filas[i]).value.feature in Recorrer(filas, paso).value.0
    {
      var k := FeatureRegistrada(filas, paso, i);
    }
  }

  /** The position of an accepted row's feature among the features. */
  lemma {:induction false} FeatureRegistrada(filas: seq<Fila>, paso: Paso, i: nat) returns (k: nat)
    requires Recorrer(filas, paso).Ok? && i < |filas|
    requires paso(filas[i]).Ok? && paso(filas[i]).value.Aceptada?
    ensures k < |Recorrer(filas, paso).value.0|
    ensures Recorrer(filas, paso).value.0[k] == paso(filas[i]).value.feature
    decreases |filas|
  {
    var n := |filas| - 1;
    RecorrerUltima(filas, paso);
    var fs0 := Recorrer(filas[..n], paso).value.0;
    var fs := Recorrer(filas, paso).value.0;
    if i < n {
      assert filas[..n][i] == filas[i];
      k := FeatureRegistrada(filas[..n], paso, i);
      assert fs[k] == fs0[k];
    } else {
      k := |fs0|;
    }
  }

  /** `procesar_csv`'s loop over the rows, `Err` when a row raises. */
  function ProcesarCsv(filas: seq<Fila>, anioMinimo: int, parse: Parser): (r: Result<(seq<Feature>, Contador), Falla>)
    ensures r.Ok? ==> Consistente(r.value.0, r.value.1) && r.value.1.total == |filas|
  {
    Recorrer(filas, (f: Fila) => ProcesarFila(f, anioMinimo, parse))
  }

  /** The conversion completes exactly when no row raises. */
  lemma ProcesarCsvCompleta(filas: seq<Fila>, anioMinimo: int, parse: Parser)
    ensures ProcesarCsv(filas, anioMinimo, parse).Ok? <==>
              forall i :: 0 <= i < |filas| ==> ProcesarFila(filas[i], anioMinimo, parse).Ok?
  {
    RecorrerCompleto(filas, (f: Fila) => ProcesarFila(f, anioMinimo, parse));
  }

  /** The features are exactly the features of the accepted rows. */
  lemma ProcesarCsvFeatures(filas: seq<Fila>, anioMinimo: int, parse: Parser)
    requires ProcesarCsv(filas, anioMinimo, parse).Ok?
    ensures var fs := ProcesarCsv(filas, anioMinimo, parse).value.0;
            forall k :: 0 <= k < |fs| ==>
              exists i :: 0 <= i < |filas| && ProcesarFila(filas[i], anioMinimo, parse) == Ok(Aceptada(fs[k]))
    ensures var fs := ProcesarCsv(filas, anioMinimo, parse).value.0;
            forall i :: 0 <= i < |filas| && ProcesarFila(filas[i], anioMinimo, parse).Ok? &&
                        ProcesarFila(filas[i], anioMinimo, parse).value.Aceptada? ==>
              ProcesarFila(filas[i], anioMinimo, parse).value.feature in fs
  {
    RecorrerDeAceptadas(filas, (f: Fila) => ProcesarFila(f, anioMinimo, parse));
    RecorrerTodas(filas, (f: Fila) => ProcesarFila(f, anioMinimo, parse));
  }

  /** Every emitted feature passes the validation. */
  lemma FeaturesValidas(filas: seq<Fila>, anioMinimo: int, parse: Parser)
    requires ProcesarCsv(filas, anioMinimo, parse).Ok?
    ensures forall k :: 0 <= k < |ProcesarCsv(filas, anioMinimo, parse).value.0| ==>
              FeatureValida(ProcesarCsv(filas, anioMinimo, parse).value.0[k], anioMinimo)
  {
    var fs := ProcesarCsv(filas, anioMinimo, parse).value.0;
    ProcesarCsvFeatures(filas, anioMinimo, parse);
    forall k | 0 <= k < |fs|
      ensures FeatureValida(fs[k], anioMinimo)
    {
      var i :| 0 <= i < |filas| && ProcesarFila(filas[i], anioMinimo, parse) == Ok(Aceptada(fs[k]));
      AceptadaValida(filas[i], anioMinimo, parse);
    }
  }
}
