/** The record shapes shared by the web client (`src/types/map.ts`). */
module Types {
  import opened Options

  datatype TipoDelito = Homicidio | Asalto | Robo

  /** A JavaScript `Date` built from a date string: a millisecond time value,
      or the invalid date whose time value is NaN. */
  datatype Instante = Valido(ms: int) | Invalido

  /** One official crime record. `fecha` is the record's date string as
      `new Date(fecha)` reads it; `lat`/`lng` are `coordenadas`. */
  datatype Delito = Delito(
    id: string,
    tipo: TipoDelito,
    fecha: Instante,
    hora: Option<string>,
    lat: real,
    lng: real,
    alcaldia: Option<string>,
    colonia: Option<string>,
    delito: string,
    categoria: Option<string>,
    esGrave: bool)

  datatype TipoReporte = DeDelito(delito: TipoDelito) | Acoso | Otro

  /** A citizen report as kept in the browser's store. */
  datatype ReporteCiudadano = ReporteCiudadano(
    id: string,
    tipo: TipoReporte,
    lat: real,
    lng: real,
    fecha: string,
    descripcion: Option<string>,
    foto: Option<string>,
    verificado: bool)

  /** The map filters. An absent or empty date string is `None`; a present
      one is the `Date` it parses to. */
  datatype FiltrosMapa = FiltrosMapa(
    tiposDelito: seq<TipoDelito>,
    mostrarAcoso: bool,
    mostrarOtro: bool,
    mostrarCalor: bool,
    mostrarBuffers: bool,
    mostrarReportes: bool,
    alcaldia: Option<string>,
    fechaInicio: Option<Instante>,
    fechaFin: Option<Instante>,
    radio: Option<real>)
}
