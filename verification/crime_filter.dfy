/** `filtrarDelitos`: the crimes shown for the current map filters. */
module CrimeFilter {
  import opened Options
  import opened Seqs
  import opened Text
  import opened Types

  /** `new Date('2019-01-01')`, midnight UTC, in milliseconds. */
  const Inicio2019: int := 1546300800000

  /** JavaScript `<` on two dates: false as soon as either is invalid. */
  predicate Antes(a: Instante, b: Instante)
  {
    a.Valido? && b.Valido? && a.ms < b.ms
  }

  /** JavaScript truthiness of an optional string. */
  predicate Truthy(o: Option<string>)
  {
    o.Some? && o.value != ""
  }

  /** Start of the window: the filter's date, else 2019-01-01. */
  function FechaInicio(f: FiltrosMapa): Instante
  {
    if f.fechaInicio.Some? then f.fechaInicio.value else Valido(Inicio2019)
  }

  /** End of the window: the filter's date, else the current instant. */
  function FechaFin(f: FiltrosMapa, ahora: int): Instante
  {
    if f.fechaFin.Some? then f.fechaFin.value else Valido(ahora)
  }

  /** `alcaldia.toLowerCase().replace(/\s+/g, '-')`. */
  function NormalizarAlcaldia(a: string): (r: string)
    ensures forall i :: 0 <= i < |r| ==> !IsJsSpace(r[i]) && !IsLatinUpper(r[i])
  {
    DashRunsConserva(ToLower(a), c => !IsLatinUpper(c));
    DashRuns(ToLower(a))
  }

  /** The test a crime must pass to be shown. */
  predicate PasaFiltro(f: FiltrosMapa, ahora: int, d: Delito)
  {
    && d.tipo in f.tiposDelito
    && !Antes(d.fecha, FechaInicio(f))
    && !Antes(FechaFin(f, ahora), d.fecha)
    && (Truthy(f.alcaldia) && Truthy(d.alcaldia) ==>
          NormalizarAlcaldia(d.alcaldia.value) == ToLower(f.alcaldia.value))
  }

  function Criterio(f: FiltrosMapa, ahora: int): Delito -> bool
  {
    d => PasaFiltro(f, ahora, d)
  }

  /** The crimes passing the filters, in their original order: the type is
      selected, a valid date lies in the inclusive window, and when both the
      filter and the crime name a borough the normalised names agree. A
      crime that passes keeps all its repetitions, one that fails keeps
      none. */
  function FiltrarDelitos(delitos: seq<Delito>, f: FiltrosMapa, ahora: int): (r: seq<Delito>)
    ensures IsSubseq(r, delitos)
    ensures forall i :: 0 <= i < |delitos| ==> (delitos[i] in r <==> PasaFiltro(f, ahora, delitos[i]))
    ensures forall i :: 0 <= i < |r| ==> r[i].tipo in f.tiposDelito
    ensures forall i :: 0 <= i < |r| ==>
              r[i].fecha.Valido? && FechaInicio(f).Valido? ==> FechaInicio(f).ms <= r[i].fecha.ms
    ensures forall i :: 0 <= i < |r| ==>
              r[i].fecha.Valido? && FechaFin(f, ahora).Valido? ==> r[i].fecha.ms <= FechaFin(f, ahora).ms
    ensures forall i :: 0 <= i < |r| ==>
              Truthy(f.alcaldia) && Truthy(r[i].alcaldia) ==>
              NormalizarAlcaldia(r[i].alcaldia.value) == ToLower(f.alcaldia.value)
    ensures forall x :: multiset(r)[x] == if PasaFiltro(f, ahora, x) then multiset(delitos)[x] else 0
  {
    forall x
      ensures multiset(Filter(Criterio(f, ahora), delitos))[x] ==
                if PasaFiltro(f, ahora, x) then multiset(delitos)[x] else 0
    {
      FilterCuenta(Criterio(f, ahora), delitos, x);
    }
    Filter(Criterio(f, ahora), delitos)
  }

  /** A crime whose date does not parse is never dropped by the date test,
      and an unparsable filter date imposes no bound. */
  lemma FechaInvalidaNoSeDescarta(f: FiltrosMapa, ahora: int, d: Delito)
    requires d.fecha == Invalido || (FechaInicio(f) == Invalido && FechaFin(f, ahora) == Invalido)
    ensures PasaFiltro(f, ahora, d) <==>
              d.tipo in f.tiposDelito
              && (Truthy(f.alcaldia) && Truthy(d.alcaldia) ==>
                    NormalizarAlcaldia(d.alcaldia.value) == ToLower(f.alcaldia.value))
  {
  }

  /** With no date filters the window is [2019-01-01, now], both ends
      included. */
  lemma VentanaPorDefecto(f: FiltrosMapa, ahora: int, d: Delito)
    requires f.fechaInicio.None? && f.fechaFin.None? && d.fecha.Valido?
    requires d.tipo in f.tiposDelito && !Truthy(f.alcaldia)
    ensures PasaFiltro(f, ahora, d) <==> Inicio2019 <= d.fecha.ms <= ahora
  {
  }

  /** A two-word borough name matches the filter value that joins the
      lower-cased words with one dash, whatever whitespace separates them. */
  lemma {:induction false} NombreCompuesto(a: string, gap: string, b: string)
    requires forall i :: 0 <= i < |a| ==> !IsJsSpace(a[i])
    requires |gap| > 0 && forall i :: 0 <= i < |gap| ==> IsJsSpace(gap[i])
    requires |b| > 0 && forall i :: 0 <= i < |b| ==> !IsJsSpace(b[i])
    ensures NormalizarAlcaldia(a + gap + b) == ToLower(a) + "-" + ToLower(b)
  {
    var la, lg, lb := ToLower(a), ToLower(gap), ToLower(b);
    assert ToLower(a + gap + b) == la + lg + lb;
    DashRunsJoin(la, lg, lb);
    DashRunsSinEspacios(lb);
  }
}
