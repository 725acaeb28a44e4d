# Zonas seguras CDMX — a Dafny model of the aggregation core

The web client of *zonas-seguras-cdmx* draws crime data for Mexico City on
a map. This project models the parts of it that compute something, plus
the offline script that produces its data:

- **Crime filter** (`filtrarDelitos`): keeps the crimes whose type is
  selected, whose date lies in the inclusive window and whose borough
  name matches the filter. The window defaults to 2019-01-01 through now.
  A date that does not parse never excludes a crime. Borough names are
  compared after lower-casing, with every whitespace run turned into one
  dash.
- **Heat-map data** (`getHeatmapData`):
  - optional stride sampling above 10 000 crimes;
  - grouping into ~500 m cells keyed by `Math.round(coord / 0.005)`;
  - a per-cell rate in crimes per month over the whole period, weighted
    by 1.5 for a cell whose crimes fall on fewer than 30 distinct dates;
  - an optional "critical zones" cut at the top-quarter threshold;
  - a piecewise-linear rescaling into [0, 1] whose breakpoints are the
    10th … 99th percentiles of the rates.
- **Safety-zone layer**:
  - crimes inside the city's bounding box are counted per floor-keyed
    cell;
  - the box is swept cell by cell;
  - every swept cell whose centre lies inside the city boundary gets a
    density in crimes per km² (0 for a cell with no crimes) and a safety
    level with its colour and opacity.
- **Background layer**: the box is swept two cells at a time. Every
  visited cell that holds no crime and whose centre lies inside the city
  gets a grey rectangle.
- **CSV conversion** (`scripts/csv_to_geojson.py`):
  - coordinate validation;
  - classification into robbery, assault and homicide;
  - the seriousness flag;
  - `datetime.strptime(…, '%Y-%m-%d')`;
  - the row loop with its counters and its abort on a short row.
- **Citizen-report store** (`src/utils/reportes.ts`): a JSON list of
  reports kept under the key `zonasegura-reportes` of the browser's
  storage.

Modules, one file each:

| module | file | what it holds |
|---|---|---|
| `Options` | `options.dfy` | `Option`, `Result` |
| `Types` | `types.dfy` | the records of `src/types/map.ts` |
| `Seqs` | `seqs.dfy` | order-preserving filter, insertion sort, maxima |
| `Grouping` | `grouping.dfy` | grouping by key in first-occurrence order (a JavaScript `Map` filled by `forEach`) |
| `Text` | `text.dfy` | JavaScript `\s`, `toLowerCase`, `replace(/\s+/g, '-')`; Python `isspace`, `strip`, `upper`, `in` |
| `CrimeFilter` | `crime_filter.dfy` | `filtrarDelitos` |
| `Intensity` | `intensity.dfy` | the percentile rescaling |
| `Heatmap` | `heatmap.dfy` | `getHeatmapData` |
| `Grid` | `grid.dfy` | city box, floor-keyed cells, the sweep loops, the boundary test |
| `SafetyZones` | `safety_zones.dfy` | `clasificarSeguridad` and the safety-zone layer |
| `Background` | `background.dfy` | the background layer |
| `IsoDate` | `iso_date.dfy` | `strptime` with `%Y-%m-%d` |
| `Ingest` | `ingest.dfy` | `csv_to_geojson.py` |
| `Reports` | `reports.dfy` | `reportes.ts` |

Behaviour of the code worth noting:

- **Zero-width percentile band.** Each band's test requires its
  breakpoints to differ. An empty band is therefore skipped, and a rate
  falls through to the next band.
  For example, when all rates are equal and positive, every point gets
  0.1.
- **Distinct dates of a cell.** A cell's distinct dates are counted as
  distinct time values.
- **Background sweep.** The background layer steps two cells at a time,
  so it visits only part of the grid. Which strips it visits depends on
  double rounding (see `Grid.RejillaDeFondo` under "Left out").
- **Counting in the safety-zone layer.** Every crime inside the bounding
  box is counted, including crimes outside the boundary polygon; only the
  counts of painted cells are ever read.

## Model

| member | source | states |
|---|---|---|
| CrimeFilter.FiltrarDelitos | src/hooks/useDelitosData.ts:71-104 | the result keeps input order and drops elements only; an input crime is kept exactly when it passes the type, window and borough tests, with all its repetitions, and otherwise not at all; every kept crime has a selected type, a valid date inside the window bounds that are valid, and (when both names are present and non-empty) a normalised borough equal to the lower-cased filter |
| CrimeFilter.NormalizarAlcaldia | src/hooks/useDelitosData.ts:96 | the normalised name contains no whitespace and no Basic Latin or Latin-1 capital letter |
| CrimeFilter.NombreCompuesto | src/hooks/useDelitosData.ts:95-100 | a two-word borough name matches the filter that joins the lower-cased words with one dash, whatever whitespace separates them |
| CrimeFilter.FechaInvalidaNoSeDescarta | src/hooks/useDelitosData.ts:79-92 | an invalid crime date, or invalid window ends, never exclude a crime: only the type and borough tests remain |
| CrimeFilter.VentanaPorDefecto | src/hooks/useDelitosData.ts:82-92 | without date filters, a crime of a selected type with a valid date and no borough filter passes exactly when its time lies in [2019-01-01T00:00Z, now], both ends included |
| Text.ToLower | src/hooks/useDelitosData.ts:96-97 | same length; every Basic Latin or Latin-1 capital becomes the small letter 32 code points above it, every other character is kept, so no such capital is left and whitespace stays exactly where it was |
| Text.LowerChar | src/hooks/useDelitosData.ts:96-97 | one character: a Basic Latin or Latin-1 capital moves to its small letter, anything else stays; whitespace is kept |
| Text.ToLowerIdempotent | src/hooks/useDelitosData.ts:96-97 | lower-casing twice is lower-casing once |
| Text.DashRuns | src/hooks/useDelitosData.ts:96 | the result is no longer than the input and has no whitespace |
| Text.DashRunsSinEspacios | src/hooks/useDelitosData.ts:96 | a string without whitespace is left unchanged |
| Text.DashRunsConserva | src/hooks/useDelitosData.ts:96 | every character of the result is a dash or a character of the input |
| Text.DashRunsJoin | src/hooks/useDelitosData.ts:96 | a whitespace run between a word and a non-space rest collapses to exactly one dash |
| Text.SkipSpacesPrefix | src/hooks/useDelitosData.ts:96 | a whitespace run of any length is consumed up to the next non-space character |
| Text.Strip | scripts/csv_to_geojson.py:80-81 | the stripped text is no longer than the input and neither starts nor ends with whitespace |
| Text.StripQuitaExtremos | scripts/csv_to_geojson.py:80-81 | the stripped text is a contiguous middle of the input and everything removed before and after it is whitespace |
| Text.ToUpper | scripts/csv_to_geojson.py:24 | same length; every ASCII small letter becomes its capital 32 code points below, every other character is kept, so no ASCII small letter is left |
| Text.UpperChar | scripts/csv_to_geojson.py:24 | one character: an ASCII small letter moves to its capital, anything else stays |
| Text.ContainsAt | scripts/csv_to_geojson.py:27 | an occurrence of the word at any position makes the `in` test true |
| Text.ContainsWitness | scripts/csv_to_geojson.py:27 | conversely, when the `in` test is true the word occurs at some position |
| Seqs.Filter | src/hooks/useDelitosData.ts:72 | `Array.prototype.filter`: the result keeps order, every kept element meets the predicate, every element meeting it is kept |
| Seqs.FilterCuenta | src/utils/reportes.ts:22 | `filter` keeps every copy of an element that meets the predicate and none of one that does not |
| Seqs.FilterAppend | src/hooks/useDelitosData.ts:72 | filtering a concatenation is concatenating the filtered parts |
| Seqs.FilterLengthOfPermutation | src/hooks/useDelitosData.ts:222-225 | how many elements a filter keeps does not depend on their order |
| Seqs.FilterKeepsAtMostPrefix | src/hooks/useDelitosData.ts:222-225 | when no element from index k on meets the predicate, the filter keeps at most k elements |
| Seqs.Sort | src/hooks/useDelitosData.ts:232 | `sort((a, b) => a - b)` and `sort((a, b) => b - a)`: the result is sorted and a permutation of the input |
| Seqs.MaxFrom | src/hooks/useDelitosData.ts:178-208 | the running `Math.max` is at least the start and every element, and is the start or an element |
| Seqs.MinInt | src/hooks/useDelitosData.ts:116-121 | the first of the sorted times is an element and no larger than any element |
| Seqs.MaxInt | src/hooks/useDelitosData.ts:116-122 | the last of the sorted times is an element and no smaller than any element |
| Grouping.IndexOfKey | src/hooks/useDelitosData.ts:159-168 | `has`/`get` of the map: the position of the bucket with the key, or -1 exactly when no bucket has it |
| Grouping.GroupBy | src/hooks/useDelitosData.ts:151-174 | the buckets have distinct keys, each holds exactly the elements of its key in input order, none is empty, every element has a bucket, the sizes add up to the input length, and the buckets come in the order their keys first occur |
| Grouping.BucketsInFirstOccurrenceOrder | src/hooks/useDelitosData.ts:151-174 | each bucket starts with the first input element of its key, and an earlier bucket's key first occurs earlier in the input |
| Grouping.HavingStartsAtFirst | src/hooks/useDelitosData.ts:158-168 | the elements of a key, in input order, start with the first element carrying that key |
| Grouping.FirstWithKeySnoc | src/hooks/useDelitosData.ts:151-158 | appending an element keeps the first occurrence of a key already seen, and puts that of an unseen key at the new element when it carries it |
| Grouping.InExactlyOneBucket | src/hooks/useDelitosData.ts:159-169 | an element lies in a bucket exactly when the bucket's key is the element's key |
| Grouping.BucketsAtMostSize | src/hooks/useDelitosData.ts:133-174 | there are no more buckets than elements |
| Grouping.BucketKeyOfInput | src/hooks/useDelitosData.ts:159-166 | each bucket's key is the key of its first element, which is an input element |
| Heatmap.Redondear | src/hooks/useDelitosData.ts:155-156 | `Math.round` lands within half a unit of its argument, halves rounded up |
| Heatmap.RedondearArriba | src/hooks/useDelitosData.ts:125 | `Math.ceil` is the least integer not below its argument |
| Heatmap.CeldaRedondeada | src/hooks/useDelitosData.ts:153-157 | the cell's point is within half a cell of the crime on each axis |
| Heatmap.PosicionInyectiva | src/hooks/useDelitosData.ts:155-157 | distinct cells have distinct positions, so integer cell keys stand for the `toFixed(4)` string keys |
| Heatmap.Paso | src/hooks/useDelitosData.ts:146 | `Math.ceil(n / 10000)`: the least stride with stride·10000 ≥ n |
| Heatmap.Cada | src/hooks/useDelitosData.ts:147 | the stride filter keeps nothing of an empty input and keeps the first element of a non-empty one |
| Heatmap.CadaLongitud | src/hooks/useDelitosData.ts:147 | the stride filter keeps ⌈n / stride⌉ elements |
| Heatmap.CadaElemento | src/hooks/useDelitosData.ts:147 | the k-th kept element is the input element at index k·stride |
| Heatmap.CadaMultiplos | src/hooks/useDelitosData.ts:147 | every index that is a multiple of the stride is kept |
| Heatmap.Muestrear | src/hooks/useDelitosData.ts:141-149 | sampling changes nothing unless requested and above 10 000 crimes; otherwise it leaves at most 10 000, keeps the first crime, and keeps exactly the crimes at the multiples of the stride: the k-th kept crime is the one at k·stride, and ⌈n / stride⌉ are kept |
| Heatmap.Tiempos | src/hooks/useDelitosData.ts:116-118 | the valid times are exactly the time values of the crimes' valid dates |
| Heatmap.DiasTotales | src/hooks/useDelitosData.ts:125 | the day count is at least 1, covers the span and is the least whole number of days that does |
| Heatmap.DiasDelPeriodo | src/hooks/useDelitosData.ts:115-125 | the period covers every pair of valid dates and, when longer than a day, is attained by some pair |
| Heatmap.MesesTotales | src/hooks/useDelitosData.ts:126 | at least one month and at least the days divided by 30.44, and equal to one of the two: `Math.max(1, dias / 30.44)` |
| Heatmap.Tasa | src/hooks/useDelitosData.ts:181-206 | the rate times the months is the crime count, times 1.5 when the cell's crimes fall on fewer than 30 distinct dates; so it is positive for a non-empty cell, at least crimes per month and at most 1.5 per crime |
| Heatmap.Concentracion | src/hooks/useDelitosData.ts:188-206 | a cell with fewer than 30 distinct dates weighs exactly 1.5 times an equal cell with 30 or more |
| Heatmap.TresDiasSeguidos | src/hooks/useDelitosData.ts:125-206 | three crimes on three consecutive days: the period clamps to one month and the rate is 4.5 |
| Heatmap.PuntosDe | src/hooks/useDelitosData.ts:180-215 | one point per bucket, in bucket order |
| Heatmap.PuntosCalor | src/hooks/useDelitosData.ts:151-215 | at most one point per crime; every rate positive; the points sit exactly at the cell positions of the crimes: each at the position of some crime's cell, every crime's cell with a point, no two points at the same position |
| Heatmap.PuntosCalorCubre | src/hooks/useDelitosData.ts:151-169 | every crime's cell position carries a point |
| Heatmap.PuntosCalorPorCelda | src/hooks/useDelitosData.ts:180-214 | the point of a cell carries the cell's position and exactly the cell's rate (`Heatmap.Tasa` of its count and distinct dates), a positive value of at most 1.5 per crime in the cell |
| Heatmap.PuntosCalorDistintos | src/hooks/useDelitosData.ts:155-166 | no two cells produce points at the same position |
| Heatmap.CentroDeCelda | src/hooks/useDelitosData.ts:155-166 | a cell's position is the rounded position of a crime in it |
| Heatmap.ZonasCriticas | src/hooks/useDelitosData.ts:220-227 | the critical points keep order; a point is kept exactly when its rate reaches the threshold `Heatmap.UmbralCritico`; at least ⌊n/4⌋ + 1 of n points survive; every dropped point has a smaller rate than every kept one |
| Heatmap.UmbralCritico | src/hooks/useDelitosData.ts:222-223 | the threshold is one of the rates, at least ⌊n/4⌋ + 1 rates reach it and at most ⌊n/4⌋ exceed it: it is the (⌊n/4⌋ + 1)-th largest rate |
| Heatmap.RangoOrdenado | src/hooks/useDelitosData.ts:222-223 | in a descending list the element at ⌊n/4⌋ is reached by at least ⌊n/4⌋ + 1 elements and exceeded by at most ⌊n/4⌋ |
| Heatmap.FiltroValores | src/hooks/useDelitosData.ts:222-225 | filtering points by rate keeps as many as filtering the rates |
| Heatmap.PuntosDelPeriodo | src/hooks/useDelitosData.ts:115-215 | the rated cells of the (possibly sampled) crimes: no more than the crimes, at most 10 000 when sampling, each positive, at a crime's cell, no two at one position; without sampling (or with at most 10 000 crimes) every crime's cell has a point |
| Heatmap.Seleccion | src/hooks/useDelitosData.ts:217-227 | the selection is drawn from the points and is non-empty when they are; without the critical filter it is all the points |
| Heatmap.GetHeatmapData | src/hooks/useDelitosData.ts:106-287 | no points for no crimes, otherwise at least one; never more than the crimes, nor than 10 000 when sampling; each point at the rounded cell of some crime with an intensity in (0, 1]; without the critical filter the positions are distinct and, unless sampling thins the input, every crime's cell is on the map |
| Heatmap.CriticasPorUmbral | src/hooks/useDelitosData.ts:217-227 | with only critical zones asked for, a cell of the period is on the map exactly when its rate reaches the top-quarter threshold of all the period's rates |
| Heatmap.PosicionesVisibles | src/hooks/useDelitosData.ts:224-282 | for points at distinct positions, a point's position is on the rescaled selection exactly when the point was selected |
| Heatmap.MismasPosiciones | src/hooks/useDelitosData.ts:229-282 | rescaling keeps distinct positions distinct and keeps every crime's cell covered |
| Heatmap.Escalar | src/hooks/useDelitosData.ts:229-282 | rescaling the selection with the maximum rate of all the period's points keeps one point per selected point, each at its position, with an intensity in (0, 1] |
| Heatmap.EscalarMonotona | src/hooks/useDelitosData.ts:229-282 | the rescaled selection never gives a smaller rate a larger intensity |
| Heatmap.EscalarEnBandas | src/hooks/useDelitosData.ts:230-282 | each rescaled intensity lies in the output range of its rate's band, under the percentiles of the selected rates and the maximum rate of all the period's points |
| Heatmap.HeatmapEscala | src/hooks/useDelitosData.ts:178-286 | for some crimes the map is the critical-zone selection (or all points) of the period's points, rescaled against the maximum rate taken before the selection, and the selection is drawn from positive-rate points |
| Heatmap.HeatmapMonotona | src/hooks/useDelitosData.ts:218-286 | the map has one point per selected point, and a selected point with a rate no larger than another's never gets a larger intensity |
| Heatmap.HeatmapEnBandas | src/hooks/useDelitosData.ts:218-286 | each point of the map has an intensity within the output range of its rate's band, under the percentiles of the selected rates and the maximum rate of all the period's points |
| Heatmap.Dibujar | src/hooks/useDelitosData.ts:218-286 | from period points at distinct crime cells with positive rates, the drawn points are at most as many, at crime cells, with intensities in (0, 1]; without the critical filter they keep distinct positions and coverage |
| Heatmap.CentrosMuestra | src/hooks/useDelitosData.ts:143-149 | the cells of a sample are cells of the full input |
| Intensity.Valores | src/hooks/useDelitosData.ts:222 | the rates read off the points, position by position |
| Intensity.Clamp01 | src/hooks/useDelitosData.ts:280 | the clamp lands in [0, 1] and leaves values in [0, 1] unchanged |
| Intensity.LerpRange | src/hooks/useDelitosData.ts:252-269 | inside a band the interpolation lands in (floor, floor + width] |
| Intensity.LerpMono | src/hooks/useDelitosData.ts:252-269 | inside a band the interpolation does not decrease |
| Intensity.BandaElegida | src/hooks/useDelitosData.ts:249-278 | with ordered breakpoints the chain of tests applies the formula of the band the rate falls in |
| Intensity.IntensidadEnBanda | src/hooks/useDelitosData.ts:249-278 | each band's value lies within the band's output range, and is positive for a positive rate |
| Intensity.EnBandaMonotona | src/hooks/useDelitosData.ts:249-278 | within one band a larger rate never gets a smaller value |
| Intensity.IntensidadMonotona | src/hooks/useDelitosData.ts:245-281 | a larger rate never gets a smaller clamped intensity |
| Intensity.PercentilesOrdenados | src/hooks/useDelitosData.ts:232-239 | sorted positive rates give positive, ascending breakpoints |
| Intensity.PercentilesPositivos | src/hooks/useDelitosData.ts:232-239 | positive rates give positive, ascending breakpoints |
| Intensity.Normalizar | src/hooks/useDelitosData.ts:229-282 | same length, order and positions; every intensity in [0, 1] when the maximum rate is positive; nothing changes otherwise |
| Intensity.NormalizarBandas | src/hooks/useDelitosData.ts:230-282 | with the percentiles of the points' own rates, a rate at or below a positive 10th percentile gets `tasa / p10 · 0.1`, and with ordered percentiles every intensity lies in the output range of its rate's band |
| Intensity.ClampEnBanda | src/hooks/useDelitosData.ts:249-280 | with ordered breakpoints, the clamped intensity of any rate stays within its band's output range |
| Intensity.NormalizarPositivos | src/hooks/useDelitosData.ts:229-282 | positive rates get intensities in (0, 1] |
| Intensity.NormalizarMonotona | src/hooks/useDelitosData.ts:229-282 | rescaling keeps the order of the rates |
| Intensity.BandaBaja | src/hooks/useDelitosData.ts:249-251 | a rate at or below a positive 10th percentile gets `tasa / p10 · 0.1` |
| Grid.EnCdmxInclusivo | src/components/Map/SafetyZonesLayer.tsx:126-129 | the bounds test keeps exactly the box with its edges |
| Grid.FranjaCota | src/components/Map/SafetyZonesLayer.tsx:132-133 | a coordinate lies in the `[k·g, (k+1)·g)` strip of its floor index |
| Grid.EnFranja | src/components/Map/SafetyZonesLayer.tsx:132-133 | no other strip holds it |
| Grid.FranjaUnica | src/components/Map/SafetyZonesLayer.tsx:132-133 | unit strips of the quotient do not overlap: a value lies in at most one |
| Grid.CocienteAlMenos | src/components/Map/SafetyZonesLayer.tsx:132-133 | a value at or above `c · g` has quotient by `g` at least `c` |
| Grid.CocienteMenor | src/components/Map/SafetyZonesLayer.tsx:132-133 | a value below `c · g` has quotient by `g` below `c` |
| Grid.MismaCelda | src/components/Map/SafetyZonesLayer.tsx:132-134 | two points share a cell exactly when the second lies in the first one's square |
| Grid.Pasos | src/components/Map/SafetyZonesLayer.tsx:147-148 | the number of passes of the `for` loop: the last pass is below the bound and one more would not be |
| Grid.Barrido | src/components/Map/SafetyZonesLayer.tsx:147-148 | the loop variable takes `desde + k·paso`, each below the bound, until the next would reach it |
| Grid.Franjas | src/components/Map/SafetyZonesLayer.tsx:149-150 | the floor index of each swept coordinate |
| Grid.Producto | src/components/Map/SafetyZonesLayer.tsx:147-151 | the nested loops visit a pair exactly when each part is visited by its own loop |
| Grid.CeldasDelBarrido | src/components/Map/SafetyZonesLayer.tsx:145-151 | a cell is visited exactly when both its strips are strips of swept coordinates |
| Grid.FranjasPasoSimple | src/components/Map/SafetyZonesLayer.tsx:146-150 | swept one 0.01° cell at a time from strip a to strip b, the visited strips are exactly a … b-1 |
| Grid.FranjasPasoDoble | src/components/Map/CdmxBackgroundLayer.tsx:117-123 | in exact arithmetic, swept two cells at a time, the visited strips are a, a+2, … below b |
| Grid.CajaEnFranjas | src/components/Map/SafetyZonesLayer.tsx:110-115 | the box in 0.01° strips: latitudes 1900 … 1969, longitudes -9940 … -9891 |
| Grid.RejillaCompleta | src/components/Map/SafetyZonesLayer.tsx:145-151 | with the default cell the sweep visits exactly the cells of the box, not the northern row 1970 nor the eastern column -9890 |
| Grid.RejillaDeFondo | src/components/Map/CdmxBackgroundLayer.tsx:116-124 | in exact arithmetic the background sweep visits exactly the box's cells whose two strips are even, one cell in four |
| Grid.BordeNorteNoVisitado | src/components/Map/SafetyZonesLayer.tsx:126-151 | a crime on the box's northern edge, at any longitude inside the box, passes the bounds test, but the sweep never visits its cell |
| SafetyZones.ClasificarSeguridad | src/components/Map/SafetyZonesLayer.tsx:15-31 | exactly 0 is very safe, (−∞, 5) apart from 0 is safe, [5, 15) moderate, [15, 30) dangerous, [30, ∞) very dangerous; the colour is a zone colour; the opacity is in [0.4, 0.6] |
| SafetyZones.SeveridadMonotona | src/components/Map/SafetyZonesLayer.tsx:20-30 | over non-negative densities a larger density never gives a safer level |
| SafetyZones.DensidadNegativa | src/components/Map/SafetyZonesLayer.tsx:20-23 | a negative density falls through to "safe" |
| SafetyZones.ColorIdentificaNivel | src/components/Map/SafetyZonesLayer.tsx:15-31 | two densities get the same colour exactly when they get the same level |
| SafetyZones.ColoresZonaExactos | src/components/Map/SafetyZonesLayer.tsx:41-53 | the removal list is the five level colours, pairwise distinct, and does not hold the background grey |
| SafetyZones.ClaveCelda | src/components/Map/SafetyZonesLayer.tsx:131-134 | the counting key of a crime is its floor cell |
| SafetyZones.EnCaja | src/components/Map/SafetyZonesLayer.tsx:121-129 | the crimes counted are exactly those inside the box, in order |
| SafetyZones.ConteoEsCuenta | src/components/Map/SafetyZonesLayer.tsx:117-140 | a cell's count is the number of in-box crimes whose floor cell it is |
| SafetyZones.ConteoCero | src/components/Map/SafetyZonesLayer.tsx:161-162 | a cell reads 0 exactly when no in-box crime falls in it |
| SafetyZones.CuentasSuman | src/components/Map/SafetyZonesLayer.tsx:117-140 | the counts add up to the in-box crimes, none is 0, no cell is counted twice |
| SafetyZones.Densidad | src/components/Map/SafetyZonesLayer.tsx:164-167 | the density is non-negative, 0 exactly when the count is 0 or the area is not positive, and with a positive area it times the area is the count |
| SafetyZones.ZonaDe | src/components/Map/SafetyZonesLayer.tsx:161-169 | a zone carries its cell's count, a density that times the cell's area is that count (0 for no area), and the level of its density; it is very safe exactly when the count is 0 or the area not positive |
| SafetyZones.CeldasDentro | src/components/Map/SafetyZonesLayer.tsx:145-159 | a cell is painted exactly when the sweep visits it and the boundary contains its centre |
| SafetyZones.ZonasSeguridad | src/components/Map/SafetyZonesLayer.tsx:40-169 | nothing when disabled, without crimes or without a boundary; otherwise every zone is a visited cell with its centre inside and its true count, a density that times its cell's area is that count, and the level of that density |
| SafetyZones.ZonasCompletas | src/components/Map/SafetyZonesLayer.tsx:145-169 | every visited cell inside the boundary gets a zone, including cells without crimes |
| SafetyZones.SinDelitosMuySeguro | src/components/Map/SafetyZonesLayer.tsx:161-169 | a painted cell of positive area is very safe exactly when no in-box crime falls in it |
| Background.Ocupadas | src/components/Map/CdmxBackgroundLayer.tsx:89-107 | a cell is occupied exactly when some in-box crime's floor cell is that cell |
| Background.CeldasDeFondo | src/components/Map/CdmxBackgroundLayer.tsx:116-155 | nothing when disabled or without a boundary; otherwise the grey cells are visited cells, in sweep order, never occupied, with their centres inside the boundary |
| Background.FondoSinDelitos | src/components/Map/CdmxBackgroundLayer.tsx:126-127 | the cell of an in-box crime is never grey |
| Background.FondoCompleto | src/components/Map/CdmxBackgroundLayer.tsx:120-155 | a visited cell is grey exactly when it is unoccupied and its centre is inside |
| Background.FondoPares | src/components/Map/CdmxBackgroundLayer.tsx:116-124 | with the default cell and the exact-arithmetic sweep, every grey cell lies in the box and has two even strips |
| IsoDate.Strptime | scripts/csv_to_geojson.py:93-98 | a parsed date is a real day of years 1 … 9999 |
| IsoDate.StrptimeFormatear | scripts/csv_to_geojson.py:94 | every valid day written as `YYYY-MM-DD` parses back to itself |
| IsoDate.StrptimeAcepta | scripts/csv_to_geojson.py:94 | unpadded month and day, and a space before a one-digit day, are accepted |
| IsoDate.StrptimeRechaza | scripts/csv_to_geojson.py:94 | 29 February of a common year, months 0 and 13, year 0 and trailing characters are rejected |
| Ingest.CoordenadaValidaSiYSoloSi | scripts/csv_to_geojson.py:9-17 | valid exactly when both strings are non-empty, parse, and lie strictly inside (-100, -98) × (19, 20) |
| Ingest.ClasificarDelito | scripts/csv_to_geojson.py:19-38 | homicide exactly for HOMICIDIO without CULPOSO; assault exactly for ROBO with VIOLENCIA otherwise; robbery exactly for ROBO without VIOLENCIA otherwise; nothing for empty text and the rest |
| Ingest.AlgunGrave | scripts/csv_to_geojson.py:48-50 | the loop returns true exactly when some serious word occurs and CULPOSO does not |
| Ingest.EsDelitoGrave | scripts/csv_to_geojson.py:40-56 | serious exactly for non-empty text with a serious word and no CULPOSO, or with ROBO and VIOLENCIA |
| Ingest.ClasificadoGrave | scripts/csv_to_geojson.py:19-56 | homicides and assaults are always serious; a robbery is serious exactly through FEMINICIDIO, VIOLACION or SECUESTRO without CULPOSO |
| Ingest.Campo | scripts/csv_to_geojson.py:80-81 | a missing column reads as empty; a short row's column raises |
| Ingest.FechaAceptada | scripts/csv_to_geojson.py:89-98 | the date passes exactly when present, not `NA`, parsed and not before the minimum year |
| Ingest.Construir | scripts/csv_to_geojson.py:111-129 | the feature carries `[lon, lat]`, the seriousness of the text, and the year and month of the date |
| Ingest.ConCoordenadas | scripts/csv_to_geojson.py:86-131 | a row with valid coordinates is never recorded as lacking them |
| Ingest.LeerResto | scripts/csv_to_geojson.py:110-129 | the late fields raise exactly when one of them is short; otherwise the feature carries the row's data |
| Ingest.FilaAceptada | scripts/csv_to_geojson.py:76-131 | a row is accepted exactly when no field it reads is short, its coordinates are valid, its date passes and its text classifies |
| Ingest.FilaSinCoordenadas | scripts/csv_to_geojson.py:79-86 | a row is counted as lacking coordinates exactly when the validation rejects its two fields |
| Ingest.FeatureDeFila | scripts/csv_to_geojson.py:111-129 | an accepted row's feature carries the parsed point, the row's text with its class and seriousness, and the year and month of its date |
| Ingest.AceptadaValida | scripts/csv_to_geojson.py:58-131 | every emitted feature lies in the coordinate range, has a year from the minimum to 9999, a month 1 … 12, and a class and seriousness matching its text |
| Ingest.CuentaTipo | scripts/csv_to_geojson.py:107-108 | a kind counter never exceeds the features |
| Ingest.CuentaTipoSuma | scripts/csv_to_geojson.py:107-108 | the three kind counters add up to the features |
| Ingest.Registrar | scripts/csv_to_geojson.py:76-131 | one row adds 1 to the total, 1 to the valid-coordinate count unless rejected there, and appends its feature when accepted, keeping the counters consistent |
| Ingest.Recorrer | scripts/csv_to_geojson.py:76-131 | a completed loop has read every row and its counters agree with the features |
| Ingest.RecorrerCompleto | scripts/csv_to_geojson.py:76-131 | the loop completes exactly when no row raises |
| Ingest.RecorrerFilaOk | scripts/csv_to_geojson.py:76-131 | in a completed loop no row raised |
| Ingest.RecorrerSinFallas | scripts/csv_to_geojson.py:76-131 | a loop in which no row raises completes |
| Ingest.RecorrerUltima | scripts/csv_to_geojson.py:76-131 | the last row appends its feature to the features of the rows before it, and only when accepted |
| Ingest.RecorrerDeAceptadas | scripts/csv_to_geojson.py:76-131 | every feature comes from an accepted row |
| Ingest.RecorrerTodas | scripts/csv_to_geojson.py:76-131 | every accepted row's feature is among the features |
| Ingest.ProcesarCsv | scripts/csv_to_geojson.py:58-131 | a completed conversion has read every row and its counters agree with its features |
| Ingest.ProcesarCsvCompleta | scripts/csv_to_geojson.py:58-131 | the conversion completes exactly when no row raises |
| Ingest.ProcesarCsvFeatures | scripts/csv_to_geojson.py:58-131 | the features are exactly the features of the accepted rows |
| Ingest.FeaturesValidas | scripts/csv_to_geojson.py:58-131 | every emitted feature passes the validation |
| Reports.Obtener | src/utils/reportes.ts:11-19 | an absent key, an empty text and unparsable text read as the empty list; a stored list reads as itself; a parsed non-list is the only failure |
| Reports.Guardar | src/utils/reportes.ts:5-9 | saving appends the report to what reading gave, fails exactly when reading a non-list, and touches no other key |
| Reports.Conserva | src/utils/reportes.ts:22 | the deletion keeps a report exactly when its id differs |
| Reports.Eliminar | src/utils/reportes.ts:21-24 | the new list is a subsequence of the old one with no report of the id, holding every copy of every other report (same multiplicity), so it is exactly the old list without that id in the old order; no other key changes |
| Reports.SinReportes | src/utils/reportes.ts:22 | the list written back: a subsequence of the stored list without the id, holding every other report as many times as before |
| Reports.Limpiar | src/utils/reportes.ts:26-28 | after clearing the key is absent and reads as the empty list; no other key changes |
| Reports.EliminarAusente | src/utils/reportes.ts:21-24 | deleting an id no report carries leaves the list as it was |
| Reports.EliminarIdempotente | src/utils/reportes.ts:21-24 | deleting twice is deleting once |
| Reports.GuardarEliminar | src/utils/reportes.ts:5-24 | saving a report with a fresh id and then deleting that id gives back the list from before |
| Reports.LimpiarGuardar | src/utils/reportes.ts:5-28 | after clearing, saving gives a list of just that report |

## Left out

- Loading the crime file, React state, the Leaflet layers and tooltips,
  removing layers from the map, and console output. They draw or log and
  compute nothing the model could state.
- The GeoJSON boundary file, its fetch, and turf's union and
  point-in-polygon test. The boundary is a parameter: `Limite` is either
  absent (no polygon, no union geometry, failed fetch) or a containment
  predicate on `[lng, lat]` points.
- `Math.cos` and `Math.PI` in the cell area. The cosine is a parameter,
  and the area formula around it is kept.
- Python's `float()` is a parameter. It yields `None` where it raises or
  gives a non-finite value; such a value fails every range test, as a
  failed parse does.
- The CSV reader and the file output of `procesar_csv`. Rows are given as
  maps from column to optional text, and the progress prints are left
  out.
- `new Date(string)` parsing in the client. A crime's date and the filter
  dates are given as time values or the invalid date, and "now" is a
  parameter.
- IEEE-754 arithmetic. All numbers are exact reals and integers. This
  covers four places:
  - Grid.Barrido: computes `desde + k·paso` exactly. The source
    accumulates `lat += step` in doubles. Every swept coordinate lies on a
    strip boundary, so the rounding of the sum and of `lat / gridSize`
    decides the strip on every pass. With the one-cell step the doubles
    still give the consecutive strips `Grid.RejillaCompleta` states. With
    the two-cell step they do not (next lines).
  - SafetyZones.Celdas: cells are keyed by the integer pair
    `(floor(lat / g), floor(lng / g))` rather than the string of the
    corner's floating-point product.
  - Heatmap.PuntosCalor: cells are keyed by the integer pair rather than
    the `toFixed(4)` string.
  - Intensity.PercentilesDe: `Math.floor(n · q)` is the exact integer
    quotient.
- Grid.FranjasPasoDoble: holds for the exact-arithmetic sweep only. In
  doubles, `(19.0 + 0.02 + 0.02) / 0.01` falls just below 1904, so its
  floor is 1903. From there on most swept coordinates land one strip
  lower than in exact arithmetic.
- Grid.RejillaDeFondo: describes the exact-arithmetic sweep (even
  strips). The double sweep of the program visits latitude strips 1900,
  1902, 1903, 1905, … 1969 and longitude strips −9940, −9938, −9937, …
  −9891. The model does not state that set.
- Background.FondoPares: the even-strip placement of the grey cells
  holds for the exact-arithmetic sweep only, for the reason above.
  `Background.CeldasDeFondo` and `Background.FondoCompleto` hold for
  whatever strips the sweep visits.
- The unused `añosTotales`, `tasaPorDia` and `tasaPorAño` of
  `getHeatmapData`. They do not reach the result.
- The `count === 0` guard of `getHeatmapData`, since no bucket is empty
  (`Grouping.GroupBy`).
- Seqs.Sort: the source's `Array.prototype.sort` is modelled by an
  insertion sort. Both give the unique sorted permutation of finite
  numbers.
- SafetyZones.ZonasSeguridad: requires a positive cell size. With a size
  of 0 or less the source's loops never end.
- Background.CeldasDeFondo: requires a positive cell size, for the same
  reason.
- Text.LowerChar: lower-cases only the ASCII and Latin-1 capitals, the
  alphabet of the borough names. Other scripts and the one-to-two
  character mapping of `İ` are not modelled.
- Text.UpperChar: upper-cases only ASCII letters, one character to
  one. Python's `str.upper` also does the following:
  - maps `ı` to `I` and `ſ` to `S`;
  - expands characters to several letters: `ß` to `SS`, and the
    ligatures `ﬅ` and `ﬆ` to `ST`;
  - so it does not keep the length, as `Text.ToUpper` does.
  For example, `"SECUEﬆRO".upper()` contains `SECUESTRO`, so
  `es_delito_grave` holds where `Ingest.EsDelitoGrave` does not.
- Ingest.ClasificarDelito: weaker than the source for text holding such
  characters, for the reason above.
- Ingest.EsDelitoGrave: weaker than the source for text holding such
  characters, for the reason above.
- IsoDate.Strptime: reads ASCII digits only. Python's `\d` also matches
  other Unicode decimal digits.
- Reports.Obtener: assumes a stored JSON list of reports reads back as
  the reports written. JSON encoding and arrays of non-report values are
  not modelled.
- Reports.Guardar: errors from the storage itself (quota exceeded,
  storage unavailable) are not modelled.
