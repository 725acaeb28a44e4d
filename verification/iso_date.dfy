/** Python's `datetime.strptime(s, '%Y-%m-%d')`: the string must match, in
    full, the regular expression the standard library builds for the
    format, and the fields must name a real day of the proleptic Gregorian
    calendar. */
module IsoDate {
  import opened Options

  datatype Fecha = Fecha(anio: int, mes: int, dia: int)

  predicate EsDigito(c: char)
  {
    '0' <= c <= '9'
  }

  function ValorDigito(c: char): (v: int)
    requires EsDigito(c)
    ensures 0 <= v <= 9
  {
    c as int - '0' as int
  }

  function Digito(v: int): (c: char)
    requires 0 <= v <= 9
    ensures EsDigito(c) && ValorDigito(c) == v
  {
    ('0' as int + v) as char
  }

  predicate Bisiesto(y: int)
  {
    y % 4 == 0 && (y % 100 != 0 || y % 400 == 0)
  }

  function DiasDelMes(y: int, m: int): (n: int)
    requires 1 <= m <= 12
    ensures 28 <= n <= 31
  {
    if m == 2 then (if Bisiesto(y) then 29 else 28)
    else if m == 4 || m == 6 || m == 9 || m == 11 then 30
    else 31
  }

  /** A day `datetime` accepts: years 1 to 9999, and a day that exists in
      its month. */
  predicate FechaValida(f: Fecha)
  {
    1 <= f.anio <= 9999 && 1 <= f.mes <= 12 && 1 <= f.dia <= DiasDelMes(f.anio, f.mes)
  }

  /** `%Y`: exactly four digits. */
  function Anio(t: string): (r: Option<int>)
    ensures r.Some? <==> |t| == 4 && EsDigito(t[0]) && EsDigito(t[1]) && EsDigito(t[2]) && EsDigito(t[3])
    ensures r.Some? ==> 0 <= r.value <= 9999
  {
    if |t| == 4 && EsDigito(t[0]) && EsDigito(t[1]) && EsDigito(t[2]) && EsDigito(t[3]) then
      Some(ValorDigito(t[0]) * 1000 + ValorDigito(t[1]) * 100 + ValorDigito(t[2]) * 10 + ValorDigito(t[3]))
    else None
  }

  /** `%m`: `1[0-2]|0[1-9]|[1-9]`. */
  function Mes(t: string): (r: Option<int>)
    ensures r.Some? ==> 1 <= r.value <= 12
  {
    if |t| == 2 && t[0] == '1' && '0' <= t[1] <= '2' then Some(10 + ValorDigito(t[1]))
    else if |t| == 2 && t[0] == '0' && '1' <= t[1] <= '9' then Some(ValorDigito(t[1]))
    else if |t| == 1 && '1' <= t[0] <= '9' then Some(ValorDigito(t[0]))
    else None
  }

  /** `%d`: `3[01]|[12]\d|0[1-9]|[1-9]| [1-9]` (a single digit may be
      preceded by a space). */
  function Dia(t: string): (r: Option<int>)
    ensures r.Some? ==> 1 <= r.value <= 31
  {
    if |t| == 2 && t[0] == '3' && '0' <= t[1] <= '1' then Some(30 + ValorDigito(t[1]))
    else if |t| == 2 && '1' <= t[0] <= '2' && EsDigito(t[1]) then Some(ValorDigito(t[0]) * 10 + ValorDigito(t[1]))
    else if |t| == 2 && t[0] == '0' && '1' <= t[1] <= '9' then Some(ValorDigito(t[1]))
    else if |t| == 1 && '1' <= t[0] <= '9' then Some(ValorDigito(t[0]))
    else if |t| == 2 && t[0] == ' ' && '1' <= t[1] <= '9' then Some(ValorDigito(t[1]))
    else None
  }

  /** `datetime.strptime(s, '%Y-%m-%d')`, `None` where it raises
      `ValueError`. The month ends at the first dash after the year, since
      no month alternative holds a dash; the day must run to the end of the
      string. */
  function Strptime(s: string): (r: Option<Fecha>)
    ensures r.Some? ==> FechaValida(r.value)
  {
    if |s| < 8 || s[4] != '-' then None
    else
      var resto := s[5..];
      var largoMes := if resto[1] == '-' then 1 else if resto[2] == '-' then 2 else 0;
      if largoMes == 0 then None
      else
        match (Anio(s[..4]), Mes(resto[..largoMes]), Dia(resto[largoMes + 1..]))
        case (Some(y), Some(m), Some(d)) =>
          var f := Fecha(y, m, d);
          if FechaValida(f) then Some(f) else None
        case _ => None
  }

  /** Two digits, zero-padded. */
  function DosDigitos(n: int): (t: string)
    requires 0 <= n <= 99
    ensures |t| == 2
  {
    [Digito(n / 10), Digito(n % 10)]
  }

  /** The ISO form `YYYY-MM-DD` of a day. */
  function Formatear(f: Fecha): (s: string)
    requires FechaValida(f)
    ensures |s| == 10 && s[4] == '-' && s[7] == '-'
  {
    DosDigitos(f.anio / 100) + DosDigitos(f.anio % 100) + "-" + DosDigitos(f.mes) + "-" + DosDigitos(f.dia)
  }

  lemma AnioFormateado(y: int)
    requires 0 <= y <= 9999
    ensures Anio(DosDigitos(y / 100) + DosDigitos(y % 100)) == Some(y)
  {
    var t := DosDigitos(y / 100) + DosDigitos(y % 100);
    assert ValorDigito(t[0]) * 10 + ValorDigito(t[1]) == y / 100;
    assert ValorDigito(t[2]) * 10 + ValorDigito(t[3]) == y % 100;
  }

  lemma DosDigitosValor(n: int)
    requires 0 <= n <= 99
    ensures ValorDigito(DosDigitos(n)[0]) * 10 + ValorDigito(DosDigitos(n)[1]) == n
  {
  }

  lemma MesFormateado(m: int)
    requires 1 <= m <= 12
    ensures Mes(DosDigitos(m)) == Some(m)
  {
    DosDigitosValor(m);
  }

  lemma DiaFormateado(d: int)
    requires 1 <= d <= 31
    ensures Dia(DosDigitos(d)) == Some(d)
  {
    DosDigitosValor(d);
  }

  /** Every valid day written in ISO form parses back to itself. */
  lemma StrptimeFormatear(f: Fecha)
    requires FechaValida(f)
    ensures Strptime(Formatear(f)) == Some(f)
  {
    var s := Formatear(f);
    AnioFormateado(f.anio);
    MesFormateado(f.mes);
    DiaFormateado(f.dia);
    assert s[..4] == DosDigitos(f.anio / 100) + DosDigitos(f.anio % 100);
    assert s[5..][..2] == DosDigitos(f.mes);
    assert s[5..][3..] == DosDigitos(f.dia);
  }

  /** Unpadded fields and a space before a one-digit day are accepted. */
  lemma StrptimeAcepta()
    ensures Strptime("2019-1-5") == Some(Fecha(2019, 1, 5))
    ensures Strptime("2019-01- 5") == Some(Fecha(2019, 1, 5))
    ensures Strptime("2020-02-29") == Some(Fecha(2020, 2, 29))
  {
    assert "2019-1-5"[5..][..1] == "1";
    assert "2019-1-5"[5..][2..] == "5";
    assert "2019-01- 5"[5..][..2] == "01";
    assert "2019-01- 5"[5..][3..] == " 5";
    assert "2020-02-29"[5..][..2] == "02";
    assert "2020-02-29"[5..][3..] == "29";
  }

  /** A 29th of February outside a leap year, a zero or thirteenth month,
      year 0 and trailing characters are rejected. */
  lemma StrptimeRechaza()
    ensures Strptime("2019-02-29") == None
    ensures Strptime("2019-00-10") == None
    ensures Strptime("2019-13-10") == None
    ensures Strptime("0000-01-01") == None
    ensures Strptime("2019-01-011") == None
  {
    assert "2019-02-29"[5..][3..] == "29";
    assert "2019-00-10"[5..][..2] == "00";
    assert "2019-13-10"[5..][..2] == "13";
    assert "0000-01-01"[..4] == "0000";
    assert "2019-01-011"[5..][3..] == "011";
  }
}
