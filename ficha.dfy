/**
 * The pieces of the record display that compute something: the service
 * time in whole years and months, and the gender and staff-type labels.
 */
module Ficha {
  import opened Wrappers
  import opened Records

  datatype Tiempo = Tiempo(anos: int, meses: int)

  /** Months since year 0 of a (year, month) pair. */
  function MonthIndex(f: Fecha): int {
    f.year * 12 + f.month
  }

  /**
   * `calcularTiempo`: the year and month differences, borrowing a year when
   * the current month is earlier than the entry month. Days are not used.
   */
  function CalcularTiempo(ingreso: Fecha, hoy: Fecha): (t: Tiempo)
    ensures t.anos * 12 + t.meses == MonthIndex(hoy) - MonthIndex(ingreso)
    ensures 0 <= ingreso.month < 12 && 0 <= hoy.month < 12 ==> 0 <= t.meses < 12
  {
    var anos := hoy.year - ingreso.year;
    var meses := hoy.month - ingreso.month;
    if meses < 0 then Tiempo(anos - 1, meses + 12) else Tiempo(anos, meses)
  }

  /** For months in 0..11 the result is the Euclidean quotient and remainder of the month difference by 12. */
  lemma TiempoIsDivMod(ingreso: Fecha, hoy: Fecha)
    requires 0 <= ingreso.month < 12 && 0 <= hoy.month < 12
    ensures var t := CalcularTiempo(ingreso, hoy);
      var d := MonthIndex(hoy) - MonthIndex(ingreso);
      t.anos == d / 12 && t.meses == d % 12
  {
  }

  /** A year is borrowed exactly when the current month is earlier than the entry month. */
  lemma BorrowWhenMonthEarlier(ingreso: Fecha, hoy: Fecha)
    requires 0 <= ingreso.month < 12 && 0 <= hoy.month < 12
    ensures var t := CalcularTiempo(ingreso, hoy);
      && (hoy.month < ingreso.month <==> t.anos == hoy.year - ingreso.year - 1)
      && (hoy.month >= ingreso.month <==> t.anos == hoy.year - ingreso.year)
      && (hoy.month < ingreso.month ==> t.meses == hoy.month - ingreso.month + 12)
      && (hoy.month >= ingreso.month ==> t.meses == hoy.month - ingreso.month)
  {
  }

  /** The day of either date never changes the result. */
  lemma DayIgnored(ingreso: Fecha, hoy: Fecha, ingreso': Fecha, hoy': Fecha)
    requires ingreso.year == ingreso'.year && ingreso.month == ingreso'.month
    requires hoy.year == hoy'.year && hoy.month == hoy'.month
    ensures CalcularTiempo(ingreso, hoy) == CalcularTiempo(ingreso', hoy')
  {
  }

  /** The gender label: `F` and `M` are known, every other value or none is unspecified. */
  function Genero(sexo: Option<string>): (g: string)
    ensures g == "FEMENINO" <==> sexo == Some("F")
    ensures g == "MASCULINO" <==> sexo == Some("M")
    ensures g == "NO ESPECIFICADO" <==> sexo !in {Some("F"), Some("M")}
  {
    if sexo == Some("F") then "FEMENINO"
    else if sexo == Some("M") then "MASCULINO"
    else "NO ESPECIFICADO"
  }

  /** The staff-type label: four known codes, every other code or none is unspecified. */
  function TipoPersonal(tipopbd: Option<string>): (t: string)
    ensures t == "DOCENTE" <==> tipopbd == Some("D")
    ensures t == "ADMINISTRATIVO" <==> tipopbd == Some("A")
    ensures t == "APOYO" <==> tipopbd == Some("O")
    ensures t == "COCINERA" <==> tipopbd == Some("C")
    ensures t == "NO ESPECIFICADO" <==> tipopbd !in {Some("D"), Some("A"), Some("O"), Some("C")}
  {
    match tipopbd
    case Some("D") => "DOCENTE"
    case Some("A") => "ADMINISTRATIVO"
    case Some("O") => "APOYO"
    case Some("C") => "COCINERA"
    case _ => "NO ESPECIFICADO"
  }

  /**
   * The date `new Date(null)` reads as: the epoch, 1 January 1970, in the
   * `getMonth` numbering where January is 0.
   */
  const Epoch: Fecha := Fecha(1970, 0, 1)

  /**
   * The computed fields of the record display. `fechaIngreso` is the entry
   * date shown, absent when the record has none (the display then reads
   * "NA"); `tiempo` is always computed.
   */
  datatype Ficha = Ficha(cedula: string, genero: string, tipoPersonal: string, fechaIngreso: Option<Fecha>, tiempo: Tiempo)

  /**
   * `formatearRespuesta`, less its text template. A missing entry date is
   * the store's `null`, which `calcularTiempo` turns into the epoch.
   */
  function FormatearRespuesta(persona: Persona, hoy: Fecha): (f: Ficha)
    ensures f.cedula == persona.cedula
    ensures f.genero == Genero(persona.sexo) && f.tipoPersonal == TipoPersonal(persona.tipopbd)
    ensures f.fechaIngreso == persona.fechaIngreso
    ensures persona.fechaIngreso.Some? ==>
      f.tiempo.anos * 12 + f.tiempo.meses == MonthIndex(hoy) - MonthIndex(persona.fechaIngreso.value)
    ensures 0 <= hoy.month < 12 && (persona.fechaIngreso.Some? ==> 0 <= persona.fechaIngreso.value.month < 12) ==>
      0 <= f.tiempo.meses < 12
  {
    var ingreso := match persona.fechaIngreso
      case Some(d) => d
      case None => Epoch;
    Ficha(persona.cedula, Genero(persona.sexo), TipoPersonal(persona.tipopbd), persona.fechaIngreso,
          CalcularTiempo(ingreso, hoy))
  }

  /**
   * A record without an entry date shows "NA" as the date but still a
   * service time: the years and months since January 1970.
   */
  lemma MissingEntryDateCountsFromEpoch(persona: Persona, hoy: Fecha)
    requires persona.fechaIngreso.None?
    requires 0 <= hoy.month < 12
    ensures var f := FormatearRespuesta(persona, hoy);
      && f.fechaIngreso.None?
      && f.tiempo == Tiempo(hoy.year - 1970, hoy.month)
  {
  }
}
