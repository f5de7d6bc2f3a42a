/**
 * The rows the bot reads and writes. Dates are whole day numbers: the source
 * keeps them as fixed-width `YYYY-MM-DD` strings, whose lexicographic order is
 * the chronological one, so comparing day numbers compares what it compares.
 */
module Records {
  import opened Wrappers

  /** A calendar day (`hoy`, `fecha`, `fecha_confirmacion`, `fecha_asistencia`). */
  type Day = int

  /** A registration timestamp (`registrado_en`, the confirmation's `fecha_confirmacion`). */
  type Instant = int

  /** A date as a JavaScript `Date` reports it: month counted from 0. */
  datatype Fecha = Fecha(year: int, month: int, day: int)

  /** A row of `raclobatera`, with the fields the workflow and the record display use. */
  datatype Persona = Persona(cedula: string, sexo: Option<string>, tipopbd: Option<string>, fechaIngreso: Option<Fecha>)

  /** A row of `convocatorias`: the event, its confirmation opening day and its attendance day. */
  datatype Convocatoria = Convocatoria(id: nat, titulo: string, fechaConfirmacion: Day, fechaAsistencia: Day)

  /** A row of `confirmaciones`. */
  datatype Confirmacion = Confirmacion(cedula: string, convocatoriaId: nat, confirmo: bool, registradaEn: Instant)

  /** A row of `asistencia`; `convocatoriaId` is null for a row registered with a reason. */
  datatype Asistencia = Asistencia(cedula: string, fecha: Day, motivo: string, registradoEn: Instant, convocatoriaId: Option<nat>)
}
