/**
 * Runs of the two handlers together, on a fresh pair of tables: what a
 * person sees and what the tables hold after a sequence of messages and
 * button presses on one day.
 */
module Workflow {
  import opened Wrappers
  import opened Records
  import opened Callbacks
  import opened Prompts
  import opened Ledger
  import Cedula

  /** A valid cédula with no active convocatoria gets the record and the six-option reason menu, whatever the ledgers hold. */
  lemma NoEventScenario(text: string, persona: Persona, confirmacion: Option<Confirmacion>, attended: bool, hoy: Day)
    requires Cedula.IsValid(Cedula.Normalize(text))
    ensures var r := Respond(text, Some(persona), None, confirmacion, attended, hoy);
      && r == Respond(text, Some(persona), None, None, false, hoy)
      && r.RecordShown?
      && r.prompt.state == NoActiveEvent
      && |r.prompt.buttons| == 6
  {
    var id := Cedula.Normalize(text);
    NoEventIgnoresLedgers(id, confirmacion, attended, hoy, None, false, hoy);
  }

  /**
   * A person who confirmed "yes" writes their cédula on the attendance day:
   * the attendance button is offered; once the attendance row is on
   * record, the next message gets the acknowledgment and the record button
   * only.
   */
  lemma AttendanceDayPrompts(persona: Persona, conv: Convocatoria, confirmacion: Confirmacion)
    requires Cedula.IsValid(persona.cedula) && confirmacion.confirmo
    ensures Respond(persona.cedula, Some(persona), Some(conv), Some(confirmacion), false, conv.fechaAsistencia)
         == RecordShown(persona, Prompt(AttendToday, [Asistir(conv.id, persona.cedula), Solo(persona.cedula)]))
    ensures Respond(persona.cedula, Some(persona), Some(conv), Some(confirmacion), true, conv.fechaAsistencia)
         == RecordShown(persona, Prompt(AlreadyAttended, [Solo(persona.cedula)]))
  {
    Cedula.ValidIsNormalAndDelimiterFree(persona.cedula);
  }

  /**
   * On the attendance day, after a "yes": pressing the attendance button
   * registers one row, which is what the text handler's attendance query
   * then finds; pressing it again writes nothing.
   */
  method AttendanceDay(cedula: string, conv: Convocatoria, antes: Instant, ahora: Instant, despues: Instant)
      returns (first: CallbackReply, second: CallbackReply, rows: seq<Asistencia>)
    requires Cedula.IsValid(cedula)
    ensures first == AsistenciaRegistrada
    ensures second == YaAsistioHoy
    ensures rows == [AttendanceRow(cedula, conv.fechaAsistencia, ahora, conv.id)]
    ensures HasEventAttendance(rows, cedula, conv.fechaAsistencia, conv.id)
  {
    var hoy := conv.fechaAsistencia;
    Cedula.ValidIsNormalAndDelimiterFree(cedula);
    var registro := new Registro();
    var _ := registro.Confirmar(true, conv.id, cedula, antes, false);
    var button := Asistir(conv.id, cedula);
    var data := Encode(button);
    DecodeEncode(button);
    first := registro.Responder(data, [conv], hoy, ahora, false);
    assert registro.asistencia[0] == AttendanceRow(cedula, hoy, ahora, conv.id);
    second := registro.Responder(data, [conv], hoy, despues, false);
    rows := registro.asistencia;
  }

  /**
   * The reason guard looks at every row of the day but the attendance guard
   * only at rows of its convocatoria: a reason registered in the morning
   * does not stop the attendance button, and the cédula ends the day with
   * two rows.
   */
  method ReasonThenAttendance(cedula: string, conv: Convocatoria, motivo: string, manana: Instant, tarde: Instant)
      returns (porMotivo: CallbackReply, porAsistencia: CallbackReply, rows: seq<Asistencia>)
    requires motivo != Nulo
    ensures porMotivo == ParticipacionRegistrada(motivo)
    ensures porAsistencia == AsistenciaRegistrada
    ensures |rows| == 2 && OnDay(rows[0], cedula, conv.fechaAsistencia) && OnDay(rows[1], cedula, conv.fechaAsistencia)
  {
    var hoy := conv.fechaAsistencia;
    var registro := new Registro();
    porMotivo := registro.RegistrarMotivo(motivo, cedula, hoy, manana, false);
    porAsistencia := registro.Asistir(conv.id, cedula, [conv], hoy, tarde, false);
    rows := registro.asistencia;
  }

  /** In the other order the reason button is refused and reports the attendance already on record. */
  method AttendanceThenReason(cedula: string, conv: Convocatoria, motivo: string, manana: Instant, tarde: Instant)
      returns (porAsistencia: CallbackReply, porMotivo: CallbackReply, rows: seq<Asistencia>)
    requires motivo != Nulo
    ensures porAsistencia == AsistenciaRegistrada
    ensures porMotivo == YaRegistroConMotivo(AsistenciaConfirmada)
    ensures |rows| == 1
  {
    var hoy := conv.fechaAsistencia;
    var registro := new Registro();
    porAsistencia := registro.Asistir(conv.id, cedula, [conv], hoy, manana, false);
    porMotivo := registro.RegistrarMotivo(motivo, cedula, hoy, tarde, false);
    rows := registro.asistencia;
  }
}
