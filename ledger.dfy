/**
 * The callback handler: the two tables it writes, `confirmaciones` and
 * `asistencia`, and the four button handlers as operations on them. Each
 * attendance write is a read-then-insert guarded by an existence check;
 * the guards differ between handlers and are kept as the source has them.
 */
module Ledger {
  import opened Wrappers
  import opened Records
  import opened Callbacks
  import Prompts

  /** The reason written by the attendance button. */
  const AsistenciaConfirmada: string := "Asistencia Confirmada"

  /** What the bot answers to a button press. */
  datatype CallbackReply =
    | ConfirmacionRegistrada
    | NoPodraAsistir
    | FichaConsultada(cedula: string)
    | ConvocatoriaNoEncontrada
    | SoloElDia(fechaAsistencia: Day)
    | YaAsistioHoy
    | ErrorAsistencia
    | AsistenciaRegistrada
    | SinParticipacion
    | YaRegistroConMotivo(motivo: string)
    | ErrorMotivo
    | ParticipacionRegistrada(motivo: string)
    | Ignorada

  predicate OnDay(row: Asistencia, cedula: string, fecha: Day) {
    row.cedula == cedula && row.fecha == fecha
  }

  /** The attendance query of the text handler and of the attendance button: cédula, day and convocatoria. */
  predicate HasEventAttendance(rows: seq<Asistencia>, cedula: string, fecha: Day, convocatoriaId: nat)
    ensures HasEventAttendance(rows, cedula, fecha, convocatoriaId) ==> FirstOnDay(rows, cedula, fecha).Some?
  {
    exists i :: 0 <= i < |rows| && OnDay(rows[i], cedula, fecha) && rows[i].convocatoriaId == Some(convocatoriaId)
  }

  /** The attendance query of the reason buttons: any row for the cédula and day. */
  function FirstOnDay(rows: seq<Asistencia>, cedula: string, fecha: Day): (r: Option<Asistencia>)
    ensures r.Some? ==> r.value in rows && OnDay(r.value, cedula, fecha)
    ensures r.None? <==> forall i :: 0 <= i < |rows| ==> !OnDay(rows[i], cedula, fecha)
  {
    if rows == [] then None
    else if OnDay(rows[0], cedula, fecha) then Some(rows[0])
    else FirstOnDay(rows[1..], cedula, fecha)
  }

  /** The convocatoria lookup by id. */
  function FindConvocatoria(convocatorias: seq<Convocatoria>, id: nat): (r: Option<Convocatoria>)
    ensures r.Some? ==> r.value in convocatorias && r.value.id == id
    ensures r.None? <==> forall i :: 0 <= i < |convocatorias| ==> convocatorias[i].id != id
  {
    if convocatorias == [] then None
    else if convocatorias[0].id == id then Some(convocatorias[0])
    else FindConvocatoria(convocatorias[1..], id)
  }

  /** No two rows for the same cédula, day and convocatoria. */
  ghost predicate EventRowsUnique(rows: seq<Asistencia>) {
    forall i, j :: 0 <= i < j < |rows| && rows[i].convocatoriaId.Some? && OnDay(rows[j], rows[i].cedula, rows[i].fecha)
      ==> rows[j].convocatoriaId != rows[i].convocatoriaId
  }

  /** A row registered with a reason is the first row of its cédula and day. */
  ghost predicate ReasonRowsFirst(rows: seq<Asistencia>) {
    forall i, j :: 0 <= i < j < |rows| && rows[j].convocatoriaId.None? ==> !OnDay(rows[i], rows[j].cedula, rows[j].fecha)
  }

  /**
   * Under the invariant, the reason guard reports the reason row itself
   * whenever the cédula registered a reason that day, even when an
   * attendance row for an event followed it.
   */
  lemma {:induction false} ReasonRowIsReported(rows: seq<Asistencia>, j: nat)
    requires ReasonRowsFirst(rows)
    requires j < |rows| && rows[j].convocatoriaId.None?
    ensures FirstOnDay(rows, rows[j].cedula, rows[j].fecha) == Some(rows[j])
    decreases |rows|
  {
    if j > 0 {
      assert !OnDay(rows[0], rows[j].cedula, rows[j].fecha);
      assert rows[1..][j - 1] == rows[j];
      ReasonRowIsReported(rows[1..], j - 1);
    }
  }

  ghost predicate Invariant(rows: seq<Asistencia>) {
    EventRowsUnique(rows) && ReasonRowsFirst(rows)
  }

  /** The row the attendance button writes. */
  function AttendanceRow(cedula: string, hoy: Day, ahora: Instant, convocatoriaId: nat): Asistencia {
    Asistencia(cedula, hoy, AsistenciaConfirmada, ahora, Some(convocatoriaId))
  }

  /** The row a reason button writes. */
  function ReasonRow(motivo: string, cedula: string, hoy: Day, ahora: Instant): Asistencia {
    Asistencia(cedula, hoy, motivo, ahora, None)
  }

  /**
   * The attendance button's answer, given the table before the press and
   * whether the insert fails: unknown convocatoria, wrong day, already
   * registered for this convocatoria today, store error, or registered.
   */
  function AsistirOutcome(rows: seq<Asistencia>, convocatorias: seq<Convocatoria>, convocatoriaId: nat, cedula: string, hoy: Day, storeFails: bool): (r: CallbackReply)
    ensures r == AsistenciaRegistrada <==>
      && FindConvocatoria(convocatorias, convocatoriaId).Some?
      && hoy == FindConvocatoria(convocatorias, convocatoriaId).value.fechaAsistencia
      && !HasEventAttendance(rows, cedula, hoy, convocatoriaId)
      && !storeFails
  {
    var conv := FindConvocatoria(convocatorias, convocatoriaId);
    if conv.None? then ConvocatoriaNoEncontrada
    else if hoy != conv.value.fechaAsistencia then SoloElDia(conv.value.fechaAsistencia)
    else if HasEventAttendance(rows, cedula, hoy, convocatoriaId) then YaAsistioHoy
    else if storeFails then ErrorAsistencia
    else AsistenciaRegistrada
  }

  /**
   * A reason button's answer, given the table before the press and whether
   * the insert fails: `nulo`, a row already on record that day (any kind),
   * store error, or registered.
   */
  function MotivoOutcome(rows: seq<Asistencia>, motivo: string, cedula: string, hoy: Day, storeFails: bool): (r: CallbackReply)
    ensures r == ParticipacionRegistrada(motivo) <==>
      motivo != Prompts.Nulo && FirstOnDay(rows, cedula, hoy).None? && !storeFails
  {
    if motivo == Prompts.Nulo then SinParticipacion
    else
      var previa := FirstOnDay(rows, cedula, hoy);
      if previa.Some? then YaRegistroConMotivo(previa.value.motivo)
      else if storeFails then ErrorMotivo
      else ParticipacionRegistrada(motivo)
  }

  /** A row appended after the last row of a cédula and day is found when none was there before. */
  lemma {:induction false} FirstOnDayAppend(rows: seq<Asistencia>, row: Asistencia, cedula: string, fecha: Day)
    ensures FirstOnDay(rows + [row], cedula, fecha)
         == if FirstOnDay(rows, cedula, fecha).Some? then FirstOnDay(rows, cedula, fecha)
            else if OnDay(row, cedula, fecha) then Some(row) else None
    decreases |rows|
  {
    if rows != [] {
      assert (rows + [row])[1..] == rows[1..] + [row];
      FirstOnDayAppend(rows[1..], row, cedula, fecha);
    }
  }

  /** A second press of the attendance button on the same day writes nothing. */
  lemma AsistirIdempotent(rows: seq<Asistencia>, convocatorias: seq<Convocatoria>, convocatoriaId: nat, cedula: string,
                          hoy: Day, ahora: Instant, storeFails: bool, storeFails': bool)
    requires AsistirOutcome(rows, convocatorias, convocatoriaId, cedula, hoy, storeFails) == AsistenciaRegistrada
    ensures AsistirOutcome(rows + [AttendanceRow(cedula, hoy, ahora, convocatoriaId)], convocatorias, convocatoriaId, cedula, hoy, storeFails') == YaAsistioHoy
  {
    var rows' := rows + [AttendanceRow(cedula, hoy, ahora, convocatoriaId)];
    assert rows'[|rows|] == AttendanceRow(cedula, hoy, ahora, convocatoriaId);
  }

  /** Once a reason is registered for the day, every later reason press reports it and writes nothing. */
  lemma MotivoOncePerDay(rows: seq<Asistencia>, motivo: string, cedula: string, hoy: Day, ahora: Instant,
                         storeFails: bool, motivo': string, storeFails': bool)
    requires MotivoOutcome(rows, motivo, cedula, hoy, storeFails) == ParticipacionRegistrada(motivo)
    requires motivo' != Prompts.Nulo
    ensures MotivoOutcome(rows + [ReasonRow(motivo, cedula, hoy, ahora)], motivo', cedula, hoy, storeFails') == YaRegistroConMotivo(motivo)
  {
    FirstOnDayAppend(rows, ReasonRow(motivo, cedula, hoy, ahora), cedula, hoy);
  }

  /** The attendance insert keeps the table's invariant. */
  lemma AsistirKeepsInvariant(rows: seq<Asistencia>, convocatorias: seq<Convocatoria>, convocatoriaId: nat, cedula: string,
                              hoy: Day, ahora: Instant)
    requires Invariant(rows)
    requires AsistirOutcome(rows, convocatorias, convocatoriaId, cedula, hoy, false) == AsistenciaRegistrada
    ensures Invariant(rows + [AttendanceRow(cedula, hoy, ahora, convocatoriaId)])
  {
    var rows' := rows + [AttendanceRow(cedula, hoy, ahora, convocatoriaId)];
    assert forall i :: 0 <= i < |rows| ==> rows'[i] == rows[i];
  }

  /** The reason insert keeps the table's invariant. */
  lemma MotivoKeepsInvariant(rows: seq<Asistencia>, motivo: string, cedula: string, hoy: Day, ahora: Instant)
    requires Invariant(rows)
    requires MotivoOutcome(rows, motivo, cedula, hoy, false) == ParticipacionRegistrada(motivo)
    ensures Invariant(rows + [ReasonRow(motivo, cedula, hoy, ahora)])
  {
    var rows' := rows + [ReasonRow(motivo, cedula, hoy, ahora)];
    assert forall i :: 0 <= i < |rows| ==> rows'[i] == rows[i];
  }

  class Registro {
    var confirmaciones: seq<Confirmacion>
    var asistencia: seq<Asistencia>

    ghost predicate Valid()
      reads this
    {
      Invariant(asistencia)
    }

    constructor ()
      ensures Valid() && confirmaciones == [] && asistencia == []
    {
      confirmaciones := [];
      asistencia := [];
    }

    /**
     * `confirmar_`: always inserts, with no check for an earlier row. The
     * insert's error is not looked at: the thanks are sent either way.
     */
    method Confirmar(asistira: bool, convocatoriaId: nat, cedula: string, ahora: Instant, storeFails: bool)
        returns (reply: CallbackReply)
      requires Valid()
      modifies this
      ensures Valid()
      ensures asistencia == old(asistencia)
      ensures confirmaciones == old(confirmaciones) + (if storeFails then [] else [Confirmacion(cedula, convocatoriaId, asistira, ahora)])
      ensures reply == if asistira then ConfirmacionRegistrada else NoPodraAsistir
    {
      if !storeFails {
        confirmaciones := confirmaciones + [Confirmacion(cedula, convocatoriaId, asistira, ahora)];
      }
      reply := if asistira then ConfirmacionRegistrada else NoPodraAsistir;
    }

    /**
     * `asistir_`: inserts an "Asistencia Confirmada" row only for a known
     * convocatoria, on its attendance day, when the cédula has no row for
     * that day and convocatoria.
     */
    method Asistir(convocatoriaId: nat, cedula: string, convocatorias: seq<Convocatoria>, hoy: Day, ahora: Instant, storeFails: bool)
        returns (reply: CallbackReply)
      requires Valid()
      modifies this
      ensures Valid()
      ensures confirmaciones == old(confirmaciones)
      ensures reply == AsistirOutcome(old(asistencia), convocatorias, convocatoriaId, cedula, hoy, storeFails)
      ensures asistencia == old(asistencia) + (if reply == AsistenciaRegistrada then [AttendanceRow(cedula, hoy, ahora, convocatoriaId)] else [])
    {
      var conv := FindConvocatoria(convocatorias, convocatoriaId);
      if conv.None? {
        return ConvocatoriaNoEncontrada;
      }
      if hoy != conv.value.fechaAsistencia {
        return SoloElDia(conv.value.fechaAsistencia);
      }
      if HasEventAttendance(asistencia, cedula, hoy, convocatoriaId) {
        return YaAsistioHoy;
      }
      if storeFails {
        return ErrorAsistencia;
      }
      AsistirKeepsInvariant(asistencia, convocatorias, convocatoriaId, cedula, hoy, ahora);
      asistencia := asistencia + [AttendanceRow(cedula, hoy, ahora, convocatoriaId)];
      reply := AsistenciaRegistrada;
    }

    /**
     * `motivo_`: `nulo` writes nothing; any other reason is inserted, with no
     * convocatoria, only when the cédula has no row of any kind that day;
     * otherwise the reason already on record is reported.
     */
    method RegistrarMotivo(motivo: string, cedula: string, hoy: Day, ahora: Instant, storeFails: bool)
        returns (reply: CallbackReply)
      requires Valid()
      modifies this
      ensures Valid()
      ensures confirmaciones == old(confirmaciones)
      ensures reply == MotivoOutcome(old(asistencia), motivo, cedula, hoy, storeFails)
      ensures asistencia == old(asistencia) + (if reply == ParticipacionRegistrada(motivo) then [ReasonRow(motivo, cedula, hoy, ahora)] else [])
    {
      if motivo == Prompts.Nulo {
        return SinParticipacion;
      }
      var previa := FirstOnDay(asistencia, cedula, hoy);
      if previa.Some? {
        return YaRegistroConMotivo(previa.value.motivo);
      }
      if storeFails {
        return ErrorMotivo;
      }
      MotivoKeepsInvariant(asistencia, motivo, cedula, hoy, ahora);
      asistencia := asistencia + [ReasonRow(motivo, cedula, hoy, ahora)];
      reply := ParticipacionRegistrada(motivo);
    }

    /** The callback handler: decode the button, then run the handler its prefix names. */
    method Responder(data: string, convocatorias: seq<Convocatoria>, hoy: Day, ahora: Instant, storeFails: bool)
        returns (reply: CallbackReply)
      requires Valid()
      modifies this
      ensures Valid()
      ensures Decode(data).None? ==> reply == Ignorada && unchanged(this)
      ensures Decode(data).Some? && Decode(data).value.Solo? ==> reply == FichaConsultada(Decode(data).value.cedula) && unchanged(this)
      ensures Decode(data).Some? && !Decode(data).value.Confirmar? ==> confirmaciones == old(confirmaciones)
      ensures Decode(data).Some? && Decode(data).value.Confirmar? ==> asistencia == old(asistencia)
      ensures Decode(data).Some? && Decode(data).value.Confirmar? ==>
        var cb := Decode(data).value;
        && reply == (if cb.asistira then ConfirmacionRegistrada else NoPodraAsistir)
        && confirmaciones == old(confirmaciones) + (if storeFails then [] else [Confirmacion(cb.cedula, cb.convocatoriaId, cb.asistira, ahora)])
      ensures Decode(data).Some? && Decode(data).value.Asistir? ==>
        var cb := Decode(data).value;
        && reply == AsistirOutcome(old(asistencia), convocatorias, cb.convocatoriaId, cb.cedula, hoy, storeFails)
        && asistencia == old(asistencia) + (if reply == AsistenciaRegistrada then [AttendanceRow(cb.cedula, hoy, ahora, cb.convocatoriaId)] else [])
      ensures Decode(data).Some? && Decode(data).value.Motivo? ==>
        var cb := Decode(data).value;
        && reply == MotivoOutcome(old(asistencia), cb.motivo, cb.cedula, hoy, storeFails)
        && asistencia == old(asistencia) + (if reply == ParticipacionRegistrada(cb.motivo) then [ReasonRow(cb.motivo, cb.cedula, hoy, ahora)] else [])
    {
      var decoded := Decode(data);
      if decoded.None? {
        return Ignorada;
      }
      match decoded.value
      case Confirmar(asistira, id, cedula) =>
        reply := Confirmar(asistira, id, cedula, ahora, storeFails);
      case Solo(cedula) =>
        reply := FichaConsultada(cedula);
      case Asistir(id, cedula) =>
        reply := Asistir(id, cedula, convocatorias, hoy, ahora, storeFails);
      case Motivo(motivo, cedula) =>
        reply := RegistrarMotivo(motivo, cedula, hoy, ahora, storeFails);
    }
  }
}
