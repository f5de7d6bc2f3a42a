/**
 * The text handler: from what the user typed and the store's answers for
 * the normalised cédula, the one reply the bot gives. The store's answers
 * are parameters (`persona`, the active convocatoria, the confirmation row,
 * whether an attendance row exists for cédula, today and that convocatoria),
 * so the reply is a function of that snapshot and of `hoy`.
 */
module Prompts {
  import opened Wrappers
  import opened Records
  import opened Callbacks
  import Cedula

  /** The institutional reasons, in menu order. */
  const Reasons: seq<string> := ["Reunión Pedagógica", "Consejo de Sección", "Solicitud de Constancia", "Contacto con CDCE", "Asistencia General"]

  /** The "none today" reason, offered only when there is no active convocatoria. */
  const Nulo: string := "nulo"

  /** Which branch of the decision chain answered. */
  datatype State =
    | NoActiveEvent
    | AlreadyAttended
    | Declined
    | AttendToday
    | ComeBackOn(fechaAsistencia: Day)
    | AwaitingConfirmation
    | WindowClosed(desde: Day, hasta: Day)

  /** A prompt and the buttons under it, top to bottom. */
  datatype Prompt = Prompt(state: State, buttons: seq<Callback>)

  datatype Reply =
    | InvalidFormat
    | NotFound
    | RecordShown(persona: Persona, prompt: Prompt)

  /** One reason button per institutional reason, in order. */
  function ReasonButtons(cedula: string): (bs: seq<Callback>)
    ensures |bs| == |Reasons|
    ensures forall i :: 0 <= i < |bs| ==> bs[i] == Motivo(Reasons[i], cedula)
  {
    seq(|Reasons|, i requires 0 <= i < |Reasons| => Motivo(Reasons[i], cedula))
  }

  /** A "yes" is on record for the active convocatoria and no attendance row yet. */
  predicate Confirmed(activa: Option<Convocatoria>, confirmacion: Option<Confirmacion>, attended: bool) {
    activa.Some? && !attended && confirmacion.Some? && confirmacion.value.confirmo
  }

  /** Inside the confirmation window `[fechaConfirmacion, fechaAsistencia)`. */
  predicate InWindow(conv: Convocatoria, hoy: Day) {
    conv.fechaConfirmacion <= hoy < conv.fechaAsistencia
  }

  /** The decision chain after the record is shown, with its early returns in source order. */
  function SelectPrompt(cedula: string, activa: Option<Convocatoria>, confirmacion: Option<Confirmacion>, attended: bool, hoy: Day): (p: Prompt)
    ensures |p.buttons| <= 6
    ensures p.buttons == [] <==> p.state.WindowClosed?
    ensures forall b :: b in p.buttons ==> b.cedula == cedula
    ensures forall b :: b in p.buttons && (b.Asistir? || b.Confirmar?) ==> activa.Some? && b.convocatoriaId == activa.value.id
    ensures forall b :: b in p.buttons && b.Motivo? ==> b.motivo in Reasons || b.motivo == Nulo
  {
    match activa
    case None =>
      Prompt(NoActiveEvent, ReasonButtons(cedula) + [Motivo(Nulo, cedula)])
    case Some(conv) =>
      if attended then
        Prompt(AlreadyAttended, [Solo(cedula)])
      else if confirmacion.Some? && !confirmacion.value.confirmo then
        Prompt(Declined, [Solo(cedula)] + ReasonButtons(cedula))
      else if confirmacion.Some? then
        if hoy == conv.fechaAsistencia then
          Prompt(AttendToday, [Asistir(conv.id, cedula), Solo(cedula)])
        else
          Prompt(ComeBackOn(conv.fechaAsistencia), [Solo(cedula)] + ReasonButtons(cedula))
      else if InWindow(conv, hoy) then
        Prompt(AwaitingConfirmation, [Confirmar(true, conv.id, cedula), Confirmar(false, conv.id, cedula)])
      else
        Prompt(WindowClosed(conv.fechaConfirmacion, conv.fechaAsistencia), [])
  }

  /** The whole text handler. */
  function Respond(text: string, persona: Option<Persona>, activa: Option<Convocatoria>, confirmacion: Option<Confirmacion>, attended: bool, hoy: Day): (r: Reply)
    ensures r.RecordShown? ==> Cedula.IsValid(Cedula.Normalize(text)) && persona == Some(r.persona)
  {
    var cedula := Cedula.Normalize(text);
    if !Cedula.IsValid(cedula) then InvalidFormat
    else if persona.None? then NotFound
    else RecordShown(persona.value, SelectPrompt(cedula, activa, confirmacion, attended, hoy))
  }

  /** An ill-formed cédula is refused whatever the store would have answered, so the store is never consulted. */
  lemma FormatCheckedFirst(text: string, persona: Option<Persona>, activa: Option<Convocatoria>, confirmacion: Option<Confirmacion>, attended: bool, hoy: Day)
    ensures Respond(text, persona, activa, confirmacion, attended, hoy) == InvalidFormat
        <==> !Cedula.IsValid(Cedula.Normalize(text))
    ensures Respond(text, persona, activa, confirmacion, attended, hoy) == NotFound
        <==> Cedula.IsValid(Cedula.Normalize(text)) && persona.None?
  {
  }

  /** The spaced, lower-case forms of a valid cédula reach the store as the same cédula. */
  lemma NormalizedBeforeLookup(text: string, persona: Option<Persona>, activa: Option<Convocatoria>, confirmacion: Option<Confirmacion>, attended: bool, hoy: Day)
    ensures Respond(Cedula.Normalize(text), persona, activa, confirmacion, attended, hoy)
         == Respond(text, persona, activa, confirmacion, attended, hoy)
  {
    Cedula.NormalizeIdempotent(text);
  }

  /** Without an active convocatoria the reply is the six-option reason menu ending in `nulo`, whatever the ledgers hold. */
  lemma NoEventIgnoresLedgers(cedula: string, confirmacion: Option<Confirmacion>, attended: bool, hoy: Day,
                              confirmacion': Option<Confirmacion>, attended': bool, hoy': Day)
    ensures SelectPrompt(cedula, None, confirmacion, attended, hoy) == SelectPrompt(cedula, None, confirmacion', attended', hoy')
    ensures var p := SelectPrompt(cedula, None, confirmacion, attended, hoy);
      && p.state == NoActiveEvent
      && |p.buttons| == 6
      && p.buttons[5] == Motivo(Nulo, cedula)
      && forall i :: 0 <= i < 5 ==> p.buttons[i] == Motivo(Reasons[i], cedula)
  {
  }

  /**
   * Which state answers, each stated by the facts that decide it. The
   * conditions are pairwise exclusive and cover every snapshot, in the
   * priority order no event, attended, declined, confirmed, in window,
   * window closed.
   */
  lemma StateDecided(cedula: string, activa: Option<Convocatoria>, confirmacion: Option<Confirmacion>, attended: bool, hoy: Day)
    ensures var s := SelectPrompt(cedula, activa, confirmacion, attended, hoy).state;
      && (s == NoActiveEvent <==> activa.None?)
      && (s == AlreadyAttended <==> activa.Some? && attended)
      && (s == Declined <==> activa.Some? && !attended && confirmacion.Some? && !confirmacion.value.confirmo)
      && (s == AttendToday <==> Confirmed(activa, confirmacion, attended) && hoy == activa.value.fechaAsistencia)
      && (s.ComeBackOn? <==> Confirmed(activa, confirmacion, attended) && hoy != activa.value.fechaAsistencia)
      && (s == AwaitingConfirmation <==> activa.Some? && !attended && confirmacion.None? && InWindow(activa.value, hoy))
      && (s.WindowClosed? <==> activa.Some? && !attended && confirmacion.None? && !InWindow(activa.value, hoy))
  {
  }

  /** The attendance button is offered exactly to a confirmed person, not yet registered, on the attendance day. */
  lemma AsistirOfferedIff(cedula: string, activa: Option<Convocatoria>, confirmacion: Option<Confirmacion>, attended: bool, hoy: Day)
    ensures var p := SelectPrompt(cedula, activa, confirmacion, attended, hoy);
      (exists b :: b in p.buttons && b.Asistir?)
      <==> Confirmed(activa, confirmacion, attended) && hoy == activa.value.fechaAsistencia
  {
    var p := SelectPrompt(cedula, activa, confirmacion, attended, hoy);
    if Confirmed(activa, confirmacion, attended) && hoy == activa.value.fechaAsistencia {
      assert p.buttons[0].Asistir?;
    }
  }

  /** The yes/no buttons are offered exactly when nothing is confirmed yet and today is inside the window. */
  lemma ConfirmarOfferedIff(cedula: string, activa: Option<Convocatoria>, confirmacion: Option<Confirmacion>, attended: bool, hoy: Day)
    ensures var p := SelectPrompt(cedula, activa, confirmacion, attended, hoy);
      (exists b :: b in p.buttons && b.Confirmar?)
      <==> activa.Some? && !attended && confirmacion.None? && InWindow(activa.value, hoy)
  {
    var p := SelectPrompt(cedula, activa, confirmacion, attended, hoy);
    if activa.Some? && !attended && confirmacion.None? && InWindow(activa.value, hoy) {
      assert p.buttons[0].Confirmar?;
    }
  }

  /** The `nulo` reason is offered exactly when there is no active convocatoria. */
  lemma NuloOfferedIff(cedula: string, activa: Option<Convocatoria>, confirmacion: Option<Confirmacion>, attended: bool, hoy: Day)
    ensures Motivo(Nulo, cedula) in SelectPrompt(cedula, activa, confirmacion, attended, hoy).buttons <==> activa.None?
  {
    var p := SelectPrompt(cedula, activa, confirmacion, attended, hoy);
    if activa.None? {
      assert p.buttons[5] == Motivo(Nulo, cedula);
    }
    assert forall i :: 0 <= i < |Reasons| ==> Reasons[i] != Nulo;
  }

  /** A confirmed person on another day is told to come back and offered the record plus the five reasons, no `nulo`. */
  lemma ConfirmedElsewhenMenu(cedula: string, conv: Convocatoria, confirmacion: Confirmacion, hoy: Day)
    requires confirmacion.confirmo && hoy != conv.fechaAsistencia
    ensures var p := SelectPrompt(cedula, Some(conv), Some(confirmacion), false, hoy);
      && p.state == ComeBackOn(conv.fechaAsistencia)
      && p.buttons == [Solo(cedula)] + ReasonButtons(cedula)
      && Motivo(Nulo, cedula) !in p.buttons
  {
    NuloOfferedIff(cedula, Some(conv), Some(confirmacion), false, hoy);
  }

  /** Someone already registered for the active convocatoria is offered the record button alone. */
  lemma AttendedMenu(cedula: string, conv: Convocatoria, confirmacion: Option<Confirmacion>, hoy: Day)
    ensures SelectPrompt(cedula, Some(conv), confirmacion, true, hoy) == Prompt(AlreadyAttended, [Solo(cedula)])
  {
  }

  /** Someone who declined is offered the record button and the five reasons, without `nulo`. */
  lemma DeclinedMenu(cedula: string, conv: Convocatoria, confirmacion: Confirmacion, hoy: Day)
    requires !confirmacion.confirmo
    ensures SelectPrompt(cedula, Some(conv), Some(confirmacion), false, hoy) == Prompt(Declined, [Solo(cedula)] + ReasonButtons(cedula))
  {
  }

  /** Inside the window, someone with no confirmation is offered the yes button and then the no button. */
  lemma AwaitingConfirmationMenu(cedula: string, conv: Convocatoria, hoy: Day)
    requires InWindow(conv, hoy)
    ensures SelectPrompt(cedula, Some(conv), None, false, hoy)
      == Prompt(AwaitingConfirmation, [Confirmar(true, conv.id, cedula), Confirmar(false, conv.id, cedula)])
  {
  }

  /** The fixed reasons hold no delimiter. */
  lemma ReasonsDelimiterFree()
    ensures forall i :: 0 <= i < |Reasons| ==> Delimiter !in Reasons[i]
    ensures Delimiter !in Nulo
  {
  }

  /** Every button shown for a valid cédula decodes, in the callback handler, to exactly the action it was built from. */
  lemma {:induction false} ButtonsRoundTrip(cedula: string, activa: Option<Convocatoria>, confirmacion: Option<Confirmacion>, attended: bool, hoy: Day)
    requires Cedula.IsValid(cedula)
    ensures forall b :: b in SelectPrompt(cedula, activa, confirmacion, attended, hoy).buttons ==> Decode(Encode(b)) == Some(b)
  {
    Cedula.ValidIsNormalAndDelimiterFree(cedula);
    ReasonsDelimiterFree();
    forall b | b in SelectPrompt(cedula, activa, confirmacion, attended, hoy).buttons
      ensures Decode(Encode(b)) == Some(b)
    {
      assert b.Motivo? ==> Delimiter !in b.motivo;
      DecodeEncode(b);
    }
  }
}
