# Attendance and confirmation workflow of the Lobatera registry bot

This project models the core of a Telegram bot. A member of staff types
their cédula. The bot shows their personnel record. It then drives a small
workflow around the institution's convocatorias (scheduled events):
- confirm yes or no during the confirmation window;
- register attendance on the attendance day;
- or register presence for one of a fixed set of institutional reasons.

The model has six parts. The first part has two modules and each other part has one. Two more modules hold shared types: `Records` has the table rows and `Wrappers` has the option type.

- `Cedula` and `Text`: how the typed text is normalised (trimmed,
  upper-cased, every space removed) and checked against `^V\d{7,8}$`.
- `Prompts`: the text handler's chain of early returns. It is a pure
  function from the typed text, the store's answers for that cédula and
  `hoy` to exactly one reply. The reply carries the buttons as structured
  callbacks.
- `Callbacks`: the `kind_param_..._cedula` strings behind the buttons and
  the handler's `split("_")` reading of them, with the round trip and its
  limits.
- `Ledger`: the callback handler as a class `Registro` holding the
  `confirmaciones` and `asistencia` tables as sequences. The `confirmar_`,
  `asistir_` and `motivo_` handlers are methods that check and then insert.
  A failing insert is a parameter and leaves the table unchanged. The
  `solo_` press writes nothing. The invariant the attendance guards keep is
  `Ledger.Invariant`: no two rows for one cédula, day and convocatoria, and
  a reason row is always the first row of its cédula and day.
- `Ficha`: service time in years and months with its borrow step, and the
  gender and staff-type labels of the record display.
- `Workflow`: runs of both handlers on fresh tables.

Dates are whole day numbers. The source compares fixed-width `YYYY-MM-DD`
strings, whose lexicographic order is the chronological one. The clock
(`hoy`, registration timestamps) and the store's answers are parameters.

The code enforces less than "one attendance record per person per day".
The attendance button's guard only looks at rows of its own convocatoria,
while a reason button's guard looks at every row of the day. So a reason
registered in the morning does not stop the attendance button, and the day
ends with two rows (`Workflow.ReasonThenAttendance`). The other order is
refused (`Workflow.AttendanceThenReason`). Likewise, an attendance row only
leads to the "already registered" reply when there is an active
convocatoria and the row belongs to it. With no active convocatoria the
reason menu is shown and attendance is not consulted
(`Prompts.NoEventIgnoresLedgers`). The model follows the code in both
respects.

## Model

| member | source | states |
|---|---|---|
| Cedula.Normalize | index.js:32 | the normalised cédula holds no whitespace and no lower-case letter |
| Cedula.NormalizeSpec | index.js:32 | normalising is removing every space and upper-casing the rest; the leading `trim` adds nothing |
| Cedula.NormalizeIdempotent | index.js:32 | normalising twice gives the same as normalising once |
| Cedula.IsValid | index.js:36 | a cédula matching `^V\d{7,8}$` holds no `_`, no space and no lower-case letter |
| Cedula.ValidIsNormalAndDelimiterFree | index.js:36 | a cédula matching `^V\d{7,8}$` is its own normal form and contains no `_` |
| Text.Upper | index.js:32 | `toUpperCase` keeps the length and upper-cases each character in place |
| Text.RemoveSpaces | index.js:32 | `replace(/\s/g, "")` leaves no space, keeps only characters of the input, and is the identity on space-free text |
| Text.Trim | index.js:32 | `trim` removes spaces only, and only at the two ends: the result is a contiguous slice of the input, everything outside it is space, and it neither starts nor ends with a space |
| Text.RemoveSpacesOfTrim | index.js:32 | removing every space after trimming equals removing every space |
| Text.UpperRemoveSpacesCommute | index.js:32 | upper-casing and removing spaces commute |
| Text.NatToString | index.js:175-176 | the convocatoria id is written as a non-empty string of digits |
| Text.ParseNat | index.js:201 | reads a convocatoria id field; accepts exactly the non-empty digit strings, which is what the bot writes |
| Text.ParseNatToString | index.js:201 | parsing the written id gives back the id |
| Callbacks.Split | index.js:196 | `split("_")` gives at least one piece, and no piece holds `_` |
| Callbacks.SplitJoin | index.js:196 | splitting the `_`-join of `_`-free fields gives back the fields |
| Callbacks.JoinSplit | index.js:196 | joining the pieces of any string with `_` gives back the string |
| Callbacks.JoinEnds | index.js:68-176 | a `_`-joined token starts with its first field, has a `_` right after it when more fields follow, and ends with its last field |
| Callbacks.Fields | index.js:68-176 | a token starts with its kind and ends with the cédula |
| Callbacks.Encode | index.js:68-176 | a button's `callback_data` starts with `kind_`; when the cédula and reason hold no `_`, `split("_")` of it gives exactly the fields in the order written |
| Callbacks.Decode | index.js:195-282 | a decoded press has `_`-free fields and its data starts with `kind_` |
| Callbacks.DecodeEncode | index.js:196-282 | every button whose reason and cédula hold no `_` decodes to its own kind, decision or reason, convocatoria id and cédula |
| Callbacks.DecodeReadsMotivo | index.js:281-282 | data starting with `motivo_` is read as a reason press with the second piece as reason and the third as cédula |
| Callbacks.DelimiterInReasonMisparses | index.js:282 | a reason `x_y` is read as reason `x` with cédula `y`; the real cédula is lost |
| Prompts.ReasonButtons | index.js:125-129 | one `motivo_` button per institutional reason, in menu order |
| Prompts.SelectPrompt | index.js:63-185 | at most six buttons; no buttons only when the window is closed; every button carries the cédula, and the active convocatoria's id where it has one; reasons come from the fixed list or are `nulo` |
| Prompts.Respond | index.js:31-52 | the record is shown only for a valid normalised cédula that the store found |
| Prompts.FormatCheckedFirst | index.js:35-49 | the format error is given exactly for an invalid normalised cédula, whatever the store holds; "not found" is given exactly for a valid one with no record |
| Prompts.NormalizedBeforeLookup | index.js:32-45 | typing the normalised form gets the same reply as typing the raw text |
| Prompts.NoEventIgnoresLedgers | index.js:63-78 | with no active convocatoria the reply is the same for every confirmation, attendance and day: six reason buttons, the last one `nulo` |
| Prompts.StateDecided | index.js:103-185 | each state holds exactly under its own condition, in the priority order: no event, attended, declined, confirmed on or off the attendance day, inside or outside `[fecha_confirmacion, fecha_asistencia)` |
| Prompts.AsistirOfferedIff | index.js:135-146 | the attendance button is offered if and only if the person confirmed yes, is not registered, and today is the attendance day |
| Prompts.ConfirmarOfferedIff | index.js:168-180 | the yes/no buttons are offered if and only if there is no confirmation or attendance and today is inside the window |
| Prompts.NuloOfferedIff | index.js:64-164 | the `nulo` reason is offered if and only if there is no active convocatoria |
| Prompts.AttendedMenu | index.js:103-113 | someone already registered for the active convocatoria gets the record button alone, whatever the confirmation and day |
| Prompts.DeclinedMenu | index.js:115-133 | someone who declined gets the record button and the five reasons, without `nulo`, whatever the day |
| Prompts.AwaitingConfirmationMenu | index.js:167-180 | inside the window, someone with no confirmation gets the yes button and then the no button for the active convocatoria |
| Prompts.ConfirmedElsewhenMenu | index.js:147-164 | a confirmed person on another day gets the come-back notice with the record button and the five reasons, without `nulo` |
| Prompts.ReasonsDelimiterFree | index.js:68-73 | the fixed reasons and `nulo` hold no `_` |
| Prompts.ButtonsRoundTrip | index.js:68-282 | for a valid cédula, every button of every reply decodes to exactly the action it was built from |
| Ledger.HasEventAttendance | index.js:249-255 | an attendance row for the cédula, day and convocatoria is also a row the reason guard finds for that cédula and day |
| Ledger.FirstOnDay | index.js:289-294 | the reason guard finds a row of the cédula for that day if and only if one exists |
| Ledger.FindConvocatoria | index.js:231-235 | the lookup finds a convocatoria with the id if and only if the table has one |
| Ledger.ReasonRowIsReported | index.js:289-301 | under the invariant, the model's any-matching-row reason guard reports the cédula's reason row for that day |
| Ledger.AsistirOutcome | index.js:237-277 | the attendance press inserts if and only if the convocatoria exists, today is its attendance day, no row exists for cédula, day and convocatoria, and the insert succeeds |
| Ledger.MotivoOutcome | index.js:284-320 | a reason press inserts if and only if the reason is not `nulo`, the cédula has no row of any kind that day, and the insert succeeds |
| Ledger.AsistirIdempotent | index.js:249-260 | after a successful attendance press, a second press that day gets "already registered" |
| Ledger.MotivoOncePerDay | index.js:289-301 | after a reason is registered, the next reason press that day reports that reason |
| Ledger.AsistirKeepsInvariant | index.js:249-270 | the attendance insert keeps the table invariant |
| Ledger.MotivoKeepsInvariant | index.js:289-311 | the reason insert keeps the table invariant |
| Ledger.Registro.Confirmar | index.js:195-210 | appends one confirmation row with `confirmo` equal to the decision, with no duplicate check, unless the insert fails; attendance is untouched; the reply depends only on the decision |
| Ledger.Registro.Asistir | index.js:228-277 | the reply is the attendance outcome; the table gains exactly the "Asistencia Confirmada" row when it says so; confirmations are untouched; the invariant is kept |
| Ledger.Registro.RegistrarMotivo | index.js:281-320 | the reply is the reason outcome; the table gains exactly the reason row with no convocatoria when it says so; the invariant is kept |
| Ledger.Registro.Responder | index.js:190-321 | an unknown or malformed press and a `solo_` press change nothing; a `confirmar_` press replies by the decision alone and appends its row unless the insert fails; each other press changes only its own table, as its handler says |
| Ficha.CalcularTiempo | utils.js:2-12 | `anos*12 + meses` is the month difference of the two dates; for months in 0..11, `meses` is in 0..11 |
| Ficha.TiempoIsDivMod | utils.js:5-10 | years and months are the quotient and remainder of the month difference by 12 |
| Ficha.BorrowWhenMonthEarlier | utils.js:7-10 | a year is borrowed, and 12 months added, exactly when the current month is before the entry month |
| Ficha.DayIgnored | utils.js:5-6 | the day of either date never changes the result |
| Ficha.Genero | utils.js:16-20 | `F` and only `F` gives FEMENINO, `M` and only `M` gives MASCULINO, everything else gives NO ESPECIFICADO |
| Ficha.TipoPersonal | utils.js:22-27 | each of D, A, O, C, and only it, gives its label; every other or missing code gives NO ESPECIFICADO |
| Ficha.FormatearRespuesta | utils.js:15-38 | the display keeps the cédula and the two labels; it shows the entry date exactly when there is one; the service time is counted from the entry date, and its months are in 0..11 |
| Ficha.MissingEntryDateCountsFromEpoch | utils.js:29-37 | a record with no entry date shows the date as "NA" but a service time counted from January 1970 |
| Workflow.NoEventScenario | index.js:40-78 | a valid cédula with no active convocatoria gets the record and the six-option menu, as if nothing were on record |
| Workflow.AttendanceDayPrompts | index.js:100-146 | on the attendance day a confirmed person gets the attendance and record buttons; once registered, only the record button |
| Workflow.AttendanceDay | index.js:228-277 | confirm, then press the encoded attendance button twice: the first press registers one row, the second reports it and writes nothing |
| Workflow.ReasonThenAttendance | index.js:249-311 | a reason row does not stop a later attendance row on the same day: two rows for one cédula and day |
| Workflow.AttendanceThenReason | index.js:249-301 | after an attendance row, a reason press reports "Asistencia Confirmada" and writes nothing |

## Left out

- The HTTP host, webhook registration, health route, port binding and signal handling (index.js:10-27, 326-332): process I/O.
- Message texts, Markdown, inline-keyboard layout and `editMessageReplyMarkup`. Replies are constructors and menus are lists of callbacks. The removal of the buttons is not modelled, including that it is skipped when an insert fails.
- The clock. `hoy` is the UTC date of `toISOString` in the source and a parameter here, as are all timestamps.
- Store queries are parameters (the persona, the active convocatoria, the confirmation row, the text handler's attendance flag) or filters over the modelled tables. Resolving the active convocatoria (`activa`, `fecha_inicio <= hoy <= fecha_fin`) is such a query. A failing read is not modelled, except that a failed persona lookup is "not found".
- `maybeSingle` returns an error and no row when two rows match; the model sees any matching row. Under the model's invariant the attendance button's query never matches two rows. Two queries can differ:
  - a cédula with two confirmation rows, possible because `confirmar_` appends, is treated by the source as unconfirmed;
  - after a reason row and an attendance row on one day, the source's reason guard finds nothing and inserts again, where the model reports the earlier reason.
- The race between check and insert under concurrent presses: the model is sequential.
- Callbacks.Decode: a press with missing fields or a convocatoria id that is not a digit string decodes to nothing. The bot never builds such a press. The source would run the handler with `undefined` fields, or with whatever `parseInt` makes of the id.
- Text.ParseNat: JavaScript `parseInt` also reads a leading run of digits (`"12abc"` gives 12, `" 7"` gives 7) and hexadecimal (`"0x1A"` gives 26), where the model returns nothing. The two differ only on tokens the bot never builds, and they agree on every id the bot writes (`Text.ParseNatToString`). The `asistir_` handler queries with the raw string (index.js:234, 254) and only its insert calls `parseInt` (index.js:267).
- Ledger.Registro.Responder: the `solo_` handler's record lookup and display are not modelled, and the model replies `FichaConsultada(cedula)` to every `solo_` press. For a cédula with no record the source's lookup gives `null` (index.js:217-221), `formatearRespuesta` then throws on `data.sexo` (utils.js:16), and no reply is sent.
- Ledger.ReasonRowIsReported: the property holds for the model's reason guard, which sees any matching row. When an attendance row follows the reason row on the same day, the source's `maybeSingle` query (index.js:289-294) matches two rows and returns nothing, so the source inserts another reason row. For the same reason `Ledger.MotivoOncePerDay` covers only the press right after the reason is registered.
- Whitespace and upper-casing cover ASCII only. The non-ASCII members of `\s` and non-ASCII case mappings are left out.
- Ficha.CalcularTiempo takes the (year, month) pairs as the JavaScript `Date` reports them. Left out are parsing `fechaingreso` and the shift of a `YYYY-MM-DD` date parsed as UTC into the previous day on a server west of UTC.
- Ficha.FormatearRespuesta: a missing entry date is the store's `null`, which `new Date` reads as the epoch. Its shift to 31 December 1969 on a server west of UTC is not modelled. The `NaN` service time that an absent field or an unparseable date string gives is not modelled either.
- Ficha.TipoPersonal: a JavaScript object lookup also answers inherited keys such as `toString`; the model has the four codes only.
- Date display with `toLocaleDateString`, `obtenerFechaHoraVzla` and the text template of the record (utils.js:31-72): locale, time zone and presentation.
- Persona fields that are only displayed (name, post, school, hours, and the rest).
