/**
 * The strings carried by inline buttons. The text handler builds them as
 * `kind_param_..._cedula`; the callback handler splits them on `_` and reads
 * the fields by position. Splitting undoes joining only when no field holds
 * a `_`, which is why the fixed reasons and the validated cédula matter.
 */
module Callbacks {
  import opened Wrappers
  import opened Text

  const Delimiter: char := '_'

  /** Fields joined with the delimiter, as a template literal writes them. */
  function Join(parts: seq<string>): string
    requires |parts| >= 1
    decreases |parts|
  {
    if |parts| == 1 then parts[0] else parts[0] + [Delimiter] + Join(parts[1..])
  }

  /**
   * A join starts with the first field, followed by a delimiter when more
   * fields follow, and ends with the last field.
   */
  lemma {:induction false} JoinEnds(parts: seq<string>)
    requires |parts| >= 1
    ensures var s := Join(parts);
      && |parts[0]| <= |s| && s[..|parts[0]|] == parts[0]
      && (|parts| > 1 ==> |parts[0]| < |s| && s[|parts[0]|] == Delimiter)
      && |parts[|parts| - 1]| <= |s| && s[|s| - |parts[|parts| - 1]|..] == parts[|parts| - 1]
    decreases |parts|
  {
    if |parts| > 1 {
      var rest := Join(parts[1..]);
      JoinEnds(parts[1..]);
      var s := parts[0] + [Delimiter] + rest;
      assert s[..|parts[0]|] == parts[0];
      assert s[|s| - |rest|..] == rest;
      assert parts[1..][|parts[1..]| - 1] == parts[|parts| - 1];
    }
  }

  /** `String.prototype.split("_")`: the maximal delimiter-free pieces, empty ones included. */
  function Split(s: string): (parts: seq<string>)
    ensures |parts| >= 1
    ensures forall i :: 0 <= i < |parts| ==> Delimiter !in parts[i]
  {
    if s == [] then [""]
    else
      var rest := Split(s[1..]);
      if s[0] == Delimiter then [""] + rest else [[s[0]] + rest[0]] + rest[1..]
  }

  /** A delimiter-free prefix joins the first piece of what follows it. */
  lemma {:induction false} SplitPrefix(a: string, t: string)
    requires Delimiter !in a
    ensures Split(a + t) == [a + Split(t)[0]] + Split(t)[1..]
    decreases |a|
  {
    if a == [] {
      assert a + t == t;
      assert a + Split(t)[0] == Split(t)[0];
      assert [Split(t)[0]] + Split(t)[1..] == Split(t);
    } else {
      assert (a + t)[1..] == a[1..] + t;
      assert a[0] != Delimiter;
      SplitPrefix(a[1..], t);
      assert [a[0]] + (a[1..] + Split(t)[0]) == a + Split(t)[0];
    }
  }

  /** Splitting a join of delimiter-free fields gives the fields back. */
  lemma {:induction false} SplitJoin(parts: seq<string>)
    requires |parts| >= 1
    requires forall i :: 0 <= i < |parts| ==> Delimiter !in parts[i]
    ensures Split(Join(parts)) == parts
    decreases |parts|
  {
    if |parts| == 1 {
      SplitPrefix(parts[0], []);
      assert parts[0] + [] == parts[0];
    } else {
      var tail := [Delimiter] + Join(parts[1..]);
      assert Join(parts) == parts[0] + tail;
      SplitPrefix(parts[0], tail);
      SplitJoin(parts[1..]);
      assert tail[0] == Delimiter && tail[1..] == Join(parts[1..]);
      assert Split(tail) == [""] + parts[1..];
      assert parts[0] + Split(tail)[0] == parts[0];
      assert Split(tail)[1..] == parts[1..];
      assert parts == [parts[0]] + parts[1..];
    }
  }

  /** Joining the pieces of any string gives the string back. */
  lemma {:induction false} JoinSplit(s: string)
    ensures Join(Split(s)) == s
    decreases |s|
  {
    if s != [] {
      var rest := Split(s[1..]);
      JoinSplit(s[1..]);
      if s[0] == Delimiter {
        assert ([""] + rest)[1..] == rest;
      } else if |rest| > 1 {
        var parts := [[s[0]] + rest[0]] + rest[1..];
        assert parts[1..] == rest[1..];
        assert Join(rest) == rest[0] + [Delimiter] + Join(rest[1..]);
      }
    }
  }

  /** `String.prototype.startsWith`. */
  predicate StartsWith(s: string, prefix: string) {
    |prefix| <= |s| && s[..|prefix|] == prefix
  }

  /** A button press, as the four handlers understand it. */
  datatype Callback =
    | Confirmar(asistira: bool, convocatoriaId: nat, cedula: string)
    | Solo(cedula: string)
    | Asistir(convocatoriaId: nat, cedula: string)
    | Motivo(motivo: string, cedula: string)

  function Kind(cb: Callback): string {
    match cb
    case Confirmar(_, _, _) => "confirmar"
    case Solo(_) => "solo"
    case Asistir(_, _) => "asistir"
    case Motivo(_, _) => "motivo"
  }

  /** The fields of a token in the order the text handler writes them. */
  function Fields(cb: Callback): (fs: seq<string>)
    ensures |fs| >= 2 && fs[0] == Kind(cb) && fs[|fs| - 1] == cb.cedula
  {
    match cb
    case Confirmar(si, id, c) => [Kind(cb), if si then "si" else "no", NatToString(id), c]
    case Solo(c) => [Kind(cb), c]
    case Asistir(id, c) => [Kind(cb), NatToString(id), c]
    case Motivo(m, c) => [Kind(cb), m, c]
  }

  /** The button's `callback_data`. */
  function Encode(cb: Callback): (data: string)
    ensures StartsWith(data, Kind(cb) + [Delimiter])
    ensures WellFormed(cb) ==> Split(data) == Fields(cb)
  {
    var fs := Fields(cb);
    JoinEnds(fs);
    if WellFormed(cb) then
      FieldsDelimiterFree(cb);
      SplitJoin(fs);
      Join(fs)
    else
      Join(fs)
  }

  /** The free-text fields hold no delimiter. */
  predicate WellFormed(cb: Callback) {
    Delimiter !in cb.cedula && (cb.Motivo? ==> Delimiter !in cb.motivo)
  }

  /**
   * The callback handler's reading of `callback_data`: the first matching
   * prefix, in the handler's order, picks the kind; the fields are taken by
   * position from the split, further fields being ignored. A decision other
   * than `si` reads as "no".
   */
  function Decode(data: string): (r: Option<Callback>)
    ensures r.Some? ==> WellFormed(r.value)
    ensures r.Some? ==> StartsWith(data, Kind(r.value) + [Delimiter])
  {
    var fs := Split(data);
    if StartsWith(data, "confirmar_") then
      if |fs| >= 4 && ParseNat(fs[2]).Some? then Some(Confirmar(fs[1] == "si", ParseNat(fs[2]).value, fs[3])) else None
    else if StartsWith(data, "solo_") then
      if |fs| >= 2 then Some(Solo(fs[1])) else None
    else if StartsWith(data, "asistir_") then
      if |fs| >= 3 && ParseNat(fs[1]).Some? then Some(Asistir(ParseNat(fs[1]).value, fs[2])) else None
    else if StartsWith(data, "motivo_") then
      if |fs| >= 3 then Some(Motivo(fs[1], fs[2])) else None
    else None
  }

  lemma FieldsDelimiterFree(cb: Callback)
    requires WellFormed(cb)
    ensures forall i :: 0 <= i < |Fields(cb)| ==> Delimiter !in Fields(cb)[i]
  {
    match cb
    case Confirmar(si, id, c) =>
      AllDigitsExcludes(NatToString(id), Delimiter);
    case Solo(c) =>
    case Asistir(id, c) =>
      AllDigitsExcludes(NatToString(id), Delimiter);
    case Motivo(m, c) =>
  }

  /** Every well-formed button decodes to itself: the handler gets back its kind, decision or reason, event id and cédula. */
  lemma DecodeEncode(cb: Callback)
    requires WellFormed(cb)
    ensures Decode(Encode(cb)) == Some(cb)
  {
    var fs := Fields(cb);
    var data := Encode(cb);
    FieldsDelimiterFree(cb);
    SplitJoin(fs);
    assert data == fs[0] + [Delimiter] + Join(fs[1..]);
    assert data[..|fs[0]| + 1] == fs[0] + [Delimiter];
    assert data[0] == fs[0][0];
    match cb
    case Confirmar(si, id, c) =>
      ParseNatToString(id);
    case Solo(c) =>
    case Asistir(id, c) =>
      ParseNatToString(id);
    case Motivo(m, c) =>
  }

  /** Data starting with `motivo_` is read as a reason press from its second and third fields. */
  lemma DecodeReadsMotivo(data: string)
    requires StartsWith(data, "motivo_") && |Split(data)| >= 3
    ensures Decode(data) == Some(Motivo(Split(data)[1], Split(data)[2]))
  {
    assert data[0] == 'm';
  }

  /** The token of a reason `x_y` is the join of four fields. */
  lemma MotivoTokenFields(x: string, y: string, cedula: string)
    ensures Encode(Motivo(x + [Delimiter] + y, cedula)) == Join(["motivo", x, y, cedula])
  {
    var fs := ["motivo", x, y, cedula];
    var reason := x + [Delimiter] + y;
    assert Fields(Motivo(reason, cedula)) == ["motivo", reason, cedula];
    assert Join([reason, cedula]) == reason + [Delimiter] + cedula;
    assert Join(fs[2..]) == y + [Delimiter] + cedula;
    assert Join(fs[1..]) == x + [Delimiter] + (y + [Delimiter] + cedula);
  }

  /** A reason holding the delimiter is misread: its second half is taken for the cédula, which is lost. */
  lemma DelimiterInReasonMisparses(x: string, y: string, cedula: string)
    requires Delimiter !in x && Delimiter !in y && Delimiter !in cedula
    ensures Decode(Encode(Motivo(x + [Delimiter] + y, cedula))) == Some(Motivo(x, y))
  {
    var fs := ["motivo", x, y, cedula];
    var data := Encode(Motivo(x + [Delimiter] + y, cedula));
    MotivoTokenFields(x, y, cedula);
    SplitJoin(fs);
    JoinEnds(fs);
    assert data[..7] == "motivo_";
    DecodeReadsMotivo(data);
  }
}
