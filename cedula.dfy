/**
 * The identifier a user types: normalised (trimmed, upper-cased, every space
 * removed) and then accepted only if it matches `^V\d{7,8}$`.
 */
module Cedula {
  import opened Text

  /** What the text handler does to the message before anything else. */
  function Normalize(text: string): (id: string)
    ensures forall i :: 0 <= i < |id| ==> !IsSpace(id[i]) && !IsLower(id[i])
  {
    var upper := Upper(Trim(text));
    assert forall c :: c in upper ==> !IsLower(c);
    RemoveSpaces(upper)
  }

  /** The pattern `^V\d{7,8}$`. */
  predicate IsValid(id: string)
    ensures IsValid(id) ==> '_' !in id && forall i :: 0 <= i < |id| ==> !IsSpace(id[i]) && !IsLower(id[i])
  {
    (|id| == 8 || |id| == 9) && id[0] == 'V' && forall i :: 1 <= i < |id| ==> IsDigit(id[i])
  }

  /** Normalising removes every space and upper-cases what is left; the trim is subsumed. */
  lemma NormalizeSpec(text: string)
    ensures Normalize(text) == Upper(RemoveSpaces(text))
  {
    calc {
      Normalize(text);
      RemoveSpaces(Upper(Trim(text)));
      { UpperRemoveSpacesCommute(Trim(text)); }
      Upper(RemoveSpaces(Trim(text)));
      { RemoveSpacesOfTrim(text); }
      Upper(RemoveSpaces(text));
    }
  }

  /** A string without spaces or lower-case letters is left as it is. */
  lemma NormalizeFixes(id: string)
    requires forall i :: 0 <= i < |id| ==> !IsSpace(id[i]) && !IsLower(id[i])
    ensures Normalize(id) == id
  {
    var s := TrimStart(id);
    assert s == id;
    var t := TrimEnd(s);
    assert t == id;
    assert Upper(id) == id;
  }

  /** Normalising twice is normalising once. */
  lemma NormalizeIdempotent(text: string)
    ensures Normalize(Normalize(text)) == Normalize(text)
  {
    NormalizeFixes(Normalize(text));
  }

  /** A valid cédula is already normal and holds no `_`, so it is safe inside a callback token. */
  lemma ValidIsNormalAndDelimiterFree(id: string)
    requires IsValid(id)
    ensures Normalize(id) == id
    ensures '_' !in id
  {
    NormalizeFixes(id);
  }
}
