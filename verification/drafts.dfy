/** The form's submit guard: a draft whose title and content both trim to nothing is dropped. */
module Drafts {
  import opened Notes

  /** The whitespace `String.prototype.trim` strips, restricted to the ASCII controls, the space,
      no-break space, byte-order mark and the two Unicode line/paragraph separators. */
  predicate IsSpace(c: char)
  {
    c == ' ' || c == '\t' || c == '\n' || c == '\r' || c == '\U{B}' || c == '\U{C}'
    || c == '\U{A0}' || c == '\U{FEFF}' || c == '\U{2028}' || c == '\U{2029}'
  }

  /** Every character of `s` is whitespace (vacuously true of the empty string). */
  predicate IsBlank(s: string)
  {
    forall i :: 0 <= i < |s| ==> IsSpace(s[i])
  }

  /** `s` without its leading whitespace. */
  function TrimStart(s: string): (r: string)
    ensures |r| <= |s| && r == s[|s| - |r|..]
    ensures r == [] || !IsSpace(r[0])
    ensures forall i :: 0 <= i < |s| - |r| ==> IsSpace(s[i])
    decreases |s|
  {
    if |s| > 0 && IsSpace(s[0]) then TrimStart(s[1..]) else s
  }

  /** `s` without its trailing whitespace. */
  function TrimEnd(s: string): (r: string)
    ensures |r| <= |s| && r == s[..|r|]
    ensures r == [] || !IsSpace(r[|r| - 1])
    ensures forall i :: |r| <= i < |s| ==> IsSpace(s[i])
    decreases |s|
  {
    if |s| > 0 && IsSpace(s[|s| - 1]) then TrimEnd(s[..|s| - 1]) else s
  }

  /** `s.trim()`: both ends stripped. The result is what `TrimStart` leaves, cut short only by
      trailing whitespace; with `TrimStart`'s own contract this pins it down as the slice of `s`
      between its first and last non-whitespace characters. */
  function Trim(s: string): (r: string)
    ensures |r| <= |s|
    ensures r == [] || (!IsSpace(r[0]) && !IsSpace(r[|r| - 1]))
    ensures |r| <= |TrimStart(s)| && r == TrimStart(s)[..|r|]
    ensures forall i :: |r| <= i < |TrimStart(s)| ==> IsSpace(TrimStart(s)[i])
  {
    var t := TrimStart(s);
    var r := TrimEnd(t);
    assert r == t[..|r|];
    assert forall i :: |r| <= i < |t| ==> IsSpace(t[i]);
    r
  }

  /** A string trims to the empty (falsy) string exactly when it is blank. */
  lemma TrimEmptyIffBlank(s: string)
    ensures Trim(s) == [] <==> IsBlank(s)
  {
  }

  /** The submit guard: the form calls its `onSave` only when this holds. */
  predicate PassesGuard(d: Draft)
  {
    !(Trim(d.title) == [] && Trim(d.content) == [])
  }

  /** A draft passes the guard exactly when its title or its content is not blank. */
  lemma GuardIffNotBlank(d: Draft)
    ensures PassesGuard(d) <==> !IsBlank(d.title) || !IsBlank(d.content)
  {
    TrimEmptyIffBlank(d.title);
    TrimEmptyIffBlank(d.content);
  }
}
