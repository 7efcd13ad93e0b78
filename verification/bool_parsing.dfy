/** The conversion behind `parameter_bool::set`: the argument is lower-cased
    character by character (`::tolower` in the "C" locale, so only 'A'..'Z'
    change) and compared with the four truthy tokens. */
module BoolParsing {

  /** `::tolower` in the "C" locale. */
  function ToLower(c: char): (d: char)
    ensures 'A' <= c <= 'Z' ==> d as int == c as int + 32
    ensures !('A' <= c <= 'Z') ==> d == c
  {
    if 'A' <= c <= 'Z' then (c as int + 32) as char else c
  }

  /** The whole string lower-cased, as `std::transform(..., ::tolower)` leaves it. */
  function Lower(s: string): (r: string)
    ensures |r| == |s|
    ensures forall i :: 0 <= i < |s| ==> r[i] == ToLower(s[i])
  {
    if s == [] then [] else [ToLower(s[0])] + Lower(s[1..])
  }

  /** The four tokens that read as true. */
  predicate IsTruthyToken(t: string) {
    t == "1" || t == "true" || t == "yes" || t == "on"
  }

  /** The value `parameter_bool::set(s)` stores. */
  predicate IsTruthy(s: string) {
    IsTruthyToken(Lower(s))
  }

  /** Lower-cases `a` in place, as the source does with its local copy. */
  method LowerInPlace(a: array<char>)
    modifies a
    ensures a[..] == Lower(old(a[..]))
  {
    var i := 0;
    while i < a.Length
      invariant 0 <= i <= a.Length
      invariant forall k :: 0 <= k < i ==> a[k] == ToLower(old(a[k]))
      invariant forall k :: i <= k < a.Length ==> a[k] == old(a[k])
    {
      a[i] := ToLower(a[i]);
      i := i + 1;
    }
  }

  /** `parameter_bool::set`'s decision, computed the way the source does:
      lower a copy in place, then compare. */
  method DecideBool(s: string) returns (b: bool)
    ensures b == IsTruthy(s)
    ensures b <==> exists t :: IsTruthyToken(t) && Lower(s) == t
  {
    var copy := new char[|s|](i requires 0 <= i < |s| => s[i]);
    assert copy[..] == s;
    LowerInPlace(copy);
    var lower := copy[..];
    b := lower == "1" || lower == "true" || lower == "yes" || lower == "on";
  }

  /** Lower-casing twice is lower-casing once. */
  lemma LowerIdempotent(s: string)
    ensures Lower(Lower(s)) == Lower(s)
  {
    assert forall i :: 0 <= i < |s| ==> ToLower(ToLower(s[i])) == ToLower(s[i]);
  }

  /** Two characters that differ at most in ASCII letter case. */
  predicate SameIgnoringCase(c: char, d: char) {
    ToLower(c) == ToLower(d)
  }

  /** The truthy test is case-insensitive: strings equal up to ASCII case
      read the same. */
  lemma TruthyIgnoresCase(s: string, t: string)
    requires |s| == |t|
    requires forall i :: 0 <= i < |s| ==> SameIgnoringCase(s[i], t[i])
    ensures IsTruthy(s) == IsTruthy(t)
  {
    assert Lower(s) == Lower(t);
  }

  /** A string reads true exactly when it is one of the four tokens up to
      ASCII case; in particular every truthy string has one to four characters. */
  lemma TruthyShape(s: string)
    ensures IsTruthy(s) ==> 1 <= |s| <= 4
    ensures IsTruthy(s) <==>
      (|s| == 1 && Lower(s) == "1") || (|s| == 4 && Lower(s) == "true") ||
      (|s| == 3 && Lower(s) == "yes") || (|s| == 2 && Lower(s) == "on")
  {
  }

  /** The two texts `add_bool` stores its default as read back as that default. */
  lemma TruthyTrueFalse()
    ensures IsTruthy("true") && !IsTruthy("false")
  {
    assert Lower("true") == "true";
    assert Lower("false") == "false";
  }

  /** Other spellings the source and its tests name, either way. */
  lemma TruthySpellings()
    ensures IsTruthy("TRUE") && IsTruthy("On") && IsTruthy("1") && IsTruthy("yEs")
    ensures !IsTruthy("") && !IsTruthy("0") && !IsTruthy("off")
  {
    assert Lower("TRUE") == "true";
    assert Lower("On") == "on";
    assert Lower("yEs") == "yes";
    assert Lower("0") == "0";
    assert Lower("off") == "off";
  }
}
