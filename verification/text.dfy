/**
 * The JavaScript string operations the field normalisers use: case mapping,
 * `charAt(0).toUpperCase() + slice(1).toLowerCase()`, `includes('T')` and
 * `split('T')[0]`. Case mapping covers the ASCII letters only.
 */
module Text {

  predicate IsUpper(c: char) {
    'A' <= c <= 'Z'
  }

  predicate IsLower(c: char) {
    'a' <= c <= 'z'
  }

  function LowerChar(c: char): (r: char)
    ensures !IsUpper(r)
  {
    if IsUpper(c) then (c as int + 32) as char else c
  }

  function UpperChar(c: char): (r: char)
    ensures !IsLower(r)
  {
    if IsLower(c) then (c as int - 32) as char else c
  }

  /** `s.toLowerCase()`. */
  function ToLower(s: string): string {
    seq(|s|, i requires 0 <= i < |s| => LowerChar(s[i]))
  }

  /** Two strings agree up to case exactly when their characters lower-case to the same. */
  lemma ToLowerPointwise(s: string, t: string)
    requires |s| == |t|
    requires forall i :: 0 <= i < |s| ==> LowerChar(s[i]) == t[i]
    ensures ToLower(s) == t
  {
  }

  predicate NoUpper(s: string) {
    forall i :: 0 <= i < |s| ==> !IsUpper(s[i])
  }

  /** Lower-casing is a projection: a lower-case string is its own lower case. */
  lemma ToLowerIdempotent(s: string)
    ensures NoUpper(ToLower(s))
    ensures ToLower(ToLower(s)) == ToLower(s)
  {
  }

  /** `s.charAt(0).toUpperCase() + s.slice(1).toLowerCase()`; the empty string stays empty. */
  function Capitalise(s: string): (r: string)
    ensures |r| == |s|
    ensures |s| > 0 ==> !IsLower(r[0]) && NoUpper(r[1..])
    ensures ToLower(r) == ToLower(s)
  {
    if |s| == 0 then "" else [UpperChar(s[0])] + ToLower(s[1..])
  }

  /** Capitalising a capitalised string changes nothing. */
  lemma CapitaliseIdempotent(s: string)
    ensures Capitalise(Capitalise(s)) == Capitalise(s)
  {
    if |s| > 0 {
      var c := Capitalise(s);
      ToLowerIdempotent(s[1..]);
      assert c[1..] == ToLower(s[1..]);
    }
  }

  const TimeSuffix: string := "T00:00:00.000Z"

  /**
   * `v.includes('T') ? v : v + 'T00:00:00.000Z'`: a date-only value becomes a
   * midnight-UTC date-time, a value that already has a time part is kept.
   */
  function CompleteDate(v: string): (r: string)
    ensures 'T' in r
    ensures v <= r
    ensures r == v <==> 'T' in v
    ensures 'T' !in v ==> r[|v|..] == TimeSuffix
  {
    if 'T' in v then v else v + TimeSuffix
  }

  /** Completing a completed date changes nothing. */
  lemma CompleteDateIdempotent(v: string)
    ensures CompleteDate(CompleteDate(v)) == CompleteDate(v)
  {
  }

  /** `s.split(sep)[0]`: everything before the first occurrence of `sep`, or all of `s`. */
  function BeforeFirst(s: string, sep: char): (r: string)
    ensures r <= s
    ensures sep !in r
    ensures |r| < |s| ==> s[|r|] == sep
  {
    if |s| == 0 || s[0] == sep then "" else [s[0]] + BeforeFirst(s[1..], sep)
  }
}
