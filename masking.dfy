/**
 * How a match card shows the national-ID (Aadhaar) number in the photo-search
 * results of app.py: a fixed mask followed by the last four characters, or a
 * dash when there is no number. Only that card masks the number; the
 * submitter's own case list shows it in full and is not modelled here.
 */
module Masking {
  import opened Wrappers

  /** "XXXX‑XXXX‑", whose two hyphens are U+2011 NON-BREAKING HYPHEN. */
  const MaskPrefix: string := "XXXX\U{2011}XXXX\U{2011}"

  /** "—" (U+2014 EM DASH), shown when there is no number. */
  const NoNumber: string := "\U{2014}"

  /** How many trailing characters Python's `aad[-4:]` keeps. */
  function Shown(n: nat): (k: nat)
    ensures k <= 4 && k <= n
    ensures k == 4 || k == n
  {
    if n < 4 then n else 4
  }

  /** Python's `aad[-4:]`: the last four characters, or all of a shorter string. */
  function LastFour(s: string): (t: string)
    ensures |t| == Shown(|s|)
    ensures t == s[|s| - |t|..]
  {
    s[|s| - Shown(|s|)..]
  }

  /** `f"XXXX‑XXXX‑{aad[-4:]}" if aad else "—"`; the column may be NULL. */
  function MaskAadhaar(aad: Option<string>): (shown: string)
    ensures aad.None? || aad.value == "" ==> shown == NoNumber
    ensures aad.Some? && aad.value != "" ==>
      && |shown| == |MaskPrefix| + Shown(|aad.value|)
      && shown[..|MaskPrefix|] == MaskPrefix
      && shown[|MaskPrefix|..] == aad.value[|aad.value| - Shown(|aad.value|)..]
  {
    if aad.Some? && aad.value != "" then MaskPrefix + LastFour(aad.value) else NoNumber
  }

  /** The mask depends on nothing but the last four characters: two numbers that end alike
      are shown alike, whatever comes before. */
  lemma MaskRevealsOnlyLastFour(a: string, b: string)
    requires a != "" && b != ""
    requires LastFour(a) == LastFour(b)
    ensures MaskAadhaar(Some(a)) == MaskAadhaar(Some(b))
  {
  }

  /** Any change before the last four characters of a number of length at least four is invisible. */
  lemma MaskHidesAllButLastFour(hidden1: string, hidden2: string, tail: string)
    requires |tail| == 4
    ensures MaskAadhaar(Some(hidden1 + tail)) == MaskAadhaar(Some(hidden2 + tail))
  {
  }

  /** A present number is never shown as the dash, so a missing number stays distinguishable. */
  lemma PresentNumberNeverDash(aad: string)
    requires aad != ""
    ensures MaskAadhaar(Some(aad)) != NoNumber
  {
  }

  /** A twelve-digit number is shown as the mask and its last four digits. */
  lemma TwelveDigitExample()
    ensures MaskAadhaar(Some("123456789012")) == "XXXX\U{2011}XXXX\U{2011}9012"
  {
  }
}
