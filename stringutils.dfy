/** `StringUtils.truncate` (js/utils.js): shortening a text to a maximum length with a marker. */
module StringUtils {
  import Js

  predicate IsPrefix(p: string, s: string) { |p| <= |s| && s[..|p|] == p }
  predicate IsSuffix(p: string, s: string) { |p| <= |s| && s[|s| - |p|..] == p }

  /**
   * `truncate(text, maxLength, suffix = '...')`: a text that fits is returned as it is;
   * otherwise its first `maxLength - suffix.length` characters are kept (`substring`
   * clamps a negative count to 0) and the suffix is appended.
   */
  function Truncate(text: string, maxLength: int, suffix: string := "..."): (r: string)
    ensures |text| <= maxLength ==> r == text
    ensures |text| > maxLength ==> IsSuffix(suffix, r) && IsPrefix(r[..|r| - |suffix|], text)
    ensures |text| > maxLength && maxLength >= |suffix| ==> |r| == maxLength
    ensures |text| > maxLength && maxLength <= |suffix| ==> r == suffix
  {
    if |text| <= maxLength then text
    else Js.Substring(text, 0, maxLength - |suffix|) + suffix
  }

  /**
   * When the suffix fits in `maxLength`, the result always fits, so truncating again
   * changes nothing; a text cut short keeps exactly its first `maxLength - |suffix|` characters.
   */
  lemma TruncateFits(text: string, maxLength: int, suffix: string)
    requires |suffix| <= maxLength
    ensures |Truncate(text, maxLength, suffix)| <= maxLength
    ensures Truncate(Truncate(text, maxLength, suffix), maxLength, suffix) == Truncate(text, maxLength, suffix)
    ensures |text| > maxLength ==> Truncate(text, maxLength, suffix) == text[..maxLength - |suffix|] + suffix
  {
  }

  /** With a suffix longer than the limit the result exceeds `maxLength`: it is the whole suffix. */
  lemma TruncateOverlongSuffix()
    ensures Truncate("abcdef", 2) == "..."
    ensures |Truncate("abcdef", 2)| > 2
  {
  }
}
