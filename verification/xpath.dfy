/**
 `or_ipf28`: noise XPaths written for the current metadata layout are given
 an alternative for the layout of processor versions before 2.9, where the
 `noiseRange`/`noiseAzimuth` prefixes of the noise element names were plain
 `noise` (`noiseRangeVectorList` was `noiseVectorList`, `noiseRangeLut` was
 `noiseLut`).
 */
module XPath {

  /** `pat` occurs in `s` starting at position i. */
  ghost predicate OccursAt(s: string, pat: string, i: int) {
    0 <= i && i + |pat| <= |s| && s[i..i + |pat|] == pat
  }

  ghost predicate Contains(s: string, pat: string) {
    exists i :: OccursAt(s, pat, i)
  }

  /** Python's `s.replace(pat, rep)`: occurrences replaced left to right, without overlap. */
  function Replace(s: string, pat: string, rep: string): string
    requires |pat| > 0
    decreases |s|
  {
    if |s| < |pat| then s
    else if s[..|pat|] == pat then rep + Replace(s[|pat|..], pat, rep)
    else [s[0]] + Replace(s[1..], pat, rep)
  }

  /** Replacing a pattern that does not occur leaves the string unchanged. */
  lemma {:induction false} ReplaceAbsent(s: string, pat: string, rep: string)
    requires |pat| > 0 && !Contains(s, pat)
    ensures Replace(s, pat, rep) == s
    decreases |s|
  {
    if |s| >= |pat| {
      assert !OccursAt(s, pat, 0);
      forall i | OccursAt(s[1..], pat, i)
        ensures OccursAt(s, pat, i + 1)
      {
        assert s[1..][i..i + |pat|] == s[i + 1..i + 1 + |pat|];
      }
      ReplaceAbsent(s[1..], pat, rep);
    }
  }

  /** Replacing by something no longer never makes the string longer. */
  lemma {:induction false} ReplaceNoLonger(s: string, pat: string, rep: string)
    requires 0 < |pat| && |rep| <= |pat|
    ensures |Replace(s, pat, rep)| <= |s|
    decreases |s|
  {
    if |s| >= |pat| {
      if s[..|pat|] == pat {
        ReplaceNoLonger(s[|pat|..], pat, rep);
      } else {
        ReplaceNoLonger(s[1..], pat, rep);
      }
    }
  }

  /** Replacing an occurring pattern by something shorter makes the string strictly shorter. */
  lemma {:induction false} ReplaceShrinks(s: string, pat: string, rep: string)
    requires 0 < |pat| && |rep| < |pat| && Contains(s, pat)
    ensures |Replace(s, pat, rep)| < |s|
    decreases |s|
  {
    var i :| OccursAt(s, pat, i);
    if s[..|pat|] == pat {
      ReplaceNoLonger(s[|pat|..], pat, rep);
    } else {
      assert i != 0;
      assert s[1..][i - 1..i - 1 + |pat|] == s[i..i + |pat|];
      assert OccursAt(s[1..], pat, i - 1);
      ReplaceShrinks(s[1..], pat, rep);
    }
  }

  /** A shortening replacement changes the string exactly when the pattern occurs in it. */
  lemma ReplaceChanges(s: string, pat: string, rep: string)
    requires 0 < |pat| && |rep| < |pat|
    ensures Replace(s, pat, rep) != s <==> Contains(s, pat)
  {
    if Contains(s, pat) {
      ReplaceShrinks(s, pat, rep);
    } else {
      ReplaceAbsent(s, pat, rep);
    }
  }

  /** The pre-2.9 spelling of a path: the `noiseRange`/`noiseAzimuth` prefixes become `noise`. */
  function LegacyPath(xpath: string): string {
    Replace(Replace(xpath, "noiseRange", "noise"), "noiseAzimuth", "noise")
  }

  /** The legacy spelling differs from the path exactly when the path names either noise element. */
  lemma LegacyDiffers(xpath: string)
    ensures LegacyPath(xpath) != xpath <==> Contains(xpath, "noiseRange") || Contains(xpath, "noiseAzimuth")
  {
    var step := Replace(xpath, "noiseRange", "noise");
    ReplaceChanges(xpath, "noiseRange", "noise");
    ReplaceNoLonger(step, "noiseAzimuth", "noise");
    if Contains(xpath, "noiseRange") {
      ReplaceShrinks(xpath, "noiseRange", "noise");
      assert |LegacyPath(xpath)| <= |step| < |xpath|;
    } else {
      assert step == xpath;
      ReplaceChanges(step, "noiseAzimuth", "noise");
    }
  }

  /**
   `or_ipf28(xpath)`: a path naming `noiseRange` or `noiseAzimuth` becomes the
   XPath union of itself and its legacy spelling; any other path is returned
   unchanged. Either way the given path is a prefix of the result.
   */
  function OrIpf28(xpath: string): (r: string)
    ensures Contains(xpath, "noiseRange") || Contains(xpath, "noiseAzimuth") ==>
              r == xpath + " | " + LegacyPath(xpath)
    ensures !Contains(xpath, "noiseRange") && !Contains(xpath, "noiseAzimuth") ==> r == xpath
    ensures |xpath| <= |r| && r[..|xpath|] == xpath
  {
    var legacy := LegacyPath(xpath);
    LegacyDiffers(xpath);
    if legacy != xpath then xpath + " | " + legacy else xpath
  }
}
