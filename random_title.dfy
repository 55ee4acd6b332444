/** The title of the random-manga route: the page's `<title>` text with the site's name
    trimmed off its end by `str.rstrip(" - Mangapill!")`. */
module RandomTitle {

  /** The argument of `rstrip`; Python reads it as a set of characters. */
  const SiteSuffix: string := " - Mangapill!"

  /** Python's `s.rstrip(chars)`: drops the longest run at the end of `s` made only of
      characters that occur in `chars`. */
  function RStrip(s: string, chars: string): (r: string)
    ensures r <= s
    ensures forall i :: |r| <= i < |s| ==> s[i] in chars
    ensures r == [] || r[|r| - 1] !in chars
  {
    if s != [] && s[|s| - 1] in chars then RStrip(s[..|s| - 1], chars) else s
  }

  /** The three properties above determine the result: any prefix with them is `RStrip`'s. */
  lemma RStripUnique(s: string, chars: string, t: string)
    requires t <= s
    requires forall i :: |t| <= i < |s| ==> s[i] in chars
    requires t == [] || t[|t| - 1] !in chars
    ensures t == RStrip(s, chars)
  {
  }

  /** The title as the route computes it. */
  function TitleAsWritten(pageTitle: string): (t: string)
    ensures t <= pageTitle
    ensures forall i :: |t| <= i < |pageTitle| ==> pageTitle[i] in SiteSuffix
    ensures t == [] || t[|t| - 1] !in SiteSuffix
  {
    RStrip(pageTitle, SiteSuffix)
  }

  /** A title whose own last letters occur in the suffix loses them too: "Gintama" is cut
      to "Gintam" because 'a' is one of the stripped characters. */
  lemma GintamaLosesLetter()
    ensures TitleAsWritten("Gintama - Mangapill!") == "Gintam"
  {
    var s := "Gintama - Mangapill!";
    assert "Gintam" <= s;
    forall i | 6 <= i < |s|
      ensures s[i] in SiteSuffix
    {
      assert s[i] in [' ', '-', 'M', 'a', 'n', 'g', 'p', 'i', 'l', '!'];
    }
    assert "Gintam"[5] == 'm';
    RStripUnique(s, SiteSuffix, "Gintam");
  }

  /** Removing `suffix` from the end of `s` when `s` ends with it. */
  function RemoveSuffix(s: string, suffix: string): (r: string)
    ensures r <= s
    ensures r == s || r + suffix == s
  {
    if |suffix| <= |s| && s[|s| - |suffix|..] == suffix then s[..|s| - |suffix|] else s
  }

  /** Removing the site's name from the end of a title gives back exactly that title. */
  lemma RemoveSuffixRoundTrip(title: string, suffix: string)
    ensures RemoveSuffix(title + suffix, suffix) == title
  {
  }

  /** The title the route is meant to return: the page title without the literal suffix. */
  function Title(pageTitle: string): (t: string)
    ensures forall name :: pageTitle == name + SiteSuffix ==> t == name
  {
    RemoveSuffix(pageTitle, SiteSuffix)
  }

  lemma GintamaKeepsName()
    ensures Title("Gintama - Mangapill!") == "Gintama"
  {
  }
}
