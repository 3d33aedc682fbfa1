/**
 * Worked summaries: the decomposition applied to the summary forms the
 * timetable feed uses, subject, class and extra information separated by
 * " - ".
 */
module Scenarios {
  import opened Text
  import opened Feed

  /** The class token "h2" is removed from "h2hv1"; "hv1" holds no token ("h" is followed by a letter). */
  lemma StripExample()
    ensures StripClassTokens("h2hv1") == "hv1"
  {
    StripFirstToken();
    StripNothing();
  }

  lemma StripFirstToken()
    ensures StripClassTokens("h2hv1") == StripClassTokens("hv1")
  {
    assert "h2hv1" == "h" + "2" + "hv1";
    StripLeadingToken("2", "hv1");
  }

  lemma StripNothing()
    ensures StripClassTokens("hv1") == "hv1"
  {
    StripNoToken("hv1");
  }

  lemma TrimExample()
    ensures Trim("hv1") == "hv1"
  {
    var core := "hv1";
    assert core[0] == 'h' && core[|core| - 1] == '1';
    TrimPadded("", core, "");
    assert "" + core + "" == core;
  }

  /** A digit before the token stays, and the token after it goes: "1h2" becomes "1". */
  lemma StripAfterDigit()
    ensures StripClassTokens("1h2") == "1"
  {
    assert "1h2" == ['1'] + ("h" + "2" + "");
    DigitThenToken('1', "2");
  }

  lemma DigitThenToken(c: char, digits: string)
    requires IsDigit(c) && |digits| > 0 && AllDigits(digits)
    ensures StripClassTokens([c] + ("h" + digits + "")) == [c]
  {
    StripKeepsHead(c, "h" + digits + "");
    StripLeadingToken(digits, "");
  }

  /** "Nederlands - h2hv1 - wtr": subject "Nederlands", class "hv1", extra information "wtr". */
  lemma ThreePartSummary()
    ensures SplitSummary("Nederlands - h2hv1 - wtr") == SummaryParts("Nederlands", "hv1", "wtr")
  {
    ThreeParts();
    StripExample();
    TrimExample();
  }

  lemma ThreeParts()
    ensures SplitSummary("Nederlands - h2hv1 - wtr") == SummaryParts("Nederlands", Trim(StripClassTokens("h2hv1")), "wtr")
  {
    assert "Nederlands - h2hv1 - wtr" == "Nederlands" + " - " + "h2hv1" + " - " + "wtr";
    DashFreeThree("Nederlands", "h2hv1", "wtr");
  }

  lemma DashFreeThree(subject: string, classPart: string, info: string)
    requires '-' !in subject && '-' !in classPart && '-' !in info
    ensures SplitSummary(subject + " - " + classPart + " - " + info)
         == SummaryParts(subject, Trim(StripClassTokens(classPart)), info)
  {
    DashFreePart(subject);
    DashFreePart(classPart);
    DashFreePart(info);
    SplitSummaryExactlyThree(subject, classPart, info);
  }

  /** "Wiskunde - 109": the class number is "109" as written and there is no extra information. */
  lemma TwoPartSummary()
    ensures SplitSummary("Wiskunde - 109") == SummaryParts("Wiskunde", "109", "")
  {
    assert "Wiskunde - 109" == "Wiskunde" + " - " + "109";
    DashFreeTwo("Wiskunde", "109");
  }

  lemma DashFreeTwo(subject: string, classPart: string)
    requires '-' !in subject && '-' !in classPart
    ensures SplitSummary(subject + " - " + classPart) == SummaryParts(subject, classPart, "")
  {
    DashFreePart(subject);
    DashFreePart(classPart);
    SplitSummaryTwo(subject, classPart);
  }
}
