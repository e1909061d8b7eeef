/** standardize_size_to_mb from the Kaggle pipeline: a dataset size written
    with a unit ("2GB", "512KB", "10B", "7") converted to megabytes. */
module SizeParsing {
  import opened Options
  import opened Text
  import opened Decimal

  /** Megabytes per gigabyte, and kilobytes per megabyte. */
  const UnitFactor: real := 1024.0

  /** What any size written in bytes is taken to be, in megabytes. */
  const ByteSizeMb: real := 0.01

  /** float(text) where a ValueError is caught and turns into 0.0. */
  function FloatOrZero(text: string): real {
    ParseFloat(text).GetOr(0.0)
  }

  /** The branches in source order on the upper-cased text: "GB" anywhere
      scales up, else "KB" anywhere scales down, else any 'B' gives the fixed
      byte size, else the text (with any "MB" removed) is the number of
      megabytes. A text float() rejects gives 0.0; nothing raises. */
  function StandardizeSizeToMb(raw: string): real {
    var val := ToUpper(raw);
    if Contains(val, "GB") then FloatOrZero(Strip(RemoveAll(val, "GB"))) * UnitFactor
    else if Contains(val, "KB") then FloatOrZero(Strip(RemoveAll(val, "KB"))) / UnitFactor
    else if 'B' in val then ByteSizeMb
    else FloatOrZero(Strip(RemoveAll(val, "MB")))
  }

  lemma NumberCharIsPlain(c: char)
    requires IsNumberChar(c)
    ensures UpperChar(c) == c && !IsSpace(c)
    ensures c != 'G' && c != 'K' && c != 'M' && c != 'B'
  {
  }

  /** A number's text is not empty, is unchanged by upper-casing, has no
      white space, and contains no letter. */
  lemma NumberTextIsPlain(d: string)
    requires ParseFloat(d).Some?
    ensures d != [] && forall i :: 0 <= i < |d| ==> !IsSpace(d[i])
    ensures ToUpper(d) == d
    ensures Strip(d) == d
    ensures 'G' !in d && 'K' !in d && 'M' !in d && 'B' !in d
  {
    ParsedCharsAreNumberChars(d);
    forall i | 0 <= i < |d|
      ensures ToUpper(d)[i] == d[i] && !IsSpace(d[i])
      ensures d[i] != 'G' && d[i] != 'K' && d[i] != 'M' && d[i] != 'B'
    {
      NumberCharIsPlain(d[i]);
    }
    StripNoSpace(d);
  }

  /** White space, such as the blank in "1.5 GB". */
  predicate IsGap(gap: string) {
    forall k :: 0 <= k < |gap| ==> IsSpace(gap[k])
  }

  /** Upper-casing a number, a gap of white space and a two-letter unit
      written in any case changes only the unit. */
  lemma UpperNumberWithUnit(d: string, gap: string, unit: string, upper: string)
    requires ParseFloat(d).Some? && IsGap(gap)
    requires ToUpper(unit) == upper
    ensures ToUpper(d + gap + unit) == d + gap + upper
    ensures 'G' !in d + gap && 'K' !in d + gap && 'M' !in d + gap && 'B' !in d + gap
  {
    NumberTextIsPlain(d);
    assert ToUpper(gap) == gap;
    assert ToUpper(d + gap + unit) == ToUpper(d) + ToUpper(gap) + ToUpper(unit);
  }

  /** A number, optional white space and the unit "GB" (in any case) is
      that many gigabytes: "2GB" and "1.5 gb" are 2048 and 1536 MB. */
  lemma GigabytesScaleUp(d: string, gap: string, unit: string, v: real)
    requires ParseFloat(d) == Some(v) && IsGap(gap)
    requires ToUpper(unit) == "GB"
    ensures StandardizeSizeToMb(d + gap + unit) == v * 1024.0
  {
    var num := d + gap;
    UpperNumberWithUnit(d, gap, unit, "GB");
    NumberTextIsPlain(d);
    assert Contains("GB", "GB");
    ContainsInSuffix(num, "GB", "GB");
    RemoveAllKeepsPrefix(num, "GB", "GB");
    assert RemoveAll("GB", "GB") == RemoveAll("", "GB") == "";
    assert num + "" == num;
    StripTrailingGap(d, gap);
  }

  /** A number, optional white space and the unit "KB" (in any case) is
      that many kilobytes: "512KB" is 0.5 MB. */
  lemma KilobytesScaleDown(d: string, gap: string, unit: string, v: real)
    requires ParseFloat(d) == Some(v) && IsGap(gap)
    requires ToUpper(unit) == "KB"
    ensures StandardizeSizeToMb(d + gap + unit) == v / 1024.0
  {
    var num := d + gap;
    var val := num + "KB";
    UpperNumberWithUnit(d, gap, unit, "KB");
    NumberTextIsPlain(d);
    assert 'G' !in val;
    NotContainsWithoutFirstChar(val, "GB");
    assert Contains("KB", "KB");
    ContainsInSuffix(num, "KB", "KB");
    RemoveAllKeepsPrefix(num, "KB", "KB");
    assert RemoveAll("KB", "KB") == RemoveAll("", "KB") == "";
    assert num + "" == num;
    StripTrailingGap(d, gap);
  }

  /** A bare number is already in megabytes: "7" is 7 MB. */
  lemma BareNumberIsMegabytes(d: string, v: real)
    requires ParseFloat(d) == Some(v)
    ensures StandardizeSizeToMb(d) == v
  {
    NumberTextIsPlain(d);
    NotContainsWithoutFirstChar(d, "GB");
    NotContainsWithoutFirstChar(d, "KB");
    NotContainsWithoutFirstChar(d, "MB");
    RemoveAbsent(d, "MB");
  }

  /** Because the 'B' test comes before the megabyte case, a number followed
      by "MB" is caught by the byte branch: "5MB" gives 0.01, not 5. */
  lemma MegabytesTakeTheByteBranch(d: string, gap: string, unit: string)
    requires ParseFloat(d).Some? && IsGap(gap)
    requires ToUpper(unit) == "MB"
    ensures StandardizeSizeToMb(d + gap + unit) == ByteSizeMb
  {
    var val := d + gap + "MB";
    UpperNumberWithUnit(d, gap, unit, "MB");
    NumberTextIsPlain(d);
    assert 'G' !in val && 'K' !in val;
    NotContainsWithoutFirstChar(val, "GB");
    NotContainsWithoutFirstChar(val, "KB");
    assert val[|val| - 1] == 'B';
  }

  /** The removal of "MB" in the last branch never removes anything: that
      branch is reached only by texts without a 'B'. */
  lemma MegabyteRemovalIsDead(raw: string)
    requires !Contains(ToUpper(raw), "GB") && !Contains(ToUpper(raw), "KB")
    requires 'B' !in ToUpper(raw)
    ensures StandardizeSizeToMb(raw) == FloatOrZero(Strip(ToUpper(raw)))
  {
    var val := ToUpper(raw);
    forall i | 0 <= i && i + 2 <= |val| ensures !OccursAt(val, "MB", i) {
      assert val[i..i + 2][1] == val[i + 1] != 'B';
    }
    ContainsIffOccurs(val, "MB");
    RemoveAbsent(val, "MB");
  }

  /** Texts float() rejects fall back to 0.0 instead of raising, in each of
      the three branches that call it ("xGB", "abcKB", "N/A"); a text with
      any 'B' and neither "GB" nor "KB" gives the byte size whatever else it
      holds. */
  lemma Fallbacks(raw: string)
    ensures var val := ToUpper(raw);
      (Contains(val, "GB") && ParseFloat(Strip(RemoveAll(val, "GB"))).None?)
      ==> StandardizeSizeToMb(raw) == 0.0
    ensures var val := ToUpper(raw);
      (!Contains(val, "GB") && Contains(val, "KB") && ParseFloat(Strip(RemoveAll(val, "KB"))).None?)
      ==> StandardizeSizeToMb(raw) == 0.0
    ensures var val := ToUpper(raw);
      (!Contains(val, "GB") && !Contains(val, "KB") && 'B' !in val && ParseFloat(Strip(val)).None?)
      ==> StandardizeSizeToMb(raw) == 0.0
    ensures var val := ToUpper(raw);
      (!Contains(val, "GB") && !Contains(val, "KB") && 'B' in val)
      ==> StandardizeSizeToMb(raw) == ByteSizeMb
  {
    var val := ToUpper(raw);
    if !Contains(val, "GB") && !Contains(val, "KB") && 'B' !in val {
      MegabyteRemovalIsDead(raw);
    }
  }

  /** The size text is read without regard to letter case. */
  lemma SizeIgnoresCase(raw: string)
    ensures StandardizeSizeToMb(ToUpper(raw)) == StandardizeSizeToMb(raw)
    ensures StandardizeSizeToMb(ToLower(raw)) == StandardizeSizeToMb(raw)
  {
    CaseRoundTrips(raw);
  }

  lemma GigabyteUnits()
    ensures ToUpper("GB") == "GB" && ToUpper("gb") == "GB"
  {
    var u, l := ToUpper("GB"), ToUpper("gb");
    assert u[0] == 'G' && u[1] == 'B';
    assert l[0] == 'G' && l[1] == 'B';
  }

  /** Two gigabytes, whatever the case of the unit. */
  lemma TwoGigabytes(unit: string)
    requires ToUpper(unit) == "GB"
    ensures StandardizeSizeToMb("2" + unit) == 2048.0
  {
    ParseNatToString(2);
    assert NatToString(2) == "2";
    GigabytesScaleUp("2", "", unit, 2.0);
    assert "2" + "" + unit == "2" + unit;
  }

  /** "2GB" and "2gb" are 2048 MB. */
  lemma ExampleGigabytes()
    ensures StandardizeSizeToMb("2GB") == 2048.0
    ensures StandardizeSizeToMb("2gb") == 2048.0
  {
    GigabyteUnits();
    TwoGigabytes("GB");
    assert "2" + "GB" == "2GB";
    TwoGigabytes("gb");
    assert "2" + "gb" == "2gb";
  }

  lemma KilobyteUnit()
    ensures ToUpper("KB") == "KB"
  {
    var u := ToUpper("KB");
    assert u[0] == 'K' && u[1] == 'B';
  }

  lemma ParseFiveTwelve()
    ensures ParseFloat("512") == Some(512.0)
  {
    ParseNatToString(512);
    assert NatToString(512) == "512";
  }

  /** "512KB" is half a megabyte. */
  lemma ExampleKilobytes()
    ensures StandardizeSizeToMb("512KB") == 0.5
  {
    KilobyteUnit();
    ParseFiveTwelve();
    KilobytesScaleDown("512", "", "KB", 512.0);
    assert "512" + "" + "KB" == "512KB";
  }

  /** "5MB" takes the byte branch; "7" is 7 MB. */
  lemma ExampleMegabytes()
    ensures StandardizeSizeToMb("5MB") == 0.01
    ensures StandardizeSizeToMb("7") == 7.0
  {
    ParseNatToString(5);
    assert NatToString(5) == "5";
    MegabytesTakeTheByteBranch("5", "", "MB");
    assert "5" + "" + "MB" == "5MB";
    ParseNatToString(7);
    assert NatToString(7) == "7";
    BareNumberIsMegabytes("7", 7.0);
  }

  /** "10B" is the fixed byte size. */
  lemma ExampleBytes()
    ensures StandardizeSizeToMb("10B") == 0.01
  {
    var ten := ToUpper("10B");
    assert ten == "10B";
    assert 'G' !in ten && 'K' !in ten;
    NotContainsWithoutFirstChar(ten, "GB");
    NotContainsWithoutFirstChar(ten, "KB");
    assert ten[2] == 'B';
  }

  lemma NotApplicableUnchanged()
    ensures ToUpper("N/A") == "N/A"
  {
    var na := "N/A";
    assert !IsLowerLetter(na[0]) && !IsLowerLetter(na[1]) && !IsLowerLetter(na[2]);
  }

  /** A text that starts with anything but a sign, a digit or a point is
      not a number. */
  lemma RejectedStart(s: string)
    requires |s| > 0 && !IsDigit(s[0]) && s[0] != '+' && s[0] != '-' && s[0] != '.'
    ensures ParseFloat(s) == None
  {
    assert LeadingDigits(s) == 0;
    assert s[0..] == s;
  }

  /** The same after strip(), for a text without white space. */
  lemma RejectedAfterStrip(s: string)
    requires forall k :: 0 <= k < |s| ==> !IsSpace(s[k])
    requires |s| > 0 && !IsDigit(s[0]) && s[0] != '+' && s[0] != '-' && s[0] != '.'
    ensures ParseFloat(Strip(s)) == None
  {
    StripNoSpace(s);
    RejectedStart(s);
  }

  lemma NotApplicableRejected()
    ensures ParseFloat(Strip("N/A")) == None
  {
    var na := "N/A";
    assert forall k :: 0 <= k < |na| ==> !IsSpace(na[k]) by {
      assert na[0] == 'N' && na[1] == '/' && na[2] == 'A';
    }
    RejectedAfterStrip(na);
  }

  lemma NotApplicableHasNoUnit()
    ensures !Contains("N/A", "GB") && !Contains("N/A", "KB") && 'B' !in "N/A"
  {
    var na := "N/A";
    assert 'G' !in na && 'K' !in na && 'B' !in na;
    NotContainsWithoutFirstChar(na, "GB");
    NotContainsWithoutFirstChar(na, "KB");
  }

  /** "N/A" is not a number and falls back to 0.0. */
  lemma ExampleUnparseable()
    ensures StandardizeSizeToMb("N/A") == 0.0
  {
    NotApplicableUnchanged();
    NotApplicableRejected();
    NotApplicableHasNoUnit();
    Fallbacks("N/A");
  }
}
