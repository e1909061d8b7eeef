/** The StackOverflow pipeline's features derived from the comma-separated
    top_tags text: its breadth and its count of architecture keywords. */
module TagFeatures {
  import opened Options
  import opened Text
  import opened Cleaning

  /** The architecture vocabulary, matched as lower-case substrings. */
  const ArchKeywords: seq<string> :=
    ["azure", "aws", "kubernetes", "sql-server", "database", "asynchronous", "git-submodules"]

  /** len(tags.split(',')) */
  function TagBreadth(tags: string): nat {
    |Split(tags, ',')|
  }

  /** The breadth is the number of commas plus one, so never below one
      (an empty text still counts as one tag). */
  lemma TagBreadthCountsCommas(tags: string)
    ensures TagBreadth(tags) == CountChar(tags, ',') + 1
    ensures TagBreadth(tags) >= 1
  {
    SplitCount(tags, ',');
  }

  /** sum(1 for kw in kws if kw in text) */
  function MatchCount(kws: seq<string>, text: string): (n: nat)
    ensures n <= |kws|
  {
    if kws == [] then 0
    else (if Contains(text, kws[0]) then 1 else 0) + MatchCount(kws[1..], text)
  }

  /** The keyword count of the lower-cased tags. */
  function ArchKeywordsCount(tags: string): nat {
    MatchCount(ArchKeywords, ToLower(tags))
  }

  /** The terms of kws that occur in text. */
  function Matched(kws: seq<string>, text: string): set<string> {
    set kw | kw in kws && Contains(text, kw)
  }

  /** With no term listed twice, the count is the number of distinct terms
      found in the text. */
  lemma {:induction false} MatchCountIsDistinctMatches(kws: seq<string>, text: string)
    requires forall i, j :: 0 <= i < j < |kws| ==> kws[i] != kws[j]
    ensures MatchCount(kws, text) == |Matched(kws, text)|
  {
    if kws != [] {
      var rest := kws[1..];
      forall i, j | 0 <= i < j < |rest| ensures rest[i] != rest[j] {
        assert rest[i] == kws[i + 1] && rest[j] == kws[j + 1];
      }
      MatchCountIsDistinctMatches(rest, text);
      assert kws[0] !in rest by {
        forall j | 0 <= j < |rest| ensures rest[j] != kws[0] {
          assert rest[j] == kws[j + 1];
        }
      }
      assert forall kw :: kw in kws <==> kw == kws[0] || kw in rest by {
        assert kws == [kws[0]] + rest;
      }
      var found := if Contains(text, kws[0]) then {kws[0]} else {};
      assert Matched(kws, text) == Matched(rest, text) + found;
      assert kws[0] !in Matched(rest, text);
    } else {
      assert Matched(kws, text) == {};
    }
  }

  /** The keyword count is the number of distinct vocabulary terms found in
      the lower-cased tags, between 0 and 7. */
  lemma ArchKeywordsCountRange(tags: string)
    ensures ArchKeywordsCount(tags) == |Matched(ArchKeywords, ToLower(tags))|
    ensures 0 <= ArchKeywordsCount(tags) <= 7
  {
    MatchCountIsDistinctMatches(ArchKeywords, ToLower(tags));
  }

  /** A text holding at least the terms another holds has at least its
      count. */
  lemma {:induction false} MatchCountMonotone(kws: seq<string>, small: string, large: string)
    requires forall i :: 0 <= i < |kws| && Contains(small, kws[i]) ==> Contains(large, kws[i])
    ensures MatchCount(kws, small) <= MatchCount(kws, large)
  {
    if kws != [] {
      MatchCountMonotone(kws[1..], small, large);
    }
  }

  /** Adding tags never lowers the keyword count. */
  lemma MoreTagsNeverLowerTheCount(tags: string, more: string)
    ensures ArchKeywordsCount(tags) <= ArchKeywordsCount(tags + "," + more)
  {
    var whole := tags + "," + more;
    assert ToLower(whole) == ToLower(tags) + ToLower("," + more);
    forall i | 0 <= i < |ArchKeywords| && Contains(ToLower(tags), ArchKeywords[i])
      ensures Contains(ToLower(whole), ArchKeywords[i])
    {
      ContainsInPrefix(ToLower(tags), ToLower("," + more), ArchKeywords[i]);
    }
    MatchCountMonotone(ArchKeywords, ToLower(tags), ToLower(whole));
  }

  /** A pattern with a character missing from the text cannot occur. */
  lemma NotContainsWithoutChar(s: string, p: string, k: nat)
    requires k < |p| && p[k] !in s
    ensures !Contains(s, p)
  {
    ContainsIffOccurs(s, p);
    forall i | 0 <= i && i + |p| <= |s| ensures !OccursAt(s, p, i) {
      assert s[i..i + |p|][k] == s[i + k] != p[k];
    }
  }

  /** The documented example text. */
  const ExampleTags: string := "aws,kubernetes,general-stuff"

  /** Three comma-free tags joined by commas make a breadth of three. */
  lemma ThreeTags(a: string, b: string, c: string)
    requires ',' !in a && ',' !in b && ',' !in c
    ensures TagBreadth(a + "," + b + "," + c) == 3
  {
    CountCharAbsent(a, ',');
    CountCharAbsent(b, ',');
    CountCharAbsent(c, ',');
    CountCharAppend(a + "," + b + ",", c, ',');
    CountCharAppend(a + "," + b, ",", ',');
    CountCharAppend(a + ",", b, ',');
    CountCharAppend(a, ",", ',');
    TagBreadthCountsCommas(a + "," + b + "," + c);
  }

  /** The example has three tags. */
  lemma ExampleBreadth()
    ensures TagBreadth(ExampleTags) == 3
  {
    assert ExampleTags == "aws" + "," + "kubernetes" + "," + "general-stuff";
    ThreeTags("aws", "kubernetes", "general-stuff");
  }

  /** "aws" and "kubernetes" occur in the example. */
  lemma ExampleHits()
    ensures Contains(ExampleTags, ArchKeywords[1]) && Contains(ExampleTags, ArchKeywords[2])
  {
    var t := ExampleTags;
    assert t == "aws," + "kubernetes" + ",general-stuff";
    assert t[0..3] == "aws";
    assert OccursAt(t, "aws", 0);
    ContainsIffOccurs(t, "aws");
    assert t[4..14] == "kubernetes";
    assert OccursAt(t, "kubernetes", 4);
    ContainsIffOccurs(t, "kubernetes");
  }

  /** None of the last four terms occurs in the example: each has a letter
      the example lacks. */
  lemma ExampleMisses()
    ensures forall i :: 3 <= i < |ArchKeywords| ==> !Contains(ExampleTags, ArchKeywords[i])
  {
    forall i | 3 <= i < |ArchKeywords| ensures !Contains(ExampleTags, ArchKeywords[i]) {
      if i == 4 {
        NotContainsWithoutChar(ExampleTags, ArchKeywords[i], 0);
      } else if i == 5 {
        NotContainsWithoutChar(ExampleTags, ArchKeywords[i], 2);
      } else {
        NotContainsWithoutChar(ExampleTags, ArchKeywords[i], 1);
      }
    }
  }

  /** A text holding "aws" and "kubernetes" and no other term counts two. */
  lemma TwoOfSeven(t: string)
    requires !Contains(t, ArchKeywords[0])
    requires Contains(t, ArchKeywords[1]) && Contains(t, ArchKeywords[2])
    requires forall i :: 3 <= i < |ArchKeywords| ==> !Contains(t, ArchKeywords[i])
    ensures MatchCount(ArchKeywords, t) == 2
  {
    var kws := ArchKeywords;
    NoMatchCountsZero(kws[3..], t);
    assert kws[1..][1..] == kws[2..];
    assert kws[2..][1..] == kws[3..];
    assert MatchCount(kws[2..], t) == 1;
    assert MatchCount(kws[1..], t) == 2;
  }

  /** The example counts two keywords ("general-stuff" matches none). */
  lemma ExampleKeywordCount()
    ensures ArchKeywordsCount(ExampleTags) == 2
  {
    assert ToLower(ExampleTags) == ExampleTags;
    NotContainsWithoutChar(ExampleTags, ArchKeywords[0], 1);
    ExampleHits();
    ExampleMisses();
    TwoOfSeven(ExampleTags);
  }

  /** The count ignores letter case: the tags upper-cased or lower-cased
      count the same terms. */
  lemma KeywordCountIgnoresCase(tags: string)
    ensures ArchKeywordsCount(ToUpper(tags)) == ArchKeywordsCount(tags)
    ensures ArchKeywordsCount(ToLower(tags)) == ArchKeywordsCount(tags)
  {
    CaseRoundTrips(tags);
  }

  /** The example written with capitals. */
  const CapitalisedTags: string := "AWS,Kubernetes,General-Stuff"

  /** Lower-casing the capitalised example gives the example. */
  lemma CapitalisedTagsLowered()
    ensures ToLower(CapitalisedTags) == ExampleTags
  {
    var c := CapitalisedTags;
    assert IsUpperLetter(c[0]) && IsUpperLetter(c[1]) && IsUpperLetter(c[2]);
    assert IsUpperLetter(c[4]) && IsUpperLetter(c[15]) && IsUpperLetter(c[23]);
    assert forall i :: 0 <= i < |c| && i !in {0, 1, 2, 4, 15, 23} ==> !IsUpperLetter(c[i]);
  }

  /** Capitals are counted: "AWS,Kubernetes,General-Stuff" counts the same
      two terms as its lower-case spelling. */
  lemma CapitalisedTagsCount()
    ensures ArchKeywordsCount(CapitalisedTags) == 2
  {
    CapitalisedTagsLowered();
    KeywordCountIgnoresCase(CapitalisedTags);
    ExampleKeywordCount();
  }

  /** No term found gives a count of zero. */
  lemma {:induction false} NoMatchCountsZero(kws: seq<string>, text: string)
    requires forall i :: 0 <= i < |kws| ==> !Contains(text, kws[i])
    ensures MatchCount(kws, text) == 0
  {
    if kws != [] {
      NoMatchCountsZero(kws[1..], text);
    }
  }

  /** A missing tag cell becomes "general": breadth 1, no keyword. */
  lemma MissingTagsFeatures()
    ensures TagBreadth(FillTags(None)) == 1
    ensures ArchKeywordsCount(FillTags(None)) == 0
  {
    var t := FillTags(None);
    assert t == "general";
    assert ToLower(t) == t;
    assert CountChar(t, ',') == 0;
    TagBreadthCountsCommas(t);
    forall i | 0 <= i < |ArchKeywords| ensures !Contains(t, ArchKeywords[i]) {
      var kw := ArchKeywords[i];
      assert (kw[0] !in t) || (|kw| > 1 && kw[1] !in t);
      if kw[0] !in t {
        NotContainsWithoutChar(t, kw, 0);
      } else {
        NotContainsWithoutChar(t, kw, 1);
      }
    }
    NoMatchCountsZero(ArchKeywords, t);
  }
}
