/** `parse_age`: free-text age ("2 years", "3 weeks") to a whole number of
    months.  Every failure of the original (missing cell, fewer than two
    tokens, a first token `int()` rejects) yields 0 instead of an error. */
module AgeParser {
  import opened Wrappers
  import opened Strings
  import opened Integers

  /** Months for `num` units, the unit recognised by case-sensitive
      substring with priority year, then month, then week. */
  function ScaleByUnit(num: int, unit: string): (months: int)
    ensures Contains(unit, "year") ==> months == num * 12
    ensures !Contains(unit, "year") && Contains(unit, "month") ==> months == num
    ensures !Contains(unit, "year") && !Contains(unit, "month") && Contains(unit, "week") ==>
              months * 4 <= num < months * 4 + 4
    ensures !Contains(unit, "year") && !Contains(unit, "month") && !Contains(unit, "week") ==>
              months == 0
  {
    if Contains(unit, "year") then num * 12
    else if Contains(unit, "month") then num
    else if Contains(unit, "week") then num / 4
    else 0
  }

  function ParseAge(age: Option<string>): (months: int)
    ensures age.None? ==> months == 0
    ensures age.Some? && |Split(age.value)| < 2 ==> months == 0
    ensures age.Some? && |Split(age.value)| >= 2 && ParseInt(Split(age.value)[0]).None? ==> months == 0
  {
    match age
    case None => 0
    case Some(text) =>
      var parts := Split(text);
      if |parts| < 2 then 0
      else
        match ParseInt(parts[0])
        case None => 0
        case Some(num) => ScaleByUnit(num, parts[1])
  }

  /** The result is never negative unless the number is written with a
      minus sign. */
  lemma ParseAgeNonNegative(text: string)
    requires |Split(text)| == 0 || Split(text)[0][0] != '-'
    ensures ParseAge(Some(text)) >= 0
  {
  }

  /** For every integer `n` and every one-word unit, "<n> <unit>" is read
      as `n` units. */
  lemma ParseAgeWellFormed(n: int, unit: string)
    requires IsWord(unit)
    ensures ParseAge(Some(ShowInt(n) + " " + unit)) == ScaleByUnit(n, unit)
  {
    ShowIntIsWord(n);
    assert ShowInt(n) + " " + unit == Join([ShowInt(n), unit]);
    SplitJoin([ShowInt(n), unit]);
    ParseShowInt(n);
  }

  /** The same reading holds whatever whitespace surrounds and separates the
      number and the unit. */
  lemma ParseAgeAnySpacing(n: int, unit: string, gaps: seq<string>)
    requires IsWord(unit)
    requires Separators([ShowInt(n), unit], gaps)
    ensures ParseAge(Some(Spaced([ShowInt(n), unit], gaps))) == ScaleByUnit(n, unit)
  {
    ShowIntIsWord(n);
    SplitSpaced([ShowInt(n), unit], gaps);
    ParseShowInt(n);
  }

  /** A tab separator and a leading space: " 2\tyears" is 24 months. */
  lemma ParseAgeTabExample()
    ensures ParseAge(Some(" 2\tyears")) == 24
  {
    var unit := "years";
    var gaps := [" ", "\t", ""];
    assert ShowInt(2) == "2";
    assert Spaced([unit], gaps[1..]) == "\t" + unit + Spaced([], gaps[2..]);
    assert Spaced([ShowInt(2), unit], gaps) == " " + "2" + ("\t" + unit + "");
    assert Spaced([ShowInt(2), unit], gaps) == " 2\tyears";
    ParseAgeAnySpacing(2, unit, gaps);
    ContainsAtStart(unit, "year");
  }

  lemma ShowIntIsWord(n: int)
    ensures IsWord(ShowInt(n))
  {
    var s := ShowInt(n);
    forall i | 0 <= i < |s| ensures !IsSpace(s[i]) {
      if n < 0 && i > 0 {
        assert s[i] == ShowNat(-n)[i - 1];
      }
    }
  }

  /** Tokens after the second never influence the result. */
  lemma ParseAgeIgnoresExtraTokens(text: string)
    requires |Split(text)| >= 2
    ensures ParseAge(Some(text)) == ParseAge(Some(Join(Split(text)[..2])))
  {
    SplitJoin(Split(text)[..2]);
  }

  /** A unit where no possible start of `sub` holds its first letter does not
      contain it. */
  lemma NotContains(s: string, sub: string)
    requires |sub| > 0
    requires forall i :: 0 <= i && i + |sub| <= |s| ==> s[i] != sub[0]
    ensures !Contains(s, sub)
  {
    forall i | 0 <= i && i + |sub| <= |s| ensures !OccursAt(s, sub, i) {
      assert s[i..i + |sub|][0] == s[i];
    }
  }

  lemma ContainsAtStart(s: string, sub: string)
    requires sub <= s
    ensures Contains(s, sub)
  {
    assert OccursAt(s, sub, 0);
  }

  lemma ParseAgeYearsExample()
    ensures ParseAge(Some("2 years")) == 24
  {
    var unit := "years";
    assert ShowInt(2) == "2";
    assert "2 years" == ShowInt(2) + " " + unit;
    ParseAgeWellFormed(2, unit);
    ContainsAtStart(unit, "year");
  }

  /** `int()` accepts a sign, so a negative age goes through unchanged. */
  lemma ParseAgeNegativeExample()
    ensures ParseAge(Some("-2 years")) == -24
  {
    var unit := "years";
    assert ShowInt(-2) == "-2";
    assert "-2 years" == ShowInt(-2) + " " + unit;
    ParseAgeWellFormed(-2, unit);
    ContainsAtStart(unit, "year");
  }

  lemma ParseAgeYearExample()
    ensures ParseAge(Some("1 year")) == 12
  {
    var unit := "year";
    assert ShowInt(1) == "1";
    assert "1 year" == ShowInt(1) + " " + unit;
    ParseAgeWellFormed(1, unit);
    ContainsAtStart(unit, "year");
  }

  lemma ParseAgeMonthsExample()
    ensures ParseAge(Some("3 months")) == 3
  {
    var unit := "months";
    assert ShowInt(3) == "3";
    assert "3 months" == ShowInt(3) + " " + unit;
    ParseAgeWellFormed(3, unit);
    NotContains(unit, "year");
    ContainsAtStart(unit, "month");
  }

  lemma ParseAgeTwoMonthsExample()
    ensures ParseAge(Some("2 months")) == 2
  {
    var unit := "months";
    assert ShowInt(2) == "2";
    assert "2 months" == ShowInt(2) + " " + unit;
    ParseAgeWellFormed(2, unit);
    NotContains(unit, "year");
    ContainsAtStart(unit, "month");
  }

  /** Weeks are floor-divided by four: "4 weeks" is one month ... */
  lemma ParseAgeFourWeeksExample()
    ensures ParseAge(Some("4 weeks")) == 1
  {
    var unit := "weeks";
    assert ShowInt(4) == "4";
    assert "4 weeks" == ShowInt(4) + " " + unit;
    ParseAgeWellFormed(4, unit);
    NotContains(unit, "year");
    NotContains(unit, "month");
    ContainsAtStart(unit, "week");
  }

  /** ... and "3 weeks" is none. */
  lemma ParseAgeThreeWeeksExample()
    ensures ParseAge(Some("3 weeks")) == 0
  {
    var unit := "weeks";
    assert ShowInt(3) == "3";
    assert "3 weeks" == ShowInt(3) + " " + unit;
    ParseAgeWellFormed(3, unit);
    NotContains(unit, "year");
    NotContains(unit, "month");
    ContainsAtStart(unit, "week");
  }

  /** Units other than years, months and weeks count as 0 months. */
  lemma ParseAgeDaysExample()
    ensures ParseAge(Some("2 days")) == 0
  {
    var unit := "days";
    assert ShowInt(2) == "2";
    assert "2 days" == ShowInt(2) + " " + unit;
    ParseAgeWellFormed(2, unit);
    NotContains(unit, "year");
    NotContains(unit, "month");
    NotContains(unit, "week");
  }

  lemma ParseAgeMalformedExample()
    ensures ParseAge(Some("banana")) == 0
    ensures ParseAge(Some("")) == 0
    ensures ParseAge(None) == 0
  {
    assert "banana" == Join(["banana"]);
    SplitJoin(["banana"]);
  }
}
