/** The derived columns `age_group` and `is_mix`, and the display order of
    the age groups. */
module Features {
  import opened Wrappers
  import opened Strings

  /** The four life-stage buckets. */
  datatype AgeGroup = Junior | YoungAdult | Adult | Senior {

    /** The text the `age_group` column holds. */
    function Label(): string {
      match this
      case Junior => "Junior"
      case YoungAdult => "Young adult"
      case Adult => "Adult"
      case Senior => "Senior"
    }

    /** The position of the bucket in the life-stage order. */
    function Rank(): nat {
      match this
      case Junior => 0
      case YoungAdult => 1
      case Adult => 2
      case Senior => 3
    }
  }

  /** `age_order`: the fixed display order of the `age_group` axis. */
  const AgeOrder: seq<string> := ["Junior", "Young adult", "Adult", "Senior"]

  /** The ages, in months, at which the next bucket starts. */
  const Thresholds: seq<int> := [12, 36, 96]

  /** How many of `ts` are at most `m`. */
  function CountAtMost(ts: seq<int>, m: int): nat
    decreases |ts|
  {
    if |ts| == 0 then 0 else (if ts[0] <= m then 1 else 0) + CountAtMost(ts[1..], m)
  }

  /** `classify_age`: the bucket is the number of thresholds already
      reached. */
  function ClassifyAge(months: int): (g: AgeGroup)
    ensures g.Rank() == CountAtMost(Thresholds, months)
    ensures AgeOrder[g.Rank()] == g.Label()
  {
    if months < 12 then Junior
    else if months < 36 then YoungAdult
    else if months < 96 then Adult
    else Senior
  }

  lemma ClassifyAgeBoundaries()
    ensures ClassifyAge(11) == Junior
    ensures ClassifyAge(12) == YoungAdult
    ensures ClassifyAge(35) == YoungAdult
    ensures ClassifyAge(36) == Adult
    ensures ClassifyAge(95) == Adult
    ensures ClassifyAge(96) == Senior
    ensures ClassifyAge(0) == Junior && ClassifyAge(-24) == Junior
  {
  }

  lemma {:induction false} CountAtMostMonotone(ts: seq<int>, a: int, b: int)
    requires a <= b
    ensures CountAtMost(ts, a) <= CountAtMost(ts, b)
    decreases |ts|
  {
    if |ts| > 0 {
      CountAtMostMonotone(ts[1..], a, b);
    }
  }

  /** An older animal is never in an earlier bucket. */
  lemma ClassifyAgeMonotone(a: int, b: int)
    requires a <= b
    ensures ClassifyAge(a).Rank() <= ClassifyAge(b).Rank()
  {
    CountAtMostMonotone(Thresholds, a, b);
  }

  /** Every bucket's label occurs exactly once in the display order, at the
      bucket's rank, and each bucket is reached by some age. */
  lemma AgeOrderListsEveryGroupOnce(g: AgeGroup)
    ensures multiset(AgeOrder)[g.Label()] == 1
    ensures AgeOrder[g.Rank()] == g.Label()
    ensures exists m :: ClassifyAge(m) == g
  {
    match g
    case Junior => assert ClassifyAge(0) == g;
    case YoungAdult => assert ClassifyAge(12) == g;
    case Adult => assert ClassifyAge(36) == g;
    case Senior => assert ClassifyAge(96) == g;
  }

  /** A Python string is truthy when it is non-empty. */
  predicate Truthy(s: string) {
    |s| > 0
  }

  /** Python's `sub in text` on a breed cell.  It is only ever reached with a
      present breed; a missing one is reported as not containing `sub`. */
  predicate CellContains(cell: Option<string>, sub: string) {
    cell.Some? && Contains(cell.value, sub)
  }

  /** `check_is_mix` as written: the condition `'Mix' or '/' in breed_text`
      parses as `'Mix' or ('/' in breed_text)`, whose left operand is a
      non-empty literal, so the result is "Yes" for every breed, including a
      missing one (the right operand is never evaluated). */
  function CheckIsMix(breed: Option<string>): (flag: string)
    ensures flag == "Yes"
  {
    if Truthy("Mix") || CellContains(breed, "/") then "Yes" else "No"
  }

  /** The mixed-breed test the code evidently intends, which is NOT what
      `check_is_mix` computes: the breed contains "Mix" or contains "/". */
  predicate IntendedIsMix(breed: string)
    ensures IntendedIsMix(breed) <==>
              (exists i :: OccursAt(breed, "Mix", i)) || (exists i :: 0 <= i < |breed| && breed[i] == '/')
  {
    SlashOccurs(breed);
    Contains(breed, "Mix") || Contains(breed, "/")
  }

  lemma SlashOccurs(breed: string)
    ensures (exists i :: OccursAt(breed, "/", i)) <==> (exists i :: 0 <= i < |breed| && breed[i] == '/')
  {
    if i :| OccursAt(breed, "/", i) {
      assert breed[i..i + 1][0] == breed[i];
    }
    if i :| 0 <= i < |breed| && breed[i] == '/' {
      assert breed[i..i + 1] == "/";
      assert OccursAt(breed, "/", i);
    }
  }

  /** The two agree exactly on the breeds the intended test calls mixed. */
  lemma CheckIsMixOverapproximates(breed: string)
    ensures IntendedIsMix(breed) ==> CheckIsMix(Some(breed)) == "Yes"
    ensures ((CheckIsMix(Some(breed)) == "Yes") == IntendedIsMix(breed)) <==> IntendedIsMix(breed)
  {
  }

  lemma IntendedIsMixExamples()
    ensures IntendedIsMix("Labrador Mix")
    ensures IntendedIsMix("Labrador/Poodle")
    ensures !IntendedIsMix("Labrador")
    ensures CheckIsMix(Some("Labrador")) == "Yes"
  {
    assert OccursAt("Labrador Mix", "Mix", 9);
    assert OccursAt("Labrador/Poodle", "/", 8);
    var s := "Labrador";
    forall i | 0 <= i && i + 3 <= |s| ensures !OccursAt(s, "Mix", i) {
      assert s[i..i + 3][0] == s[i];
    }
    forall i | 0 <= i && i + 1 <= |s| ensures !OccursAt(s, "/", i) {
      assert s[i..i + 1][0] == s[i];
    }
  }
}
