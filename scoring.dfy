/** The three per-candidate sub-scores of the match scorer, their weighted
    sum, and rounding to two decimals (main.py:85-100, main.py:109).
    Arithmetic is exact: every score is a ratio of integers, so `real`
    stands for the source's floating-point values. */
module Scoring {
  import opened Profiles

  function Abs(x: int): nat {
    if x < 0 then -x else x
  }

  /** The set of tags in an interest list (duplicates collapse, order is lost). */
  function AsSet(s: seq<string>): set<string> {
    set x | x in s
  }

  /** Cardinality facts about sets that the Jaccard bounds rest on. */
  lemma SubsetSameSize<T>(s: set<T>, t: set<T>)
    requires s <= t && |s| == |t|
    ensures s == t
  {
    assert t == s + (t - s);
    assert |t| == |s| + |t - s|;
    assert t - s == {};
  }

  /** Jaccard similarity |A ∩ B| / |A ∪ B|, and 0 when both sets are empty
      (main.py:89-92). */
  function Jaccard(a: set<string>, b: set<string>): (r: real)
    ensures 0.0 <= r <= 1.0
    ensures a + b == {} ==> r == 0.0
  {
    var common := |a * b|;
    var total := |a + b|;
    SubsetSize(a * b, a + b);
    if total > 0 then RatioAtMostOne(common, total); common as real / total as real else 0.0
  }

  lemma SubsetSize<T>(s: set<T>, t: set<T>)
    requires s <= t
    ensures |s| <= |t|
  {
    assert t == s + (t - s);
  }

  lemma RatioAtMostOne(n: nat, d: nat)
    requires n <= d && d > 0
    ensures 0.0 <= n as real / d as real <= 1.0
  {
  }

  /** The score is exactly 1 when, and only when, the two sets are the same
      non-empty set. */
  lemma JaccardIsOne(a: set<string>, b: set<string>)
    ensures Jaccard(a, b) == 1.0 <==> a == b && a != {}
  {
    if Jaccard(a, b) == 1.0 {
      assert |a + b| > 0;
      assert |a * b| == |a + b|;
      SubsetSameSize(a * b, a + b);
      assert a == b by {
        forall x | x in a + b ensures x in a && x in b {
          assert x in a * b;
        }
      }
    }
    if a == b && a != {} {
      assert a * b == a && a + b == a;
    }
  }

  /** The score is 0 when, and only when, the sets share no tag. */
  lemma JaccardIsZero(a: set<string>, b: set<string>)
    ensures Jaccard(a, b) == 0.0 <==> a * b == {}
  {
    if a + b != {} {
      assert |a + b| > 0;
    }
  }

  lemma JaccardSymmetric(a: set<string>, b: set<string>)
    ensures Jaccard(a, b) == Jaccard(b, a)
  {
    assert a * b == b * a && a + b == b + a;
  }

  /** interest_score: Jaccard similarity of the two interest lists taken as
      sets (main.py:85-92). */
  function InterestScore(subject: seq<string>, candidate: seq<string>): (r: real)
    ensures 0.0 <= r <= 1.0
    ensures subject == [] && candidate == [] ==> r == 0.0
  {
    Jaccard(AsSet(subject), AsSet(candidate))
  }

  /** The interest score sees only which tags occur: neither duplicates nor
      order in either list change it, and it is the same whichever profile
      is the subject. */
  lemma InterestScoreIgnoresOrder(s: seq<string>, s': seq<string>, c: seq<string>, c': seq<string>)
    requires forall x :: x in s <==> x in s'
    requires forall x :: x in c <==> x in c'
    ensures InterestScore(s, c) == InterestScore(s', c')
    ensures InterestScore(s, c) == InterestScore(c', s')
  {
    assert AsSet(s) == AsSet(s');
    assert AsSet(c) == AsSet(c');
    JaccardSymmetric(AsSet(s), AsSet(c));
  }

  /** age_score: 1 - |Δage| / 50, not clamped (main.py:93). It is at most 1,
      reaches 1 exactly when the ages are equal, and is non-negative exactly
      when the ages differ by at most 50. */
  function AgeScore(subjectAge: int, candidateAge: int): (r: real)
    ensures r <= 1.0
    ensures r == 1.0 <==> subjectAge == candidateAge
    ensures r >= 0.0 <==> Abs(subjectAge - candidateAge) <= 50
  {
    1.0 - Abs(subjectAge - candidateAge) as real / 50.0
  }

  /** ASCII lower-casing, standing for the source's `str.lower()`. */
  function LowerChar(c: char): char {
    if 'A' <= c <= 'Z' then (c as int + 32) as char else c
  }

  /** Two characters are the same letter up to case: equal, or one is an
      upper-case ASCII letter and the other its lower-case form. */
  predicate SameLetter(x: char, y: char) {
    x == y
    || ('A' <= x <= 'Z' && y as int == x as int + 32)
    || ('A' <= y <= 'Z' && x as int == y as int + 32)
  }

  /** The lower-cased string holds no upper-case ASCII letter and matches
      the original character by character up to case. */
  function Lower(s: string): (r: string)
    ensures |r| == |s|
    ensures forall i :: 0 <= i < |r| ==> !('A' <= r[i] <= 'Z')
    ensures forall i :: 0 <= i < |s| ==> SameLetter(s[i], r[i])
  {
    seq(|s|, i requires 0 <= i < |s| => LowerChar(s[i]))
  }

  /** Lower-casing twice is lower-casing once. */
  lemma LowerIdempotent(s: string)
    ensures Lower(Lower(s)) == Lower(s)
  {
    var r := Lower(s);
    forall i | 0 <= i < |r| ensures Lower(r)[i] == r[i] {
      assert !('A' <= r[i] <= 'Z');
    }
  }

  /** Case-insensitive equality, stated character by character. */
  predicate EqualIgnoringCase(a: string, b: string) {
    |a| == |b| && forall i :: 0 <= i < |a| ==> SameLetter(a[i], b[i])
  }

  lemma SameLetterIff(x: char, y: char)
    ensures LowerChar(x) == LowerChar(y) <==> SameLetter(x, y)
  {
  }

  /** Comparing lower-cased strings is case-insensitive equality. */
  lemma LowerEqualIff(a: string, b: string)
    ensures Lower(a) == Lower(b) <==> EqualIgnoringCase(a, b)
  {
    if Lower(a) == Lower(b) {
      forall i | 0 <= i < |a| ensures SameLetter(a[i], b[i]) {
        assert Lower(a)[i] == Lower(b)[i];
        SameLetterIff(a[i], b[i]);
      }
    }
    if EqualIgnoringCase(a, b) {
      forall i | 0 <= i < |a| ensures Lower(a)[i] == Lower(b)[i] {
        SameLetterIff(a[i], b[i]);
      }
    }
  }

  /** city_score: 1 when the cities are equal ignoring case, else 0 (main.py:94). */
  function CityScore(subjectCity: string, candidateCity: string): (r: real)
    ensures r == 1.0 <==> EqualIgnoringCase(subjectCity, candidateCity)
    ensures r == 0.0 <==> !EqualIgnoringCase(subjectCity, candidateCity)
  {
    LowerEqualIff(subjectCity, candidateCity);
    if Lower(subjectCity) == Lower(candidateCity) then 1.0 else 0.0
  }

  /** The unrounded compatibility score (main.py:96-100): the weighted sum
      0.5 * interest + 0.3 * age + 0.2 * city, times 100. It never exceeds
      100, and it is non-negative whenever the ages differ by at most 50. */
  function Compatibility(subject: Profile, candidate: Profile): (r: real)
    ensures r <= 100.0
    ensures Abs(subject.age - candidate.age) <= 50 ==> r >= 0.0
  {
    (InterestScore(subject.interests, candidate.interests) * 0.5
     + AgeScore(subject.age, candidate.age) * 0.3
     + CityScore(subject.city, candidate.city) * 0.2) * 100.0
  }

  /** The score is 100 exactly for the same non-empty interest set, the
      same age and the same city up to case. */
  lemma PerfectScore(subject: Profile, candidate: Profile)
    ensures Compatibility(subject, candidate) == 100.0 <==>
      && AsSet(subject.interests) == AsSet(candidate.interests)
      && subject.interests != []
      && subject.age == candidate.age
      && EqualIgnoringCase(subject.city, candidate.city)
  {
    var i := InterestScore(subject.interests, candidate.interests);
    JaccardIsOne(AsSet(subject.interests), AsSet(candidate.interests));
    if subject.interests != [] {
      assert subject.interests[0] in AsSet(subject.interests);
    }
    if AsSet(subject.interests) != {} {
      var x :| x in AsSet(subject.interests);
      assert subject.interests != [];
    }
  }

  /** The score does not depend on which of the two profiles is the subject. */
  lemma CompatibilitySymmetric(p: Profile, q: Profile)
    ensures Compatibility(p, q) == Compatibility(q, p)
  {
    JaccardSymmetric(AsSet(p.interests), AsSet(q.interests));
    LowerEqualIff(p.city, q.city);
    LowerEqualIff(q.city, p.city);
  }

  /** Nothing bounds the score from below: ages 100 apart give -30. */
  lemma NegativeScoreForLargeAgeGap()
    ensures Compatibility(Profile(1, "A", 100, "male", "a@x.io", "Paris", []),
                          Profile(2, "B", 0, "female", "b@x.io", "Rome", [])) == -30.0
  {
    var p := Profile(1, "A", 100, "male", "a@x.io", "Paris", []);
    var q := Profile(2, "B", 0, "female", "b@x.io", "Rome", []);
    assert !EqualIgnoringCase(p.city, q.city) by {
      assert !SameLetter(p.city[0], q.city[0]);
    }
  }

  /** Python's round(x, 2) on the exact value: the nearest multiple of 0.01,
      ties to the even hundredth (main.py:109). */
  function Round2(x: real): (r: real)
    ensures -0.005 <= r - x <= 0.005
    ensures (r * 100.0).Floor as real == r * 100.0
  {
    var scaled := x * 100.0;
    var f := scaled.Floor;
    var frac := scaled - f as real;
    var n := if frac < 0.5 then f
             else if frac > 0.5 then f + 1
             else if f % 2 == 0 then f else f + 1;
    n as real / 100.0
  }

  /** Rounding keeps order, so rounded scores sort like the exact ones
      (up to ties introduced by rounding). */
  lemma Round2Monotone(x: real, y: real)
    requires x <= y
    ensures Round2(x) <= Round2(y)
  {
    var fx, fy := (x * 100.0).Floor, (y * 100.0).Floor;
    assert fx <= fy;
  }

  /** A value already on the hundredths grid is left as it is. */
  lemma Round2Idempotent(x: real)
    ensures Round2(Round2(x)) == Round2(x)
  {
    var r := Round2(x);
    var n := (r * 100.0).Floor;
    assert (r * 100.0) - n as real == 0.0;
  }

  /** The emitted score stays within [0, 100] whenever the exact one does,
      which is the range the test suite asserts (testapi.py:119). */
  lemma RoundedScoreBounds(subject: Profile, candidate: Profile)
    ensures Round2(Compatibility(subject, candidate)) <= 100.0
    ensures Abs(subject.age - candidate.age) <= 50 ==>
              Round2(Compatibility(subject, candidate)) >= 0.0
  {
    var c := Compatibility(subject, candidate);
    Round2Monotone(c, 100.0);
    assert Round2(100.0) == 100.0;
    if Abs(subject.age - candidate.age) <= 50 {
      Round2Monotone(0.0, c);
      assert Round2(0.0) == 0.0;
    }
  }
}
