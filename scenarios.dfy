/** The scenarios of the service's test suite (testapi.py), worked out in
    the model: its three fixture profiles, the deletion test, the update
    test, the duplicate-email rule and the matching test. */
module Scenarios {
  import opened Profiles
  import opened Scoring
  import opened Ranking
  import opened Matching
  import opened Store

  /** The fixture profiles of testapi.py:8-31, stored under ids 1, 2, 3. */
  const JohnIn := NewProfile("John Smith", 30, "male", "john.smith@test.com", "New York",
                             ["reading", "travel", "music"])
  const SarahIn := NewProfile("Sarah Johnson", 28, "female", "sarah.j@test.com", "New York",
                              ["travel", "music", "cooking"])
  const EmilyIn := NewProfile("Emily Brown", 31, "female", "emily.b@test.com", "Boston",
                              ["sports", "reading"])

  function Stored(id: int, p: NewProfile): Profile {
    Profile(id, p.name, p.age, p.gender, p.email, p.city, p.interests)
  }

  /** The five interest tags of the fixtures are pairwise different: they
      already differ in their first letter. */
  lemma TagsDistinct()
    ensures "reading" != "travel" && "reading" != "music" && "reading" != "cooking"
    ensures "reading" != "sports" && "travel" != "music" && "travel" != "cooking"
    ensures "travel" != "sports" && "music" != "cooking" && "music" != "sports"
  {
    assert "reading"[0] == 'r' && "travel"[0] == 't' && "music"[0] == 'm';
    assert "cooking"[0] == 'c' && "sports"[0] == 's';
  }

  lemma FourTags(a: string, b: string, c: string, d: string)
    requires a != b && a != c && a != d && b != c && b != d && c != d
    ensures |{a, b, c, d}| == 4
  {
    assert {a, b, c, d} == {a, b, c} + {d};
    assert {a, b, c} == {a, b} + {c};
  }

  /** Lists [a, b, c] and [b, c, d] of distinct tags share two of four. */
  lemma TwoOfFourShared(a: string, b: string, c: string, d: string)
    requires a != b && a != c && a != d && b != c && b != d && c != d
    ensures InterestScore([a, b, c], [b, c, d]) == 0.5
  {
    assert AsSet([a, b, c]) == {a, b, c};
    assert AsSet([b, c, d]) == {b, c, d};
    assert {a, b, c} * {b, c, d} == {b, c};
    assert {a, b, c} + {b, c, d} == {a, b, c, d};
    assert |{b, c}| == 2;
    FourTags(a, b, c, d);
  }

  /** Lists [a, b, c] and [d, a] of distinct tags share one of four. */
  lemma OneOfFourShared(a: string, b: string, c: string, d: string)
    requires a != b && a != c && a != d && b != c && b != d && c != d
    ensures InterestScore([a, b, c], [d, a]) == 0.25
  {
    assert AsSet([a, b, c]) == {a, b, c};
    assert AsSet([d, a]) == {d, a};
    assert {a, b, c} * {d, a} == {a};
    assert {a, b, c} + {d, a} == {a, b, c, d};
    FourTags(a, b, c, d);
  }

  /** John and Sarah share two of four distinct tags. */
  lemma JohnAndSarahInterests()
    ensures InterestScore(JohnIn.interests, SarahIn.interests) == 0.5
  {
    TagsDistinct();
    TwoOfFourShared("reading", "travel", "music", "cooking");
  }

  /** John and Emily share one of four distinct tags. */
  lemma JohnAndEmilyInterests()
    ensures InterestScore(JohnIn.interests, EmilyIn.interests) == 0.25
  {
    TagsDistinct();
    OneOfFourShared("reading", "travel", "music", "sports");
  }

  /** John against Sarah: interest 2/4, age 0.96, same city, 73.8 in all,
      which rounding to two decimals keeps. */
  lemma JohnAndSarahScore()
    ensures Compatibility(Stored(1, JohnIn), Stored(2, SarahIn)) == 73.8
    ensures Round2(73.8) == 73.8
  {
    JohnAndSarahInterests();
    assert EqualIgnoringCase("New York", "New York");
  }

  lemma NewYorkIsNotBoston()
    ensures !EqualIgnoringCase("New York", "Boston")
  {
    assert "New York"[0] == 'N' && "Boston"[0] == 'B';
    assert !SameLetter('N', 'B');
  }

  /** John against Emily: interest 1/4, age 0.98, different cities, 41.9. */
  lemma JohnAndEmilyScore()
    ensures Compatibility(Stored(1, JohnIn), Stored(3, EmilyIn)) == 41.9
    ensures Round2(41.9) == 41.9
  {
    JohnAndEmilyInterests();
    NewYorkIsNotBoston();
  }

  /** John's ranking against the three fixtures: Sarah, then Emily. */
  lemma JohnsRanking()
    ensures Ranked(Stored(1, JohnIn), [Stored(1, JohnIn), Stored(2, SarahIn), Stored(3, EmilyIn)])
            == [ToMatch(Stored(1, JohnIn), Stored(2, SarahIn)),
                ToMatch(Stored(1, JohnIn), Stored(3, EmilyIn))]
    ensures ToMatch(Stored(1, JohnIn), Stored(2, SarahIn)).score == 73.8
    ensures ToMatch(Stored(1, JohnIn), Stored(3, EmilyIn)).score == 41.9
  {
    var j, s, e := Stored(1, JohnIn), Stored(2, SarahIn), Stored(3, EmilyIn);
    JohnAndSarahScore();
    JohnAndEmilyScore();
    assert Candidates(j, [j, s, e]) == [s, e] by {
      assert [j, s, e][1..] == [s, e] && [s, e][1..] == [e] && [e][1..] == [];
      assert Candidates(j, [e]) == [e];
      assert Candidates(j, [s, e]) == [s] + Candidates(j, [e]);
      assert Candidates(j, [j, s, e]) == Candidates(j, [s, e]);
    }
    var scored := [ToMatch(j, s), ToMatch(j, e)];
    assert Scored(j, [s, e]) == scored;
    assert SortDesc(scored) == scored by {
      assert scored[1..] == [ToMatch(j, e)] && [ToMatch(j, e)][1..] == [];
    }
  }

  /** The setUp of the test suite (testapi.py:35-41): the three fixtures
      created in order in an empty store. */
  method FixtureStore() returns (store: UserStore)
    ensures fresh(store) && store.Valid()
    ensures store.rows == map[1 := Stored(1, JohnIn), 2 := Stored(2, SarahIn), 3 := Stored(3, EmilyIn)]
    ensures store.Listing() == [Stored(1, JohnIn), Stored(2, SarahIn), Stored(3, EmilyIn)]
  {
    store := new UserStore();
    var john := store.Create(JohnIn, 1);
    assert store.rows == map[1 := Stored(1, JohnIn)];
    assert !EmailInUse(store.rows, SarahIn.email);
    var sarah := store.Create(SarahIn, 2);
    assert store.rows == map[1 := Stored(1, JohnIn), 2 := Stored(2, SarahIn)];
    assert !EmailInUse(store.rows, EmilyIn.email);
    var emily := store.Create(EmilyIn, 3);
  }

  /** The matching test (testapi.py:104-123): John's matches are Sarah then
      Emily, both of the other gender, scored 73.8 and 41.9, in descending
      order. */
  method MatchingScenario() returns (r: Result<seq<Match>>)
    ensures r == Ok([ToMatch(Stored(1, JohnIn), Stored(2, SarahIn)),
                     ToMatch(Stored(1, JohnIn), Stored(3, EmilyIn))])
    ensures r.Ok? && r.value[0].score == 73.8 && r.value[1].score == 41.9
  {
    var store := FixtureStore();
    r := store.FindMatches(1);
    JohnsRanking();
  }

  /** The deletion test (testapi.py:83-102): after a profile is deleted,
      reading it fails with NotFound. */
  method DeletionScenario() returns (r: Result<Profile>)
    ensures r == Err(NotFound)
  {
    var store := new UserStore();
    var temp := store.Create(NewProfile("Temp User", 25, "male", "temp.user@test.com",
                                        "Chicago", ["testing"]), 7);
    var gone := store.Delete(7);
    r := store.Get(7);
  }

  /** The update test (testapi.py:64-81): name, age and interests are
      replaced; gender, email and city keep their stored values. */
  method UpdateScenario() returns (r: Result<Profile>)
    ensures r == Ok(Profile(1, "John Smith Updated", 31, "male", "john.smith@test.com",
                            "New York", ["reading", "travel", "music", "hiking"]))
  {
    var store := new UserStore();
    var john := store.Create(JohnIn, 1);
    r := store.Update(1, ProfileUpdate(Some("John Smith Updated"), Some(31), None, None, None,
                                       Some(["reading", "travel", "music", "hiking"])));
  }

  /** A second profile with a stored email is refused (main.py:21-23), and
      the first one is still there. */
  method DuplicateEmailScenario() returns (r: Result<Profile>, first: Result<Profile>)
    ensures r == Err(EmailTaken)
    ensures first == Ok(Stored(1, JohnIn))
  {
    var store := new UserStore();
    var john := store.Create(JohnIn, 1);
    r := store.Create(NewProfile("Another John", 40, "male", "john.smith@test.com",
                                 "Boston", []), 2);
    first := store.Get(1);
  }
}
