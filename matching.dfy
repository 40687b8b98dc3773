/** The match scorer (main.py:73-113): select the eligible candidates, score
    each one, emit one record per candidate and rank the records. */
module Matching {
  import opened Profiles
  import opened Scoring
  import opened Ranking

  /** The candidate selection rule (main.py:79-82): a different gender value
      and a different id from the subject's. */
  predicate Eligible(subject: Profile, candidate: Profile) {
    candidate.gender != subject.gender && candidate.id != subject.id
  }

  /** The `potential_matches` query: the eligible profiles, in the order in
      which the store lists them. */
  function Candidates(subject: Profile, profiles: seq<Profile>): seq<Profile> {
    if profiles == [] then []
    else (if Eligible(subject, profiles[0]) then [profiles[0]] else [])
         + Candidates(subject, profiles[1..])
  }

  /** Exactly the eligible profiles survive the query, and each keeps its
      multiplicity. */
  lemma {:induction false} CandidatesExact(subject: Profile, profiles: seq<Profile>)
    ensures forall c :: c in Candidates(subject, profiles) <==> c in profiles && Eligible(subject, c)
    ensures forall c :: Eligible(subject, c) ==>
              multiset(Candidates(subject, profiles))[c] == multiset(profiles)[c]
    ensures forall c :: !Eligible(subject, c) ==> multiset(Candidates(subject, profiles))[c] == 0
    decreases |profiles|
  {
    if profiles != [] {
      CandidatesExact(subject, profiles[1..]);
      assert profiles == [profiles[0]] + profiles[1..];
    }
  }

  /** The record emitted for one candidate (main.py:102-110): the
      candidate's own fields and the rounded compatibility score. */
  function ToMatch(subject: Profile, candidate: Profile): Match {
    Match(candidate.id, candidate.name, candidate.age, candidate.gender,
          candidate.city, candidate.interests,
          Round2(Compatibility(subject, candidate)))
  }

  /** The records in enumeration order, before ranking. */
  function Scored(subject: Profile, candidates: seq<Profile>): seq<Match> {
    seq(|candidates|, i requires 0 <= i < |candidates| => ToMatch(subject, candidates[i]))
  }

  /** What find_matches returns for `subject` when the store lists `profiles`. */
  function Ranked(subject: Profile, profiles: seq<Profile>): seq<Match> {
    SortDesc(Scored(subject, Candidates(subject, profiles)))
  }

  /** The ranked list holds one record per eligible candidate and nothing
      else; every record names a profile of another gender and not the
      subject; with no eligible candidate the list is empty. */
  lemma RankedIsEligible(subject: Profile, profiles: seq<Profile>)
    ensures |Ranked(subject, profiles)| == |Candidates(subject, profiles)|
    ensures forall m :: m in Ranked(subject, profiles) <==>
              exists c :: c in profiles && Eligible(subject, c) && m == ToMatch(subject, c)
    ensures forall m :: m in Ranked(subject, profiles) ==>
              m.gender != subject.gender && m.userId != subject.id
    ensures (forall c :: c in profiles ==> !Eligible(subject, c)) ==> Ranked(subject, profiles) == []
  {
    var cands := Candidates(subject, profiles);
    var scored := Scored(subject, cands);
    CandidatesExact(subject, profiles);
    SortDescPermutes(scored);
    forall m ensures m in Ranked(subject, profiles) <==> m in scored {
      assert m in multiset(Ranked(subject, profiles)) <==> m in multiset(scored);
    }
    forall m | m in scored
      ensures exists c :: c in profiles && Eligible(subject, c) && m == ToMatch(subject, c)
    {
      var k :| 0 <= k < |scored| && scored[k] == m;
      assert cands[k] in cands;
    }
    forall c | c in profiles && Eligible(subject, c) ensures ToMatch(subject, c) in scored {
      var k :| 0 <= k < |cands| && cands[k] == c;
      assert scored[k] == ToMatch(subject, c);
    }
    if cands != [] {
      assert cands[0] in cands;
    }
  }

  /** The ranked list is sorted non-increasing by the emitted score, is a
      permutation of the records in enumeration order, and records with equal
      scores keep that order (main.py:112, testapi.py:121-122). */
  lemma RankedOrder(subject: Profile, profiles: seq<Profile>)
    ensures SortedDesc(Ranked(subject, profiles))
    ensures multiset(Ranked(subject, profiles)) ==
            multiset(Scored(subject, Candidates(subject, profiles)))
    ensures forall v :: WithScore(Ranked(subject, profiles), v) ==
                        WithScore(Scored(subject, Candidates(subject, profiles)), v)
  {
    var scored := Scored(subject, Candidates(subject, profiles));
    SortDescSorted(scored);
    SortDescPermutes(scored);
    forall v ensures WithScore(Ranked(subject, profiles), v) == WithScore(scored, v) {
      SortDescStable(scored, v);
    }
  }

  /** Every emitted score is at most 100, and at least 0 when no candidate's
      age is more than 50 from the subject's (testapi.py:119); profiles that
      are not candidates, such as those of the subject's gender, play no
      part. */
  lemma RankedScoreBounds(subject: Profile, profiles: seq<Profile>)
    ensures forall m :: m in Ranked(subject, profiles) ==> m.score <= 100.0
    ensures (forall c :: c in profiles && Eligible(subject, c) ==> Abs(subject.age - c.age) <= 50) ==>
              forall m :: m in Ranked(subject, profiles) ==> 0.0 <= m.score
  {
    RankedIsEligible(subject, profiles);
    forall m | m in Ranked(subject, profiles)
      ensures m.score <= 100.0
      ensures (forall c :: c in profiles && Eligible(subject, c) ==> Abs(subject.age - c.age) <= 50) ==>
                0.0 <= m.score
    {
      var c :| c in profiles && Eligible(subject, c) && m == ToMatch(subject, c);
      RoundedScoreBounds(subject, c);
    }
  }

  /** find_matches once the subject is loaded: builds the records by a loop
      over the candidates (main.py:84-110) and sorts them in place
      (main.py:112). */
  method FindMatchesFor(subject: Profile, profiles: seq<Profile>) returns (matches: seq<Match>)
    ensures matches == Ranked(subject, profiles)
    ensures SortedDesc(matches)
    ensures multiset(matches) == multiset(Scored(subject, Candidates(subject, profiles)))
  {
    var potential := Candidates(subject, profiles);
    var built: seq<Match> := [];
    for k := 0 to |potential|
      invariant built == Scored(subject, potential[..k])
    {
      var candidate := potential[k];
      var interest := InterestScore(subject.interests, candidate.interests);
      var age := AgeScore(subject.age, candidate.age);
      var city := CityScore(subject.city, candidate.city);
      var compatibility := (interest * 0.5 + age * 0.3 + city * 0.2) * 100.0;
      built := built + [Match(candidate.id, candidate.name, candidate.age, candidate.gender,
                              candidate.city, candidate.interests, Round2(compatibility))];
    }
    assert potential[..|potential|] == potential;
    var a := new Match[|built|](i requires 0 <= i < |built| => built[i]);
    assert a[..] == built;
    SortByScoreDesc(a);
    matches := a[..];
    RankedOrder(subject, profiles);
  }
}
