# Matchmaking service: match scorer and profile store

A Dafny model of the small matchmaking web service in `main.py`. The
service stores user profiles and ranks, for one profile, the profiles of
the other gender by a compatibility score.

- `Profiles` (profiles.dfy): the stored profile, the handlers' error
  outcomes (`NotFound`, `EmailTaken`, `ConstraintViolation`), and
  `Result`/`Option`.
- `Scoring` (scoring.dfy): the three sub-scores of `find_matches`.
  - Interest: Jaccard similarity of the interest sets.
  - Age: `1 - |Δage| / 50`, not clamped.
  - City: equality ignoring case.
  - Also their weighted sum and Python's `round(x, 2)`.
  - The arithmetic uses exact `real` numbers.
- `Ranking` (ranking.dfy): the stable descending sort by score.
  - `SortDesc` is the specification. Lemmas prove that its result is sorted, is a permutation of the input, and is stable.
  - `SortByScoreDesc` is an in-place insertion sort on an `array`, proved to compute `SortDesc`.
- `Matching` (matching.dfy): the match scorer.
  - Candidate selection: other gender and other id.
  - One record per candidate, built by a loop.
  - The final sort.
  - `Ranked` is its specification, and `FindMatchesFor` is the imperative version proved equal to it.
- `Store` (store.dfy): the request handlers over the profile table.
  - The class `UserStore` has two fields: a map from id to profile, and the order in which the table lists its rows.
  - Its methods are create, list, get, update, delete and find-matches.
  - Every method keeps the table invariant: each row is listed once, each row is stored under its own id, and emails are unique.
- `Scenarios` (scenarios.dfy): the fixture profiles and the scenarios of `testapi.py`, worked out in the model. John against Sarah scores exactly 73.8, and John against Emily exactly 41.9.

## Model

| member | source | states |
|---|---|---|
| Scoring.Jaccard | main.py:88-92 | the interest ratio lies in [0, 1] and is 0 when both interest sets are empty |
| Scoring.JaccardIsOne | main.py:89-92 | the ratio is 1 exactly when both profiles have the same non-empty interest set |
| Scoring.JaccardIsZero | main.py:89-92 | the ratio is 0 exactly when the interest sets share no tag |
| Scoring.InterestScore | main.py:85-92 | interest_score of two lists lies in [0, 1] and is 0 when both lists are empty |
| Scoring.InterestScoreIgnoresOrder | main.py:85-92 | interest_score depends only on which tags occur: not on duplicates, not on order, and not on which profile is the subject |
| Scoring.AgeScore | main.py:93 | age_score is at most 1, equals 1 exactly for equal ages, and is non-negative exactly when the ages differ by at most 50 |
| Scoring.Lower | main.py:94 | the lower-cased city has the same length, no upper-case ASCII letter, and the same letter as the original at every position up to case |
| Scoring.LowerIdempotent | main.py:94 | lower-casing an already lower-cased string changes nothing |
| Scoring.LowerEqualIff | main.py:94 | comparing lower-cased cities is the same as equality ignoring ASCII case, character by character |
| Scoring.CityScore | main.py:94 | city_score is 1 exactly when the cities are equal ignoring case, and 0 exactly when they are not |
| Scoring.Compatibility | main.py:96-100 | the unrounded compatibility score is at most 100, and non-negative whenever the ages differ by at most 50 |
| Scoring.PerfectScore | main.py:96-100 | the score is exactly 100 when, and only when, the profiles have the same non-empty interest set, the same age and the same city up to case |
| Scoring.CompatibilitySymmetric | main.py:85-100 | swapping subject and candidate does not change the score |
| Scoring.NegativeScoreForLargeAgeGap | main.py:93-100 | with no lower clamp, two profiles 100 years apart with no interests and different cities score -30 |
| Scoring.Round2 | main.py:109 | the emitted score lies within 0.005 of the exact one and is a whole number of hundredths |
| Scoring.Round2Monotone | main.py:109 | rounding preserves order |
| Scoring.Round2Idempotent | main.py:109 | rounding a rounded score changes nothing |
| Scoring.RoundedScoreBounds | main.py:96-109 | the emitted score is at most 100, and at least 0 whenever the ages differ by at most 50 (the range asserted at testapi.py:119) |
| Ranking.InsertStable | main.py:112 | one insertion step puts the new record in front of the records with its score, and leaves every score's records in their order |
| Ranking.SortDescSorted | main.py:112 | the sorted list is non-increasing by score |
| Ranking.SortDescPermutes | main.py:112 | the sorted list holds the same records as the input, each as often |
| Ranking.SortDescStable | main.py:112 | for every score value, the records with that score appear in the same order as in the input |
| Ranking.InsertAt | main.py:112 | one pass of the in-place insertion sort inserts `a[i]` into the sorted suffix and leaves the prefix alone |
| Ranking.SortByScoreDesc | main.py:112 | the in-place sort leaves the array holding `SortDesc` of its old contents |
| Matching.CandidatesExact | main.py:79-82 | the candidate query keeps exactly the profiles of another gender and another id, each as often as it occurs |
| Matching.RankedIsEligible | main.py:79-110 | there is one record per eligible candidate; each record is some eligible profile's fields with its score; no record has the subject's gender or id; with no eligible profile the result is empty |
| Matching.RankedOrder | main.py:112 | the result is sorted non-increasing by score (the order asserted at testapi.py:121-122) and is a permutation of the records in enumeration order; records with equal scores keep enumeration order, as Python's stable sort does |
| Matching.RankedScoreBounds | main.py:79-110 | every emitted score is at most 100, and at least 0 when no candidate (a profile of another gender and another id) is more than 50 years from the subject; other stored profiles play no part |
| Matching.FindMatchesFor | main.py:84-112 | the append loop followed by the in-place sort returns exactly `Ranked`, so the result is sorted and a permutation of the scored candidates |
| Store.MergedIdempotent | main.py:51-57 | applying an update twice equals applying it once, and an update with no fields set changes nothing |
| Store.MergedFields | main.py:51-57 | each supplied field takes the supplied value, `interests` as a whole list; each unset field and the id keep the stored value |
| Store.Without | main.py:69 | after deletion the listing order holds every id except the deleted one, and an order without that id is left as it is |
| Store.WithoutAt | main.py:69 | in a duplicate-free order, deletion closes the gap at the deleted id's one position; every other id keeps its place relative to the rest |
| Store.ListingAfterRemoval | main.py:69 | removing the row at position `k` of the order removes exactly the profile at position `k` of the listing |
| Store.UserStore.constructor | models.py:5-14 | an empty table satisfies the table invariant |
| Store.UserStore.Create | main.py:19-31 | a stored email gives EmailTaken and changes nothing; otherwise the profile is stored under the fresh id and appended to the listing |
| Store.UserStore.ListUsers | main.py:33-36 | returns `min(limit, n - skip)` profiles of the listing starting at position `skip`, or none when `skip` is at least the row count `n` |
| Store.UserStore.Get | main.py:38-43 | returns the stored profile exactly when the id is present, else NotFound |
| Store.UserStore.Update | main.py:45-61 | an unknown id gives NotFound; an email held by another row is refused by the unique constraint (models.py:12) and nothing changes; otherwise the row becomes the merge of the stored row and the update |
| Store.UserStore.Delete | main.py:63-71 | an unknown id gives NotFound and changes nothing; otherwise the row leaves the table, and the new listing is the old one with that one profile removed and the rest in their order |
| Store.UserStore.FindMatches | main.py:73-77 | an unknown id gives NotFound; otherwise the result is the ranked matches of that profile against the whole listing |
| Scenarios.JohnAndSarahScore | testapi.py:8-23 | John against Sarah scores interest 2/4, age 0.96 and city 1, so exactly 73.8, which rounding keeps |
| Scenarios.JohnAndEmilyScore | testapi.py:8-31 | John against Emily scores interest 1/4, age 0.98 and city 0, so exactly 41.9 |
| Scenarios.JohnsRanking | main.py:79-112 | against the three fixtures, John's ranking is Sarah (73.8) and then Emily (41.9) |
| Scenarios.FixtureStore | testapi.py:35-41 | creating the three fixtures in an empty store lists them in creation order under ids 1, 2 and 3 |
| Scenarios.MatchingScenario | testapi.py:104-123 | find_matches for John in the fixture store returns Sarah then Emily, with scores 73.8 and 41.9 |
| Scenarios.DeletionScenario | testapi.py:83-102 | reading a profile after deleting it gives NotFound |
| Scenarios.UpdateScenario | testapi.py:64-81 | updating name, age and interests replaces those fields and keeps gender, email and city |
| Scenarios.DuplicateEmailScenario | main.py:21-23 | a second create with a stored email gives EmailTaken and leaves the first profile readable |

## Left out

- HTTP routing, status codes, request parsing and the database session
  dependency (main.py:1-17). The handlers are methods on `UserStore`; HTTP
  404 and 400 become `Err(NotFound)` and `Err(EmailTaken)`.
- The database engine and ORM: queries, commit, refresh, and the id the
  database assigns. `Create` takes the new id as a `freshId` parameter,
  which must not already be in the table. The model does not require that
  ids are never reused after a delete.
- Row order: neither the `read_users` query (main.py:35) nor the candidate
  query of `find_matches` (main.py:79-82) has an `ORDER BY`, so both orders
  are up to the database engine. The model lists rows in creation order in
  both places. The candidate order is the order that `Matching.RankedOrder`
  keeps among records with equal scores.
- `ListUsers`: `skip` and `limit` are natural numbers. How the database
  engine treats negative offsets and limits is not part of this model.
- `ListUsers`: the request defaults `skip = 0` and `limit = 10`
  (main.py:34) belong to HTTP parameter parsing. Callers pass both values
  explicitly.
- The JSON encoding of `interests` in its column (models.py:14-22). The
  model stores the list itself and assumes the encoding round-trips.
- Request validation by the schema library, including the `EmailStr` check
  and its 422 response (testapi.py:50-62). Emails are compared exactly as
  given, with no normalisation.
- `Update`: a field sent as an explicit JSON `null` is treated as unset. The
  source would write `None` into that column.
- `Update`: an email clash makes the commit fail with the database's
  integrity error, an unhandled server error. The model returns
  `Err(ConstraintViolation)` and leaves the table as it was, standing for
  the rolled-back transaction.
- Floating point: scores are exact `real` numbers.
- `Round2`: Python's `round(x, 2)` rounds the nearest binary float, so a
  float just beside a tie can round the other way. The model rounds the
  exact value half to even. Its contract bounds the error by 0.005 and
  does not claim bit-for-bit agreement with the floats.
- `Lower`, `LowerIdempotent`, `LowerEqualIff`, `CityScore`: `str.lower()`
  is modelled for ASCII letters only. Other Unicode case mappings are not
  part of this model.
- Concurrency: concurrent requests and transaction isolation are out of
  scope. Each handler runs alone against the table.
