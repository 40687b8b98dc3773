/** The ranking step of the match scorer: `matches.sort(key=score,
    reverse=True)` (main.py:112), a stable sort in descending order of the
    emitted compatibility score. `SortDesc` is the specification; the
    in-place `SortByScoreDesc` is proved to compute it, and the lemmas prove
    that it is sorted, a permutation, and keeps equal scores in their
    original order. */
module Ranking {

  /** One record of the match list (main.py:102-110, schemas.py:30-37). */
  datatype Match = Match(
    userId: int,
    name: string,
    age: int,
    gender: string,
    city: string,
    interests: seq<string>,
    score: real)

  /** Non-increasing by score. */
  predicate SortedDesc(s: seq<Match>) {
    forall i, j :: 0 <= i < j < |s| ==> s[i].score >= s[j].score
  }

  /** The records whose score is `v`, in their order in `s`. A sort is
      stable exactly when it keeps each of these subsequences as it was. */
  function WithScore(s: seq<Match>, v: real): seq<Match> {
    if s == [] then []
    else if s[0].score == v then [s[0]] + WithScore(s[1..], v)
    else WithScore(s[1..], v)
  }

  lemma {:induction false} WithScoreAppend(s: seq<Match>, t: seq<Match>, v: real)
    ensures WithScore(s + t, v) == WithScore(s, v) + WithScore(t, v)
    decreases |s|
  {
    if s == [] {
      assert s + t == t;
    } else {
      var st := s + t;
      assert st != [] && st[0] == s[0] && st[1..] == s[1..] + t;
      WithScoreAppend(s[1..], t, v);
      if s[0].score == v {
        calc {
          WithScore(st, v);
          [s[0]] + WithScore(s[1..] + t, v);
          [s[0]] + (WithScore(s[1..], v) + WithScore(t, v));
          ([s[0]] + WithScore(s[1..], v)) + WithScore(t, v);
        }
      }
    }
  }

  /** Places `x`, which came before every record of the sorted list `t`,
      in front of the first record whose score is not above its own. */
  function Insert(x: Match, t: seq<Match>): (r: seq<Match>)
    ensures |r| == |t| + 1
  {
    if t == [] || x.score >= t[0].score then [x] + t
    else [t[0]] + Insert(x, t[1..])
  }

  /** The stable descending sort of `s`: each record is inserted into the
      sorted rest of the list, ahead of the later records with its score. */
  function SortDesc(s: seq<Match>): (r: seq<Match>)
    ensures |r| == |s|
  {
    if s == [] then [] else Insert(s[0], SortDesc(s[1..]))
  }

  lemma {:induction false} InsertSorted(x: Match, t: seq<Match>)
    requires SortedDesc(t)
    ensures SortedDesc(Insert(x, t))
    ensures Insert(x, t)[0] == x || Insert(x, t)[0] == t[0]
    decreases |t|
  {
    if t == [] || x.score >= t[0].score {
    } else {
      var u := Insert(x, t[1..]);
      InsertSorted(x, t[1..]);
      assert t[0].score >= u[0].score;
      assert Insert(x, t) == [t[0]] + u;
    }
  }

  lemma {:induction false} InsertPermutes(x: Match, t: seq<Match>)
    ensures multiset(Insert(x, t)) == multiset{x} + multiset(t)
    decreases |t|
  {
    if t == [] || x.score >= t[0].score {
    } else {
      InsertPermutes(x, t[1..]);
      assert t == [t[0]] + t[1..];
    }
  }

  lemma WithScoreSingle(x: Match, v: real)
    ensures WithScore([x], v) == if x.score == v then [x] else []
  {
    assert [x][1..] == [];
  }

  /** Inserting `x` puts it in front of the records of its own score and
      leaves every other score's records as they were. */
  lemma {:induction false} InsertStable(x: Match, t: seq<Match>, v: real)
    ensures WithScore(Insert(x, t), v) == WithScore([x], v) + WithScore(t, v)
    decreases |t|
  {
    WithScoreSingle(x, v);
    if t == [] || x.score >= t[0].score {
      WithScoreAppend([x], t, v);
    } else {
      var h, rest := t[0], t[1..];
      var u := Insert(x, rest);
      assert Insert(x, t) == [h] + u;
      assert ([h] + u)[0] == h && ([h] + u)[1..] == u;
      InsertStable(x, rest, v);
      if h.score == v {
        assert WithScore([x], v) == [];
        assert WithScore([h] + u, v) == [h] + WithScore(u, v);
        assert WithScore(t, v) == [h] + WithScore(rest, v);
      } else {
        assert WithScore([h] + u, v) == WithScore(u, v);
        assert WithScore(t, v) == WithScore(rest, v);
      }
    }
  }

  /** The result is sorted non-increasing by score. */
  lemma {:induction false} SortDescSorted(s: seq<Match>)
    ensures SortedDesc(SortDesc(s))
    decreases |s|
  {
    if s != [] {
      SortDescSorted(s[1..]);
      InsertSorted(s[0], SortDesc(s[1..]));
    }
  }

  /** The result holds the same records as the input, each as often. */
  lemma {:induction false} SortDescPermutes(s: seq<Match>)
    ensures multiset(SortDesc(s)) == multiset(s)
    decreases |s|
  {
    if s != [] {
      SortDescPermutes(s[1..]);
      InsertPermutes(s[0], SortDesc(s[1..]));
      assert s == [s[0]] + s[1..];
    }
  }

  /** Stability: records with equal scores keep their input order. */
  lemma {:induction false} SortDescStable(s: seq<Match>, v: real)
    ensures WithScore(SortDesc(s), v) == WithScore(s, v)
    decreases |s|
  {
    if s != [] {
      SortDescStable(s[1..], v);
      InsertStable(s[0], SortDesc(s[1..]), v);
      WithScoreAppend([s[0]], s[1..], v);
      assert s == [s[0]] + s[1..];
    }
  }

  /** Insert places `x` after the first `k` records when those score
      strictly higher than `x` and the next one, if any, does not. */
  lemma {:induction false} InsertPosition(x: Match, t: seq<Match>, k: nat)
    requires k <= |t|
    requires forall m :: 0 <= m < k ==> t[m].score > x.score
    requires k == |t| || t[k].score <= x.score
    ensures Insert(x, t) == t[..k] + [x] + t[k..]
    decreases k
  {
    if k == 0 {
      assert t[..0] == [] && t[0..] == t;
    } else {
      InsertPosition(x, t[1..], k - 1);
      assert t[1..][..k - 1] == t[1..k];
      assert t[1..][k - 1..] == t[k..];
      assert t[..k] == [t[0]] + t[1..k];
    }
  }

  /** The suffix after the shift: the records that moved left, then `x`,
      then the records that stayed. */
  lemma ShiftedSuffix(before: seq<Match>, after: seq<Match>, i: nat, j: nat)
    requires i <= j < |before| == |after|
    requires forall k :: 0 <= k < i ==> after[k] == before[k]
    requires forall k :: i <= k < j ==> after[k] == before[k + 1]
    requires after[j] == before[i]
    requires forall k :: j < k < |after| ==> after[k] == before[k]
    requires forall k :: i < k <= j ==> before[k].score > before[i].score
    requires j + 1 == |before| || before[j + 1].score <= before[i].score
    ensures after[..i] == before[..i]
    ensures after[i..] == Insert(before[i], before[i + 1..])
  {
    var x, t := before[i], before[i + 1..];
    assert after[i..] == t[..j - i] + [x] + t[j - i..];
    InsertPosition(x, t, j - i);
  }

  /** Moves `a[i]` rightwards past every record of the suffix `a[i + 1..]`
      that scores strictly higher, shifting those records one place left. */
  method InsertAt(a: array<Match>, i: int)
    requires 0 <= i < a.Length
    modifies a
    ensures a[..i] == old(a[..i])
    ensures a[i..] == Insert(old(a[i]), old(a[i + 1..]))
  {
    ghost var before := a[..];
    var x := a[i];
    var j := i;
    while j + 1 < a.Length && a[j + 1].score > x.score
      invariant i <= j < a.Length
      invariant forall k :: 0 <= k < i ==> a[k] == before[k]
      invariant forall k :: i <= k < j ==> a[k] == before[k + 1]
      invariant forall k :: j < k < a.Length ==> a[k] == before[k]
      invariant forall k :: i < k <= j ==> before[k].score > x.score
      decreases a.Length - j
    {
      a[j] := a[j + 1];
      j := j + 1;
    }
    a[j] := x;
    ShiftedSuffix(before, a[..], i, j);
  }

  /** Sorts `a` in place by insertion, from the right end: after the call
      `a` holds the stable descending sort of what it held before. */
  method SortByScoreDesc(a: array<Match>)
    modifies a
    ensures a[..] == SortDesc(old(a[..]))
  {
    ghost var input := a[..];
    var i := a.Length;
    while i > 0
      invariant 0 <= i <= a.Length
      invariant a[..i] == input[..i]
      invariant a[i..] == SortDesc(input[i..])
    {
      i := i - 1;
      assert input[i..] == [input[i]] + input[i + 1..];
      InsertAt(a, i);
    }
    assert a[..] == a[0..];
    assert input == input[0..];
  }
}
