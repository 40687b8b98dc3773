/** The request handlers of the service (main.py:19-113) over the profile
    table, which is modelled as a map from id to profile plus the order in
    which the table lists its rows. */
module Store {
  import opened Profiles
  import Ranking
  import Matching

  /** The body of a create request (schemas.py:4-10, schemas.py:20-21). */
  datatype NewProfile = NewProfile(
    name: string,
    age: int,
    gender: string,
    email: string,
    city: string,
    interests: seq<string>)

  /** The body of an update request (schemas.py:12-18): `None` for every
      field the request left unset. */
  datatype ProfileUpdate = ProfileUpdate(
    name: Option<string>,
    age: Option<int>,
    gender: Option<string>,
    email: Option<string>,
    city: Option<string>,
    interests: Option<seq<string>>)

  /** An update request that sets no field. */
  const NoChanges := ProfileUpdate(None, None, None, None, None, None)

  function Pick<T>(given: Option<T>, current: T): T {
    if given.Some? then given.value else current
  }

  /** The row an update leaves behind (main.py:51-57): each supplied field
      overwrites the stored one, `interests` as a whole list; unset fields
      and the id keep their stored values. */
  function Merged(p: Profile, u: ProfileUpdate): Profile {
    Profile(p.id, Pick(u.name, p.name), Pick(u.age, p.age), Pick(u.gender, p.gender),
            Pick(u.email, p.email), Pick(u.city, p.city), Pick(u.interests, p.interests))
  }

  /** Applying the same update twice is the same as applying it once, and
      an update that sets nothing changes nothing. */
  lemma MergedIdempotent(p: Profile, u: ProfileUpdate)
    ensures Merged(Merged(p, u), u) == Merged(p, u)
    ensures Merged(p, NoChanges) == p
  {
  }

  /** The field-by-field contract of an update: a supplied field takes the
      supplied value, an unset one keeps the stored value. */
  lemma MergedFields(p: Profile, u: ProfileUpdate)
    ensures Merged(p, u).id == p.id
    ensures u.name.Some? ==> Merged(p, u).name == u.name.value
    ensures u.name.None? ==> Merged(p, u).name == p.name
    ensures u.age.Some? ==> Merged(p, u).age == u.age.value
    ensures u.age.None? ==> Merged(p, u).age == p.age
    ensures u.gender.Some? ==> Merged(p, u).gender == u.gender.value
    ensures u.gender.None? ==> Merged(p, u).gender == p.gender
    ensures u.email.Some? ==> Merged(p, u).email == u.email.value
    ensures u.email.None? ==> Merged(p, u).email == p.email
    ensures u.city.Some? ==> Merged(p, u).city == u.city.value
    ensures u.city.None? ==> Merged(p, u).city == p.city
    ensures u.interests.Some? ==> Merged(p, u).interests == u.interests.value
    ensures u.interests.None? ==> Merged(p, u).interests == p.interests
  {
  }

  /** Removes every occurrence of `id` from a listing order; the other ids
      keep their relative order. */
  function Without(order: seq<int>, id: int): (r: seq<int>)
    ensures forall k :: k in r <==> k in order && k != id
    ensures id !in order ==> r == order
  {
    if order == [] then []
    else (if order[0] == id then [] else [order[0]]) + Without(order[1..], id)
  }

  /** In a duplicate-free order, removing `id` closes the gap at its one
      position and leaves every other id where it was relative to the rest. */
  lemma {:induction false} WithoutAt(order: seq<int>, id: int, k: nat)
    requires Distinct(order)
    requires k < |order| && order[k] == id
    ensures Without(order, id) == order[..k] + order[k + 1..]
    decreases k
  {
    if k == 0 {
      assert id !in order[1..];
      assert Without(order[1..], id) == order[1..];
    } else {
      assert order[1..][k - 1] == id;
      WithoutAt(order[1..], id, k - 1);
      assert order[1..][..k - 1] == order[1..k];
      assert order[1..][k..] == order[k + 1..];
      assert order[..k] == [order[0]] + order[1..k];
    }
  }

  lemma {:induction false} WithoutDistinct(order: seq<int>, id: int)
    requires Distinct(order)
    ensures Distinct(Without(order, id))
    decreases |order|
  {
    if order != [] {
      WithoutDistinct(order[1..], id);
      assert order[0] !in order[1..];
    }
  }

  predicate Distinct(s: seq<int>) {
    forall i, j :: 0 <= i < j < |s| ==> s[i] != s[j]
  }

  predicate EmailInUse(rows: map<int, Profile>, email: string) {
    exists id :: id in rows && rows[id].email == email
  }

  /** The update would give row `id` an email that another row holds, which
      the unique constraint on the email column (models.py:12) refuses. */
  predicate EmailClash(rows: map<int, Profile>, id: int, u: ProfileUpdate) {
    u.email.Some? && exists other :: other in rows && other != id && rows[other].email == u.email.value
  }

  /** The table's invariants: the order lists every row exactly once, each
      row is stored under its own id, and no two rows share an email. */
  ghost predicate TableInvariant(rows: map<int, Profile>, order: seq<int>) {
    && Distinct(order)
    && (forall id :: id in rows <==> id in order)
    && (forall id :: id in rows ==> rows[id].id == id)
    && (forall a, b :: a in rows && b in rows && rows[a].email == rows[b].email ==> a == b)
  }

  /** Rewriting a row in place keeps the invariants when the new row keeps
      its id and takes no other row's email. */
  lemma ReplaceRowKeepsInvariant(rows: map<int, Profile>, order: seq<int>, id: int, p: Profile)
    requires TableInvariant(rows, order)
    requires id in rows && p.id == id
    requires forall other :: other in rows && other != id ==> rows[other].email != p.email
    ensures TableInvariant(rows[id := p], order)
  {
  }

  /** The rows named by `order`, in that order. */
  function ListingOf(rows: map<int, Profile>, order: seq<int>): (r: seq<Profile>)
    requires forall id :: id in order ==> id in rows
    ensures |r| == |order|
  {
    InOrderInRows(rows, order);
    seq(|order|, i requires 0 <= i < |order| && order[i] in rows => rows[order[i]])
  }

  lemma InOrderInRows(rows: map<int, Profile>, order: seq<int>)
    requires forall id :: id in order ==> id in rows
    ensures forall i :: 0 <= i < |order| ==> order[i] in rows
  {
    forall i | 0 <= i < |order| ensures order[i] in rows {
      var id := order[i];
      assert id in order;
    }
  }

  /** Deleting the row at position `k` of a duplicate-free order removes
      the profile at position `k` of the listing and nothing else. */
  lemma ListingAfterRemoval(rows: map<int, Profile>, order: seq<int>, k: nat)
    requires Distinct(order) && k < |order|
    requires forall id :: id in order ==> id in rows
    ensures forall id :: id in order[..k] + order[k + 1..] ==> id in rows - {order[k]}
    ensures ListingOf(rows - {order[k]}, order[..k] + order[k + 1..])
            == ListingOf(rows, order)[..k] + ListingOf(rows, order)[k + 1..]
  {
    var order' := order[..k] + order[k + 1..];
    var rows' := rows - {order[k]};
    forall id | id in order' ensures id in rows' {
      var j :| 0 <= j < |order'| && order'[j] == id;
      var m := if j < k then j else j + 1;
      assert order[m] == id && m != k;
      assert order[m] in order;
    }
    var before := ListingOf(rows, order);
    var now := ListingOf(rows', order');
    var expected := before[..k] + before[k + 1..];
    forall i | 0 <= i < |now| ensures now[i] == expected[i] {
      if i < k {
        assert order'[i] == order[i];
      } else {
        assert order'[i] == order[i + 1];
      }
    }
  }

  class UserStore {
    /** The table: each stored profile under its id. */
    var rows: map<int, Profile>
    /** The ids in the order in which the table lists its rows. */
    var order: seq<int>

    ghost predicate Valid()
      reads this
    {
      TableInvariant(rows, order)
    }

    constructor ()
      ensures Valid() && rows == map[] && order == [] && Listing() == []
    {
      rows, order := map[], [];
    }

    /** The profiles in listing order. */
    function Listing(): (r: seq<Profile>)
      reads this
      requires Valid()
      ensures |r| == |rows|
    {
      ListingSize();
      ListingOf(rows, order)
    }

    lemma ListingSize()
      requires Valid()
      ensures |order| == |rows|
    {
      DistinctSize(order, rows.Keys);
    }

    /** create_user (main.py:19-31): refuses an email that is already stored;
        otherwise stores the profile under the id the table assigns. */
    method Create(user: NewProfile, freshId: int) returns (r: Result<Profile>)
      requires Valid()
      requires freshId !in rows
      modifies this
      ensures Valid()
      ensures EmailInUse(old(rows), user.email) ==>
                r == Err(EmailTaken) && rows == old(rows) && order == old(order)
      ensures !EmailInUse(old(rows), user.email) ==>
                && r == Ok(Profile(freshId, user.name, user.age, user.gender, user.email,
                                   user.city, user.interests))
                && rows == old(rows)[freshId := r.value]
                && order == old(order) + [freshId]
                && Listing() == old(Listing()) + [r.value]
    {
      if exists id | id in rows :: rows[id].email == user.email {
        return Err(EmailTaken);
      }
      var p := Profile(freshId, user.name, user.age, user.gender, user.email,
                       user.city, user.interests);
      ghost var before := Listing();
      rows := rows[freshId := p];
      order := order + [freshId];
      r := Ok(p);
      assert Valid();
      assert Listing() == before + [p] by {
        assert freshId !in old(order);
        assert forall i :: 0 <= i < |old(order)| ==> old(order)[i] != freshId;
      }
    }

    /** read_users (main.py:33-36): `limit` profiles of the listing, starting
        after the first `skip`. */
    method ListUsers(skip: nat, limit: nat) returns (r: seq<Profile>)
      requires Valid()
      ensures |r| == if skip >= |rows| then 0 else Min(limit, |rows| - skip)
      ensures forall i :: 0 <= i < |r| ==> r[i] == Listing()[skip + i]
    {
      var all := Listing();
      if skip >= |all| {
        r := [];
      } else {
        r := all[skip..Min(skip + limit, |all|)];
      }
    }

    /** read_user (main.py:38-43): the stored profile, or NotFound. */
    method Get(id: int) returns (r: Result<Profile>)
      requires Valid()
      ensures r.Ok? <==> id in rows
      ensures r.Ok? ==> r.value == rows[id] && r.value.id == id
      ensures r.Err? ==> r.error == NotFound
    {
      if id !in rows {
        return Err(NotFound);
      }
      r := Ok(rows[id]);
    }

    /** update_user (main.py:45-61): NotFound for an unknown id; otherwise
        the supplied fields are written one by one. */
    method Update(id: int, u: ProfileUpdate) returns (r: Result<Profile>)
      requires Valid()
      modifies this
      ensures Valid()
      ensures order == old(order)
      ensures id !in old(rows) ==> r == Err(NotFound) && rows == old(rows)
      ensures id in old(rows) && EmailClash(old(rows), id, u) ==>
                r == Err(ConstraintViolation) && rows == old(rows)
      ensures id in old(rows) && !EmailClash(old(rows), id, u) ==>
                && r == Ok(Merged(old(rows)[id], u))
                && rows == old(rows)[id := r.value]
    {
      if id !in rows {
        return Err(NotFound);
      }
      var p := rows[id];
      if u.interests.Some? {
        p := p.(interests := u.interests.value);
      }
      if u.name.Some? {
        p := p.(name := u.name.value);
      }
      if u.age.Some? {
        p := p.(age := u.age.value);
      }
      if u.gender.Some? {
        p := p.(gender := u.gender.value);
      }
      if u.email.Some? {
        p := p.(email := u.email.value);
      }
      if u.city.Some? {
        p := p.(city := u.city.value);
      }
      if u.email.Some? && exists other | other in rows && other != id :: rows[other].email == u.email.value {
        return Err(ConstraintViolation);
      }
      assert p == Merged(rows[id], u);
      ReplaceRowKeepsInvariant(rows, order, id, p);
      rows := rows[id := p];
      r := Ok(p);
    }

    /** delete_user (main.py:63-71): NotFound for an unknown id; otherwise
        the row is removed. */
    method Delete(id: int) returns (r: Result<()>)
      requires Valid()
      modifies this
      ensures Valid()
      ensures id !in old(rows) ==> r == Err(NotFound) && rows == old(rows) && order == old(order)
      ensures id in old(rows) ==>
                r == Ok(()) && rows == old(rows) - {id} && order == Without(old(order), id)
      ensures forall k :: 0 <= k < |old(order)| && old(order)[k] == id ==>
                Listing() == old(Listing())[..k] + old(Listing())[k + 1..]
    {
      if id !in rows {
        return Err(NotFound);
      }
      assert id in order;
      ghost var k :| 0 <= k < |order| && order[k] == id;
      assert forall k' :: 0 <= k' < |order| && order[k'] == id ==> k' == k;
      WithoutDistinct(order, id);
      WithoutAt(order, id, k);
      ListingAfterRemoval(rows, order, k);
      rows := rows - {id};
      order := Without(order, id);
      r := Ok(());
    }

    /** find_matches (main.py:73-113): NotFound for an unknown id; otherwise
        the ranked records for that profile against the whole listing. */
    method FindMatches(userId: int) returns (r: Result<seq<Ranking.Match>>)
      requires Valid()
      ensures userId !in rows ==> r == Err(NotFound)
      ensures userId in rows ==> r == Ok(Matching.Ranked(rows[userId], Listing()))
    {
      var user := Get(userId);
      if user.Err? {
        return Err(NotFound);
      }
      var matches := Matching.FindMatchesFor(user.value, Listing());
      r := Ok(matches);
    }
  }

  function Min(a: int, b: int): int {
    if a < b then a else b
  }

  /** A duplicate-free sequence has as many elements as the set it lists. */
  lemma {:induction false} DistinctSize(s: seq<int>, keys: set<int>)
    requires Distinct(s)
    requires forall k :: k in keys <==> k in s
    ensures |s| == |keys|
    decreases |s|
  {
    if s != [] {
      assert s[0] !in s[1..];
      DistinctSize(s[1..], keys - {s[0]});
    } else {
      assert forall k :: k !in keys;
      assert keys == {};
    }
  }
}
