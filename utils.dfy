/** api/utils.py: the request guards, the token decoder's error mapping, and
    the order-then-slice pagination every list handler uses. */
module Utils {
  import opened Common
  import opened Models
  import opened Ordering

  /** `request.user`: the anonymous user, or a user row with its key. */
  datatype RequestUser = Anonymous | Authenticated(id: UserId, user: User)

  /** The `(body, status)` pair a guard returns instead of raising. */
  datatype Denial = Denial(detail: string, status: int)

  /** `is_authenticated`: a denial exactly for the anonymous user. */
  function IsAuthenticated(who: RequestUser): (r: Option<Denial>)
    ensures r.Some? <==> who.Anonymous?
    ensures r.Some? ==> r.value == Denial("Authentication required", 401)
  {
    if who.Anonymous? then Some(Denial("Authentication required", 401)) else None
  }

  /** `is_admin` reads the profile's flag. The anonymous user has no
      profile, so reading it raises; a profile always has the attribute, so
      the `False` default of `getattr` never applies. */
  function IsAdmin(who: RequestUser): (r: Result<Option<Denial>>)
    ensures who.Anonymous? ==> r.Err? && r.failure.Exception? && r.failure.kind == "AttributeError"
    ensures who.Authenticated? ==> r.Ok?
    ensures r.Ok? ==> (r.value.None? <==> who.user.profile.isAdmin)
    ensures r.Ok? && r.value.Some? ==> r.value.value == Denial("Permission denied", 403)
  {
    if who.Anonymous? then
      Err(Exception("AttributeError", "'AnonymousUser' object has no attribute 'profile'"))
    else if !who.user.profile.isAdmin then Ok(Some(Denial("Permission denied", 403)))
    else Ok(None)
  }

  /** `is_authenticated(request)` then `is_admin(request)`, their results
      dropped: only the exception `is_admin` raises for the anonymous user
      escapes. */
  function Guards(who: RequestUser): (r: Option<Failure>)
    ensures r.Some? <==> who.Anonymous?
    ensures r.Some? ==> r.value == IsAdmin(who).failure
  {
    var _ := IsAuthenticated(who);
    var admin := IsAdmin(who);
    if admin.Err? then Some(admin.failure) else None
  }

  // ---------------------------------------------------------------------------
  // Tokens

  /** Why PyJWT refuses a token. */
  datatype JwtError = ExpiredSignature | InvalidToken

  /** The claims the handlers read from a token. */
  datatype Claims = Claims(userId: Option<int>)

  /** What `jwt.decode` (signature and expiry checking included) makes of a
      token; the library itself is a parameter of the model. */
  datatype JwtOutcome = Decoded(claims: Claims) | Rejected(error: JwtError)

  /** `decode_jwt`: the claims, or ValueError naming why the token failed. */
  function DecodeJwt(token: string, decode: string -> JwtOutcome): (r: Result<Claims>)
    ensures r.Ok? <==> decode(token).Decoded?
    ensures r.Ok? ==> r.value == decode(token).claims
    ensures decode(token) == Rejected(ExpiredSignature) ==> r == Err(Exception("ValueError", "Token expirado"))
    ensures decode(token) == Rejected(InvalidToken) ==> r == Err(Exception("ValueError", "Token inválido"))
  {
    match decode(token)
    case Decoded(claims) => Ok(claims)
    case Rejected(ExpiredSignature) => Err(Exception("ValueError", "Token expirado"))
    case Rejected(InvalidToken) => Err(Exception("ValueError", "Token inválido"))
  }

  // ---------------------------------------------------------------------------
  // Pagination

  /** `paginate_and_order`: order by the key, then take
      `[(page - 1) * page_size, (page - 1) * page_size + page_size)`. */
  function PaginateAndOrder<T>(rows: seq<T>, key: T -> real, page: int, pageSize: int): (r: Result<seq<T>>)
    ensures page >= 1 && pageSize >= 0 ==> r.Ok? && |r.value| <= pageSize
    ensures r.Err? <==> (page - 1) * pageSize < 0 || (page - 1) * pageSize + pageSize < 0
    ensures r.Ok? ==> SortedOn(r.value, key)
    ensures r.Ok? ==> multiset(r.value) <= multiset(rows)
  {
    var start := (page - 1) * pageSize;
    PageOfSorted(rows, key, start, start + pageSize);
    PageStart(page, pageSize);
    Slice(SortBy(rows, key), start, start + pageSize)
  }

  /** The first row of a page with a positive number is not negative. */
  lemma PageStart(page: int, pageSize: int)
    ensures page >= 1 && pageSize >= 0 ==> (page - 1) * pageSize >= 0
  {
    if page >= 1 && pageSize >= 0 {
      var n: nat := page - 1;
      assert n * pageSize >= 0;
    }
  }

  /** A slice of the ordered rows is sorted and draws on the rows. */
  lemma PageOfSorted<T>(rows: seq<T>, key: T -> real, start: int, end: int)
    ensures var v := Slice(SortBy(rows, key), start, end);
      v.Ok? ==> SortedOn(v.value, key) && multiset(v.value) <= multiset(rows)
  {
    var s := SortBy(rows, key);
    var r := Slice(s, start, end);
    if r.Ok? {
      var v := r.value;
      assert SortedOn(v, key) by {
        forall i, j | 0 <= i < j < |v| ensures key(v[i]) <= key(v[j]) {
          assert v[i] == s[start + i] && v[j] == s[start + j];
        }
      }
      if |v| > 0 {
        assert v == s[start..start + |v|];
        assert s == s[..start] + v + s[start + |v|..];
        calc {
          multiset(s);
          multiset(s[..start] + v) + multiset(s[start + |v|..]);
          multiset(s[..start]) + multiset(v) + multiset(s[start + |v|..]);
        }
      }
      assert multiset(s) == multiset(rows);
    }
  }

  /** A page holds rows of the list only. */
  lemma PageMembers<T>(rows: seq<T>, key: T -> real, page: int, pageSize: int)
    requires PaginateAndOrder(rows, key, page, pageSize).Ok?
    ensures forall x :: x in PaginateAndOrder(rows, key, page, pageSize).value ==> x in rows
  {
    var r := PaginateAndOrder(rows, key, page, pageSize).value;
    forall x | x in r ensures x in rows {
      assert x in multiset(r);
      assert x in multiset(rows);
    }
  }

  /** A first page at least as long as the list is the whole ordered list. */
  lemma WholeFirstPage<T>(rows: seq<T>, key: T -> real, pageSize: int)
    requires pageSize >= |rows|
    ensures PaginateAndOrder(rows, key, 1, pageSize) == Ok(SortBy(rows, key))
    ensures forall x :: x in PaginateAndOrder(rows, key, 1, pageSize).value <==> x in rows
  {
    var sorted := SortBy(rows, key);
    assert (1 - 1) * pageSize == 0;
    assert PaginateAndOrder(rows, key, 1, pageSize) == Slice(sorted, 0, pageSize);
    var page := Slice(sorted, 0, pageSize).value;
    assert |page| == |sorted|;
    assert forall i :: 0 <= i < |page| ==> page[i] == sorted[i];
    assert page == sorted;
    SortByMembers(rows, key);
  }

  /** Pages 1 to `k` of a list, glued together. */
  function Pages<T>(s: seq<T>, pageSize: nat, k: nat): seq<T> {
    if k == 0 then []
    else
      var start := (k - 1) * pageSize;
      Pages(s, pageSize, k - 1) + Slice(s, start, start + pageSize).value
  }

  /** Consecutive pages do not overlap and leave no gap: the first `k` pages
      are exactly the first `k * pageSize` rows (or all of them). */
  lemma {:induction false} PagesCover<T>(s: seq<T>, pageSize: nat, k: nat)
    ensures Pages(s, pageSize, k) == s[..Min(k * pageSize, |s|)]
  {
    if k > 0 {
      PagesCover(s, pageSize, k - 1);
      var start := (k - 1) * pageSize;
      assert start + pageSize == k * pageSize;
      var page := Slice(s, start, start + pageSize).value;
      if start >= |s| {
        assert Min(k * pageSize, |s|) == |s|;
      } else {
        assert page == s[start..Min(k * pageSize, |s|)];
      }
    }
  }

  /** Reading pages 1, 2, ..., k of `paginate_and_order` yields the ordered
      rows from the first on, in order, each row once. */
  lemma PaginationCovers<T>(rows: seq<T>, key: T -> real, pageSize: nat, k: nat)
    ensures var sorted := SortBy(rows, key);
      Pages(sorted, pageSize, k) == sorted[..Min(k * pageSize, |sorted|)]
    ensures forall i :: 1 <= i <= k ==>
      PaginateAndOrder(rows, key, i, pageSize) == Slice(SortBy(rows, key), (i - 1) * pageSize, (i - 1) * pageSize + pageSize)
  {
    PagesCover(SortBy(rows, key), pageSize, k);
  }
}
