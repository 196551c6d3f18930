/** The paging of GetUsersPublic in app/repositories/users_repository.go: the clamps, and the offset, which
    the source computes in 64 bits.  The list is what the ordered query sees; it does not change
    between the pages. */
module Pagination {
  import opened Int64
  import opened Wrappers

  function ClampPage(page: int): int {
    if page < 1 then 1 else page
  }

  function ClampSize(pageSize: int): (size: int)
    ensures 1 <= size <= 100
  {
    if pageSize <= 0 || pageSize > 100 then 20 else pageSize
  }

  function Min(a: int, b: int): int {
    if a < b then a else b
  }

  /** LIMIT and OFFSET over the ordered list; the database refuses a negative offset. */
  function Select<T>(users: seq<T>, limit: nat, offset: int): Result<seq<T>, string> {
    if offset < 0 then Err("failed to fetch users public")
    else Ok(users[Min(offset, |users|)..Min(offset + limit, |users|)])
  }

  function GetUsersPublic<T>(users: seq<T>, page: int, pageSize: int): Result<seq<T>, string> {
    var size := ClampSize(pageSize);
    Select(users, size, Wrap64((ClampPage(page) - 1) * size))
  }

  /** The offset fits 64 bits: what the caller could check before the call. */
  predicate OffsetFits(page: int, pageSize: int) {
    (ClampPage(page) - 1) * ClampSize(pageSize) <= MAX_INT64
  }

  lemma ClampsBehave<T>(users: seq<T>, page: int, pageSize: int)
    ensures page < 1 ==> GetUsersPublic(users, page, pageSize) == GetUsersPublic(users, 1, pageSize)
    ensures !(1 <= pageSize <= 100) ==> GetUsersPublic(users, page, pageSize) == GetUsersPublic(users, page, 20)
  {
  }

  lemma SelectSlice<T>(users: seq<T>, size: nat, offset: int)
    requires 0 <= offset <= MAX_INT64
    ensures Wrap64(offset) == offset
    ensures 0 <= Min(offset, |users|) <= Min(offset + size, |users|)
    ensures Select(users, size, Wrap64(offset)) == Ok(users[Min(offset, |users|)..Min(offset + size, |users|)])
  {
  }

  lemma OffsetStep(n: nat, size: nat)
    requires n >= 1
    ensures 0 <= (n - 1) * size <= n * size == (n - 1) * size + size
  {
  }

  lemma MorePagesFit(n: nat, pageSize: int)
    requires n >= 1 && OffsetFits(n, pageSize)
    ensures n > 1 ==> OffsetFits(n - 1, pageSize)
    ensures 0 <= (n - 1) * ClampSize(pageSize) <= MAX_INT64
  {
    OffsetStep(n, ClampSize(pageSize));
  }

  /** Pages 1 to n, one after the other. */
  function Pages<T>(users: seq<T>, n: nat, pageSize: int): seq<T>
    requires n == 0 || OffsetFits(n, pageSize)
  {
    if n == 0 then []
    else
      MorePagesFit(n, pageSize);
      SelectSlice(users, ClampSize(pageSize), (n - 1) * ClampSize(pageSize));
      Pages(users, n - 1, pageSize) + GetUsersPublic(users, n, pageSize).value
  }

  /** The pages 1, 2, ..., n concatenate to exactly the first n * size users: nobody is skipped and
      nobody appears twice. */
  lemma {:induction false} PagesPartition<T>(users: seq<T>, n: nat, pageSize: int)
    requires n == 0 || OffsetFits(n, pageSize)
    ensures 0 <= n * ClampSize(pageSize)
    ensures Pages(users, n, pageSize) == users[..Min(n * ClampSize(pageSize), |users|)]
  {
    if n > 0 {
      var size := ClampSize(pageSize);
      MorePagesFit(n, pageSize);
      PagesPartition(users, n - 1, pageSize);
      OffsetStep(n, size);
      var offset := (n - 1) * size;
      SelectSlice(users, size, offset);
      JoinSlices(users, Min(offset, |users|), Min(offset + size, |users|));
    }
  }

  lemma JoinSlices<T>(users: seq<T>, lo: nat, hi: nat)
    requires lo <= hi <= |users|
    ensures users[..lo] + users[lo..hi] == users[..hi]
  {
  }

  /** All the pages up to the one that reaches the end give the whole list. */
  lemma PagesCoverAll<T>(users: seq<T>, n: nat, pageSize: int)
    requires n >= 1 && OffsetFits(n, pageSize) && n * ClampSize(pageSize) >= |users|
    ensures Pages(users, n, pageSize) == users
  {
    PagesPartition(users, n, pageSize);
  }

  /** Beyond the 64-bit range the offset wraps: with pages of 64, page 2^58 + 1 is page 1 again. */
  lemma HugePageRepeatsFirst<T>(users: seq<T>)
    ensures !OffsetFits(0x400_0000_0000_0001, 64)
    ensures GetUsersPublic(users, 0x400_0000_0000_0001, 64) == GetUsersPublic(users, 1, 64)
  {
    assert 0x400_0000_0000_0000 * 64 == TWO_64;
    assert Wrap64(TWO_64) == 0 == Wrap64(0);
    assert GetUsersPublic(users, 0x400_0000_0000_0001, 64) == Select(users, 64, Wrap64(TWO_64));
  }

  /** A page is the slice its number asks for, for every list, exactly when the offset fits. */
  lemma PageCorrectIffOffsetFits(page: int, pageSize: int)
    requires page >= 1
    ensures OffsetFits(page, pageSize) <==>
      forall users: seq<int> :: GetUsersPublic(users, page, pageSize)
        == Select(users, ClampSize(pageSize), (page - 1) * ClampSize(pageSize))
  {
    var size := ClampSize(pageSize);
    OffsetStep(page, size);
    var offset := (page - 1) * size;
    if OffsetFits(page, pageSize) {
      SelectSlice<int>([], size, offset);
    } else {
      WrongSlice(size, offset);
      var users: seq<int> :| Select(users, size, Wrap64(offset)) != Select(users, size, offset);
      assert GetUsersPublic(users, page, pageSize) != Select(users, size, offset);
    }
  }

  lemma WrongSlice(size: nat, offset: int)
    requires size >= 1 && offset > MAX_INT64
    ensures exists users: seq<int> :: Select(users, size, Wrap64(offset)) != Select(users, size, offset)
  {
    var wrapped := Wrap64(offset);
    assert wrapped < offset;
    if wrapped < 0 {
      assert Select<int>([], size, wrapped).Err? && Select<int>([], size, offset).Ok?;
    } else {
      var users := seq(wrapped + 1, i => 0);
      assert |Select(users, size, wrapped).value| == 1 && |Select(users, size, offset).value| == 0;
    }
  }

  /** A page, by the numbers of the request: the users from (page - 1) * size on, as many as the size, where a
      size from 1 to 100 is taken as it is and any other one as 20, and a page below 1 as 1. */
  lemma PageIsSlice<T>(users: seq<T>, page: int, pageSize: int, n: nat, size: nat)
    requires n == if page < 1 then 1 else page
    requires size == if 1 <= pageSize <= 100 then pageSize else 20
    requires (n - 1) * size <= 0x7fff_ffff_ffff_ffff
    ensures 0 <= (n - 1) * size
    ensures var from := if (n - 1) * size < |users| then (n - 1) * size else |users|;
      var to := if (n - 1) * size + size < |users| then (n - 1) * size + size else |users|;
      GetUsersPublic(users, page, pageSize) == Ok(users[from..to])
  {
    OffsetStep(n, size);
    SelectSlice(users, size, (n - 1) * size);
  }
}
