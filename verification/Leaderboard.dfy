/**
 UsersService: leaderboard pages decoded from the flat reply of ZREVRANGE WITHSCORES, and the
 rank that profile and rating chart ask for with ZREVRANK.

 The sorted set is given in descending order; its members are printed user ids.  Scores stay text.
 */
module Leaderboard {
  import opened Wrappers
  import Decimal

  datatype Ranked = Ranked(userId: nat, score: string)

  datatype Row = Row(rank: nat, userId: int, rating: string)

  datatype Page = Page(data: seq<Row>, total: nat, totalPages: nat, hasNextPage: bool, hasPreviousPage: bool)

  /** Each user is a member once. */
  ghost predicate IsRanking(z: seq<Ranked>) {
    forall i, j | 0 <= i < j < |z| :: z[i].userId != z[j].userId
  }

  // ---------------------------------------------------------------- the sorted set

  function Flat(z: seq<Ranked>): (r: seq<string>)
    ensures |r| == 2 * |z|
    ensures forall i | 0 <= i < |z| :: r[2 * i] == Decimal.PrintInt(z[i].userId) && r[2 * i + 1] == z[i].score
  {
    if z == [] then [] else
    Flat(z[..|z| - 1]) + [Decimal.PrintInt(z[|z| - 1].userId), z[|z| - 1].score]
  }

  function Min(a: int, b: int): int { if a < b then a else b }

  /** ZREVRANGE key start stop WITHSCORES, for indices that are not negative. */
  function ZRevRange(z: seq<Ranked>, start: nat, stop: nat): seq<string> {
    if start > stop || start >= |z| then [] else Flat(z[start..Min(stop + 1, |z|)])
  }

  /** ZREVRANK key member. */
  function ZRevRank(z: seq<Ranked>, member: string): (r: Option<nat>)
    ensures r.Some? ==> r.value < |z| && Decimal.PrintInt(z[r.value].userId) == member
    ensures r.None? ==> forall i | 0 <= i < |z| :: Decimal.PrintInt(z[i].userId) != member
  {
    if z == [] then None else
    match ZRevRank(z[..|z| - 1], member)
    case Some(i) => Some(i)
    case None => if Decimal.PrintInt(z[|z| - 1].userId) == member then Some(|z| - 1) else None
  }

  // ---------------------------------------------------------------- the service

  /** The rank of getUserProfile and getContestRatingChart. */
  function RankOf(z: seq<Ranked>, userId: nat): Option<nat> {
    match ZRevRank(z, Decimal.PrintInt(userId))
    case Some(r) => Some(r + 1)
    case None => None
  }

  function CeilDiv(a: nat, b: nat): nat
    requires b > 0
  {
    (a + b - 1) / b
  }

  /** The rows of the whole ranking, from position i on, in order. */
  function RowsBetween(z: seq<Ranked>, lo: nat, hi: nat): (r: seq<Row>)
    requires lo <= hi <= |z|
    ensures |r| == hi - lo
    ensures forall i | 0 <= i < |r| :: r[i] == Row(lo + i + 1, z[lo + i].userId, z[lo + i].score)
  {
    seq(hi - lo, i requires 0 <= i < hi - lo => Row(lo + i + 1, z[lo + i].userId, z[lo + i].score))
  }

  /** Positions of page p. */
  function PageStart(z: seq<Ranked>, page: nat, limit: nat): nat
    requires page >= 1
  {
    Min((page - 1) * limit, |z|)
  }

  /** The decoding loop: members and scores alternate in the reply. */
  method DecodeEntries(raw: seq<string>, skip: nat, ghost shown: seq<Ranked>) returns (data: seq<Row>)
    requires raw == Flat(shown)
    ensures |data| == |shown|
    ensures forall k | 0 <= k < |shown| :: data[k] == Row(skip + k + 1, shown[k].userId, shown[k].score)
  {
    hide *;
    data := [];
    var i := 0;
    while i < |raw|
      invariant i == 2 * |data| && i <= |raw|
      invariant forall k | 0 <= k < |data| :: data[k] == Row(skip + k + 1, shown[k].userId, shown[k].score)
    {
      ghost var k := |data|;
      assert raw[2 * k] == Decimal.PrintInt(shown[k].userId) && raw[2 * k + 1] == shown[k].score;
      Decimal.ParsePrint(shown[k].userId);
      data := data + [Row(skip + |data| + 1, Decimal.ParseInt(raw[i]), raw[i + 1])];
      i := i + 2;
    }
  }

  method GetContestRatingLeaderboard(z: seq<Ranked>, page: nat, limit: nat) returns (r: Page)
    requires page >= 1 && limit >= 1
    ensures PageStart(z, page, limit) <= PageStart(z, page + 1, limit)
    ensures r.data == RowsBetween(z, PageStart(z, page, limit), PageStart(z, page + 1, limit))
    ensures r.total == |z| && r.totalPages == CeilDiv(|z|, limit)
    ensures r.hasNextPage <==> page < r.totalPages
    ensures r.hasPreviousPage <==> page > 1
  {
    hide *;
    var skip: nat := (page - 1) * limit;
    NextStart(z, page, limit, skip);
    RangeIsSlice(z, skip, limit);
    var total := |z|;
    var raw := ZRevRange(z, skip, skip + limit - 1);
    ghost var lo, hi := Min(skip, |z|), Min(skip + limit, |z|);
    if |raw| == 0 {
      PagesEnd(total, page, limit, skip);
      SliceRows(z, lo, hi, []);
      return Page([], total, CeilDiv(total, limit), false, page > 1);
    }
    var data := DecodeEntries(raw, skip, z[lo..hi]);
    SliceRows(z, lo, hi, data);
    var totalPages := CeilDiv(total, limit);
    r := Page(data, total, totalPages, page < totalPages, page > 1);
  }

  lemma RangeIsSlice(z: seq<Ranked>, skip: nat, limit: nat)
    requires limit >= 1
    ensures 0 <= Min(skip, |z|) <= Min(skip + limit, |z|) <= |z|
    ensures ZRevRange(z, skip, skip + limit - 1) == Flat(z[Min(skip, |z|)..Min(skip + limit, |z|)])
    ensures |ZRevRange(z, skip, skip + limit - 1)| == 0 <==> skip >= |z|
    ensures skip < |z| ==> Min(skip, |z|) == skip
    ensures skip >= |z| ==> Min(skip, |z|) == Min(skip + limit, |z|)
  {}

  lemma SliceRows(z: seq<Ranked>, lo: nat, hi: nat, data: seq<Row>)
    requires lo <= hi <= |z| && |data| == hi - lo
    requires forall k | 0 <= k < |data| :: data[k] == Row(lo + k + 1, z[lo..hi][k].userId, z[lo..hi][k].score)
    ensures data == RowsBetween(z, lo, hi)
  {}

  lemma NextStart(z: seq<Ranked>, page: nat, limit: nat, skip: nat)
    requires page >= 1 && limit >= 1 && skip == (page - 1) * limit
    ensures PageStart(z, page, limit) == Min(skip, |z|) && PageStart(z, page + 1, limit) == Min(skip + limit, |z|)
  {
    assert page * limit == (page - 1) * limit + limit;
  }

  lemma CeilDivIs(a: nat, b: nat, q: nat)
    requires b > 0
    ensures q < CeilDiv(a, b) <==> q * b < a
  {
    var d := a + b - 1;
    assert d == (d / b) * b + d % b;
    if q < d / b {
      assert (q + 1) * b <= (d / b) * b;
    } else {
      assert (d / b) * b <= q * b;
    }
  }

  lemma PagesEnd(total: nat, page: nat, limit: nat, skip: nat)
    requires page >= 1 && limit >= 1 && skip == (page - 1) * limit && skip >= total
    ensures page >= CeilDiv(total, limit)
  {
    CeilDivIs(total, limit, page - 1);
  }

  // ---------------------------------------------------------------- pages and ranks

  lemma StartsIncrease(z: seq<Ranked>, page: nat, limit: nat)
    requires page >= 1 && limit >= 1
    ensures PageStart(z, page, limit) <= PageStart(z, page + 1, limit)
  {
    assert page * limit == (page - 1) * limit + limit;
  }

  /** The first n pages, one after the other. */
  function FirstPages(z: seq<Ranked>, n: nat, limit: nat): seq<Row>
    requires limit >= 1
  {
    if n == 0 then [] else
    StartsIncrease(z, n, limit);
    FirstPages(z, n - 1, limit) + RowsBetween(z, PageStart(z, n, limit), PageStart(z, n + 1, limit))
  }

  lemma {:induction false} FirstPagesArePrefix(z: seq<Ranked>, n: nat, limit: nat)
    requires limit >= 1
    ensures FirstPages(z, n, limit) == RowsBetween(z, 0, PageStart(z, n + 1, limit))
  {
    if n > 0 {
      StartsIncrease(z, n, limit);
      FirstPagesArePrefix(z, n - 1, limit);
    }
  }

  /** For any page size, the pages together are the whole ranking, every position once and in order. */
  lemma PagesCoverRanking(z: seq<Ranked>, limit: nat)
    requires limit >= 1
    ensures FirstPages(z, CeilDiv(|z|, limit), limit) == RowsBetween(z, 0, |z|)
  {
    var n := CeilDiv(|z|, limit);
    FirstPagesArePrefix(z, n, limit);
    CeilDivIs(|z|, limit, n);
  }

  /** The rank on the leaderboard is the rank that profile and chart report, for everybody on it and nobody else. */
  lemma RanksAgree(z: seq<Ranked>, userId: nat, rank: nat)
    requires IsRanking(z)
    ensures RankOf(z, userId) == Some(rank)
      <==> exists i :: 0 <= i < |z| && z[i].userId == userId && RowsBetween(z, 0, |z|)[i].rank == rank
  {
    var found := ZRevRank(z, Decimal.PrintInt(userId));
    if found.Some? {
      Decimal.PrintInjective(z[found.value].userId, userId);
    }
  }
}
