/** Random access to the rows of a cursor (stateless_cursor_retrieve and
    obtain_stateless_cursor_size in src/cursor.cxx). */
module StatelessCursor {
  import opened Wrappers
  import opened CursorTracking

  datatype RetrieveError = StartOutOfRange

  /** The existing rows k with lo <= k < hi, from row i upward. */
  function Upward<Row>(rows: seq<Row>, i: nat, lo: int, hi: int): seq<Row>
    decreases |rows| - i
  {
    if i >= |rows| then []
    else (if lo <= i < hi then [rows[i]] else []) + Upward(rows, i + 1, lo, hi)
  }

  /** The existing rows k with lo < k <= hi, from row i - 1 downward. */
  function Downward<Row>(rows: seq<Row>, i: nat, lo: int, hi: int): seq<Row>
    requires i <= |rows|
  {
    if i == 0 then []
    else (if lo < i - 1 <= hi then [rows[i - 1]] else []) + Downward(rows, i - 1, lo, hi)
  }

  /** What `retrieve` promises: whatever rows exist from `begin` (included) to `end`
      (excluded), in that order, wherever `end` is. */
  function Wanted<Row>(rows: seq<Row>, begin: int, end: int): seq<Row> {
    if begin <= end then Upward(rows, 0, begin, end) else Downward(rows, |rows|, end, begin)
  }

  lemma UpwardStep<Row>(rows: seq<Row>, i: nat, lo: int, hi: int)
    ensures i >= |rows| ==> Upward(rows, i, lo, hi) == []
    ensures i < |rows| && lo <= i < hi ==> Upward(rows, i, lo, hi) == [rows[i]] + Upward(rows, i + 1, lo, hi)
    ensures i < |rows| && !(lo <= i < hi) ==> Upward(rows, i, lo, hi) == Upward(rows, i + 1, lo, hi)
  {
  }

  lemma {:induction false} UpwardIs<Row>(rows: seq<Row>, i: nat, lo: nat, hi: int, top: nat)
    requires lo <= top <= |rows| && (hi == top || (top == |rows| && hi > top))
    ensures i <= lo ==> Upward(rows, i, lo, hi) == rows[lo..top]
    ensures lo < i <= top ==> Upward(rows, i, lo, hi) == rows[i..top]
    ensures lo <= top < i ==> Upward(rows, i, lo, hi) == []
    decreases |rows| - i
  {
    hide Upward;
    UpwardStep(rows, i, lo, hi);
    if i < |rows| {
      UpwardIs(rows, i + 1, lo, hi, top);
      if lo <= i < top {
        assert rows[i..top] == [rows[i]] + rows[i + 1..top];
      }
    }
  }

  lemma DownwardStep<Row>(rows: seq<Row>, i: nat, lo: int, hi: int)
    requires i <= |rows|
    ensures i == 0 ==> Downward(rows, i, lo, hi) == []
    ensures i > 0 && lo < i - 1 <= hi ==>
              Downward(rows, i, lo, hi) == [rows[i - 1]] + Downward(rows, i - 1, lo, hi)
    ensures i > 0 && !(lo < i - 1 <= hi) ==> Downward(rows, i, lo, hi) == Downward(rows, i - 1, lo, hi)
  {
  }

  lemma {:induction false} DownwardIs<Row>(rows: seq<Row>, i: nat, lo: int, hi: nat, bottom: nat)
    requires i <= |rows| && (bottom == lo + 1 || (bottom == 0 && lo + 1 < 0))
    ensures var top := Min(i, hi + 1);
            Downward(rows, i, lo, hi) == if bottom < top then Reverse(rows[bottom..top]) else []
  {
    hide Reverse, Downward;
    DownwardStep(rows, i, lo, hi);
    if i > 0 {
      DownwardIs(rows, i - 1, lo, hi, bottom);
      if bottom <= i - 1 <= hi {
        assert rows[bottom..i] == rows[bottom..i - 1] + [rows[i - 1]];
        ReverseLast(rows[bottom..i - 1], rows[i - 1]);
        ReverseNothing<Row>();
        assert bottom == i - 1 ==> rows[bottom..i - 1] == [];
      }
    }
  }

  lemma ReverseLast<Row>(s: seq<Row>, x: Row)
    ensures Reverse(s + [x]) == [x] + Reverse(s)
  {
  }

  lemma ReverseNothing<Row>()
    ensures Reverse<Row>([]) == []
  {
  }

  /** The same, once `end` has been brought into range. */
  lemma WantedIsSlice<Row>(rows: seq<Row>, begin: nat, end: int, e: int)
    requires begin <= |rows|
    requires e == if end < -1 then -1 else if end > |rows| then |rows| else end
    ensures Wanted(rows, begin, end) == Slice(rows, begin, e)
  {
    hide Reverse, Upward, Downward;
    if begin <= end {
      UpwardIs(rows, 0, begin, end, e);
    } else {
      DownwardIs(rows, |rows|, end, begin, e + 1);
      ReverseNothing<Row>();
      assert e + 1 >= Min(begin + 1, |rows|) ==> rows[e + 1..Min(begin + 1, |rows|)] == [];
    }
  }

  /** The rows from `begin` (included) to `end` (excluded), in that order, when both
      are in range. */
  function Slice<Row>(rows: seq<Row>, begin: nat, end: int): seq<Row>
    requires begin <= |rows| && -1 <= end <= |rows|
  {
    if begin < end then rows[begin..end]
    else if begin == end then []
    else Reverse(rows[end + 1..Min(begin + 1, |rows|)])
  }

  /** The one family of requests that goes wrong: backward from just past the
      last row, to a row. */
  predicate OneRowTooMany(size: nat, begin: int, end: int) {
    begin == size && 0 <= end < size
  }

  /** Where a MOVE by n takes the server; a MOVE by 0 is never sent. */
  function GoBy(size: nat, at: nat, n: int): nat {
    if n == 0 then at else LandAt(size, at, n)
  }

  /** The MOVE reaches the position just before the first row to fetch, counted
      in the direction of the fetch; backward from the end there is no such
      position, and it stops one short. */
  lemma MoveLands(size: nat, at: nat, begin: nat, direction: int)
    requires size < ALL && at <= size + 1 && begin <= size && direction in {-1, 1}
    ensures GoBy(size, at, begin - direction - (at - 1))
            == if direction == 1 then begin else Min(begin + 2, size + 1)
  {
  }

  /** The FETCH then passes the rows [low, high). */
  lemma FetchPasses<Row>(rows: seq<Row>, at: nat, n: int, low: nat, high: nat)
    requires at <= |rows| + 1 && low <= high <= |rows|
    requires n > 0 ==> low == Min(at, |rows|) && high == Max(low, Min(LandAt(|rows|, at, n), |rows|))
    requires n <= 0 ==> high == Max(at - 1, 0) && low == Min(high, Max(LandAt(|rows|, at, n) - 1, 0))
    ensures RowsPassed(rows, at, n) == if n > 0 then rows[low..high] else Reverse(rows[low..high])
  {
  }

  /** What the two commands, a MOVE and a FETCH, give from any position. */
  lemma MoveThenFetch<Row>(rows: seq<Row>, at: nat, begin: nat, end: int)
    requires |rows| < ALL && at <= |rows| + 1
    requires begin <= |rows| && -1 <= end <= |rows| && begin != end
    ensures var direction := if begin < end then 1 else -1;
            var there := GoBy(|rows|, at, begin - direction - (at - 1));
            && there <= |rows| + 1
            && RowsPassed(rows, there, end - begin)
               == if OneRowTooMany(|rows|, begin, end) then Reverse(rows[end..]) else Slice(rows, begin, end)
  {
    hide RowsPassed, Reverse;
    var size := |rows|;
    MoveLands(size, at, begin, if begin < end then 1 else -1);
    if begin < end {
      FetchPasses(rows, begin, end - begin, begin, end);
    } else if begin < size {
      FetchPasses(rows, begin + 2, end - begin, end + 1, begin + 1);
    } else {
      var low := if end == -1 then 0 else end;
      FetchPasses(rows, size + 1, end - begin, low, size);
      assert rows[low..size] == rows[low..];
    }
  }

  /** In the bad family, the answer really is different: it has one row more. */
  lemma OneRowTooManyIsWrong<Row>(rows: seq<Row>, begin: nat, end: int)
    requires OneRowTooMany(|rows|, begin, end)
    ensures Reverse(rows[end..]) == Slice(rows, begin, end) + [rows[end]]
  {
    assert rows[end..] == [rows[end]] + rows[end + 1..];
    assert rows[end + 1..Min(begin + 1, |rows|)] == rows[end + 1..];
  }

  lemma SliceNothing<Row>(rows: seq<Row>, begin: nat)
    requires begin <= |rows|
    ensures Slice(rows, begin, begin) == []
  {
  }

  class StatelessCursor<Row> {
    const cur: SqlCursor<Row>

    /** The cursor's position is known. */
    ghost predicate Valid()
      reads this, cur, cur.server
    {
      cur.Valid() && cur.pos != -1
    }

    constructor Create(rows: seq<Row>)
      requires |rows| < ALL
      ensures Valid() && fresh(cur) && fresh(cur.server) && cur.server.rows == rows
    {
      cur := new SqlCursor.Create(rows);
    }

    /** Adopting moves to the start, so that the position becomes known. */
    constructor Adopt(server: ServerCursor<Row>)
      requires |server.rows| < ALL && server.at <= |server.rows| + 1
      modifies server
      ensures Valid() && fresh(cur) && cur.server == server
    {
      var c := new SqlCursor.Adopt(server);
      AdjustTracks(c.Record(), |server.rows|, server.at, BACKWARD_ALL);
      var _, _ := c.Move(BACKWARD_ALL);
      cur := c;
    }

    method Size() returns (size: int)
      requires Valid()
      modifies cur, cur.server`at
      ensures Valid() && size == |cur.server.rows| && cur.endpos == size + 1
    {
      if cur.endpos == -1 {
        AdjustTracks(cur.Record(), |cur.server.rows|, cur.server.at, ALL);
        var _, _ := cur.Move(ALL);
      }
      size := cur.endpos - 1;
    }

    /** Retrieval does not depend on what was done before: from every position it
        gives the rows that were asked for, exactly unless the request goes backward
        from just past the last row to a row, when it gives one row too many. */
    method Retrieve(begin: int, end: int) returns (r: Result<seq<Row>, RetrieveError>)
      requires Valid()
      modifies cur, cur.server`at
      ensures Valid()
      ensures r.Failure? <==> begin < 0 || begin > |cur.server.rows|
      ensures r.Success? ==>
                var rows := cur.server.rows;
                && (r.value == Wanted(rows, begin, end) <==> !(begin == |rows| && 0 <= end < |rows|))
                && (begin == |rows| && 0 <= end < |rows| ==> r.value == Wanted(rows, begin, end) + [rows[end]])
    {
      hide RowsPassed, Reverse, Slice, Adjust, Wanted;
      var size := Size();
      if begin < 0 || begin > size {
        return Failure(StartOutOfRange);
      }
      var endPos := end;
      if endPos < -1 {
        endPos := -1;
      } else if endPos > size {
        endPos := size;
      }
      WantedIsSlice(cur.server.rows, begin, end, endPos);
      if begin == endPos {
        SliceNothing(cur.server.rows, begin);
        return Success([]);
      }
      var direction := if begin < endPos then 1 else -1;
      ghost var rows := cur.server.rows;
      MoveThenFetch(rows, cur.server.at, begin, endPos);
      if OneRowTooMany(|rows|, begin, endPos) {
        OneRowTooManyIsWrong(rows, begin, endPos);
      }
      ghost var n := begin - direction - (cur.pos - 1);
      if n != 0 {
        AdjustTracks(cur.Record(), |rows|, cur.server.at, n);
      }
      var _, _ := cur.Move(begin - direction - (cur.pos - 1));
      AdjustTracks(cur.Record(), |rows|, cur.server.at, endPos - begin);
      var result, _ := cur.Fetch(endPos - begin);
      return Success(result);
    }
  }
}
