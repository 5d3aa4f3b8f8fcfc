/** Block streams over a cursor and the iterators that share them (icursorstream
    and icursor_iterator in src/cursor.cxx). */
module CursorStream {
  import opened CursorTracking

  predicate NoDuplicates<T(==)>(s: seq<T>) {
    forall i, j :: 0 <= i < j < |s| ==> s[i] != s[j]
  }

  lemma WithoutOne<T>(s: seq<T>, k: nat)
    requires k < |s| && NoDuplicates(s)
    ensures var r := s[..k] + s[k + 1..];
            && |r| == |s| - 1 && NoDuplicates(r) && s[k] !in r
            && (forall j :: 0 <= j < |r| ==> r[j] == if j < k then s[j] else s[j + 1])
            && (forall x :: x in r <==> x in s && x != s[k])
  {
    var r := s[..k] + s[k + 1..];
    forall x | x in s && x != s[k]
      ensures x in r
    {
      var i :| 0 <= i < |s| && s[i] == x;
      assert r[if i < k then i else i - 1] == x;
    }
  }

  /** A position that a stream with this stride hands out: a whole number of
      strides from the start. */
  predicate OnGrid(p: int, stride: int)
    requires stride >= 1
  {
    p == 0 || (p >= stride && OnGrid(p - stride, stride))
  }

  lemma {:induction false} GridStep(p: int, stride: int, n: nat)
    requires stride >= 1 && OnGrid(p, stride)
    ensures OnGrid(p + n * stride, stride) && p + n * stride >= p >= 0
    decreases n, p
  {
    if n > 0 {
      GridStep(p, stride, n - 1);
      assert n * stride == (n - 1) * stride + stride;
    } else if p > 0 {
      GridStep(p - stride, stride, 0);
    }
  }

  /** Different positions of one grid are at least a stride apart. */
  lemma {:induction false} GridSpacing(p: int, q: int, stride: int)
    requires stride >= 1 && OnGrid(p, stride) && OnGrid(q, stride) && p < q
    ensures 0 <= p && p + stride <= q
    decreases p
  {
    GridStep(p, stride, 0);
    if p > 0 {
      GridSpacing(p - stride, q - stride, stride);
    } else {
      GridStep(q - stride, stride, 0);
    }
  }

  lemma SliceOfSuffix<T>(s: seq<T>, base: nat, lo: nat, hi: nat)
    requires base <= |s| && lo <= hi <= |s| - base
    ensures s[base..][lo..hi] == s[base + lo..base + hi]
  {
  }

  /** What a FETCH of one stride passes, in terms of the stream's own rows. */
  lemma FetchedBlock<Row>(rows: seq<Row>, at: nat, base: nat, realpos: nat, stride: int)
    requires |rows| < ALL && at <= |rows| + 1 && stride >= 1 && base + realpos == Min(at, |rows|)
    ensures RowsPassed(rows, at, stride) == Block(rows[base..], realpos, stride)
    ensures base + Min(realpos + stride, |rows| - base) == Min(LandAt(|rows|, at, stride), |rows|)
  {
    SliceOfSuffix(rows, base, realpos, Min(realpos + stride, |rows| - base));
  }

  class CursorIterator<Row> {
    var stream: CursorStream?<Row>
    var here: seq<Row>
    var pos: int
    var prev: CursorIterator?<Row>
    var next: CursorIterator?<Row>

    constructor ()
      ensures stream == null && here == [] && pos == 0 && prev == null && next == null
    {
      stream, here, pos, prev, next := null, [], 0, null, null;
    }
  }

  /** The rows [p, p + stride), cut off at the end of the data. */
  function Block<Row>(data: seq<Row>, p: nat, stride: nat): seq<Row> {
    data[Min(p, |data|)..Min(p + stride, |data|)]
  }

  /** An entry of the to-do list: an iterator and the position it stands at. */
  type Job<Row> = (int, CursorIterator<Row>)

  predicate Sorted<Row>(todo: seq<Job<Row>>) {
    forall i, j :: 0 <= i < j < |todo| ==> todo[i].0 <= todo[j].0
  }

  /** How many entries of the to-do list come before a new one at position p. */
  function UpperBound<Row>(todo: seq<Job<Row>>, p: int): (k: nat)
    requires Sorted(todo)
    ensures k <= |todo|
    ensures forall i :: 0 <= i < k ==> todo[i].0 <= p
    ensures forall i :: k <= i < |todo| ==> todo[i].0 > p
  {
    if todo == [] || todo[|todo| - 1].0 <= p then |todo| else UpperBound(todo[..|todo| - 1], p)
  }

  /** Insertion into the to-do list, which is ordered by position. */
  function InsertJob<Row>(todo: seq<Job<Row>>, p: int, it: CursorIterator<Row>): seq<Job<Row>>
    requires Sorted(todo)
  {
    var k := UpperBound(todo, p);
    todo[..k] + [(p, it)] + todo[k..]
  }

  lemma Inserted<T>(s: seq<T>, k: nat, x: T)
    requires k <= |s|
    ensures var r := s[..k] + [x] + s[k..];
            && |r| == |s| + 1
            && (forall i :: 0 <= i < |r| ==> r[i] == if i < k then s[i] else if i == k then x else s[i - 1])
  {
  }

  lemma InsertedMembers<T>(s: seq<T>, k: nat, x: T)
    requires k <= |s|
    ensures var r := s[..k] + [x] + s[k..];
            forall y :: y in r <==> y in s || y == x
  {
    assert s == s[..k] + s[k..];
  }

  lemma InsertJobSorted<Row>(todo: seq<Job<Row>>, p: int, it: CursorIterator<Row>)
    requires Sorted(todo)
    ensures Sorted(InsertJob(todo, p, it))
    ensures var r := InsertJob(todo, p, it);
            && (forall t :: 0 <= t < |r| ==> r[t] in todo || r[t] == (p, it))
            && (forall job :: job in todo || job == (p, it) ==> job in r)
  {
    Inserted(todo, UpperBound(todo, p), (p, it));
    InsertedMembers(todo, UpperBound(todo, p), (p, it));
  }

  class CursorStream<Row> {
    const cur: SqlCursor<Row>
    const stride: int
    var realpos: int
    var reqpos: int
    var done: bool
    var head: CursorIterator?<Row>
    ghost var list: seq<CursorIterator<Row>>
    /** The rows that the cursor had already passed when the stream took it over. */
    ghost const base: nat

    /** The rows of the stream. */
    ghost function Data(): seq<Row>
      requires base <= |cur.server.rows|
    {
      cur.server.rows[base..]
    }

    /** `realpos` is the number of the stream's rows that have been passed. */
    ghost predicate Reading()
      reads this`realpos, cur, cur.server
    {
      && stride >= 1 && realpos >= 0
      && cur.Valid() && base <= |cur.server.rows|
      && base + realpos == Min(cur.server.at, |cur.server.rows|)
    }

    constructor (cur: SqlCursor<Row>, stride: int)
      requires cur.Valid() && stride >= 1
      ensures Reading() && Linked() && list == []
      ensures this.cur == cur && this.stride == stride && realpos == 0 && reqpos == 0 && !done
    {
      this.cur, this.stride := cur, stride;
      realpos, reqpos, done := 0, 0, false;
      head, list := null, [];
      base := Min(cur.server.at, |cur.server.rows|);
    }

    method FetchBlock() returns (r: seq<Row>)
      requires Reading()
      modifies this`realpos, this`done, cur, cur.server`at
      ensures Reading()
      ensures r == Block(Data(), old(realpos), stride) && realpos == Min(old(realpos) + stride, |Data()|)
      ensures done == (old(done) || r == [])
    {
      FetchedBlock(cur.server.rows, cur.server.at, base, realpos, stride);
      var rows, _ := cur.Fetch(stride);
      r := rows;
      realpos := realpos + |r|;
      if r == [] {
        done := true;
      }
    }

    /** Skips n rows, or what is left of them.  A negative number moves the cursor
        back, but counts the rows that it passes as if it went forward: the read
        position stays right exactly if there was nothing to go back to. */
    method Ignore(n: int)
      requires Reading()
      modifies this`realpos, this`done, cur, cur.server`at
      ensures n >= 0 ==> Reading()
      ensures n >= 0 ==> realpos == Min(old(realpos) + n, |Data()|)
      ensures n >= 0 ==> done == (old(done) || realpos < old(realpos) + n)
      ensures n < 0 ==> realpos == old(realpos) + Passed(|cur.server.rows|, old(cur.server.at), n)
      ensures n < 0 ==> cur.server.at == LandAt(|cur.server.rows|, old(cur.server.at), n) && done == old(done)
      ensures n < 0 ==> (Reading() <==> base + old(realpos) == 0)
    {
      var offset, _ := cur.Move(n);
      realpos := realpos + offset;
      if offset < n {
        done := true;
      }
    }

    method Forward(n: nat) returns (p: int)
      requires stride >= 1 && OnGrid(reqpos, stride)
      modifies this`reqpos
      ensures p == reqpos == old(reqpos) + n * stride && OnGrid(reqpos, stride)
    {
      GridStep(reqpos, stride, n);
      reqpos := reqpos + n * stride;
      p := reqpos;
    }

    /** The intrusive list: `prev` and `next` are each other's inverse along
        `list`, which starts at `head`, ends in null and repeats nothing. */
    ghost predicate Linked()
      reads this`head, this`list, list`prev, list`next
    {
      && NoDuplicates(list)
      && (list == [] <==> head == null)
      && (list != [] ==> head == list[0] && list[0].prev == null && list[|list| - 1].next == null)
      && (forall i {:trigger list[i].next} :: 0 <= i < |list| - 1 ==> list[i].next == list[i + 1])
      && (forall i {:trigger list[i].prev} :: 1 <= i < |list| ==> list[i].prev == list[i - 1])
    }

    method InsertIterator(i: CursorIterator<Row>)
      requires Linked() && i !in list && i.prev == null
      modifies this`head, this`list, i`next, list`prev
      ensures Linked() && list == [i] + old(list)
    {
      i.next := head;
      if head != null {
        head.prev := i;
      }
      head := i;
      list := [i] + list;
    }

    /** The two branches of `remove_iterator`: the head, and any other element. */
    method UnlinkHead(i: CursorIterator<Row>)
      requires Linked() && i == head
      modifies this`head, this`list, list`prev, i`next
      ensures Linked() && list == old(list)[1..] && i.prev == null && i.next == null
    {
      WithoutOne(list, 0);
      head := i.next;
      if head != null {
        head.prev := null;
      }
      i.prev := null;
      i.next := null;
      list := list[1..];
    }

    method UnlinkInner(i: CursorIterator<Row>, ghost k: nat)
      requires Linked() && 0 < k < |list| && list[k] == i
      modifies this`list, list`prev, list`next
      ensures Linked() && list == old(list)[..k] + old(list)[k + 1..] && i.prev == null && i.next == null
    {
      WithoutOne(list, k);
      var prev, next := i.prev, i.next;
      prev.next := next;
      if next != null {
        next.prev := prev;
      }
      i.prev := null;
      i.next := null;
      list := list[..k] + list[k + 1..];
    }

    method RemoveIterator(i: CursorIterator<Row>)
      requires Linked() && i in list
      modifies this`head, this`list, list`prev, list`next
      ensures Linked() && i.prev == null && i.next == null
      ensures i !in list && |list| == |old(list)| - 1
      ensures forall x :: x in list <==> x in old(list) && x != i
    {
      ghost var k :| 0 <= k < |list| && list[k] == i;
      WithoutOne(list, k);
      if i == head {
        assert list[..0] + list[1..] == list[1..];
        UnlinkHead(i);
      } else {
        UnlinkInner(i, k);
      }
    }

    /** Every entry is one of the stream's iterators, where it stands. */
    ghost predicate Jobs(todo: seq<Job<Row>>)
      reads this`list, list`pos
    {
      Sorted(todo) && forall t :: 0 <= t < |todo| ==> todo[t].1 in list && todo[t].0 == todo[t].1.pos
    }

    /** The iterators that stand between the rows read so far and `topos`, in
        order of position. */
    method CollectJobs(topos: int) returns (todo: seq<Job<Row>>)
      requires Linked()
      ensures Jobs(todo)
      ensures forall t :: 0 <= t < |todo| ==> realpos <= todo[t].0 <= topos
      ensures Complete(todo, realpos, topos)
    {
      hide InsertJob;
      todo := [];
      var i := head;
      ghost var k := 0;
      while i != null
        invariant 0 <= k <= |list| && i == (if k < |list| then list[k] else null)
        invariant Jobs(todo)
        invariant forall t :: 0 <= t < |todo| ==> realpos <= todo[t].0 <= topos
        invariant forall j :: 0 <= j < k && realpos <= list[j].pos <= topos ==> (list[j].pos, list[j]) in todo
        decreases |list| - k
      {
        if realpos <= i.pos <= topos {
          InsertJobSorted(todo, i.pos, i);
          todo := InsertJob(todo, i.pos, i);
        }
        i := i.next;
        k := k + 1;
      }
    }

    /** Reads the block at `readpos`, skipping the rows before it. */
    method ReadAt(readpos: int) returns (r: seq<Row>)
      requires Reading() && realpos <= readpos
      modifies this`realpos, this`done, cur, cur.server`at
      ensures Reading() && realpos == Min(readpos + stride, |Data()|)
      ensures done == (old(done) || readpos >= |Data()|)
      ensures r == Block(Data(), readpos, stride)
    {
      if readpos > realpos {
        Ignore(readpos - realpos);
      }
      r := FetchBlock();
    }

    /** Every iterator in the given range has its entry. */
    ghost predicate Complete(todo: seq<Job<Row>>, from: int, topos: int)
      reads this`list, list`pos
    {
      forall i :: i in list && from <= i.pos <= topos ==> (i.pos, i) in todo
    }

    /** Gives a block to every iterator at its position. */
    method Fill(todo: seq<Job<Row>>, start: nat, r: seq<Row>) returns (t: nat)
      requires Jobs(todo) && start < |todo| && Complete(todo, todo[start].0, todo[start].0)
      requires forall j :: 0 <= j < start ==> todo[j].0 < todo[start].0
      modifies list`here
      ensures start < t <= |todo|
      ensures forall j :: 0 <= j < t ==> todo[j].0 <= todo[start].0
      ensures t < |todo| ==> todo[t].0 > todo[start].0
      ensures forall i :: i in list ==> i.here == if i.pos == todo[start].0 then r else old(i.here)
    {
      t := start;
      while t < |todo| && todo[t].0 == todo[start].0
        invariant start <= t <= |todo|
        invariant forall j :: start <= j < t ==> todo[j].0 == todo[start].0 && todo[j].1.here == r
        invariant forall i :: i in list && i.pos != todo[start].0 ==> i.here == old(i.here)
      {
        todo[t].1.here := r;
        t := t + 1;
      }
      forall i | i in list && i.pos == todo[start].0
        ensures i.here == r
      {
        var j :| 0 <= j < |todo| && todo[j] == (i.pos, i);
      }
    }

    /** The next entry to serve stands strictly behind all earlier ones. */
    predicate NextUp(todo: seq<Job<Row>>, t: nat)
    {
      t < |todo| ==> forall j :: 0 <= j < t ==> todo[j].0 < todo[t].0
    }

    /** Position p lies before everything that is still to be served. */
    predicate Served(todo: seq<Job<Row>>, t: nat, p: int) {
      t < |todo| ==> p < todo[t].0
    }

    /** Reads the block for the next entry and gives it to everyone at its position. */
    method ServeNext(todo: seq<Job<Row>>, t: nat, ghost from: int, topos: int) returns (t': nat)
      requires Reading() && Jobs(todo) && NextUp(todo, t) && t < |todo| && realpos <= todo[t].0
      requires Complete(todo, from, topos) && from <= todo[t].0 <= topos
      requires forall i :: i in list ==> OnGrid(i.pos, stride)
      modifies this`realpos, this`done, cur, cur.server`at, list`here
      ensures Reading() && StoppedAt(todo[t].0) && done == (old(done) || todo[t].0 >= |Data()|)
      ensures t < t' <= |todo| && NextUp(todo, t') && (t' < |todo| ==> todo[t].0 < todo[t'].0 && realpos <= todo[t'].0)
      ensures forall j :: 0 <= j < t' ==> todo[j].0 <= todo[t].0
      ensures forall i :: i in list ==>
                i.here == if i.pos == todo[t].0 then Block(Data(), i.pos, stride) else old(i.here)
    {
      hide OnGrid, Block;
      var readpos := todo[t].0;
      var r := ReadAt(readpos);
      t' := Fill(todo, t, r);
      if t' < |todo| {
        GridSpacing(readpos, todo[t'].0, stride);
      }
    }

    /** The last block that was read is the one at p. */
    ghost predicate StoppedAt(p: int)
      requires base <= |cur.server.rows|
      reads this`realpos
    {
      realpos == if p + stride < |Data()| then p + stride else |Data()|
    }

    lemma NothingServed(todo: seq<Job<Row>>, from: int, topos: int)
      requires Jobs(todo) && Complete(todo, from, topos)
      ensures forall i :: i in list && from <= i.pos <= topos ==> !Served(todo, 0, i.pos)
      ensures NextUp(todo, 0)
    {
      forall i | i in list && from <= i.pos <= topos
        ensures !Served(todo, 0, i.pos)
      {
        var j :| 0 <= j < |todo| && todo[j] == (i.pos, i);
      }
    }

    lemma AllServed(todo: seq<Job<Row>>)
      ensures forall p :: Served(todo, |todo|, p)
    {
    }

    lemma SameBlock(todo: seq<Job<Row>>, t: nat, t': nat)
      requires Jobs(todo) && t < t' <= |todo| && forall j :: 0 <= j < t' ==> todo[j].0 <= todo[t].0
      ensures todo[t' - 1].0 == todo[t].0 && (t > 0 ==> todo[t - 1].0 <= todo[t].0)
    {
    }

    lemma JobOnGrid(todo: seq<Job<Row>>, t: nat)
      requires Jobs(todo) && t < |todo| && stride >= 1
      requires forall i :: i in list ==> OnGrid(i.pos, stride)
      ensures OnGrid(todo[t].0, stride)
    {
    }

    /** Between two entries served one after the other there is no iterator. */
    lemma NothingBetween(todo: seq<Job<Row>>, t: nat, t': nat, from: int, topos: int)
      requires Jobs(todo) && Complete(todo, from, topos) && NextUp(todo, t) && t < t' <= |todo|
      requires forall j :: 0 <= j < t' ==> todo[j].0 <= todo[t].0
      requires t' < |todo| ==> todo[t].0 < todo[t'].0
      ensures forall i :: i in list && from <= i.pos <= topos ==>
                (Served(todo, t', i.pos) <==> Served(todo, t, i.pos) || i.pos == todo[t].0)
    {
      forall i | i in list && from <= i.pos <= topos
        ensures Served(todo, t', i.pos) <==> Served(todo, t, i.pos) || i.pos == todo[t].0
      {
        var j :| 0 <= j < |todo| && todo[j] == (i.pos, i);
      }
    }

    /** Goes through the to-do list, one position after the other. */
    method ServeAll(todo: seq<Job<Row>>, topos: int)
      requires Reading() && Jobs(todo) && Complete(todo, realpos, topos)
      requires forall t :: 0 <= t < |todo| ==> realpos <= todo[t].0 <= topos
      requires forall i :: i in list ==> OnGrid(i.pos, stride)
      modifies this`realpos, this`done, cur, cur.server`at, list`here
      ensures Reading()
      ensures forall i :: i in list ==>
                i.here == if old(realpos) <= i.pos <= topos then Block(Data(), i.pos, stride) else old(i.here)
      ensures todo == [] ==> realpos == old(realpos) && done == old(done) && cur.server.at == old(cur.server.at)
      ensures todo != [] ==>
                var p := todo[|todo| - 1].0;
                StoppedAt(p) && done == (old(done) || p >= |Data()|)
    {
      hide Block, OnGrid, Served, Jobs, Complete, NextUp;
      var t := 0;
      ghost var from := realpos;
      NothingServed(todo, from, topos);
      while t < |todo|
        invariant 0 <= t <= |todo| && Jobs(todo) && Complete(todo, from, topos) && NextUp(todo, t)
        invariant Reading() && (t < |todo| ==> realpos <= todo[t].0)
        invariant t == 0 ==> realpos == from && done == old(done) && cur.server.at == old(cur.server.at)
        invariant t > 0 ==> StoppedAt(todo[t - 1].0) && done == (old(done) || todo[t - 1].0 >= |Data()|)
        invariant forall i :: i in list ==>
                    i.here == if from <= i.pos <= topos && Served(todo, t, i.pos) then Block(Data(), i.pos, stride)
                              else old(i.here)
      {
        var t' := ServeNext(todo, t, from, topos);
        NothingBetween(todo, t, t', from, topos);
        SameBlock(todo, t, t');
        t := t';
      }
      assert t == |todo|;
      AllServed(todo);
    }

    /** The iterator that stands furthest behind, among those between the rows
        read so far and `topos`. */
    ghost predicate Last(i: CursorIterator<Row>, from: int, topos: int)
      reads this`list, list`pos
    {
      i in list && from <= i.pos <= topos && forall j :: j in list && from <= j.pos <= topos ==> j.pos <= i.pos
    }

    /** The last entry of the to-do list is the iterator that stands furthest behind. */
    lemma LastJob(todo: seq<Job<Row>>, from: int, topos: int)
      requires Jobs(todo) && Complete(todo, from, topos)
      requires forall t :: 0 <= t < |todo| ==> from <= todo[t].0 <= topos
      ensures todo == [] ==> forall i :: i in list ==> !(from <= i.pos <= topos)
      ensures todo == [] ==> forall i :: !Last(i, from, topos)
      ensures todo != [] ==> Last(todo[|todo| - 1].1, from, topos)
      ensures todo != [] ==> forall i :: Last(i, from, topos) ==> i.pos == todo[|todo| - 1].0
    {
      forall i | i in list && from <= i.pos <= topos
        ensures todo != [] && i.pos <= todo[|todo| - 1].0
      {
        var j :| 0 <= j < |todo| && todo[j] == (i.pos, i);
      }
    }

    lemma NoLast(topos: int)
      requires topos < realpos
      ensures forall i :: !Last(i, realpos, topos)
    {
    }

    /** Nobody further behind has been overtaken. */
    lemma NobodyPassed(p: int, topos: int)
      requires stride >= 1 && OnGrid(p, stride) && p <= topos
      requires forall i :: i in list ==> OnGrid(i.pos, stride)
      ensures forall i :: i in list && i.pos > topos ==> p + stride <= i.pos
    {
      forall i | i in list && i.pos > topos
        ensures p + stride <= i.pos
      {
        GridSpacing(p, i.pos, stride);
      }
    }

    /** Reads ahead for every iterator that stands between the rows read so far
        and `topos`: each of them gets its own block and no other iterator
        changes.  What is read ends with the block of the last one of them, and
        nothing is read if there is none, so that nobody behind `topos` is passed. */
    method ServiceIterators(topos: int)
      requires Reading() && Linked()
      requires forall i :: i in list ==> OnGrid(i.pos, stride)
      modifies this`realpos, this`done, cur, cur.server`at, list`here
      ensures Reading()
      ensures forall i :: i in list ==>
                i.here == if old(realpos) <= i.pos <= topos then Block(Data(), i.pos, stride) else old(i.here)
      ensures (forall i :: i in list ==> !(old(realpos) <= i.pos <= topos)) ==>
                realpos == old(realpos) && done == old(done) && cur.server.at == old(cur.server.at)
      ensures forall i :: Last(i, old(realpos), topos) ==>
                StoppedAt(i.pos) && done == (old(done) || i.pos >= |Data()|)
      ensures forall i :: i in list && topos < i.pos && old(realpos) <= i.pos ==> realpos <= i.pos
    {
      hide Block, OnGrid, Jobs, Complete, Last, Linked;
      if topos < realpos {
        NoLast(topos);
        return;
      }
      var todo := CollectJobs(topos);
      ServeAll(todo, topos);
      LastJob(todo, old(realpos), topos);
      if todo != [] {
        JobOnGrid(todo, |todo| - 1);
        NobodyPassed(todo[|todo| - 1].0, topos);
      }
    }
  }

  // ---- All streams and all live iterators -------------------------------

  /** The list reached from a stream is exactly the set of live iterators that
      are attached to it. */
  ghost predicate Owns<Row>(s: CursorStream<Row>, iters: set<CursorIterator<Row>>)
    reads s`head, s`list, iters`stream, iters`prev, iters`next
  {
    && (forall i :: i in s.list ==> i in iters && i.stream == s)
    && (forall i :: i in iters && i.stream == s ==> i in s.list)
    && s.Linked()
  }

  ghost predicate World<Row>(streams: set<CursorStream<Row>>, iters: set<CursorIterator<Row>>)
    reads streams`head, streams`list, iters`stream, iters`prev, iters`next
  {
    && (forall s :: s in streams ==> Owns(s, iters))
    && (forall i :: i in iters && i.stream != null ==> i.stream in streams)
    && (forall i :: i in iters && i.stream == null ==> i.prev == null && i.next == null)
  }

  /** Every attached iterator stands on its own stream's grid. */
  ghost predicate Gridded<Row>(streams: set<CursorStream<Row>>, iters: set<CursorIterator<Row>>)
    reads streams`reqpos, iters`stream, iters`pos
  {
    && (forall s :: s in streams ==> s.stride >= 1 && OnGrid(s.reqpos, s.stride))
    && (forall i :: i in iters && i.stream != null ==> i.stream.stride >= 1 && OnGrid(i.pos, i.stream.stride))
  }

  lemma KnownStream<Row>(i: CursorIterator<Row>, streams: set<CursorStream<Row>>, iters: set<CursorIterator<Row>>)
    requires World(streams, iters) && i in iters && i.stream != null
    ensures i.stream in streams
  {
  }

  /** Takes an iterator out of its stream's list, if it has a stream. */
  method Detach<Row>(i: CursorIterator<Row>,
                     ghost streams: set<CursorStream<Row>>, ghost iters: set<CursorIterator<Row>>)
    requires World(streams, iters) && i in iters
    modifies streams`head, streams`list, iters`prev, iters`next
    ensures World(streams, iters - {i}) && i.prev == null && i.next == null
  {
    if i.stream != null {
      assert Owns(i.stream, iters);
      i.stream.RemoveIterator(i);
    }
  }

  /** Puts an iterator that is in no list into its stream's list, if it has a stream. */
  method Attach<Row>(i: CursorIterator<Row>,
                     ghost streams: set<CursorStream<Row>>, ghost iters: set<CursorIterator<Row>>)
    requires World(streams, iters) && i !in iters
    requires (i.stream != null ==> i.stream in streams) && i.prev == null && i.next == null
    modifies streams`head, streams`list, iters`prev, i`next
    ensures World(streams, iters + {i})
  {
    if i.stream != null {
      assert Owns(i.stream, iters);
      i.stream.InsertIterator(i);
    }
  }

  /** The constructor that takes a stream. */
  method Construct<Row>(s: CursorStream<Row>,
                        ghost streams: set<CursorStream<Row>>, ghost iters: set<CursorIterator<Row>>)
    returns (i: CursorIterator<Row>)
    requires World(streams, iters) && Gridded(streams, iters) && s in streams
    modifies streams`head, streams`list, streams`reqpos, iters`prev
    ensures fresh(i) && i.stream == s && i.pos == s.reqpos == old(s.reqpos) && i.here == []
    ensures World(streams, iters + {i}) && Gridded(streams, iters + {i})
  {
    hide OnGrid, World;
    i := new CursorIterator();
    i.stream := s;
    i.pos := s.Forward(0);
    Attach(i, streams, iters);
  }

  /** The copy constructor. */
  method Copy<Row>(rhs: CursorIterator<Row>,
                   ghost streams: set<CursorStream<Row>>, ghost iters: set<CursorIterator<Row>>)
    returns (i: CursorIterator<Row>)
    requires World(streams, iters) && Gridded(streams, iters) && rhs in iters
    modifies streams`head, streams`list, iters`prev
    ensures fresh(i) && i.stream == rhs.stream && i.pos == rhs.pos && i.here == rhs.here
    ensures World(streams, iters + {i}) && Gridded(streams, iters + {i})
  {
    hide OnGrid, World;
    if rhs.stream != null {
      KnownStream(rhs, streams, iters);
    }
    i := new CursorIterator();
    i.stream, i.here, i.pos := rhs.stream, rhs.here, rhs.pos;
    Attach(i, streams, iters);
  }

  /** Assignment, also between iterators of different streams. */
  method Assign<Row>(lhs: CursorIterator<Row>, rhs: CursorIterator<Row>,
                     ghost streams: set<CursorStream<Row>>, ghost iters: set<CursorIterator<Row>>)
    requires World(streams, iters) && Gridded(streams, iters) && lhs in iters && rhs in iters
    modifies streams`head, streams`list, iters`prev, iters`next, lhs
    ensures lhs.stream == old(rhs.stream) && lhs.pos == old(rhs.pos) && lhs.here == old(rhs.here)
    ensures World(streams, iters) && Gridded(streams, iters)
  {
    hide OnGrid, World;
    if rhs.stream != null {
      KnownStream(rhs, streams, iters);
    }
    if rhs != lhs {
      if rhs.stream == lhs.stream {
        lhs.here := rhs.here;
        lhs.pos := rhs.pos;
      } else {
        Detach(lhs, streams, iters);
        lhs.here := rhs.here;
        lhs.pos := rhs.pos;
        lhs.stream := rhs.stream;
        Attach(lhs, streams, iters - {lhs});
        assert iters - {lhs} + {lhs} == iters;
      }
    }
  }

  /** The destructor. */
  method Destroy<Row>(i: CursorIterator<Row>,
                      ghost streams: set<CursorStream<Row>>, ghost iters: set<CursorIterator<Row>>)
    requires World(streams, iters) && Gridded(streams, iters) && i in iters
    modifies streams`head, streams`list, iters`prev, iters`next
    ensures World(streams, iters - {i}) && Gridded(streams, iters - {i})
  {
    Detach(i, streams, iters);
  }

  /** operator+= (operator++ is n = 1); going backward is refused. */
  method Advance<Row>(i: CursorIterator<Row>, n: int,
                      ghost streams: set<CursorStream<Row>>, ghost iters: set<CursorIterator<Row>>)
    returns (ok: bool)
    requires World(streams, iters) && Gridded(streams, iters) && i in iters && i.stream != null
    modifies streams`reqpos, i`pos, i`here
    ensures ok <==> n >= 0
    ensures n <= 0 ==> i.pos == old(i.pos) && i.here == old(i.here) && i.stream.reqpos == old(i.stream.reqpos)
    ensures n > 0 ==> i.pos == i.stream.reqpos == old(i.stream.reqpos) + n * i.stream.stride && i.here == []
    ensures World(streams, iters) && Gridded(streams, iters)
  {
    hide OnGrid;
    if n <= 0 {
      return n == 0;
    }
    i.pos := i.stream.Forward(n);
    i.here := [];
    ok := true;
  }

  /** Dereferencing: an iterator that the stream has not passed yet gets the rows
      at its own position, whatever the other iterators of the stream have done;
      one that the stream has passed keeps what it holds. */
  method Refresh<Row>(i: CursorIterator<Row>,
                      ghost streams: set<CursorStream<Row>>, ghost iters: set<CursorIterator<Row>>)
    requires World(streams, iters) && Gridded(streams, iters) && i in iters
    requires i.stream != null ==> i.stream.Reading()
    modifies iters`here, streams`realpos, streams`done,
      if i.stream == null then {} else {i.stream.cur}, (if i.stream == null then {} else {i.stream.cur.server})`at
    ensures World(streams, iters) && Gridded(streams, iters)
    ensures i.stream != null ==> i.stream.Reading()
    ensures i.stream != null ==>
              i.here == if old(i.stream.realpos) <= i.pos then Block(i.stream.Data(), i.pos, i.stream.stride)
                        else old(i.here)
    ensures i.stream == null ==> i.here == old(i.here)
    ensures forall j :: j in iters && i.stream != null && j.stream == i.stream ==>
              && j.here == (if old(i.stream.realpos) <= j.pos <= i.pos
                            then Block(i.stream.Data(), j.pos, i.stream.stride) else old(j.here))
              && (i.pos < j.pos && old(i.stream.realpos) <= j.pos ==> i.stream.realpos <= j.pos)
    ensures i.stream != null && (forall j :: j in iters && j.stream == i.stream ==>
                                   !(old(i.stream.realpos) <= j.pos <= i.pos)) ==>
              i.stream.realpos == old(i.stream.realpos) && i.stream.done == old(i.stream.done)
    ensures i.stream != null && old(i.stream.realpos) <= i.pos ==>
              i.stream.StoppedAt(i.pos) && i.stream.done == (old(i.stream.done) || i.pos >= |i.stream.Data()|)
  {
    hide OnGrid, Block;
    if i.stream != null {
      assert Owns(i.stream, iters);
      assert i.stream.realpos <= i.pos ==> i.stream.Last(i, i.stream.realpos, i.pos);
      i.stream.ServiceIterators(i.pos);
    }
  }

  /** The stream s has not passed any of its iterators without leaving it its block. */
  ghost predicate NoneMissed<Row>(s: CursorStream<Row>, its: seq<CursorIterator<Row>>)
    requires s.Reading()
    reads s`realpos, s.cur, s.cur.server, its`pos, its`here
  {
    forall i :: i in its ==> s.realpos <= i.pos || (i.pos >= 0 && i.here == Block(s.Data(), i.pos, s.stride))
  }

  /** Any iterators of one stream that it has not passed yet can be dereferenced in
      any order: in the end each of them holds the rows at its own position. */
  method RefreshAll<Row>(s: CursorStream<Row>, its: seq<CursorIterator<Row>>,
                         ghost streams: set<CursorStream<Row>>, ghost iters: set<CursorIterator<Row>>)
    requires World(streams, iters) && Gridded(streams, iters) && s in streams && s.Reading()
    requires forall i :: i in its ==> i in iters && i.stream == s && s.realpos <= i.pos
    modifies iters`here, streams`realpos, streams`done, s.cur, s.cur.server`at
    ensures World(streams, iters) && Gridded(streams, iters) && s.Reading()
    ensures forall i :: i in its ==> i.here == Block(s.Data(), i.pos, s.stride)
  {
    hide OnGrid, Block, World;
    for k := 0 to |its|
      invariant World(streams, iters) && Gridded(streams, iters) && s.Reading()
      invariant NoneMissed(s, its)
      invariant forall j :: 0 <= j < k ==> its[j].here == Block(s.Data(), its[j].pos, s.stride)
    {
      Refresh(its[k], streams, iters);
    }
  }
}
