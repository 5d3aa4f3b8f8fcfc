/** SQL cursors (src/sql_cursor.cxx): the client follows a cursor on the server
    that it cannot see, from row counts alone. */
module CursorTracking {
  import opened Wrappers

  /** cursor_base::all() and cursor_base::backward_all(). */
  const ALL: int := 0x7fff_ffff - 1
  const BACKWARD_ALL: int := -0x8000_0000 + 1

  function Min(a: int, b: int): int {
    if a < b then a else b
  }

  function Max(a: int, b: int): int {
    if a < b then b else a
  }

  function Reverse<T>(s: seq<T>): (r: seq<T>)
    ensures |r| == |s|
    ensures forall i :: 0 <= i < |s| ==> r[i] == s[|s| - 1 - i]
  {
    if s == [] then [] else Reverse(s[1..]) + [s[0]]
  }

  // ---- The server -------------------------------------------------------

  /** A cursor over N rows stands at 0 (before the first row), on a row 1..N, or
      at N + 1.  Where FETCH n or MOVE n takes it, for n != 0; the extreme counts
      are sent as ALL and BACKWARD ALL. */
  function LandAt(size: nat, at: nat, n: int): nat {
    if n >= ALL then size + 1
    else if n <= BACKWARD_ALL then 0
    else if n > 0 then (if at + n <= size then at + n else size + 1)
    else (if at + n >= 1 then at + n else 0)
  }

  /** The rows that are passed on the way, in the order in which they are met. */
  function RowsPassed<Row>(rows: seq<Row>, at: nat, n: int): (r: seq<Row>)
    requires at <= |rows| + 1
  {
    if n > 0 then
      var from := Min(at, |rows|);
      rows[from..Max(from, Min(LandAt(|rows|, at, n), |rows|))]
    else
      var to := Max(at - 1, 0);
      Reverse(rows[Min(to, Max(LandAt(|rows|, at, n) - 1, 0))..to])
  }

  class ServerCursor<Row> {
    const rows: seq<Row>
    var at: nat

    constructor (rows: seq<Row>, at: nat)
      ensures this.rows == rows && this.at == at
    {
      this.rows := rows;
      this.at := at;
    }

    method Pass(n: int) returns (r: seq<Row>)
      requires at <= |rows| + 1
      modifies this`at
      ensures at == LandAt(|rows|, old(at), n) && r == RowsPassed(rows, old(at), n)
    {
      r := RowsPassed(rows, at, n);
      at := LandAt(|rows|, at, n);
    }
  }

  /** How many rows are passed. */
  function Passed(size: nat, at: nat, n: int): (d: int)
    requires at <= size + 1
  {
    if n > 0 then Max(0, Min(LandAt(size, at, n), size) - at)
    else Max(0, at - 1 - Max(LandAt(size, at, n) - 1, 0))
  }

  lemma PassedIsCount<Row>(rows: seq<Row>, at: nat, n: int)
    requires at <= |rows| + 1
    ensures |RowsPassed(rows, at, n)| == Passed(|rows|, at, n)
  {
  }

  // ---- The client's record ----------------------------------------------

  /** What the client knows: whether it stands at the start (-1), past the end
      (1) or neither (0); its position and the end position, or -1. */
  datatype Tracker = Tracker(atEnd: int, pos: int, endpos: int)

  datatype AdjustError = NegativeRows | TooManyRows | WrongPosition | InconsistentEnd

  datatype Adjusted =
    | Moved(tracker: Tracker, displacement: int)
    | Inconsistent(tracker: Tracker, error: AdjustError)

  /** sql_cursor::adjust: the true displacement, from the requested one and the
      number of rows reported. */
  function Adjust(t: Tracker, hoped: int, actual: int): Adjusted {
    if actual < 0 then Inconsistent(t, NegativeRows)
    else if hoped == 0 then Moved(t, 0)
    else
      var direction := if hoped < 0 then -1 else 1;
      if actual > hoped * direction then Inconsistent(t, TooManyRows)
      else if actual == hoped * direction then
        Moved(Tracker(0, if t.pos >= 0 then t.pos + hoped else t.pos, t.endpos), hoped)
      else
        // Fewer rows than requested: an end was hit.  Whether that took an extra
        // step depends on whether we were there already.
        var steps := if t.atEnd != direction then actual + 1 else actual;
        if direction > 0 then
          var pos := if t.pos >= 0 then t.pos + steps else t.pos;
          if t.endpos >= 0 && pos != t.endpos then
            Inconsistent(Tracker(direction, pos, t.endpos), InconsistentEnd)
          else Moved(Tracker(direction, pos, pos), steps)
        else if t.pos != -1 && t.pos != steps then Inconsistent(t, WrongPosition)
        else Moved(Tracker(direction, 0, t.endpos), -steps)
  }

  /** The record of a cursor that was created, and of one that was adopted. */
  const Created := Tracker(-1, 0, -1)
  const Adopted := Tracker(0, -1, -1)

  /** The record agrees with a server cursor over `size` rows that stands at
      `at`: what is known is true, and while the position is known, the mark
      says exactly whether the cursor stands at one of its two ends. */
  predicate Tracks(t: Tracker, size: nat, at: nat) {
    && at <= size + 1
    && t.atEnd in {-1, 0, 1}
    && (t.pos == -1 || t.pos == at)
    && (t.endpos == -1 || t.endpos == size + 1)
    && (t.atEnd == -1 ==> at == 0 && t.pos == 0)
    && (t.atEnd == 1 ==> at == size + 1)
    && (t.pos != -1 ==> (at == 0 <==> t.atEnd == -1) && (at == size + 1 <==> t.atEnd == 1))
    && (t.endpos != -1 ==> t.pos != -1)
  }

  /** The client stands at the end that it is asked to move to, and does not know. */
  predicate UnknowinglyThere(t: Tracker, size: nat, at: nat, n: int) {
    t.atEnd == 0 && ((n > 0 && at == size + 1) || (n < 0 && at == 0))
  }

  /** One FETCH or MOVE: the record stays true, no internal error is raised, the
      position becomes known exactly by reaching the start, and the reported
      displacement is the real one unless an adopted cursor already stood,
      unknown to the client, at the end it was sent to. */
  lemma AdjustTracks(t: Tracker, size: nat, at: nat, n: int)
    requires Tracks(t, size, at) && size < ALL && n != 0
    ensures var land := LandAt(size, at, n);
            var a := Adjust(t, n, Passed(size, at, n));
            && a.Moved? && Tracks(a.tracker, size, land)
            && (a.tracker.pos == -1 <==> t.pos == -1 && land != 0)
            && (a.tracker.endpos != -1 <==> t.endpos != -1 || (t.pos != -1 && land == size + 1))
            && (a.displacement == land - at <==> !UnknowinglyThere(t, size, at, n))
  {
  }

  /** The unknowing case does arise: the start of an adopted cursor. */
  lemma DisplacementCanBeWrong()
    ensures Tracks(Adopted, 3, 0) && LandAt(3, 0, -1) == 0
    ensures Adjust(Adopted, -1, Passed(3, 0, -1)).displacement == -1
  {
  }

  /** The record and the server position after a run of FETCH and MOVE commands. */
  function Play(t: Tracker, size: nat, at: nat, ns: seq<int>): (Adjusted, nat)
    requires at <= size + 1
    decreases |ns|
  {
    if ns == [] then (Moved(t, 0), at)
    else if ns[0] == 0 then Play(t, size, at, ns[1..])
    else
      var a := Adjust(t, ns[0], Passed(size, at, ns[0]));
      if a.Inconsistent? then (a, at) else Play(a.tracker, size, LandAt(size, at, ns[0]), ns[1..])
  }

  /** Every run keeps the record true and raises no internal error. */
  lemma {:induction false} RunTracks(t: Tracker, size: nat, at: nat, ns: seq<int>)
    requires Tracks(t, size, at) && size < ALL
    ensures var (a, at') := Play(t, size, at, ns);
            a.Moved? && Tracks(a.tracker, size, at') && (t.pos != -1 ==> a.tracker.pos == at')
    decreases |ns|
  {
    if ns != [] {
      if ns[0] == 0 {
        RunTracks(t, size, at, ns[1..]);
      } else {
        AdjustTracks(t, size, at, ns[0]);
        RunTracks(Adjust(t, ns[0], Passed(size, at, ns[0])).tracker, size, LandAt(size, at, ns[0]), ns[1..]);
      }
    }
  }

  /** ... from both kinds of start: a created cursor, whose position is then known
      for good, and one that was adopted wherever it happened to stand. */
  lemma CursorTrackingRefinesServer(size: nat, start: nat, ns: seq<int>)
    requires size < ALL && start <= size + 1
    ensures var (a, at) := Play(Created, size, 0, ns);
            a.Moved? && Tracks(a.tracker, size, at) && a.tracker.pos == at
    ensures var (a, at) := Play(Adopted, size, start, ns);
            a.Moved? && Tracks(a.tracker, size, at)
  {
    RunTracks(Created, size, 0, ns);
    RunTracks(Adopted, size, start, ns);
  }

  class SqlCursor<Row> {
    const server: ServerCursor<Row>
    var atEnd: int
    var pos: int
    var endpos: int

    ghost function Record(): Tracker
      reads this
    {
      Tracker(atEnd, pos, endpos)
    }

    ghost predicate Valid()
      reads this, server
    {
      |server.rows| < ALL && Tracks(Record(), |server.rows|, server.at)
    }

    /** DECLARE: the new cursor stands before its first row. */
    constructor Create(rows: seq<Row>)
      requires |rows| < ALL
      ensures Valid() && fresh(server) && server.rows == rows && server.at == 0 && Record() == Created
    {
      server := new ServerCursor(rows, 0);
      atEnd, pos, endpos := -1, 0, -1;
    }

    /** Take over a cursor that already exists. */
    constructor Adopt(server: ServerCursor<Row>)
      requires |server.rows| < ALL && server.at <= |server.rows| + 1
      ensures Valid() && this.server == server && Record() == Adopted
    {
      this.server := server;
      atEnd, pos, endpos := 0, -1, -1;
    }

    method DoAdjust(hoped: int, count: int) returns (r: Result<int, AdjustError>)
      modifies this
      ensures match Adjust(old(Record()), hoped, count)
              case Moved(t, d) => r == Success(d) && Record() == t
              case Inconsistent(t, e) => r == Failure(e) && Record() == t
    {
      var actual := count;
      if actual < 0 {
        return Failure(NegativeRows);
      }
      if hoped == 0 {
        return Success(0);
      }
      var direction := if hoped < 0 then -1 else 1;
      var hitEnd := false;
      if actual != hoped * direction {
        if actual > hoped * direction {
          return Failure(TooManyRows);
        }
        if atEnd != direction {
          actual := actual + 1;
        }
        if direction > 0 {
          hitEnd := true;
        } else if pos == -1 {
          pos := actual;
        } else if pos != actual {
          return Failure(WrongPosition);
        }
        atEnd := direction;
      } else {
        atEnd := 0;
      }
      if pos >= 0 {
        pos := pos + direction * actual;
      }
      if hitEnd {
        if endpos >= 0 && pos != endpos {
          return Failure(InconsistentEnd);
        }
        endpos := pos;
      }
      return Success(direction * actual);
    }

    /** Returns the rows that the server passes over and follows it; the internal
        errors of `DoAdjust` do not arise. */
    method Fetch(n: int) returns (rows: seq<Row>, displacement: int)
      requires Valid()
      modifies this, server`at
      ensures Valid()
      ensures n == 0 ==> rows == [] && displacement == 0 && server.at == old(server.at) && Record() == old(Record())
      ensures n != 0 ==>
                && rows == RowsPassed(server.rows, old(server.at), n)
                && server.at == LandAt(|server.rows|, old(server.at), n)
                && Moved(Record(), displacement)
                   == Adjust(old(Record()), n, Passed(|server.rows|, old(server.at), n))
    {
      if n == 0 {
        return [], 0;
      }
      PassedIsCount(server.rows, server.at, n);
      AdjustTracks(Record(), |server.rows|, server.at, n);
      rows := server.Pass(n);
      var d := DoAdjust(n, |rows|);
      displacement := d.value;
    }

    /** The same without the rows; returns how many were passed. */
    method Move(n: int) returns (count: int, displacement: int)
      requires Valid()
      modifies this, server`at
      ensures Valid()
      ensures n == 0 ==> count == 0 && displacement == 0 && server.at == old(server.at) && Record() == old(Record())
      ensures n != 0 ==>
                && count == Passed(|server.rows|, old(server.at), n)
                && server.at == LandAt(|server.rows|, old(server.at), n)
                && Moved(Record(), displacement) == Adjust(old(Record()), n, count)
    {
      if n == 0 {
        return 0, 0;
      }
      PassedIsCount(server.rows, server.at, n);
      AdjustTracks(Record(), |server.rows|, server.at, n);
      var rows := server.Pass(n);
      count := |rows|;
      var d := DoAdjust(n, count);
      displacement := d.value;
    }
  }
}
