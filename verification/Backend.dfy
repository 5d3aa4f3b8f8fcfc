/** The other end of a pipeline: one connection to the server and the transaction
    that it lives in, as far as src/pipeline.cxx talks to them.  What the server
    answers, how fast, and whether the link holds is arbitrary; the contracts say
    only what every server and libpq guarantee. */
module Backend {
  import opened Wrappers

  /** A result: did the statement succeed, how many rows are there, and the data.
      `broken` is a failure without SQLSTATE or of class 08, which the library takes
      for a broken connection. */
  datatype Answer = Answer(ok: bool, broken: bool, rows: nat, value: string)

  const DummyAnswer := Answer(true, false, 1, "1")

  /** What libpq makes up for a result when the link is lost. */
  predicate IsLost(a: Answer) {
    !a.ok && a.broken && a.rows == 0
  }

  /** What has happened on the server: a statement was executed, or a whole batch
      was refused before any of it was executed. */
  datatype Event = Executed(text: string) | Refused(batch: seq<string>)

  /** The database: what it answers to the last statement of a history. */
  type Database = seq<Event> -> Answer

  datatype Exn =
    | BrokenConnection
    | SendFailure
    | CommandInProgress
    | UsageError
    | OverflowError
    | RangeError
    | LogicError
    | InternalError
    | EarlierError
    | SqlError(answer: Answer)

  /** result::check_status. */
  function CheckStatus(a: Answer): Outcome<Exn> {
    if a.ok then Pass else if a.broken then Throw(BrokenConnection) else Throw(SqlError(a))
  }

  /** What the last poll said about the next result: that fetching it means waiting,
      or that it does not; nothing is known once a result has been fetched. */
  datatype Poll = Unknown | Busy | Ready

  /** Who holds the transaction's focus. */
  datatype Focus = Nobody | ThePipeline | SomeoneElse

  /** The answers to statements that are executed in order, up to and including
      the first failure. */
  function Run(db: Database, h: seq<Event>, texts: seq<string>): (r: seq<Answer>)
    ensures |r| <= |texts| && (texts != [] ==> r != [])
    ensures forall i :: 0 <= i < |r| - 1 ==> r[i].ok
    ensures |r| < |texts| ==> !r[|r| - 1].ok
    decreases |texts|
  {
    if texts == [] then []
    else
      var h' := h + [Executed(texts[0])];
      var a := db(h');
      if a.ok then [a] + Run(db, h', texts[1..]) else [a]
  }

  /** The history after the first n statements. */
  function After(h: seq<Event>, texts: seq<string>, n: nat): seq<Event>
    requires n <= |texts|
  {
    h + seq(n, i requires 0 <= i < n => Executed(texts[i]))
  }

  /** Event i of the history is the execution of this text, and it failed. */
  predicate FailsAt(db: Database, h: seq<Event>, text: string, i: int) {
    0 <= i < |h| && h[i] == Executed(text) && !db(h[..i + 1]).ok
  }

  /** Executed one at a time, some statement fails. */
  predicate SomeFails(db: Database, h: seq<Event>, texts: seq<string>) {
    var r := Run(db, h, texts);
    r != [] && !r[|r| - 1].ok
  }

  /** Each answer is the database's answer to its own statement. */
  lemma {:induction false} RunAnswers(db: Database, h: seq<Event>, texts: seq<string>, i: nat)
    requires i < |Run(db, h, texts)|
    ensures var n := |Run(db, h, texts)|;
            var h' := After(h, texts, n);
            && h'[|h| + i] == Executed(texts[i])
            && Run(db, h, texts)[i] == db(h'[..|h| + i + 1])
    decreases |texts|
  {
    var r := Run(db, h, texts);
    var first := h + [Executed(texts[0])];
    var all := After(h, texts, |r|);
    if i == 0 {
      assert all[..|h| + 1] == first;
    } else {
      RunAnswers(db, first, texts[1..], i - 1);
      assert After(first, texts[1..], |r| - 1) == all;
    }
  }

  class Session {
    const db: Database
    /** A command is in progress: its final null result has not been fetched. */
    var active: bool
    /** Results that are still to come before that null. */
    var replies: seq<Answer>
    /** The link is gone. */
    var lost: bool
    var focus: Focus
    var history: seq<Event>
    /** The link has let the client down without being lost for good: input could
        not be read, or a command not be sent or not be completed, or the server has
        refused a batch with the word that the connection is broken. */
    ghost var failed: bool
    ghost var poll: Poll
    /** A result was fetched that no poll had announced. */
    ghost var waited: bool

    constructor (db: Database)
      ensures this.db == db && !active && !lost && replies == [] && focus == Nobody && history == []
      ensures !failed && !waited
    {
      this.db := db;
      active, replies, lost, focus, history := false, [], false, Nobody, [];
      failed, poll, waited := false, Unknown, false;
    }

    /** There has been trouble with the link. */
    ghost predicate Trouble()
      reads this`lost, this`failed
    {
      lost || failed
    }

    /** Waits for the next result of the command in progress, or for the null that
        ends it.  The link may be lost meanwhile: then an error takes the place of
        whatever was to come, also of the null. */
    method GetResult() returns (r: Option<Answer>)
      modifies this`replies, this`active, this`lost, this`poll, this`waited
      ensures poll == Unknown && waited == (old(waited) || old(poll) != Ready)
      ensures old(lost) ==> lost
      ensures lost && !old(lost) ==>
                old(active) && !active && replies == [] && r.Some? && IsLost(r.value)
      ensures lost == old(lost) && old(replies) != [] ==>
                r == Some(old(replies)[0]) && replies == old(replies)[1..] && active == old(active)
      ensures lost == old(lost) && old(replies) == [] ==> r == None && replies == [] && !active
    {
      waited, poll := waited || poll != Ready, Unknown;
      var drop: bool := *;
      if drop && active && !lost {
        var message: string := *;
        active, replies, lost := false, [], true;
        return Some(Answer(false, true, 0, message));
      }
      if replies == [] {
        active := false;
        r := None;
      } else {
        r := Some(replies[0]);
        replies := replies[1..];
      }
    }

    /** Would fetching the next result mean waiting? */
    method IsBusy() returns (busy: bool)
      modifies this`poll
      ensures poll == if busy then Busy else Ready
    {
      busy := *;
      poll := if busy then Busy else Ready;
    }

    /** False means that the link is gone. */
    method ConsumeInput() returns (ok: bool)
      modifies this`failed
      ensures failed == (old(failed) || !ok)
    {
      ok := *;
      failed := failed || !ok;
    }

    /** Sends a batch, with or without the dummy query in front.  While a command
        is in progress, or without a link, nothing can be sent.  The batch is executed
        up to its first failure, or, if it has a dummy query, it may be refused as a
        whole; but then one of its statements also fails on its own, unless it is the
        connection that is to blame. */
    method StartExec(texts: seq<string>, dummy: bool) returns (o: Outcome<Exn>)
      requires texts != []
      modifies this`active, this`replies, this`history, this`failed, this`poll
      ensures old(active) ==> o == Throw(CommandInProgress) && failed == old(failed)
      ensures !old(active) && o.Throw? ==> o.error == SendFailure && failed
      ensures o.Pass? ==> replies != [] && failed == (old(failed) || (dummy && !replies[0].ok && replies[0].broken))
      ensures o.Throw? ==> active == old(active) && replies == old(replies) && history == old(history)
      ensures old(lost) ==> o.Throw?
      ensures o.Pass? ==> active
      ensures o.Pass? ==>
                (Accepted(old(history), texts, dummy) || (dummy && RefusedWhole(old(history), texts)))
    {
      if active {
        return Throw(CommandInProgress);
      }
      poll := Unknown;
      var sent: bool := *;
      if !sent || lost {
        failed := true;
        return Throw(SendFailure);
      }
      active := true;
      var refuse: bool := *;
      var broken: bool := *;
      if dummy && refuse && (broken || SomeFails(db, history + [Refused(texts)], texts)) {
        var message: string := *;
        replies := [Answer(false, broken, 0, message)];
        history := history + [Refused(texts)];
        failed := failed || broken;
      } else {
        var answers := Run(db, history, texts);
        replies := (if dummy then [DummyAnswer] else []) + answers;
        history := After(history, texts, |answers|);
      }
      o := Pass;
    }

    ghost predicate Accepted(h: seq<Event>, texts: seq<string>, dummy: bool)
      reads this
    {
      var answers := Run(db, h, texts);
      replies == (if dummy then [DummyAnswer] else []) + answers && history == After(h, texts, |answers|)
    }

    ghost predicate RefusedWhole(h: seq<Event>, texts: seq<string>)
      reads this
    {
      && |replies| == 1 && !replies[0].ok && replies[0].rows == 0
      && history == h + [Refused(texts)]
      && (replies[0].broken || SomeFails(db, history, texts))
    }

    /** transaction_base::exec: clashes with any focus that is open; otherwise it
        executes one statement, unless the link is lost, before or after that. */
    method Exec(text: string) returns (r: Result<Answer, Exn>)
      modifies this`active, this`replies, this`history, this`failed
      ensures old(failed) ==> failed
      ensures old(focus) == Nobody ==> replies == [] && !active
      ensures r == Failure(UsageError) <==> old(focus) != Nobody
      ensures lost && old(focus) == Nobody ==> r == Failure(BrokenConnection)
      ensures old(focus) != Nobody ==> replies == old(replies) && active == old(active) && history == old(history)
      ensures history == old(history) || history == old(history) + [Executed(text)]
      ensures r.Success? ==>
                && history == old(history) + [Executed(text)] && r.value == db(history) && r.value.ok
                && failed == old(failed)
      ensures r.Failure? && old(focus) == Nobody && r.error != BrokenConnection ==>
                history == old(history) + [Executed(text)] && r.error == SqlError(db(history)) && !db(history).ok
      ensures r.Failure? && old(focus) == Nobody && !Trouble() ==>
                history == old(history) + [Executed(text)] && !db(history).ok
    {
      if focus != Nobody {
        return Failure(UsageError);
      }
      active, replies := false, [];
      if lost {
        return Failure(BrokenConnection);
      }
      var broken: bool := *;
      var executed: bool := *;
      if !broken || executed {
        history := history + [Executed(text)];
      }
      if broken {
        failed := true;
        return Failure(BrokenConnection);
      }
      var answer := db(history);
      match CheckStatus(answer)
      case Pass => r := Success(answer);
      case Throw(e) => r := Failure(e);
    }
  }
}
