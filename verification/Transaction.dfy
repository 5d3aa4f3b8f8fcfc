/** The life of a transaction (src/transaction_base.cxx): its status, its place at
    the connection, its one focus at a time and its deferred errors. */
module Transaction {
  import opened Wrappers
  import opened CommitOutcome

  datatype Exn =
    | PendingError(message: string)
    | UsageError
    | FocusStillOpen
    | ConnectionBroken
    | CommandFailed(fault: Fault)
    | CommitFailed
    | InDoubtError

  /** What became of a deferred error. */
  datatype Release = Thrown(message: string) | Noticed(message: string)

  /** The messages of what was released, in order. */
  function Messages(rs: seq<Release>): (ms: seq<string>)
    ensures |ms| == |rs|
    ensures forall i :: 0 <= i < |rs| ==> ms[i] == rs[i].message
  {
    seq(|rs|, i requires 0 <= i < |rs| => rs[i].message)
  }

  /** A COMMIT that was acknowledged, be it as a rollback. */
  predicate CommitAcked(e: Entry) {
    e.cmd == SqlCommit && e.ran.reply in {Acknowledged, RolledBack}
  }

  /** After an acknowledged COMMIT no ROLLBACK is sent. */
  ghost predicate NoRollbackAfterAck(log: seq<Entry>) {
    forall i, j :: 0 <= i < j < |log| && CommitAcked(log[i]) ==> log[j].cmd != SqlRollback
  }

  predicate NoCommit(log: seq<Entry>) {
    forall i :: 0 <= i < |log| ==> log[i].cmd != SqlCommit
  }

  // ---- The commands of a commit -----------------------------------------

  lemma {:induction false} ProbeLogOnlyIfAborted(env: Env, i: nat)
    requires i <= MAX_ATTEMPTS && MustProbe(env) && (forall j :: 0 <= j < i ==> !Decisive(env, j))
    requires forall j: nat :: Asked(Robust, env, j) ==> env.probes(j) != SaysAborted
    ensures ProbeLog(env, i) == []
    decreases MAX_ATTEMPTS - i
  {
    if i < MAX_ATTEMPTS {
      assert Asked(Robust, env, i);
      if !Decisive(env, i) {
        ProbeLogOnlyIfAborted(env, i + 1);
      }
    }
  }

  lemma {:induction false} ProbeLogIsRollbacks(env: Env, i: nat)
    ensures NoCommit(ProbeLog(env, i))
    decreases MAX_ATTEMPTS - i
  {
    if i < MAX_ATTEMPTS {
      ProbeLogIsRollbacks(env, i + 1);
    }
  }

  /** A commit sends COMMIT at most once, and no ROLLBACK after it was acknowledged:
      a server that acknowledged it does not say "aborted" when asked. */
  lemma CommitLogInOrder(log: seq<Entry>, kind: Kind, env: Env, durable: bool)
    requires NoCommit(log) && PossibleEnv(kind, env) && Consistent(kind, env, durable)
    ensures NoRollbackAfterAck(log + CommitLog(kind, env))
  {
    var more := CommitLog(kind, env);
    if kind == Robust && env.constraints.fault.None? {
      if env.commit.reply == Acknowledged {
        if MustProbe(env) {
          ProbeLogOnlyIfAborted(env, 0);
        }
        assert AfterCommit(env) == [];
      } else if MustProbe(env) {
        ProbeLogIsRollbacks(env, 0);
      }
    }
    assert forall i :: 0 <= i < |more| && CommitAcked(more[i]) ==> i == |more| - 1;
  }

  /** Whether the link is open after some commands. */
  function LastOpen(sent: seq<Entry>): bool {
    sent == [] || sent[|sent| - 1].ran.open
  }

  lemma {:induction false} ResolveIsFinal(env: Env, i: nat)
    ensures Resolve(env, i) != Active
    decreases MAX_ATTEMPTS - i
  {
    if i < MAX_ATTEMPTS {
      ResolveIsFinal(env, i + 1);
    }
  }

  lemma NeverActive(kind: Kind, env: Env)
    ensures CommitStatus(kind, env) != Active
  {
    ResolveIsFinal(env, 0);
  }

  class Connection {
    var open: bool
    var current: Transaction?

    constructor ()
      ensures open && current == null
    {
      open, current := true, null;
    }
  }

  /** Something that takes up the transaction's attention: a pipeline, a stream, a
      command. */
  class Focus {
    const trans: Transaction
    var registered: bool

    constructor (trans: Transaction)
      ensures this.trans == trans && !registered
    {
      this.trans := trans;
      registered := false;
    }

    method RegisterMe() returns (o: Outcome<Exn>)
      modifies this`registered, trans`focus
      ensures old(trans.focus) != null ==>
                o == Throw(UsageError) && trans.focus == old(trans.focus) && registered == old(registered)
      ensures old(trans.focus) == null ==> o.Pass? && trans.focus == this && registered
    {
      if trans.focus != null {
        return Throw(UsageError);
      }
      trans.focus := this;
      registered := true;
      o := Pass;
    }

    /** Never fails; if another focus is registered, that one stays. */
    method UnregisterMe()
      modifies this`registered, trans`focus
      ensures !registered
      ensures trans.focus == if old(trans.focus) == this then null else old(trans.focus)
    {
      if trans.focus == this {
        trans.focus := null;
      }
      registered := false;
    }
  }

  /** At most one focus is registered, and the transaction and the focus agree on
      which. */
  ghost predicate OneFocus(tx: Transaction, foci: set<Focus>)
    reads tx`focus, foci`registered
  {
    && (tx.focus != null ==> tx.focus in foci)
    && (forall f :: f in foci ==> f.trans == tx && (f.registered <==> tx.focus == f))
  }

  /** A focus is opened, or refused. */
  method OpenFocus(f: Focus, ghost foci: set<Focus>) returns (o: Outcome<Exn>)
    requires OneFocus(f.trans, foci) && f in foci
    modifies f`registered, f.trans`focus
    ensures OneFocus(f.trans, foci)
    ensures o.Pass? <==> old(f.trans.focus) == null
    ensures o.Pass? ==> f.registered
  {
    o := f.RegisterMe();
  }

  method CloseFocus(f: Focus, ghost foci: set<Focus>)
    requires OneFocus(f.trans, foci) && f in foci
    modifies f`registered, f.trans`focus
    ensures OneFocus(f.trans, foci) && !f.registered
    ensures f.trans.focus == if old(f.registered) then null else old(f.trans.focus)
  {
    f.UnregisterMe();
  }

  class Transaction {
    const kind: Kind
    const conn: Connection
    var status: Status
    var registered: bool
    var focus: Focus?
    /** The deferred error, or the empty string. */
    var pending: string
    /** The commands sent so far. */
    var log: seq<Entry>
    /** Deferred errors that were accepted, and those that have come out again. */
    ghost var stored: seq<string>
    ghost var released: seq<Release>

    /** Every deferred error that was stored has come out exactly once, or is still
        pending; COMMIT has not been sent while the transaction is active; no
        ROLLBACK follows an acknowledged COMMIT; and a transaction that is registered
        is the one that the connection has on record. */
    ghost predicate Valid()
      reads this, conn`current
    {
      && (registered ==> conn.current == this)
      && stored == Messages(released) + (if pending == "" then [] else [pending])
      && (status == Active ==> NoCommit(log))
      && NoRollbackAfterAck(log)
    }

    /** An object that has begun, as `Start` leaves it. */
    constructor (conn: Connection, kind: Kind, begin: Entry)
      requires begin.cmd == SqlBegin
      modifies conn`current
      ensures Valid() && this.conn == conn && this.kind == kind && registered == (kind == Basic)
      ensures conn.current == if kind == Basic then this else old(conn.current)
      ensures status == Active && focus == null && pending == "" && log == [begin]
      ensures stored == [] && released == []
    {
      this.conn, this.kind, registered := conn, kind, kind == Basic;
      status, focus, pending, log := Active, null, "", [begin];
      stored, released := [], [];
      new;
      if kind == Basic {
        conn.current := this;
      }
    }

    // ---- Deferred errors ------------------------------------------------

    /** Only the first error is kept. */
    method RegisterPendingError(err: string)
      requires Valid()
      modifies this`pending, this`stored
      ensures Valid() && released == old(released)
      ensures pending == if old(pending) == "" then err else old(pending)
      ensures stored == old(stored) + if old(pending) == "" && err != "" then [err] else []
    {
      if pending == "" && err != "" {
        pending := err;
        stored := stored + [err];
      }
    }

    /** Takes the deferred error out, for the caller to throw or to show. */
    method TakePendingError(ghost thrown: bool) returns (err: string)
      requires Valid()
      modifies this`pending, this`released
      ensures Valid() && pending == "" && err == old(pending)
      ensures released == old(released)
                          + if err == "" then [] else [if thrown then Thrown(err) else Noticed(err)]
    {
      err := pending;
      pending := "";
      if err != "" {
        released := released + [if thrown then Thrown(err) else Noticed(err)];
      }
    }

    // ---- Commands -------------------------------------------------------

    method Send(cmd: Cmd, x: Ran)
      modifies this`log, conn`open
      ensures log == old(log) + [Entry(cmd, x)] && conn.open == x.open
    {
      log := log + [Entry(cmd, x)];
      conn.open := x.open;
    }

    /** Executes a query: not while an error is pending, another focus is open or
        the transaction is over. */
    method Exec(query: string, x: Ran) returns (o: Outcome<Exn>)
      requires Valid() && Possible(conn.open, x)
      modifies this`focus, this`log, this`pending, this`released, conn`open
      ensures Valid() && focus == old(focus) && status == old(status) && pending == ""
      ensures old(pending) != "" ==>
                o == Throw(PendingError(old(pending))) && released == old(released) + [Thrown(old(pending))]
      ensures old(pending) == "" ==> released == old(released)
      ensures old(pending) == "" && (old(focus) != null || old(status) != Active) ==> o == Throw(UsageError)
      ensures old(pending) != "" || old(focus) != null || old(status) != Active ==> log == old(log)
      ensures old(pending) == "" && old(focus) == null && old(status) == Active ==>
                && log == old(log) + [Entry(SqlQuery(query), x)] && conn.open == x.open
                && o == if x.fault.None? then Pass else Throw(CommandFailed(x.fault.value))
      ensures log == old(log) ==> conn.open == old(conn.open)
    {
      var err := TakePendingError(true);
      if err != "" {
        return Throw(PendingError(err));
      }
      var command := new Focus(this);
      o := command.RegisterMe();
      if o.Throw? {
        return;
      }
      if status != Active {
        o := Throw(UsageError);
      } else {
        Send(SqlQuery(query), x);
        o := if x.fault.None? then Pass else Throw(CommandFailed(x.fault.value));
      }
      command.UnregisterMe();
    }

    // ---- The end --------------------------------------------------------

    /** do_abort: sends ROLLBACK, unless a deferred error comes in between. */
    method DoAbort(x: Ran) returns (o: Outcome<Exn>)
      requires Valid() && status == Active
      modifies this`log, this`pending, this`released, conn`open
      ensures Valid() && pending == ""
      ensures old(pending) == "" ==>
                log == old(log) + [Entry(SqlRollback, x)] && released == old(released) && conn.open == x.open
      ensures old(pending) != "" ==>
                && log == old(log) && released == old(released) + [Noticed(old(pending))] && o.Throw?
                && conn.open == old(conn.open)
    {
      var err := TakePendingError(false);
      if err != "" {
        return Throw(PendingError(err));
      }
      Send(SqlRollback, x);
      o := if x.fault.None? then Pass else Throw(CommandFailed(x.fault.value));
    }

    /** Aborts an active transaction, quietly accepts one that is over, and refuses
        one that is committed.  ROLLBACK is sent exactly if no error is pending: a
        pending error takes its place. */
    method Abort(x: Ran) returns (o: Outcome<Exn>)
      requires Valid()
      modifies this, conn
      ensures Valid() && focus == old(focus) && stored == old(stored)
      ensures old(status) != Active ==>
                && status == old(status) && log == old(log) && released == old(released)
                && registered == old(registered) && pending == old(pending)
                && conn.current == old(conn.current) && conn.open == old(conn.open)
                && o == if status == Committed then Throw(UsageError) else Pass
      ensures old(status) == Active ==> o.Pass? && status == Aborted && !registered && pending == ""
      ensures old(status) == Active ==>
                && conn.current == (if old(registered) then null else old(conn.current))
                && conn.open == if old(pending) == "" then x.open else old(conn.open)
      ensures old(status) == Active ==>
                && log == old(log) + (if old(pending) == "" then [Entry(SqlRollback, x)] else [])
                && released == old(released) + (if old(pending) == "" then [] else [Noticed(old(pending))])
      decreases if status == Active then 1 else 0, 0
    {
      match status {
        case Active =>
          var _ := DoAbort(x);
        case Aborted =>
          return Pass;
        case Committed =>
          return Throw(UsageError);
        case InDoubt =>
          return Pass;
      }
      status := Aborted;
      Close(x);
      o := Pass;
    }

    /** Closing never fails.  Afterwards the transaction is off the connection and
        not active; if it was active, its ROLLBACK was sent exactly once, after any
        pending error was shown. */
    method Close(x: Ran)
      requires Valid()
      modifies this, conn
      ensures Valid() && focus == old(focus) && stored == old(stored)
      ensures !registered && pending == ""
      ensures status == if old(status) == Active then Aborted else old(status)
      ensures log == old(log) + (if old(status) == Active then [Entry(SqlRollback, x)] else [])
      ensures released == old(released) + (if old(pending) == "" then [] else [Noticed(old(pending))])
      ensures conn.current == if old(registered) then null else old(conn.current)
      ensures conn.open == if old(status) == Active then x.open else old(conn.open)
      decreases if status == Active then 1 else 0, 1
    {
      var _ := TakePendingError(false);
      if registered {
        registered := false;
        conn.current := null;
      }
      if status != Active {
        return;
      }
      var _ := Abort(x);
    }

    /** Commits.  What it ends in is `CommitStatus`; see there when that is the truth.
        Nothing is sent while an error is pending, while a focus is open, when the
        transaction is over, or when the link is known to be gone. */
    method Commit(env: Env, ghost durable: bool) returns (o: Outcome<Exn>)
      requires Valid() && PossibleEnv(kind, env) && Consistent(kind, env, durable)
      modifies this, conn
      ensures Valid() && focus == old(focus) && stored == old(stored) && pending == ""
      ensures released == old(released) + (if old(pending) == "" then [] else [Thrown(old(pending))])
      ensures old(pending) != "" ==> o == Throw(PendingError(old(pending)))
      ensures old(pending) != "" || old(status) != Active || old(focus) != null || !old(conn.open) ==>
                && status == old(status) && log == old(log) && registered == old(registered)
                && conn.current == old(conn.current) && conn.open == old(conn.open)
      ensures old(pending) == "" ==>
                match old(status)
                case Aborted => o == Throw(UsageError)
                case Committed => o == Pass
                case InDoubt => o == Throw(InDoubtError)
                case Active =>
                  if old(focus) != null then o == Throw(FocusStillOpen)
                  else if !old(conn.open) then o == Throw(ConnectionBroken)
                  else
                    && status == CommitStatus(kind, env) && log == old(log) + CommitLog(kind, env)
                    && |log| > old(|log|) && conn.open == log[|log| - 1].ran.open
                    && conn.open == LastOpen(CommitLog(kind, env))
                    && o == (match status
                             case InDoubt => Throw(InDoubtError)
                             case Aborted => Throw(CommitFailed)
                             case _ => Pass)
                    && registered == (old(registered) && status != Committed)
                    && conn.current == if old(registered) && status == Committed then null else old(conn.current)
    {
      var err := TakePendingError(true);
      if err != "" {
        return Throw(PendingError(err));
      }
      match status {
        case Active =>
        case Aborted =>
          return Throw(UsageError);
        case Committed =>
          return Pass;
        case InDoubt =>
          return Throw(InDoubtError);
      }
      if focus != null {
        return Throw(FocusStillOpen);
      }
      if !conn.open {
        return Throw(ConnectionBroken);
      }
      CommitLogInOrder(log, kind, env, durable);
      var sent: seq<Entry>;
      if kind == Basic {
        status, sent := BasicDoCommit(env);
      } else {
        var ended, commands, _ := RobustDoCommit(env);
        status, sent := ended, commands;
      }
      log := log + sent;
      conn.open := LastOpen(sent);
      if status == InDoubt {
        return Throw(InDoubtError);
      }
      if status == Aborted {
        return Throw(CommitFailed);
      }
      NeverActive(kind, env);
      Close(Lost);
      o := Pass;
    }
  }

  /** Begins a transaction.  A basic one takes the connection for itself, which only
      one transaction at a time can do; a robust one does not.  If BEGIN fails, the
      connection is free again. */
  method Start(conn: Connection, kind: Kind, begin: Ran) returns (o: Outcome<Exn>, tx: Transaction?)
    requires Possible(conn.open, begin)
    modifies conn
    ensures kind == Basic && old(conn.current) != null ==>
              o == Throw(UsageError) && tx == null && conn.current == old(conn.current)
    ensures kind == Robust || old(conn.current) == null ==> (o.Pass? <==> begin.fault.None?)
    ensures o.Throw? ==> tx == null && conn.current == old(conn.current)
    ensures o.Pass? ==>
              && tx != null && fresh(tx) && tx.Valid() && tx.conn == conn && tx.kind == kind && tx.status == Active
              && tx.focus == null && tx.log == [Entry(SqlBegin, begin)]
              && tx.registered == (kind == Basic) && tx.pending == "" && tx.stored == [] && tx.released == []
              && conn.current == if kind == Basic then tx else old(conn.current)
  {
    tx := null;
    if kind == Basic && conn.current != null {
      return Throw(UsageError), null;
    }
    conn.open := begin.open;
    if begin.fault.Some? {
      return Throw(CommandFailed(begin.fault.value)), null;
    }
    tx := new Transaction(conn, kind, Entry(SqlBegin, begin));
    o := Pass;
  }

  // ---- Whole runs -------------------------------------------------------

  /** What a program can do with a transaction and some foci of it, and how the
      server and the link react. */
  datatype Op =
    | Execute(query: string, ran: Ran)
    | Defer(error: string)
    | TryCommit(env: Env, durable: bool)
    | TryAbort(ran: Ran)
    | DoClose(ran: Ran)
    | Open(k: nat)
    | Shut(k: nat)

  /** A transaction's life so far; `focus` is the number of the open focus. */
  datatype Life = Life(
    status: Status,
    registered: bool,
    focus: Option<nat>,
    pending: string,
    open: bool,
    log: seq<Entry>,
    stored: seq<string>,
    released: seq<Release>)

  /** How a command goes: as given, unless there is no link. */
  function Really(open: bool, x: Ran): Ran {
    if Possible(open, x) then x else Lost
  }

  /** The deferred error comes out. */
  function TakenOut(l: Life, thrown: bool): Life {
    if l.pending == "" then l
    else
      var r := if thrown then Thrown(l.pending) else Noticed(l.pending);
      l.(pending := "", released := l.released + [r])
  }

  function RolledBackBy(l: Life, x: Ran): Life {
    l.(log := l.log + [Entry(SqlRollback, x)], open := x.open)
  }

  /** One call. */
  function Next(kind: Kind, l: Life, op: Op): Life {
    match op
    case Execute(query, ran) =>
      if l.pending != "" then TakenOut(l, true)
      else if l.focus.Some? || l.status != Active then l
      else
        var x := Really(l.open, ran);
        l.(log := l.log + [Entry(SqlQuery(query), x)], open := x.open)
    case Defer(error) =>
      if l.pending == "" && error != "" then l.(pending := error, stored := l.stored + [error]) else l
    case TryCommit(env, _) =>
      if l.pending != "" then TakenOut(l, true)
      else if l.status != Active || l.focus.Some? || !l.open then l
      else
        var status, sent := CommitStatus(kind, env), CommitLog(kind, env);
        l.(status := status, log := l.log + sent, open := LastOpen(sent),
           registered := l.registered && status != Committed)
    case TryAbort(ran) =>
      if l.status != Active then l
      else
        var l' := if l.pending == "" then RolledBackBy(l, Really(l.open, ran)) else TakenOut(l, false);
        l'.(status := Aborted, registered := false)
    case DoClose(ran) =>
      var l' := TakenOut(l, false).(registered := false);
      if l.status != Active then l' else RolledBackBy(l', Really(l.open, ran)).(status := Aborted)
    case Open(k) =>
      if l.focus.None? then l.(focus := Some(k)) else l
    case Shut(k) =>
      if l.focus == Some(k) then l.(focus := None) else l
  }

  function Run(kind: Kind, l: Life, ops: seq<Op>): Life
    decreases |ops|
  {
    if ops == [] then l else Run(kind, Next(kind, l, ops[0]), ops[1..])
  }

  /** The object and its foci are as the record says. */
  ghost predicate Matches(tx: Transaction, foci: seq<Focus>, l: Life)
    reads tx, tx.conn, foci`registered
  {
    && l.status == tx.status && l.registered == tx.registered && l.pending == tx.pending && l.open == tx.conn.open
    && l.log == tx.log && l.stored == tx.stored && l.released == tx.released
    && FociMatch(tx, foci, l.focus)
  }

  /** The object points to the focus that is on record, and that one alone is
      registered. */
  ghost predicate FociMatch(tx: Transaction, foci: seq<Focus>, open: Option<nat>)
    reads tx`focus, foci`registered
  {
    && (open.Some? ==> open.value < |foci|)
    && tx.focus == (if open.None? then null else foci[open.value])
    && (forall j, k :: 0 <= j < k < |foci| ==> foci[j] != foci[k])
    && (forall k :: 0 <= k < |foci| ==> foci[k].trans == tx && (foci[k].registered <==> open == Some(k)))
  }

  lemma FocusNull(tx: Transaction, foci: seq<Focus>, open: Option<nat>)
    requires FociMatch(tx, foci, open)
    ensures tx.focus == null <==> open.None?
  {
  }

  /** A program is possible if it opens and shuts foci that exist, and if there is a
      truth about its commits that agrees with what server and link say. */
  ghost predicate PossibleOp(kind: Kind, count: nat, op: Op) {
    && (op.TryCommit? ==> PossibleEnv(kind, op.env) && Consistent(kind, op.env, op.durable))
    && (op.Open? || op.Shut? ==> op.k < count)
  }

  /** One call on the object does what the record says. */
  method Do(tx: Transaction, foci: seq<Focus>, op: Op, ghost l: Life)
    requires tx.Valid() && Matches(tx, foci, l) && PossibleOp(tx.kind, |foci|, op)
    modifies tx, tx.conn, foci
    ensures tx.Valid() && Matches(tx, foci, Next(tx.kind, l, op))
  {
    hide Consistent, PossibleEnv, NoRollbackAfterAck, NoCommit, Messages, CommitStatus, CommitLog;
    if op.Open? {
      var _ := foci[op.k].RegisterMe();
    } else if op.Shut? {
      foci[op.k].UnregisterMe();
    } else {
      DoCommand(tx, foci, op, l);
    }
  }

  method DoCommand(tx: Transaction, foci: seq<Focus>, op: Op, ghost l: Life)
    requires tx.Valid() && Matches(tx, foci, l) && PossibleOp(tx.kind, |foci|, op) && !op.Open? && !op.Shut?
    modifies tx, tx.conn
    ensures tx.Valid() && tx.focus == old(tx.focus)
    ensures var l' := Next(tx.kind, l, op);
            && l'.status == tx.status && l'.registered == tx.registered && l'.pending == tx.pending
            && l'.open == tx.conn.open && l'.log == tx.log && l'.stored == tx.stored && l'.released == tx.released
            && l'.focus == l.focus
  {
    hide Consistent, PossibleEnv, NoRollbackAfterAck, NoCommit, Messages, CommitStatus, CommitLog, FociMatch;
    FocusNull(tx, foci, l.focus);
    match op {
      case Execute(query, ran) =>
        var _ := tx.Exec(query, Really(tx.conn.open, ran));
      case Defer(error) =>
        tx.RegisterPendingError(error);
      case TryCommit(env, durable) =>
        var _ := tx.Commit(env, durable);
      case TryAbort(ran) =>
        var _ := tx.Abort(Really(tx.conn.open, ran));
      case DoClose(ran) =>
        tx.Close(Really(tx.conn.open, ran));
    }
  }

  /** Every sequence of calls on a transaction and any number of its foci does what
      the record says. */
  method Play(tx: Transaction, foci: seq<Focus>, ops: seq<Op>, ghost l: Life)
    requires tx.Valid() && Matches(tx, foci, l)
    requires forall i :: 0 <= i < |ops| ==> PossibleOp(tx.kind, |foci|, ops[i])
    modifies tx, tx.conn, foci
    ensures tx.Valid() && Matches(tx, foci, Run(tx.kind, l, ops))
  {
    ghost var now := l;
    assert ops[0..] == ops;
    for i := 0 to |ops|
      invariant tx.Valid() && Matches(tx, foci, now)
      invariant Run(tx.kind, now, ops[i..]) == Run(tx.kind, l, ops)
    {
      assert ops[i..][0] == ops[i] && ops[i..][1..] == ops[i + 1..];
      Do(tx, foci, ops[i], now);
      now := Next(tx.kind, now, ops[i]);
    }
    assert ops[|ops|..] == [];
  }

  // What the record of every run shows.

  /** One call: a final status stays; the log only grows; while a focus is open,
      nothing but ROLLBACK is sent; errors are stored when they are accepted, and
      come out once. */
  ghost predicate Goes(l: Life, l': Life, op: Op) {
    && (l.status != Active ==> l'.status == l.status && l'.log == l.log)
    && l.log <= l'.log && l.stored <= l'.stored && l.released <= l'.released
    && (l.focus.Some? ==> forall i :: |l.log| <= i < |l'.log| ==> l'.log[i].cmd == SqlRollback)
    && (l'.stored != l.stored ==> op.Defer? && l'.stored == l.stored + [op.error])
  }

  ghost predicate InOrder(l: Life) {
    && l.stored == Messages(l.released) + (if l.pending == "" then [] else [l.pending])
    && (l.status == Active ==> NoCommit(l.log))
    && NoRollbackAfterAck(l.log)
  }

  lemma NextGoes(kind: Kind, l: Life, op: Op)
    ensures Goes(l, Next(kind, l, op), op)
  {
    hide CommitStatus, CommitLog;
  }

  lemma {:induction false} NextInOrder(kind: Kind, l: Life, op: Op, count: nat)
    requires InOrder(l) && PossibleOp(kind, count, op)
    ensures InOrder(Next(kind, l, op))
  {
    hide CommitStatus, CommitLog, Consistent, PossibleEnv;
    if op.TryCommit? && l.status == Active {
      CommitLogInOrder(l.log, kind, op.env, op.durable);
      NeverActive(kind, op.env);
    }
  }

  /** Of every run, whatever is done in whatever order: a final status is never left
      and nothing is sent after it; every deferred error has come out exactly once or
      is still pending; no ROLLBACK follows an acknowledged COMMIT; and everything
      that was sent while a focus was open is ROLLBACK. */
  lemma {:induction false} EveryRun(kind: Kind, l: Life, ops: seq<Op>, i: nat, count: nat)
    requires InOrder(l) && i < |ops|
    requires forall j :: 0 <= j < |ops| ==> PossibleOp(kind, count, ops[j])
    ensures InOrder(Run(kind, l, ops))
    ensures var before := Run(kind, l, ops[..i]);
            && InOrder(before)
            && Goes(before, Run(kind, l, ops[..i + 1]), ops[i])
            && (before.status != Active ==>
                  Run(kind, l, ops).status == before.status && Run(kind, l, ops).log == before.log)
    decreases |ops|
  {
    hide Next, InOrder, Goes, PossibleOp;
    var l' := Next(kind, l, ops[0]);
    NextInOrder(kind, l, ops[0], count);
    RunInOrder(kind, l', ops[1..], count);
    if i == 0 {
      assert ops[..0] == [] && ops[..1] == [ops[0]] && [ops[0]][1..] == [];
      NextGoes(kind, l, ops[0]);
      RunFinal(kind, l, ops);
    } else {
      EveryRun(kind, l', ops[1..], i - 1, count);
      assert ops[..i][1..] == ops[1..][..i - 1] && ops[..i + 1][1..] == ops[1..][..i];
      assert ops[..i][0] == ops[0] && ops[..i + 1][0] == ops[0];
    }
  }

  lemma {:induction false} RunInOrder(kind: Kind, l: Life, ops: seq<Op>, count: nat)
    requires InOrder(l) && forall j :: 0 <= j < |ops| ==> PossibleOp(kind, count, ops[j])
    ensures InOrder(Run(kind, l, ops))
    decreases |ops|
  {
    hide Next, InOrder, PossibleOp;
    if ops != [] {
      NextInOrder(kind, l, ops[0], count);
      RunInOrder(kind, Next(kind, l, ops[0]), ops[1..], count);
    }
  }

  lemma {:induction false} RunFinal(kind: Kind, l: Life, ops: seq<Op>)
    ensures l.status != Active ==> Run(kind, l, ops).status == l.status && Run(kind, l, ops).log == l.log
    decreases |ops|
  {
    if ops != [] {
      NextGoes(kind, l, ops[0]);
      RunFinal(kind, Next(kind, l, ops[0]), ops[1..]);
    }
  }

  /** However a run goes, a transaction that is closed at its end is over and off the
      connection, and no error is left. */
  lemma ClosedIsOver(kind: Kind, l: Life, ran: Ran)
    ensures var l' := Next(kind, l, DoClose(ran));
            && l'.status != Active && !l'.registered && l'.pending == ""
            && l'.log == l.log + if l.status == Active then [Entry(SqlRollback, Really(l.open, ran))] else []
  {
  }
}
