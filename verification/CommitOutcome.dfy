/** What a commit ends in (do_commit in src/transaction.cxx and in
    src/robusttransaction.cxx, and transaction_base::commit around them), for
    everything that the server and the link can do. */
module CommitOutcome {
  import opened Wrappers

  datatype Status = Active | Aborted | Committed | InDoubt

  /** The exceptions that matter: broken_connection, statement_completion_unknown
      (SQLSTATE 40003), and any other. */
  datatype Fault = Broken | CompletionUnknown | OtherFault

  /** What the server says.  COMMIT in a transaction that has failed before is
      acknowledged as well, but as a rollback, with the command tag ROLLBACK. */
  datatype Reply = Acknowledged | RolledBack | Refused | Silent

  /** How the execution of one command went: what the server said, which exception
      came out of it, and whether the link is open afterwards. */
  datatype Ran = Ran(reply: Reply, fault: Option<Fault>, open: bool)

  const Lost := Ran(Silent, Some(Broken), false)

  /** What connection::exec can do.  On a link that is already gone, it fails with
      broken_connection.  An acknowledged command can still fail afterwards, when
      looking for notifications finds the link gone.  Without any reply the
      exception tells whether the link is open. */
  predicate Possible(wasOpen: bool, x: Ran) {
    && x.reply != RolledBack
    && (!wasOpen ==> x == Lost)
    && (x.fault.None? ==> x.reply == Acknowledged && x.open)
    && (x.reply == Acknowledged ==> x.fault == None || x.fault == Some(Broken))
    && (x.reply == Silent ==> x.fault == Some(if x.open then OtherFault else Broken))
  }

  /** The same for COMMIT on an open link. */
  predicate PossibleCommit(x: Ran) {
    if x.reply == RolledBack then x.fault == Some(Broken) || (x.fault == None && x.open) else Possible(true, x)
  }

  datatype Cmd = SqlBegin | SqlCheckConstraints | SqlCommit | SqlRollback | SqlQuery(text: string)

  /** A command that was sent, and how it went. */
  datatype Entry = Entry(cmd: Cmd, ran: Ran)

  /** One attempt to ask the server, over a new connection, about a transaction. */
  datatype Probe = SaysCommitted | SaysAborted | SaysInProgress | ProbeBroken | ProbeFailed

  datatype TxStat = TxUnknown | TxCommitted | TxAborted | TxInProgress

  /** parse_status, for a nonempty text. */
  function ParseStatus(text: string): TxStat
    requires text != ""
  {
    if text[0] == 'a' then (if text == "aborted" then TxAborted else TxUnknown)
    else if text[0] == 'c' then (if text == "committed" then TxCommitted else TxUnknown)
    else if text[0] == 'i' then (if text == "in progress" then TxInProgress else TxUnknown)
    else TxUnknown
  }

  /** query_status, once it has the server's text: an empty or unknown text is an
      internal error, which is not a broken connection. */
  function ProbeOf(text: string): Probe {
    if text == "" then ProbeFailed
    else match ParseStatus(text)
      case TxUnknown => ProbeFailed
      case TxCommitted => SaysCommitted
      case TxAborted => SaysAborted
      case TxInProgress => SaysInProgress
  }

  lemma ProbeReadsStatus(text: string)
    ensures ProbeOf(text) == SaysCommitted <==> text == "committed"
    ensures ProbeOf(text) == SaysAborted <==> text == "aborted"
    ensures ProbeOf(text) == SaysInProgress <==> text == "in progress"
    ensures ProbeOf(text) != ProbeBroken
  {
    if text == "committed" || text == "aborted" || text == "in progress" {
      assert "committed"[0] == 'c' && "aborted"[0] == 'a' && "in progress"[0] == 'i';
    }
  }

  /** The two kinds of transaction. */
  datatype Kind = Basic | Robust

  const MAX_ATTEMPTS: nat := 500

  /** Everything that a commit may run into, command by command: the constraints
      check (robust only), COMMIT itself, the probes, and the ROLLBACK that goes
      with the constraints check, with COMMIT or with each probe. */
  datatype Env = Env(constraints: Ran, commit: Ran, probes: nat -> Probe, rollbacks: nat -> Ran)

  /** The link is open to begin with; whether it is open after COMMIT decides what
      a ROLLBACK can do.  In a transaction that has failed, the constraints check is
      refused, so that COMMIT is not sent. */
  ghost predicate PossibleEnv(kind: Kind, env: Env) {
    && PossibleCommit(env.commit)
    && (kind == Robust ==>
          Possible(true, env.constraints) && (env.constraints.fault.None? ==> env.commit.reply != RolledBack))
    && (forall i: nat :: Possible(env.commit.open, env.rollbacks(i)))
  }

  // ---- The code ---------------------------------------------------------

  /** The state in which a failed or finished do_commit leaves the transaction. */
  function BasicCommit(commit: Ran): Status {
    match commit.fault
    case None => Committed
    case Some(CompletionUnknown) => InDoubt
    case Some(_) => if !commit.open then InDoubt else Aborted
  }

  /** The probes from attempt i on. */
  function Resolve(env: Env, i: nat): Status
    decreases MAX_ATTEMPTS - i
  {
    if i >= MAX_ATTEMPTS then InDoubt
    else match env.probes(i)
      case SaysCommitted => Committed
      case SaysAborted =>
        // ROLLBACK, and then a normal return; its broken_connection is swallowed.
        (match env.rollbacks(i).fault
         case None => Committed
         case Some(Broken) => Resolve(env, i + 1)
         case Some(_) => Aborted)
      case SaysInProgress => Resolve(env, i + 1)
      case ProbeBroken => Resolve(env, i + 1)
      case ProbeFailed => Aborted
  }

  /** COMMIT was sent, and its outcome is not known from that alone. */
  predicate MustProbe(env: Env) {
    && env.constraints.fault.None?
    && env.commit.fault.Some?
    && (env.commit.fault == Some(Broken) || !env.commit.open)
  }

  function RobustCommit(env: Env): Status {
    if env.constraints.fault.Some? then Aborted
    else if env.commit.fault.None? then Committed
    else if MustProbe(env) then Resolve(env, 0)
    else Aborted
  }

  function CommitStatus(kind: Kind, env: Env): Status {
    if kind == Basic then BasicCommit(env.commit) else RobustCommit(env)
  }

  /** Attempt i ends the probing. */
  predicate Decisive(env: Env, i: nat) {
    match env.probes(i)
    case SaysCommitted => true
    case SaysAborted => env.rollbacks(i).fault != Some(Broken)
    case SaysInProgress => false
    case ProbeBroken => false
    case ProbeFailed => true
  }

  /** The ROLLBACKs that go with the probes from attempt i on. */
  function ProbeLog(env: Env, i: nat): seq<Entry>
    decreases MAX_ATTEMPTS - i
  {
    if i >= MAX_ATTEMPTS then []
    else match env.probes(i)
      case SaysAborted =>
        [Entry(SqlRollback, env.rollbacks(i))]
        + if env.rollbacks(i).fault == Some(Broken) then ProbeLog(env, i + 1) else []
      case SaysInProgress => ProbeLog(env, i + 1)
      case ProbeBroken => ProbeLog(env, i + 1)
      case SaysCommitted => []
      case ProbeFailed => []
  }

  /** What follows COMMIT in a robust transaction. */
  function AfterCommit(env: Env): seq<Entry> {
    if env.commit.fault.None? then []
    else if MustProbe(env) then ProbeLog(env, 0)
    else [Entry(SqlRollback, env.rollbacks(0))]
  }

  function CommitLog(kind: Kind, env: Env): seq<Entry> {
    if kind == Basic then [Entry(SqlCommit, env.commit)]
    else if env.constraints.fault.Some? then
      [Entry(SqlCheckConstraints, env.constraints), Entry(SqlRollback, env.rollbacks(0))]
    else [Entry(SqlCheckConstraints, env.constraints), Entry(SqlCommit, env.commit)] + AfterCommit(env)
  }

  /** basic_transaction::do_commit; `log` is what it sends. */
  method BasicDoCommit(env: Env) returns (status: Status, log: seq<Entry>)
    ensures status == CommitStatus(Basic, env) && log == CommitLog(Basic, env)
  {
    log := [Entry(SqlCommit, env.commit)];
    if env.commit.fault.None? {
      return Committed, log;
    }
    if env.commit.fault == Some(CompletionUnknown) {
      return InDoubt, log;
    }
    if !env.commit.open {
      return InDoubt, log;
    }
    return Aborted, log;
  }

  /** basic_robusttransaction::do_commit. */
  method RobustDoCommit(env: Env) returns (status: Status, log: seq<Entry>, probesMade: nat)
    ensures status == CommitStatus(Robust, env) && log == CommitLog(Robust, env)
    ensures probesMade <= 500 && (probesMade > 0 ==> MustProbe(env))
    ensures forall i :: 0 <= i < probesMade - 1 ==> !Decisive(env, i)
    ensures MustProbe(env) && probesMade < 500 ==> probesMade > 0 && Decisive(env, probesMade - 1)
  {
    probesMade := 0;
    log := [Entry(SqlCheckConstraints, env.constraints)];
    if env.constraints.fault.Some? {
      log := log + [Entry(SqlRollback, env.rollbacks(0))];
      return Aborted, log, 0;
    }
    log := log + [Entry(SqlCommit, env.commit)];
    if env.commit.fault.None? {
      return Committed, log, 0;
    }
    if env.commit.fault != Some(Broken) && env.commit.open {
      log := log + [Entry(SqlRollback, env.rollbacks(0))];
      return Aborted, log, 0;
    }
    for attempts := 0 to MAX_ATTEMPTS
      invariant probesMade == attempts
      invariant forall i :: 0 <= i < attempts ==> !Decisive(env, i)
      invariant Resolve(env, attempts) == CommitStatus(Robust, env)
      invariant log + ProbeLog(env, attempts) == CommitLog(Robust, env)
    {
      probesMade := probesMade + 1;
      var probe := env.probes(attempts);
      if probe == SaysCommitted {
        return Committed, log, probesMade;
      }
      if probe == ProbeFailed {
        return Aborted, log, probesMade;
      }
      if probe == SaysAborted {
        var rollback := env.rollbacks(attempts);
        ghost var before := log;
        log := log + [Entry(SqlRollback, rollback)];
        Appended(before, Entry(SqlRollback, rollback), ProbeLog(env, attempts + 1));
        if rollback.fault.None? {
          return Committed, log, probesMade;
        }
        if rollback.fault != Some(Broken) {
          return Aborted, log, probesMade;
        }
      }
    }
    status := InDoubt;
  }

  lemma Appended(log: seq<Entry>, e: Entry, rest: seq<Entry>)
    ensures log + [e] + rest == log + ([e] + rest)
    ensures log + [e] + [] == log + [e] && [e] + [] == [e]
  {
  }

  // ---- The truth --------------------------------------------------------

  /** COMMIT was sent. */
  predicate CommitSent(kind: Kind, env: Env) {
    kind == Basic || env.constraints.fault.None?
  }

  /** Attempt i is made. */
  ghost predicate Asked(kind: Kind, env: Env, i: nat) {
    && kind == Robust && MustProbe(env) && i < MAX_ATTEMPTS
    && (forall j :: 0 <= j < i ==> !Decisive(env, j))
  }

  /** Whether the transaction really took effect, as far as what was seen allows:
      an acknowledgement and a probe's answer are true, a plain refusal means no and
      so does an acknowledged rollback, and without COMMIT there is no effect. */
  ghost predicate Consistent(kind: Kind, env: Env, durable: bool) {
    && (!CommitSent(kind, env) ==> !durable)
    && (CommitSent(kind, env) && env.commit.reply == Acknowledged ==> durable)
    && (CommitSent(kind, env) && (PlainRefusal(env.commit) || env.commit.reply == RolledBack) ==> !durable)
    && (forall i: nat :: Asked(kind, env, i) && env.probes(i) == SaysCommitted ==> durable)
    && (forall i: nat :: Asked(kind, env, i) && env.probes(i) == SaysAborted ==> !durable)
  }

  predicate Truthful(status: Status, durable: bool) {
    (status == Committed ==> durable) && (status == Aborted ==> !durable)
  }

  /** The server said no, with an ordinary error. */
  predicate PlainRefusal(commit: Ran) {
    commit.reply == Refused && commit.fault == Some(OtherFault)
  }

  /** COMMIT failed on an open link, and the server did not plainly say no. */
  predicate UnclearOnOpenLink(commit: Ran) {
    commit.fault.Some? && commit.open && !PlainRefusal(commit) && commit.reply != RolledBack
  }

  /** The server rolled back a failed transaction instead of committing it, and the
      library, which does not look at the tag, takes that for a success. */
  predicate RollbackTakenForCommit(commit: Ran) {
    commit.reply == RolledBack && commit.fault.None?
  }

  /** The first attempt that ends the probing. */
  ghost predicate EndsAt(env: Env, k: nat) {
    k < MAX_ATTEMPTS && Decisive(env, k) && forall j :: 0 <= j < k ==> !Decisive(env, j)
  }

  /** The probing ends in a false verdict: it finds the transaction aborted while
      ROLLBACK still works, or it fails for a reason other than the link although
      nothing has said that the transaction was aborted. */
  ghost predicate ProbedWrong(env: Env) {
    exists k: nat :: EndsAt(env, k)
      && (|| (env.probes(k) == SaysAborted && env.rollbacks(k).fault.None?)
          || (env.probes(k) == ProbeFailed && !SaidAborted(env, k)))
  }

  /** COMMIT itself or an attempt before k said that there is no effect. */
  ghost predicate SaidAborted(env: Env, k: nat) {
    PlainRefusal(env.commit) || exists j: nat :: j < k && env.probes(j) == SaysAborted
  }

  /** When the outcome can be trusted. */
  ghost predicate Safe(kind: Kind, env: Env) {
    match kind
    case Basic =>
      && !RollbackTakenForCommit(env.commit)
      && (UnclearOnOpenLink(env.commit) ==> env.commit.fault == Some(CompletionUnknown))
    case Robust =>
      env.constraints.fault.None? ==>
        if MustProbe(env) then !ProbedWrong(env) else !UnclearOnOpenLink(env.commit)
  }

  /** The probing stops at the first decisive attempt. */
  lemma {:induction false} ResolveEnds(env: Env, i: nat)
    requires i <= MAX_ATTEMPTS && forall j :: 0 <= j < i ==> !Decisive(env, j)
    ensures (forall k: nat :: !EndsAt(env, k)) ==> Resolve(env, i) == InDoubt
    ensures forall k: nat :: EndsAt(env, k) ==>
              k >= i && Resolve(env, i) == match env.probes(k)
                                           case SaysCommitted => Committed
                                           case SaysAborted =>
                                             (if env.rollbacks(k).fault.None? then Committed else Aborted)
                                           case _ => Aborted
    decreases MAX_ATTEMPTS - i
  {
    if i < MAX_ATTEMPTS {
      if Decisive(env, i) {
        assert EndsAt(env, i);
        forall k: nat | EndsAt(env, k)
          ensures k == i
        {
        }
      } else {
        ResolveEnds(env, i + 1);
      }
    }
  }

  // ---- The outcome in terms of what happened ---------------------------

  /** Attempt k settles the matter: the probe says that the transaction committed,
      or fails for a reason other than the link; or it says that the transaction
      was aborted, and ROLLBACK does not run into a broken link. */
  predicate Settles(env: Env, k: nat) {
    || env.probes(k) == SaysCommitted
    || env.probes(k) == ProbeFailed
    || (env.probes(k) == SaysAborted && env.rollbacks(k).fault != Some(Broken))
  }

  /** Of the 500 attempts, k is the first that settles the matter. */
  ghost predicate SettledBy(env: Env, k: nat) {
    k < 500 && Settles(env, k) && forall j: nat :: j < k ==> !Settles(env, j)
  }

  lemma SettledByEnds(env: Env, k: nat)
    ensures SettledBy(env, k) <==> EndsAt(env, k)
    ensures Settles(env, k) <==> Decisive(env, k)
  {
    assert forall j: nat :: Settles(env, j) <==> Decisive(env, j);
  }

  /** COMMIT fails on an open link, and not with the word that the link is broken. */
  predicate FailsOnOpenLink(commit: Ran) {
    (commit.fault == Some(OtherFault) || commit.fault == Some(CompletionUnknown)) && commit.open
  }

  /** When a commit ends as committed: COMMIT was sent and came back without an
      error; or, when a robust transaction has to ask, the attempt that settles the
      matter says that it committed, or that it was aborted and ROLLBACK works. */
  ghost predicate EndsCommitted(kind: Kind, env: Env) {
    || (kind == Basic && env.commit.fault.None?)
    || (kind == Robust && env.constraints.fault.None? && env.commit.fault.None?)
    || (&& kind == Robust && env.constraints.fault.None? && env.commit.fault.Some? && !FailsOnOpenLink(env.commit)
        && exists k: nat ::
             && SettledBy(env, k)
             && (|| env.probes(k) == SaysCommitted
                 || (env.probes(k) == SaysAborted && env.rollbacks(k).fault.None?)))
  }

  /** When it ends as aborted: COMMIT was not sent, because the constraints do not
      hold; or it failed on an open link, for a basic transaction without the server's
      word that it does not know the outcome, for a robust one without the word that
      the link is broken; or the attempt that settles the matter failed, or said that
      the transaction was aborted and ROLLBACK then failed. */
  ghost predicate EndsAborted(kind: Kind, env: Env) {
    || (kind == Robust && env.constraints.fault.Some?)
    || (kind == Basic && env.commit.open && (env.commit.fault == Some(OtherFault) || env.commit.fault == Some(Broken)))
    || (kind == Robust && env.constraints.fault.None? && FailsOnOpenLink(env.commit))
    || (&& kind == Robust && env.constraints.fault.None? && env.commit.fault.Some? && !FailsOnOpenLink(env.commit)
        && exists k: nat ::
             && SettledBy(env, k)
             && (|| env.probes(k) == ProbeFailed
                 || (env.probes(k) == SaysAborted && env.rollbacks(k).fault.Some?)))
  }

  /** Exactly when each outcome is reported. */
  lemma StatusExactly(kind: Kind, env: Env)
    ensures CommitStatus(kind, env) == Committed <==> EndsCommitted(kind, env)
    ensures CommitStatus(kind, env) == Aborted <==> EndsAborted(kind, env)
    ensures CommitStatus(kind, env) == InDoubt <==> !EndsCommitted(kind, env) && !EndsAborted(kind, env)
  {
    hide Resolve, EndsAt, SettledBy;
    MustProbeIff(env);
    if kind == Robust && MustProbe(env) {
      ResolveEnds(env, 0);
      forall k: nat
        ensures SettledBy(env, k) <==> EndsAt(env, k)
      {
        SettledByEnds(env, k);
      }
      if k: nat :| EndsAt(env, k) {
        SettlesOnce(env, k);
      }
    }
  }

  lemma MustProbeIff(env: Env)
    ensures MustProbe(env) <==>
              env.constraints.fault.None? && env.commit.fault.Some? && !FailsOnOpenLink(env.commit)
    ensures env.commit.fault in {None, Some(Broken), Some(CompletionUnknown), Some(OtherFault)}
  {
    if env.commit.fault.Some? {
      match env.commit.fault.value
      case Broken =>
      case CompletionUnknown =>
      case OtherFault =>
    }
  }

  lemma SettlesOnce(env: Env, k: nat)
    requires SettledBy(env, k)
    ensures forall j: nat :: SettledBy(env, j) ==> j == k
    ensures env.probes(k) in {SaysCommitted, SaysAborted, ProbeFailed}
  {
  }

  /** How often a command was sent. */
  function Sent(log: seq<Entry>, cmd: Cmd): nat {
    if log == [] then 0 else (if log[0].cmd == cmd then 1 else 0) + Sent(log[1..], cmd)
  }

  /** One ROLLBACK for every attempt in [i, n) that says "aborted". */
  function RollbacksFor(env: Env, i: nat, n: nat): (log: seq<Entry>)
    ensures forall e :: e in log ==> e.cmd == SqlRollback
    decreases n - i
  {
    if i >= n then []
    else (if env.probes(i) == SaysAborted then [Entry(SqlRollback, env.rollbacks(i))] else [])
         + RollbacksFor(env, i + 1, n)
  }

  lemma {:induction false} ProbeLogExactly(env: Env, i: nat)
    requires i <= 500 && forall j: nat :: j < i ==> !Settles(env, j)
    ensures forall k: nat :: SettledBy(env, k) ==> ProbeLog(env, i) == RollbacksFor(env, i, k + 1)
    ensures (forall k: nat :: !SettledBy(env, k)) ==> ProbeLog(env, i) == RollbacksFor(env, i, 500)
    decreases 500 - i
  {
    if i < 500 {
      if Settles(env, i) {
        assert SettledBy(env, i);
        assert RollbacksFor(env, i + 1, i + 1) == [];
      } else {
        ProbeLogExactly(env, i + 1);
      }
    }
  }

  lemma {:induction false} NoneSent(log: seq<Entry>, cmd: Cmd)
    requires forall e :: e in log ==> e.cmd != cmd
    ensures Sent(log, cmd) == 0
  {
    if log != [] {
      NoneSent(log[1..], cmd);
    }
  }

  /** What is sent, command by command.  COMMIT is sent once, or not at all if the
      constraints do not hold; then, and when it fails on an open link, ROLLBACK
      follows; and when the server has to be asked, one ROLLBACK follows for every
      attempt that says "aborted", up to the one that settles the matter. */
  lemma LogExactly(kind: Kind, env: Env)
    ensures Sent(CommitLog(kind, env), SqlCommit) == if kind == Robust && env.constraints.fault.Some? then 0 else 1
    ensures kind == Basic ==> CommitLog(kind, env) == [Entry(SqlCommit, env.commit)]
    ensures kind == Robust && env.constraints.fault.Some? ==>
              CommitLog(kind, env)
              == [Entry(SqlCheckConstraints, env.constraints), Entry(SqlRollback, env.rollbacks(0))]
    ensures kind == Robust && env.constraints.fault.None? ==>
              var log := CommitLog(kind, env);
              && |log| >= 2 && log[0] == Entry(SqlCheckConstraints, env.constraints)
              && log[1] == Entry(SqlCommit, env.commit)
              && (env.commit.fault.None? ==> log[2..] == [])
              && (FailsOnOpenLink(env.commit) ==> log[2..] == [Entry(SqlRollback, env.rollbacks(0))])
              && (env.commit.fault.Some? && !FailsOnOpenLink(env.commit) ==>
                    && (forall k: nat :: SettledBy(env, k) ==> log[2..] == RollbacksFor(env, 0, k + 1))
                    && ((forall k: nat :: !SettledBy(env, k)) ==> log[2..] == RollbacksFor(env, 0, 500)))
  {
    hide ProbeLog, SettledBy, RollbacksFor;
    MustProbeIff(env);
    var log := CommitLog(kind, env);
    if kind == Robust && env.constraints.fault.None? {
      assert log[2..] == AfterCommit(env);
      if MustProbe(env) {
        ProbeLogExactly(env, 0);
        if k: nat :| SettledBy(env, k) {
          assert log[2..] == RollbacksFor(env, 0, k + 1);
        } else {
          assert log[2..] == RollbacksFor(env, 0, 500);
        }
      }
      NoneSent(log[2..], SqlCommit);
      assert log[1..][1..] == log[2..];
    } else if kind == Robust {
      NoneSent(log, SqlCommit);
    }
  }

  // ---- When the outcome can be trusted ---------------------------------

  /** The outcome is true whatever really happened on the server, if and only if
      the environment is in the safe family. */
  lemma CommitIsTruthful(kind: Kind, env: Env, seen: bool)
    requires PossibleEnv(kind, env) && Consistent(kind, env, seen)
    ensures (forall durable :: Consistent(kind, env, durable) ==> Truthful(CommitStatus(kind, env), durable))
            <==> Safe(kind, env)
  {
    if kind == Robust && env.constraints.fault.None? && MustProbe(env) {
      ProbingIsTruthful(env, seen);
    } else {
      assert forall i: nat :: !Asked(kind, env, i);
      if kind == Basic && RollbackTakenForCommit(env.commit) {
        assert Consistent(kind, env, false);
        assert CommitStatus(kind, env) == Committed;
      } else if !Safe(kind, env) {
        assert Consistent(kind, env, true);
        assert CommitStatus(kind, env) == Aborted;
      }
    }
  }

  lemma ProbingIsTruthful(env: Env, seen: bool)
    requires PossibleEnv(Robust, env) && Consistent(Robust, env, seen) && MustProbe(env)
    ensures (forall durable :: Consistent(Robust, env, durable) ==> Truthful(Resolve(env, 0), durable))
            <==> !ProbedWrong(env)
  {
    ResolveEnds(env, 0);
    if k: nat :| EndsAt(env, k) {
      assert Asked(Robust, env, k);
      forall j: nat | EndsAt(env, j)
        ensures j == k
      {
      }
      match env.probes(k)
      case SaysCommitted =>
      case SaysAborted =>
        assert !seen;
      case SaysInProgress =>
      case ProbeBroken =>
      case ProbeFailed =>
        FailedProbe(env, k, seen);
    }
  }

  /** A probe that fails outright is harmless only after one that said "aborted". */
  lemma FailedProbe(env: Env, k: nat, seen: bool)
    requires PossibleEnv(Robust, env) && Consistent(Robust, env, seen) && MustProbe(env)
    requires EndsAt(env, k) && env.probes(k) == ProbeFailed
    ensures Consistent(Robust, env, true) <==> !SaidAborted(env, k)
  {
    forall j: nat | j < k
      ensures Asked(Robust, env, j)
    {
    }
    forall i: nat | Asked(Robust, env, i)
      ensures i <= k
    {
    }
  }

  /** When COMMIT lost the link, and probes only answer or lose the link too, the
      outcome can be trusted: there is no link for ROLLBACK, so that a probe that
      says "aborted" never ends in "committed".  Nor does it ever end in "aborted":
      the outcome is committed exactly if some attempt says so, and otherwise it
      stays in doubt, even when every probe says that the transaction was aborted. */
  lemma LostLinkIsSafe(env: Env)
    requires PossibleEnv(Robust, env) && MustProbe(env) && !env.commit.open
    requires forall i: nat :: env.probes(i) != ProbeFailed
    ensures Safe(Robust, env)
    ensures CommitStatus(Robust, env)
            == if exists k: nat :: k < MAX_ATTEMPTS && env.probes(k) == SaysCommitted then Committed else InDoubt
  {
    forall k: nat
      ensures Decisive(env, k) <==> env.probes(k) == SaysCommitted
    {
      assert Possible(env.commit.open, env.rollbacks(k));
    }
    ResolveEnds(env, 0);
    if k: nat :| k < MAX_ATTEMPTS && env.probes(k) == SaysCommitted {
      var j := FirstDecisive(env, k);
    }
  }

  /** If there is an attempt that would end the probing, there is a first one. */
  lemma {:induction false} FirstDecisive(env: Env, k: nat) returns (j: nat)
    requires k < MAX_ATTEMPTS && Decisive(env, k)
    ensures EndsAt(env, j)
    decreases k
  {
    if i: nat :| i < k && Decisive(env, i) {
      j := FirstDecisive(env, i);
    } else {
      j := k;
    }
  }

  /** A basic transaction in which a query failed, and whose caller commits all the
      same, is reported as committed, though nothing of it took effect. */
  lemma FailedTakenForCommitted(env: Env)
    requires env.commit == Ran(RolledBack, None, true) && forall i: nat :: Possible(true, env.rollbacks(i))
    ensures PossibleEnv(Basic, env) && !Safe(Basic, env)
    ensures forall durable :: Consistent(Basic, env, durable) <==> !durable
    ensures CommitStatus(Basic, env) == Committed
  {
  }

  /** On an open link it can: the server reports a connection problem (SQLSTATE
      class 08) in reply to COMMIT, the transaction is aborted, and it is taken for
      committed. */
  lemma AbortedTakenForCommitted()
    ensures var env := Env(Ran(Acknowledged, None, true), Ran(Refused, Some(Broken), true),
                           (i: nat) => SaysAborted, (i: nat) => Ran(Acknowledged, None, true));
            PossibleEnv(Robust, env) && Consistent(Robust, env, false) && CommitStatus(Robust, env) == Committed
  {
  }
}
