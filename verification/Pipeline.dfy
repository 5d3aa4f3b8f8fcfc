/** The query pipeline (src/pipeline.cxx). */
module Pipeline {
  import opened Wrappers
  import opened Backend
  import opened PipelineState

  class Pipeline {
    const session: Session
    /** The largest query id. */
    const limit: nat
    var queries: QueryMap
    var first: nat
    var second: nat
    var retain: int
    var numWaiting: int
    var qid: nat
    var dummyPending: bool
    var error: nat
    var registered: bool
    ghost var texts: map<nat, string>
    ghost var outcome: map<nat, Answer>
    ghost var place: map<nat, nat>
    ghost var unanswered: bool
    ghost var surplus: bool

    ghost function S(): State
      reads this, session`focus, session`active, session`replies, session`lost, session`history, session`failed
    {
      State(limit, session.db, queries, first, second, numWaiting, qid, dummyPending, error, registered,
            session.focus, session.active, session.replies, session.lost, session.history, texts, outcome, place,
            unanswered, surplus, session.Trouble())
    }

    ghost predicate Valid()
      reads this, session`focus, session`active, session`replies, session`lost, session`history, session`failed
    {
      Inv(S())
    }

    constructor (session: Session, limit: nat)
      requires limit >= 1 && session.focus == Nobody && !session.active && session.replies == []
      modifies session`focus
      ensures this.session == session && this.limit == limit && Valid()
      ensures qid == 0 && texts == map[] && queries == map[] && retain == 0 && registered
      ensures session.history == old(session.history)
    {
      this.session, this.limit := session, limit;
      queries, first, second := map[], limit + 1, limit + 1;
      retain, numWaiting, qid := 0, 0, 0;
      dummyPending, error, registered := false, limit, false;
      texts, outcome, place := map[], map[], map[];
      unanswered, surplus := false, false;
      new;
      session.focus := ThePipeline;
      registered := true;
    }

    /** Starts a pipeline, which takes the transaction's focus. */
    static method Open(session: Session, limit: nat) returns (o: Outcome<Exn>, p: Pipeline?)
      requires limit >= 1 && (session.focus == Nobody ==> !session.active && session.replies == [])
      modifies session`focus
      ensures o == if old(session.focus) == Nobody then Pass else Throw(UsageError)
      ensures o.Throw? ==> p == null && session.focus == old(session.focus)
      ensures o.Pass? ==> p != null && fresh(p) && p.session == session && p.limit == limit && p.Valid()
      ensures o.Pass? ==> p.qid == 0 && p.texts == map[] && p.queries == map[] && p.retain == 0 && p.registered
    {
      if session.focus != Nobody {
        return Throw(UsageError), null;
      }
      p := new Pipeline(session, limit);
      o := Pass;
    }

    predicate HavePending()
      reads this
    {
      first != second
    }

    /** There is nothing to send: an error is on record, or no query waits, or ids
        have run out. */
    ghost predicate NothingDue()
      reads this
    {
      error < limit || numWaiting == 0 || qid == limit
    }

    method SetErrorAt(id: nat)
      modifies this`error
      ensures error == Min(old(error), id)
    {
      if id < error {
        error := id;
      }
    }

    /** Fetches one result and gives it to the oldest query in flight.  If the link is
        lost meanwhile, the error that says so, `e`, is taken for a result. */
    method ObtainResult(expectNone: bool) returns (o: Outcome<Exn>, got: bool, ghost e: Answer)
      requires first != second ==> first in queries && first <= limit
      requires session.replies != [] ==> |session.replies| <= |session.history|
      requires session.replies != [] || session.active ==> queries != map[]
      modifies this`queries, this`first, this`second, this`error, this`outcome, this`place, this`surplus
      modifies session`replies, session`active, session`lost, session`poll, session`waited
      ensures session.lost == old(session.lost) ==>
                if old(Strange(S())) then o.Throw? && o.error in {LogicError, InternalError}
                else
                  && o.Pass? && got == (old(session.replies) != [])
                  && S() == if expectNone && !got then Idle(old(S())) else Obtained(old(S()))
      ensures session.lost != old(session.lost) ==> session.lost && old(session.active) && IsLost(e)
      ensures session.lost != old(session.lost) ==>
                if old(first == second) then o == Throw(LogicError) && S() == Surplus(old(S()))
                else if IsEmpty(old(queries[first].res)) then o.Pass? && got && S() == Dropped(old(S()), e)
                else o == Throw(InternalError)
      ensures session.waited == (old(session.waited) || old(session.poll) != Ready)
    {
      hide Next, S, Idle, CutOff, Surplus, Received, Dropped;
      Fields();
      var r := session.GetResult();
      ghost var dropped := session.lost != old(session.lost);
      e := if r.Some? then r.value else DummyAnswer;
      if r.None? {
        if HavePending() && !expectNone {
          SetErrorAt(first);
          second := first;
          IsCutOff();
        } else {
          IsIdle();
        }
        return Pass, false, e;
      }
      if !HavePending() {
        SetErrorAt(Next(queries, limit, 0));
        surplus := true;
        if dropped {
          IsSurplus();
        }
        return Throw(LogicError), false, e;
      }
      if !IsEmpty(queries[first].res) {
        SetErrorAt(0);
        return Throw(InternalError), false, e;
      }
      IsFetched();
      TakeResult(r.value, old(S()));
      return Pass, true, e;
    }

    // What each of these updates amounts to.

    twostate lemma IsTroubled()
      requires unchanged(this) && unchanged(session`active, session`replies, session`lost, session`history)
      requires unchanged(session`focus) && session.failed
      ensures S() == Troubled(old(S()))
    {
    }

    twostate lemma Unmoved()
      requires unchanged(this) && unchanged(session`active, session`replies, session`lost, session`history)
      requires unchanged(session`focus, session`failed)
      ensures S() == old(S())
    {
    }

    /** Nothing else has changed than what a result in flight can change. */
    twostate predicate Otherwise()
      reads this, session
    {
      && unchanged(`numWaiting, `qid, `dummyPending, `registered, `texts, `unanswered)
      && unchanged(session`focus, session`history, session`failed)
    }

    twostate lemma IsIdle()
      requires Otherwise() && unchanged(`queries, `first, `second, `error, `outcome, `place, `surplus)
      requires !session.active && unchanged(session`replies, session`lost)
      ensures S() == Idle(old(S()))
    {
    }

    twostate lemma IsCutOff()
      requires Otherwise() && unchanged(`queries, `first, `outcome, `place, `surplus)
      requires !session.active && unchanged(session`replies, session`lost)
      requires second == first && error == Min(old(error), first)
      ensures S() == CutOff(old(S()))
    {
    }

    twostate lemma IsSurplus()
      requires Otherwise() && unchanged(`queries, `first, `second, `outcome, `place)
      requires !session.active && session.lost && session.replies == [] && surplus
      requires error == Min(old(error), Next(queries, limit, 0))
      ensures S() == Surplus(old(S()))
    {
      hide Next;
    }

    twostate lemma IsFetched()
      requires Otherwise() && unchanged(this)
      ensures S() == old(S()).(active := session.active, replies := session.replies, lost := session.lost,
                               trouble := session.Trouble())
    {
    }

    /** A result that has been fetched goes to the oldest query in flight; s is the
        state before it was fetched. */
    method TakeResult(a: Answer, ghost s: State)
      requires first in queries && first <= limit
      requires S() == s.(active := session.active, replies := session.replies, lost := session.lost,
                         trouble := session.Trouble())
      requires session.lost != s.lost ==> session.lost && !session.active && session.replies == []
      requires session.lost == s.lost ==>
                 && s.replies != [] && a == s.replies[0] && session.replies == s.replies[1..]
                 && |s.replies| <= |s.history| && session.active == s.active && session.Trouble() == s.trouble
      modifies this`queries, this`first, this`outcome, this`place
      ensures s.first in s.queries && s.first <= s.limit
      ensures session.lost != s.lost ==> S() == Dropped(s, a)
      ensures session.lost == s.lost ==> S() == Received(s)
    {
      hide Next, S;
      Fields();
      KeepResult(a, if session.lost != s.lost then None else Some(|s.history| - |s.replies|));
      IsKept();
    }

    twostate lemma IsKept()
      requires Otherwise() && unchanged(session) && unchanged(`second, `error, `surplus)
      ensures S() == old(S()).(queries := queries, first := first, outcome := outcome, place := place)
    {
    }

    /** What may have changed. */
    twostate lemma Updated()
      requires unchanged(`qid, `registered, `texts) && unchanged(session`focus)
      ensures S() == old(S()).(
                queries := queries, first := first, second := second, numWaiting := numWaiting, error := error,
                dummyPending := dummyPending, outcome := outcome, place := place,
                unanswered := unanswered, surplus := surplus,
                active := session.active, replies := session.replies, lost := session.lost, history := session.history,
                trouble := session.Trouble())
    {
    }

    /** The same in a sound state.  Only if nothing is in flight can it fail, when the
        link is lost before the end of the last command has been seen. */
    method ObtainNext() returns (o: Outcome<Exn>, got: bool)
      requires Valid() && !dummyPending && (session.active ==> queries != map[])
      modifies this`queries, this`first, this`second, this`error, this`outcome, this`place, this`surplus
      modifies session`replies, session`active, session`lost, session`poll, session`waited
      ensures Step(old(S()), S()) && !dummyPending && numWaiting == old(numWaiting) && registered == old(registered)
      ensures o.Pass? && got ==>
                S().F() == old(S().F()) + 1 <= old(S().B()) == S().B() && error == old(error)
      ensures o.Pass? && !got ==> S().F() == S().B() == old(S().F()) && !session.active
      ensures o.Pass? && !got && old(S().F() < S().B()) ==> error <= S().F()
      ensures o.Pass? && old(S().F() == S().B()) ==> !got && S() == Idle(old(S()))
      ensures o.Throw? ==>
                && o.error == LogicError && old(S().F() == S().B() && session.active)
                && S() == Surplus(old(S())) && session.lost
      ensures session.waited == (old(session.waited) || old(session.poll) != Ready)
    {
      hide Inv, Step, Received, CutOff, Dropped, Surplus;
      ghost var s := S();
      PendingIff(s);
      ObtainedKeeps(s);
      ghost var e;
      o, got, e := ObtainResult(false);
      if session.lost != old(session.lost) {
        if s.F() < s.B() {
          InFlightEmpty(s);
          DroppedStep(s, e);
        } else {
          SurplusKeeps(s);
          SurplusStep(s);
        }
      }
    }

    /** Takes in whatever has come, as long as that takes no waiting. */
    method GetFurtherAvailableResults() returns (o: Outcome<Exn>)
      requires Valid() && !dummyPending && queries != map[]
      modifies this`queries, this`first, this`second, this`error, this`outcome, this`place, this`surplus
      modifies session`replies, session`active, session`lost, session`failed, session`poll, session`waited
      ensures Step(old(S()), S()) && S().B() <= old(S()).B() && !dummyPending && numWaiting == old(numWaiting)
      ensures o.Throw? ==> o.error in {BrokenConnection, LogicError} && session.Trouble()
      ensures session.waited == old(session.waited)
      ensures o.Pass? ==> session.poll == Busy || (!session.active && S().F() == S().B())
    {
      hide Inv, Step, Surplus, S, Idle;
      StepRefl(S());
      Fields();
      o := Pass;
      var more := true;
      while more
        invariant Step(old(S()), S()) && !dummyPending && S().B() <= old(S()).B() && numWaiting == old(numWaiting)
        invariant session.waited == old(session.waited) && (more ==> o.Pass?)
        invariant o.Throw? ==> o.error in {BrokenConnection, LogicError} && session.Trouble()
        invariant !more && o.Pass? ==> session.poll == Busy || (!session.active && S().F() == S().B())
        decreases more, S().B() - S().F()
      {
        var busy := session.IsBusy();
        if busy {
          break;
        }
        ghost var s := S();
        StepInv(old(S()), s);
        StepIds(old(S()), s);
        Fields();
        StillNonempty(old(S()), s);
        o, more := TakeNext();
        StepTrans(old(S()), s, S());
      }
    }

    /** The next result, and whether there may be more. */
    method TakeNext() returns (o: Outcome<Exn>, more: bool)
      requires Valid() && !dummyPending && queries != map[]
      modifies this`queries, this`first, this`second, this`error, this`outcome, this`place, this`surplus
      modifies session`replies, session`active, session`lost, session`failed, session`poll, session`waited
      ensures Step(old(S()), S()) && !dummyPending && numWaiting == old(numWaiting) && S().B() <= old(S()).B()
      ensures session.waited == (old(session.waited) || old(session.poll) != Ready)
      ensures o.Throw? ==> o.error in {BrokenConnection, LogicError} && session.Trouble() && !more
      ensures o.Pass? && more ==> S().F() == old(S().F()) + 1 <= S().B()
      ensures o.Pass? && !more ==> S().F() == S().B() && !session.active
    {
      hide Inv, Step, Surplus, S, Idle;
      ghost var s := S();
      PendingIff(s);
      Fields();
      o, more := ObtainNext();
      if o.Throw? {
        SurplusKeeps(s);
        Fields();
        return o, false;
      }
      if more {
        label taken:
        ghost var s' := S();
        var ok := session.ConsumeInput();
        if !ok {
          StepInv(s, s');
          TroubledStep(s');
          IsTroubled@taken();
          StepTrans(s, s', S());
          return Throw(BrokenConnection), false;
        }
        Unmoved@taken();
      }
    }

    /** One turn of the replay: executes the next query of the batch by itself.  On
        any exception it keeps the error `e` that it holds, and the mark goes just
        behind it. */
    method ReplayOne(ghost e: Answer) returns (ok: bool)
      requires first <= limit && first in queries
      requires session.focus == Nobody && session.replies == [] && !session.active
      modifies this`queries, this`first, this`second, this`numWaiting, this`error, this`outcome, this`place
      modifies session`active, session`replies, session`history, session`failed, session`poll
      ensures ok ==> S() == ReplayOk(old(S())) && ReplayOk(old(S())).outcome[old(first)].ok
      ensures !ok ==>
                && Fails(old(S()), session.history, session.Trouble())
                && S() == ReplayFailed(old(S()), e, session.history, session.Trouble())
      ensures session.lost ==> !ok
    {
      hide Next, S, ReplayOk, ReplayFailed;
      Fields();
      numWaiting := numWaiting - 1;
      var query := queries[first].text;
      var r := session.Exec(query);
      if r.Success? {
        KeepResult(r.value, Some(|old(session.history)|));
        ok := true;
        IsReplayOk(r.value);
      } else {
        MarkCulprit(e);
        ok := false;
        IsReplayFailed(e);
      }
    }

    twostate predicate NoConversation()
      reads this, session
    {
      && unchanged(`qid, `dummyPending, `registered, `texts, `unanswered, `surplus)
      && unchanged(session`focus, session`lost)
      && old(session.replies == [] && !session.active) && session.replies == [] && !session.active
      && numWaiting == old(numWaiting) - 1
    }

    twostate lemma IsReplayOk(a: Answer)
      requires NoConversation() && unchanged(`second, `error) && unchanged(session`failed)
      requires old(first in queries && first <= limit)
      requires session.history == old(session.history) + [Executed(old(queries[first].text))]
      requires a == session.db(session.history)
      requires queries == old(queries)[old(first) := old(queries[first]).(res := Some(a))]
      requires first == Next(old(queries), limit, old(first)) && outcome == old(outcome)[old(first) := a]
      requires place == old(place)[old(first) := old(|session.history|)]
      ensures S() == ReplayOk(old(S())) && S().outcome[old(first)] == a
    {
      hide Next;
    }

    twostate lemma IsReplayFailed(e: Answer)
      requires NoConversation() && unchanged(`queries, `place) && old(first <= limit)
      requires first == second == Next(queries, limit, old(first)) && outcome == old(outcome)[old(first) := e]
      requires error == Min(old(error), if first == limit + 1 then old(first) + 1 else first)
      ensures S() == ReplayFailed(old(S()), e, session.history, session.Trouble())
    {
      hide Next;
    }

    /** Records a result for the oldest query, executed at `at` in the history if it
        comes from there. */
    method KeepResult(a: Answer, ghost at: Option<nat>)
      requires first <= limit && first in queries
      modifies this`queries, this`first, this`outcome, this`place
      ensures queries == old(queries[first := queries[first].(res := Some(a))])
      ensures first == old(Next(queries, limit, first))
      ensures outcome == old(outcome)[old(first) := a]
      ensures place == if at.None? then old(place) else old(place)[old(first) := at.value]
    {
      outcome, place := outcome[first := a], if at.None? then place else place[first := at.value];
      queries, first := queries[first := queries[first].(res := Some(a))], Next(queries, limit, first);
    }

    method MarkCulprit(ghost e: Answer)
      requires first <= limit
      modifies this`first, this`second, this`error, this`outcome
      ensures first == second == old(Next(queries, limit, first))
      ensures outcome == old(outcome)[old(first) := e]
      ensures error == Min(old(error), if first == limit + 1 then old(first) + 1 else first)
    {
      var thud := first;
      first := Next(queries, limit, first);
      second := first;
      outcome := outcome[thud := e];
      SetErrorAt(if first == limit + 1 then thud + 1 else first);
    }

    /** Runs the refused batch [first, stop) again, one query at a time, until one
        fails.  If none does, `first` ends up beyond `second`, and the map is no
        longer in order: the replay is sound exactly if some query fails. */
    method Replay(stop: nat, ghost from: nat, ghost e: Answer) returns (failed: bool, ghost culprit: nat)
      requires IsIterator(S(), stop) && S().F() == from < S().Norm(stop)
      requires Replaying(S(), from, S().Norm(stop), e)
      modifies this`queries, this`first, this`second, this`numWaiting, this`error, this`outcome, this`place
      modifies session`active, session`replies, session`history, session`failed, session`poll
      ensures failed <==> Inv(S())
      ensures failed ==> from <= culprit < old(S()).Norm(stop) && ReplayEnded(old(S()), S(), from, culprit, e)
      ensures session.lost || old(StillFails(S(), S().Norm(stop))) ==> failed
    {
      hide Inv, Replaying, StillFails, ReplayedSoFar, ReplayOk, ReplayFailed, ReplayEnded, IsIterator;
      ghost var n := S().Norm(stop);
      culprit := from;
      ReplayStart(S(), from, n, e);
      failed := false;
      while !failed
        invariant !failed ==> from <= S().F() < n
        invariant !failed ==> Replaying(S(), from, n, e) && ReplayedSoFar(old(S()), S(), from)
        invariant !failed && old(StillFails(S(), n)) ==> StillFails(S(), n)
        invariant session.lost == old(session.lost)
        invariant failed ==> Inv(S()) && from <= culprit < n && ReplayEnded(old(S()), S(), from, culprit, e)
        decreases !failed, n - S().F()
      {
        ghost var s := S();
        ReplayHere(s, from, n, e);
        var ok := ReplayOne(e);
        failed := !ok;
        if failed {
          culprit := s.F();
          ReplayFailedEnds(old(S()), s, from, n, e, session.history, session.Trouble());
        } else {
          ReplayOkGoesOn(old(S()), s, from, n, e);
          StopReached(old(S()), S(), from, n, e, stop);
          if first == stop {
            ReplayedThrough(S(), from, n, e);
            return false, culprit;
          }
        }
      }
    }

    method Attach() returns (o: Outcome<Exn>)
      requires Valid()
      modifies this`registered, session`focus
      ensures Step(old(S()), S())
      ensures o.Pass? <==> old(registered) || old(session.focus) == Nobody
      ensures o.Pass? ==> registered && (S() == old(S()) || S() == Attached(old(S())))
      ensures o.Throw? ==> o.error == UsageError && S() == old(S())
    {
      hide Inv;
      StepRefl(S());
      if !registered {
        if session.focus != Nobody {
          return Throw(UsageError);
        }
        AttachedKeeps(S());
        session.focus := ThePipeline;
        registered := true;
      }
      o := Pass;
    }

    /** unregister_me: another holder's focus is left alone. */
    method Unregister()
      modifies this`registered, session`focus
      ensures S() == Detached(old(S()))
    {
      if session.focus == ThePipeline {
        session.focus := Nobody;
      }
      registered := false;
    }

    method Detach()
      modifies this`registered, session`focus
      ensures !registered && S() == if old(registered) then Detached(old(S())) else old(S())
    {
      if registered {
        Unregister();
      }
    }

    /** Gives every query in flight the batch's error for a result. */
    method SpreadError(e: Answer)
      requires Shape(S())
      modifies this`queries
      ensures queries == WithError(old(queries), S().F(), S().B(), e) && queries.Keys == old(queries).Keys
    {
      hide Shape, Next;
      ghost var s := S();
      RangeIsIterators(s);
      var i := first;
      WithErrorNone(queries, s.F(), e);
      while i != second
        invariant IsIterator(s, i) && s.F() <= s.Norm(i) <= s.B()
        invariant queries == WithError(s.queries, s.F(), s.Norm(i), e)
        decreases s.B() - s.Norm(i)
      {
        IteratorsCompare(s, i, second);
        SpreadStep(s, i, e);
        queries, i := queries[i := queries[i].(res := Some(e))], Next(queries, limit, i);
      }
    }

    /** Resets the state to before the refused batch was sent.  If the link is lost
        meanwhile, the error that says so, `lost`, is taken for a result. */
    method ForgetBatch(e: Answer) returns (ghost lost: Answer)
      requires Shape(S()) && S().F() < S().B() && session.replies == [] && !dummyPending && e.rows == 0
      modifies this`queries, this`second, this`numWaiting, this`registered
      modifies this`first, this`error, this`outcome, this`place, this`surplus
      modifies session`active, session`replies, session`lost, session`focus, session`poll, session`waited
      ensures var s := BatchFailed(old(S()).(replies := [e]));
              && s.first in s.queries && s.first <= s.limit
              && (session.lost == old(session.lost) ==> S() == s)
              && (session.lost != old(session.lost) ==>
                    session.lost && IsLost(lost) && S() == FirstDropped(s, lost))
    {
      hide Shape, WithError, Distance, Next, BatchFailed, FirstDropped, Dropped, Idle, Forgotten, S;
      var stop := second;
      ghost var s := S();
      Fields();
      FirstInFlight(s, e);
      SpreadError(e);
      OnlyQueries();
      Fields();
      lost := AwaitEnd();
      Fields();
      SpreadDistance(s, e);
      ForgottenBatch(s, e);
      if session.lost != s.lost {
        DroppedDistance(s, e, lost);
        ForgottenDropped(s, e, lost);
      }
      Requeue(stop);
      Fields();
    }

    twostate lemma OnlyQueries()
      requires unchanged(session) && unchanged(`first, `second, `numWaiting, `qid, `dummyPending, `error)
      requires unchanged(`registered, `texts, `outcome, `place, `unanswered, `surplus)
      ensures S() == old(S()).(queries := queries)
    {
    }

    /** Fetches the null that ends a refused batch; or else the link is lost. */
    method AwaitEnd() returns (ghost lost: Answer)
      requires first != second && first in queries && first <= limit && IsEmpty(queries[first].res)
      requires session.replies == []
      modifies this`queries, this`first, this`second, this`error, this`outcome, this`place, this`surplus
      modifies session`active, session`replies, session`lost, session`poll, session`waited
      ensures session.lost == old(session.lost) ==> S() == Idle(old(S()))
      ensures session.lost != old(session.lost) ==>
                session.lost && IsLost(lost) && S() == Dropped(old(S()), lost)
      ensures first == if session.lost == old(session.lost) then old(first) else old(Next(queries, limit, first))
      ensures queries == if session.lost == old(session.lost) then old(queries)
                         else old(queries)[old(first) := old(queries[first]).(res := Some(lost))]
    {
      hide Next, Received, CutOff, Surplus;
      var o', got;
      o', got, lost := ObtainResult(true);
    }

    /** What was in flight up to `stop` waits again, and the focus is given up. */
    method Requeue(stop: nat)
      modifies this`second, this`numWaiting, this`registered, session`focus
      ensures S() == Forgotten(old(S()), Distance(queries, limit, first, stop))
    {
      hide Distance;
      numWaiting := numWaiting + Distance(queries, limit, first, stop);
      second := first;
      Unregister();
    }

    /** Fetches the dummy query's result.  If that is an error, the batch as a whole
        was refused, and replaying it finds the query that is to blame: the ones
        before it get their own results, it gets the batch's error, and all later
        ones are behind the mark. */
    method ObtainDummy() returns (o: Outcome<Exn>, ghost from: nat, ghost culprit: nat)
      requires Valid() && dummyPending
      modifies this`queries, this`first, this`second, this`numWaiting, this`error, this`outcome, this`place
      modifies this`unanswered, this`surplus, this`dummyPending, this`registered
      modifies session`active, session`replies, session`lost, session`history, session`focus
      modifies session`failed, session`poll, session`waited
      ensures Step(old(S()), S()) && !dummyPending && old(session.replies) != [] && numWaiting >= old(numWaiting)
      ensures o.Throw? ==>
                && o.error == BrokenConnection && S() == Unanswered(old(S()), session.lost)
                && (session.lost || IsLost(old(session.replies)[0])) && session.Trouble()
      ensures o.Pass? ==> AfterDummy(old(S()), S())
      ensures numWaiting == old(numWaiting) || NothingDue()
      ensures o.Pass? && old(session.replies)[0].ok ==> S() == DummyGood(old(S()))
      ensures o.Pass? && !old(session.replies)[0].ok ==>
                && (from == old(S().F())
                    || (from == old(S().F()) + 1 && session.lost && from - 1 in outcome && IsLost(outcome[from - 1])))
                && from <= culprit < old(S().B())
                && ReplayEnded(old(S()), S(), from, culprit, old(session.replies)[0])
    {
      hide Inv, Shape, Step, Grows, BatchFailed, ReplayEnded, Replaying, StillFails, CheckDummy, FirstDropped, S;
      hide IsIterator, SubMap;
      ghost var s := S();
      o, from, culprit := Pass, 0, 0;
      Fields();
      DummyReplies(s);
      var r := session.GetResult();
      dummyPending := false;
      Updated();
      CheckLost(r);
      // The internal errors are out of reach.
      var check := CheckDummy(r);
      if check.Failure? {
        unanswered := true;
        Updated();
        Fields();
        UnansweredKeeps(s, session.lost);
        return Throw(BrokenConnection), 0, 0;
      }
      if check.value {
        DummyGoodStep(s);
        PendingIff(s);
        Fields();
        return;
      }
      assert s.replies[1..] == [];
      from, culprit := ReplayBatch(s, r.value);
    }

    /** The rest of it, once the dummy query's result has been fetched. */
    method ReplayBatch(ghost s: State, e: Answer) returns (ghost from: nat, ghost culprit: nat)
      requires Inv(s) && s.dummyPending && s.replies != [] && s.replies[0] == e && !e.ok && !e.broken
      requires S() == s.(dummyPending := false, replies := [])
      modifies this`queries, this`first, this`second, this`numWaiting, this`error, this`outcome, this`place
      modifies this`surplus, this`registered
      modifies session`active, session`replies, session`lost, session`history, session`focus
      modifies session`failed, session`poll, session`waited
      ensures Step(s, S()) && numWaiting >= s.numWaiting && AfterDummy(s, S()) && !dummyPending && NothingDue()
      ensures from == s.F()
              || (from == s.F() + 1 && session.lost && from - 1 in outcome && IsLost(outcome[from - 1]))
      ensures from <= culprit < s.B() && ReplayEnded(s, S(), from, culprit, e)
    {
      hide Inv, Shape, Step, Grows, BatchFailed, ReplayEnded, Replaying, StillFails, FirstDropped, AfterDummy, S;
      hide IsIterator, SubMap, IsLost;
      DummyReplies(s);
      assert s.replies[1..] == [];
      BatchFailedReplaying(s);
      SameBatch(s);
      BatchFailedGrows(s);
      ghost var b := BatchFailed(s);
      Fields();
      var stop := second;
      ghost var lost := ForgetBatch(e);
      from := s.F();
      ghost var t := S();
      Fields();
      if session.lost != s.lost {
        FirstDroppedReplaying(b, s.F(), s.B(), e, lost);
        FirstDroppedStop(b, lost, stop);
        GrowsTrans(s, b, t);
        from := s.F() + 1;
      }
      var failed, k := Replay(stop, from, e);
      culprit := k;
      ReplayEndedSince(s, t, S(), from, k, e);
      OutcomeStays(t, S(), from, k, e);
      ReplayCounts(s, S(), from, k, e);
      Fields();
    }

    /** Both receiving calls start with the dummy query's result, if it is due. */
    method TakeDummy() returns (o: Outcome<Exn>)
      requires Valid()
      modifies this`queries, this`first, this`second, this`numWaiting, this`error, this`outcome, this`place
      modifies this`unanswered, this`surplus, this`dummyPending, this`registered
      modifies session`active, session`replies, session`lost, session`history, session`focus
      modifies session`failed, session`poll, session`waited
      ensures Step(old(S()), S()) && !dummyPending && numWaiting >= old(numWaiting) && S().B() <= old(S().B())
      ensures o.Throw? ==> o.error == BrokenConnection && S().F() == old(S().F()) && session.Trouble()
      ensures o.Pass? ==> AfterDummy(old(S()), S())
      ensures numWaiting == old(numWaiting) || NothingDue()
      ensures !old(dummyPending) ==> session.waited == old(session.waited)
    {
      hide Inv, Step, ReplayEnded, DummyGood;
      StepRefl(S());
      o := Pass;
      if dummyPending {
        ghost var from, culprit;
        o, from, culprit := ObtainDummy();
      }
    }

    /** Takes in what there is, once a poll has said that this needs no waiting. */
    method TakeAvailable() returns (o: Outcome<Exn>)
      requires Valid()
      modifies this`queries, this`first, this`second, this`numWaiting, this`error, this`outcome, this`place
      modifies this`unanswered, this`surplus, this`dummyPending, this`registered
      modifies session`active, session`replies, session`lost, session`history, session`focus
      modifies session`failed, session`poll, session`waited
      ensures Step(old(S()), S()) && S().B() <= old(S().B()) && numWaiting >= old(numWaiting)
      ensures o.Throw? ==> o.error in {BrokenConnection, LogicError} && session.Trouble()
      ensures S().F() > old(S().F()) ==> !dummyPending
      ensures o.Pass? ==> session.poll == Busy || S().F() == S().B()
      ensures !old(dummyPending) ==> session.waited == old(session.waited)
      ensures numWaiting == old(numWaiting) || NothingDue()
    {
      hide Inv, Step, S, AfterDummy;
      o := TakeDummy();
      StepInv(old(S()), S());
      PendingHere();
      if o.Pass? && HavePending() {
        ghost var s := S();
        NonemptyInFlight(s);
        Fields();
        o := GetFurtherAvailableResults();
        StepIds(s, S());
        Fields();
        StepTrans(old(S()), s, S());
      }
    }

    method ReceiveIfAvailable() returns (o: Outcome<Exn>)
      requires Valid()
      modifies this`queries, this`first, this`second, this`numWaiting, this`error, this`outcome, this`place
      modifies this`unanswered, this`surplus, this`dummyPending, this`registered
      modifies session`active, session`replies, session`lost, session`history, session`focus
      modifies session`failed, session`poll, session`waited
      ensures Step(old(S()), S()) && S().B() <= old(S().B()) && numWaiting >= old(numWaiting)
      ensures o.Throw? ==> o.error in {BrokenConnection, LogicError} && session.Trouble()
      ensures S().F() > old(S().F()) ==> !dummyPending
      ensures o.Pass? ==> session.poll == Busy || S().F() == S().B()
      ensures !old(dummyPending) ==> session.waited == old(session.waited)
      ensures numWaiting == old(numWaiting) || NothingDue()
    {
      hide Inv, Step, S;
      StepRefl(S());
      var ok := session.ConsumeInput();
      if !ok {
        TroubledStep(old(S()));
        IsTroubled();
        return Throw(BrokenConnection);
      }
      Unmoved();
      var busy := session.IsBusy();
      if busy {
        return Pass;
      }
      o := TakeAvailable();
    }

    /** Receives results up to `stop`: afterwards every query before it is finished
        or behind the error mark. */
    method Receive(stop: nat) returns (o: Outcome<Exn>)
      requires Valid() && IsIterator(S(), stop) && S().F() < S().Norm(stop) <= S().B()
      modifies this`queries, this`first, this`second, this`numWaiting, this`error, this`outcome, this`place
      modifies this`unanswered, this`surplus, this`dummyPending, this`registered
      modifies session`active, session`replies, session`lost, session`history, session`focus
      modifies session`failed, session`poll, session`waited
      ensures Step(old(S()), S()) && S().B() <= old(S().B()) && numWaiting >= old(numWaiting)
      ensures o.Throw? ==> o.error in {BrokenConnection, LogicError} && session.Trouble()
      ensures o.Pass? ==> Settled(S(), old(S().Norm(stop)))
      ensures o.Pass? && stop == old(second) ==> S().F() == S().B()
      ensures o.Pass? ==> S().F() == S().B() || session.poll == Busy
    {
      hide Inv, Grows, ReplayEnded, DummyGood;
      StepRefl(S());
      ghost var n := S().Norm(stop);
      o := TakeDummy();
      if o.Throw? {
        return;
      }
      ghost var s0 := S();
      StepRefl(s0);
      NonemptyInFlight(old(S()));
      var more := true;
      while more
        invariant Step(s0, S()) && !dummyPending && numWaiting == s0.numWaiting && S().B() <= s0.B()
        invariant more ==> Waits(S(), n)
        invariant !more ==> Settled(S(), n) && (S().F() < S().B() ==> first == stop && S().F() == n)
        decreases more, S().B() - S().F()
      {
        ghost var s := S();
        PendingIff(s);
        StillNonempty(old(S()), s);
        var o', got := ObtainNext();
        StepTrans(s0, s, S());
        if o'.Throw? {
          StepTrans(old(S()), s0, S());
          SurplusStep(s);
          return o';
        }
        StopCompare(old(S()), s0, S(), stop);
        more := got && first != stop;
      }
      StepTrans(old(S()), s0, S());
      StopCompare(old(S()), S(), S(), stop);
      o := Pass;
      if first == stop {
        ghost var s := S();
        StillNonempty(old(S()), s);
        o := GetFurtherAvailableResults();
        StepTrans(old(S()), s, S());
        SettledStays(s, S(), n);
      }
    }

    /** Updates the state after a batch was sent. */
    method MarkIssued(oldest: nat, n: nat)
      requires oldest == second && n == S().Waiting() && session.replies != []
      requires n > 1 && Broken(session.replies) ==> session.Trouble()
      modifies this`dummyPending, this`first, this`second, this`numWaiting
      ensures S() == Issued(old(S()), n > 1, session.replies, session.history).(active := session.active)
      ensures dummyPending == (n > 1) && numWaiting == old(numWaiting) - n
    {
      hide S;
      Fields();
      dummyPending := n > 1;
      first := oldest;
      second := limit + 1;
      numWaiting := numWaiting - n;
      IsIssued(n);
    }

    twostate lemma IsIssued(n: nat)
      requires n == old(S().Waiting()) && dummyPending == (n > 1) && first == old(second) && second == limit + 1
      requires numWaiting == old(numWaiting) - n && session.replies != []
      requires n > 1 && Broken(session.replies) ==> session.Trouble()
      requires unchanged(session) && unchanged(`queries, `qid, `error, `registered, `texts, `outcome, `place)
      requires unchanged(`unanswered, `surplus)
      ensures S() == Issued(old(S()), n > 1, session.replies, session.history).(active := session.active)
    {
    }

    method FetchNull() returns (o: Outcome<Exn>)
      requires Valid() && S().F() == S().B() && queries != map[]
      modifies this`queries, this`first, this`second, this`error, this`outcome, this`place, this`surplus
      modifies session`replies, session`active, session`lost, session`poll, session`waited
      ensures Step(old(S()), S())
      ensures o.Pass? ==> S() == Idle(old(S())) && !session.active
      ensures o.Throw? ==> o.error == LogicError && S() == Surplus(old(S())) && session.lost
    {
      hide Inv, Step, Surplus;
      PendingIff(S());
      var got;
      o, got := ObtainNext();
    }

    /** Sends what waits, behind a dummy query if there is more than one. */
    method SendBatch() returns (o: Outcome<Exn>, batch: seq<string>)
      requires CanIssue(S()) && !session.active
      requires second == limit + 1 || (second <= limit && second in queries)
      modifies this`dummyPending, this`first, this`second, this`numWaiting
      modifies session`active, session`replies, session`history, session`failed, session`poll
      ensures o.Throw? ==> o.error == SendFailure && S() == Troubled(old(S()))
      ensures o.Pass? ==> Step(old(S()), S())
      ensures o.Pass? ==> S().F() == old(S().F()) < S().B() == qid + 1 && numWaiting == 0
      ensures batch == old(BatchFrom(queries, limit, second))
      ensures o.Pass? ==> dummyPending == (|batch| > 1)
      ensures o.Pass? ==>
                || session.Accepted(old(session.history), batch, dummyPending)
                || (dummyPending && session.RefusedWhole(old(session.history), batch))
    {
      hide Inv, Step, CanIssue, BatchFrom, Texts, SomeFails, Run, After, S, Issued, Broken, Session.Trouble;
      hide Session.Accepted, Session.RefusedWhole;
      ghost var s := S();
      Fields();
      IssueInv(s);
      var oldest := second;
      batch := BatchFrom(queries, limit, oldest);
      BatchIsWaiting(s);
      o := Transmit(batch);
      if o.Pass? {
        SentStep(s, batch);
        IssuedSame(s, |batch| > 1, session.active, session.replies, session.history, session.Trouble());
        MarkIssued(oldest, |batch|);
        Fields();
      }
    }

    method Transmit(batch: seq<string>) returns (o: Outcome<Exn>)
      requires batch != [] && !session.active
      modifies session`active, session`replies, session`history, session`failed, session`poll
      ensures S() == old(S()).(active := session.active, replies := session.replies, history := session.history,
                               trouble := session.Trouble())
      ensures o.Throw? ==> o.error == SendFailure && S() == Troubled(old(S()))
      ensures o.Pass? ==>
                && session.active && !session.lost && session.replies != []
                && session.Trouble() == (old(session.Trouble()) || (|batch| > 1 && Broken(session.replies)))
                && (|| session.Accepted(old(session.history), batch, |batch| > 1)
                    || (|batch| > 1 && session.RefusedWhole(old(session.history), batch)))
    {
      hide Session.Accepted, Session.RefusedWhole, S;
      o := session.StartExec(batch, |batch| > 1);
      Sent(old(S()));
      if o.Throw? {
        IsTroubled();
      }
    }

    /** Sending changes nothing but the conversation. */
    twostate lemma Sent(s: State)
      requires s == old(S())
      requires unchanged(this) && session.lost == old(session.lost) && session.focus == old(session.focus)
      ensures S() == s.(active := session.active, replies := session.replies, history := session.history,
                        trouble := session.Trouble())
    {
    }

    lemma SentStep(s: State, batch: seq<string>)
      requires CanIssue(s) && !s.lost && s.db == session.db && |batch| == s.Waiting() && session.replies != []
      requires forall k :: s.F() <= k < s.qid + 1 ==> k in s.queries
      requires batch == Texts(s.queries, s.F(), s.qid + 1)
      requires || session.Accepted(s.history, batch, |batch| > 1)
               || (|batch| > 1 && session.RefusedWhole(s.history, batch))
      ensures var s' := Issued(s, |batch| > 1, session.replies, session.history);
              Step(s, s') && s'.F() == s.F() < s'.B() == s.qid + 1
    {
      hide Inv, Step, CanIssue, Texts, SomeFails, Run, After, Issued;
      IssuedStep(s, |batch| > 1, session.replies, session.history);
    }

    /** Sends everything that waits, unless an error is on record.  The connection
        is always ready for it: nothing is in flight, and the last batch's null
        result is fetched first. */
    method Issue() returns (o: Outcome<Exn>)
      requires Valid() && S().F() == S().B() && numWaiting > 0
      modifies this`queries, this`first, this`second, this`numWaiting, this`error, this`outcome, this`place
      modifies this`unanswered, this`surplus, this`dummyPending, this`registered
      modifies session`active, session`replies, session`lost, session`history, session`focus
      modifies session`failed, session`poll, session`waited
      ensures Step(old(S()), S())
      ensures o.Throw? ==>
                && session.Trouble()
                && (|| (o.error == SendFailure && S() == Troubled(Idle(old(S()))) && error == limit)
                    || (o.error == LogicError && S() == Surplus(old(S()))))
      ensures o.Pass? ==> error == old(error)
      ensures o.Pass? && error < limit ==> S() == Idle(old(S()))
      ensures o.Pass? && error == limit ==> S().F() == old(S().F()) < S().B() == qid + 1 && numWaiting == 0
    {
      hide Inv, Step, Surplus, S, Idle, Troubled;
      Fields();
      WaitingNonempty(S());
      o := FetchNull();
      Fields();
      IdleSame(old(S()));
      if o.Throw? {
        return;
      }
      if error < limit {
        return Pass;
      }
      ghost var s := S();
      StepInv(old(S()), s);
      PendingIff(s);
      RangeIsIteratorsInv(s);
      var batch;
      o, batch := SendBatch();
      Fields();
      if o.Throw? {
        TroubledStep(s);
        TroubledSame(s);
      }
      StepTrans(old(S()), s, S());
    }

    // ---- The interface --------------------------------------------------

    /** Adds a query to the map. */
    method AddQuery(q: string)
      modifies this`qid, this`queries, this`texts, this`first, this`second, this`numWaiting
      ensures S() == Inserted(old(S()), q) && numWaiting == old(numWaiting) + 1
      ensures forall k :: k in old(queries) ==> k in queries
    {
      hide S;
      qid := qid + 1;
      var i := qid;
      queries, texts := queries[i := Query(q, None)], texts[i := q];
      if second == limit + 1 {
        second := i;
        if first == limit + 1 {
          first := i;
        }
      }
      numWaiting := numWaiting + 1;
      IsInserted(q);
    }

    twostate lemma IsInserted(q: string)
      requires var id := old(qid) + 1;
               && qid == id && queries == old(queries)[id := Query(q, None)] && texts == old(texts)[id := q]
               && second == (if old(second) == limit + 1 then id else old(second))
               && first == (if old(second) == limit + 1 && old(first) == limit + 1 then id else old(first))
               && numWaiting == old(numWaiting) + 1
      requires unchanged(session) && unchanged(`dummyPending, `error, `registered, `outcome, `place)
      requires unchanged(`unanswered, `surplus)
      ensures S() == Inserted(old(S()), q)
    {
    }

    /** Sends what waits, if it is too much and nothing is in flight. */
    method SendIfDue() returns (o: Outcome<Exn>)
      requires Valid() && retain >= 0
      modifies this`queries, this`first, this`second, this`numWaiting, this`error, this`outcome, this`place
      modifies this`unanswered, this`surplus, this`dummyPending, this`registered
      modifies session`active, session`replies, session`lost, session`history, session`focus
      modifies session`failed, session`poll, session`waited
      ensures Step(old(S()), S())
      ensures o.Throw? ==> o.error in {BrokenConnection, LogicError, SendFailure} && session.Trouble()
      ensures o.Pass? ==> numWaiting <= retain || error < limit || (S().F() < S().B() && session.poll == Busy)
      ensures old(numWaiting) <= retain ==> o.Pass? && S() == old(S())
    {
      hide Inv, Step, S;
      StepRefl(S());
      o := Pass;
      if numWaiting > retain {
        ghost var s := S();
        if HavePending() {
          o := ReceiveIfAvailable();
          if o.Throw? {
            return;
          }
        }
        s := S();
        StepInv(old(S()), s);
        PendingHere();
        if !HavePending() {
          o := Issue();
          StepTrans(old(S()), s, S());
        }
      }
    }

    lemma PendingHere()
      requires Valid()
      ensures HavePending() <==> S().F() < S().B()
      ensures S().F() <= S().B() && error <= limit && qid <= limit && numWaiting >= 0
    {
      hide Inv;
      PendingIff(S());
    }

    /** Inserts a query; the id is the next one.  After a normal return no more queries
        wait than may be retained, or an error is on record, or the server is busy with
        what is in flight; and as long as they may be retained, nothing is sent or
        received. */
    method Insert(q: string) returns (o: Outcome<Exn>, id: nat)
      requires Valid() && retain >= 0
      modifies this`qid, this`texts
      modifies this`queries, this`first, this`second, this`numWaiting, this`error, this`outcome, this`place
      modifies this`unanswered, this`surplus, this`dummyPending, this`registered
      modifies session`active, session`replies, session`lost, session`history, session`focus
      modifies session`failed, session`poll, session`waited
      ensures Valid() && Grows(old(S()), S())
      ensures o.Throw? && o.error in {UsageError, OverflowError} ==> qid == old(qid) && texts == old(texts)
      ensures !(o.Throw? && o.error in {UsageError, OverflowError}) ==>
                id == qid == old(qid) + 1 && texts == old(texts)[id := q] && id in queries
      ensures forall k :: k in old(queries) ==> k in queries
      ensures o.Throw? ==> o.error in {UsageError, OverflowError, BrokenConnection, LogicError, SendFailure}
      ensures o.Throw? && o.error == OverflowError ==> qid == limit
      ensures o.Throw? && o.error == UsageError ==> !old(registered) && old(session.focus) != Nobody
      ensures o.Throw? && o.error !in {UsageError, OverflowError} ==> session.Trouble()
      ensures id != 0 && old(numWaiting) < retain ==>
                && o.Pass? && numWaiting == old(numWaiting) + 1 && outcome == old(outcome)
                && session.history == old(session.history) && session.replies == old(session.replies)
      ensures o.Pass? ==> numWaiting <= retain || error < limit || (S().F() < S().B() && session.poll == Busy)
    {
      hide Inv, Grows, Inserted;
      id := 0;
      o := Attach();
      if o.Throw? {
        return;
      }
      PendingHere();
      if qid == limit {
        return Throw(OverflowError), 0;
      }
      ghost var s := S();
      InsertedStep(old(S()), s, q);
      AddQuery(q);
      id := qid;
      ghost var s1 := S();
      hide S;
      Fields();
      o := SendIfDue();
      Fields();
      GrowsTrans(old(S()), s1, S());
      StillThere(s1, S(), id);
      AllThere(s1, S());
    }

    method Resume() returns (o: Outcome<Exn>)
      requires Valid()
      modifies this`queries, this`first, this`second, this`numWaiting, this`error, this`outcome, this`place
      modifies this`unanswered, this`surplus, this`dummyPending, this`registered
      modifies session`active, session`replies, session`lost, session`history, session`focus
      modifies session`failed, session`poll, session`waited
      ensures Step(old(S()), S())
      ensures o.Throw? ==> o.error in {BrokenConnection, LogicError, SendFailure} && session.Trouble()
      ensures o.Pass? ==> HavePending() || NothingDue()
      ensures o.Pass? ==> !HavePending() || session.poll == Busy
    {
      hide Inv, Step, S;
      StepRefl(S());
      if HavePending() {
        o := ReceiveIfAvailable();
        if o.Throw? {
          return;
        }
      }
      ghost var s := S();
      StepInv(old(S()), s);
      PendingHere();
      o := Pass;
      if !HavePending() && numWaiting != 0 {
        o := Issue();
        StepTrans(old(S()), s, S());
        if o.Throw? {
          return;
        }
        s := S();
        StepInv(old(S()), s);
        Fields();
        o := ReceiveIfAvailable();
        StepIds(s, S());
        Fields();
        StepTrans(old(S()), s, S());
        StepInv(old(S()), S());
        PendingHere();
      }
    }

    method Retain(retainMax: int) returns (o: Outcome<Exn>, oldValue: int)
      requires Valid()
      modifies this`retain
      modifies this`queries, this`first, this`second, this`numWaiting, this`error, this`outcome, this`place
      modifies this`unanswered, this`surplus, this`dummyPending, this`registered
      modifies session`active, session`replies, session`lost, session`history, session`focus
      modifies session`failed, session`poll, session`waited
      ensures Step(old(S()), S())
      ensures retainMax < 0 ==> o == Throw(RangeError) && S() == old(S()) && retain == old(retain)
      ensures retainMax >= 0 ==> retain == retainMax && oldValue == old(retain)
      ensures o.Throw? ==> o.error in {RangeError, BrokenConnection, LogicError, SendFailure}
      ensures o.Pass? && old(numWaiting) >= retainMax ==> HavePending() || NothingDue()
      ensures o.Pass? && old(numWaiting) < retainMax ==> S() == old(S())
    {
      hide Inv, Step;
      StepRefl(S());
      oldValue := 0;
      if retainMax < 0 {
        return Throw(RangeError), 0;
      }
      oldValue := retain;
      retain := retainMax;
      o := Pass;
      if numWaiting >= retain {
        o := Resume();
      }
    }

    /** Receives everything that is in flight. */
    method ReceiveAll() returns (o: Outcome<Exn>)
      requires Valid()
      modifies this`queries, this`first, this`second, this`numWaiting, this`error, this`outcome, this`place
      modifies this`unanswered, this`surplus, this`dummyPending, this`registered
      modifies session`active, session`replies, session`lost, session`history, session`focus
      modifies session`failed, session`poll, session`waited
      ensures Step(old(S()), S()) && S().B() <= old(S().B()) && numWaiting >= old(numWaiting)
      ensures o.Throw? ==> o.error in {BrokenConnection, LogicError} && session.Trouble()
      ensures o.Pass? ==> S().F() == S().B() && Settled(S(), old(S().B()))
      ensures !old(HavePending()) ==> o.Pass? && S() == old(S())
    {
      hide Inv, Step;
      StepRefl(S());
      PendingHere();
      o := Pass;
      if HavePending() {
        RangeIsIteratorsInv(S());
        o := Receive(second);
      }
    }

    /** Waits for everything.  After a normal return without an error on record,
        every query is finished. */
    method Complete() returns (o: Outcome<Exn>)
      requires Valid()
      modifies this`queries, this`first, this`second, this`numWaiting, this`error, this`outcome, this`place
      modifies this`unanswered, this`surplus, this`dummyPending, this`registered
      modifies session`active, session`replies, session`lost, session`history, session`focus
      modifies session`failed, session`poll, session`waited
      ensures Step(old(S()), S())
      ensures o.Throw? ==> o.error in {BrokenConnection, LogicError, SendFailure} && session.Trouble()
      ensures o.Pass? ==> !registered && S().F() == S().B()
      ensures o.Pass? && error == limit && qid < limit ==> S().F() == qid + 1
    {
      hide Inv, Step, S;
      o := ReceiveAll();
      if o.Throw? {
        return;
      }
      ghost var s := S();
      StepInv(old(S()), s);
      PendingHere();
      if numWaiting != 0 && error == limit {
        o := Issue();
        StepTrans(old(S()), s, S());
        if o.Throw? {
          return;
        }
        s := S();
        StepInv(old(S()), s);
        o := ReceiveAll();
        StepTrans(old(S()), s, S());
        if o.Throw? {
          return;
        }
        s := S();
        StepInv(old(S()), s);
      }
      AllDone();
      Detach();
      DetachedStep(old(S()), s);
      WhenComplete();
    }

    lemma AllDone()
      requires Valid() && S().F() == S().B()
      requires error < limit || numWaiting == 0 || Settled(S(), qid + 1)
      ensures S().error < S().limit || S().Waiting() == 0 || (S().qid == S().limit && S().Waiting() == 1)
    {
      hide Recorded;
    }

    lemma WhenComplete()
      ensures S().error == error && S().limit == limit && S().qid == qid && S().registered == registered
      ensures S().Waiting() == 0 ==> S().B() == qid + 1
    {
    }

    /** Forgets everything, except that an error mark stays: contrary to what its
        documentation says, a flush does not make a failed pipeline usable again. */
    method Flush() returns (o: Outcome<Exn>)
      requires Valid()
      modifies this`queries, this`first, this`second, this`numWaiting, this`error, this`outcome, this`place
      modifies this`unanswered, this`surplus, this`dummyPending, this`registered
      modifies session`active, session`replies, session`lost, session`history, session`focus
      modifies session`failed, session`poll, session`waited
      ensures Valid() && Grows(old(S()), S()) && qid == old(qid) && texts == old(texts)
      ensures o.Throw? ==> o.error in {BrokenConnection, LogicError} && session.Trouble()
      ensures o.Pass? ==> queries == map[] && numWaiting == 0 && !registered
      ensures old(error < limit || !HavePending()) ==> o.Pass? && error == old(error)
      ensures o.Pass? && error == limit && qid < limit ==>
                forall k :: old(S().F()) <= k < old(S().B()) ==> k in outcome
      ensures error < limit ==> surplus || unanswered || CulpritBelow(S(), error)
    {
      hide Inv, Grows, S;
      o := ForgetAll();
      MarkHasCause(S());
      Fields();
      if o.Throw? {
        return;
      }
      DetachedFlush(old(S()), S());
      Detach();
      MarkHasCause(S());
      Fields();
    }

    /** Empties the map, once nothing is in flight any more. */
    method ForgetAll() returns (o: Outcome<Exn>)
      requires Valid()
      modifies this`queries, this`first, this`second, this`numWaiting, this`error, this`outcome, this`place
      modifies this`unanswered, this`surplus, this`dummyPending, this`registered
      modifies session`active, session`replies, session`lost, session`history, session`focus
      modifies session`failed, session`poll, session`waited
      ensures Valid() && Grows(old(S()), S()) && S().qid == old(qid) && S().texts == old(texts)
      ensures o.Throw? ==> o.error in {BrokenConnection, LogicError} && session.Trouble()
      ensures o.Pass? ==> queries == map[] && numWaiting == 0 && S().F() == S().B() == S().qid + 1
      ensures old(error < limit || !HavePending()) ==> o.Pass? && error == old(error)
      ensures o.Pass? && error == limit && qid < limit ==>
                forall k :: old(S().F()) <= k < old(S().B()) ==> k in outcome
    {
      hide Inv, Step, S;
      StepRefl(S());
      PendingHere();
      Fields();
      if HavePending() {
        PendingIsClean(S());
      }
      o := Pass;
      if queries == map[] {
        FlushedEmpty(S());
        StepParts(S(), S());
        return;
      }
      o := ReceiveAll();
      StepParts(old(S()), S());
      Fields();
      if o.Pass? {
        AllAnswered(old(S()), S());
        FlushedStep(old(S()), S());
        Forget();
        Fields();
      }
    }

    method Forget()
      modifies this`queries, this`first, this`second, this`numWaiting, this`dummyPending
      ensures S() == Flushed(old(S()))
    {
      hide S;
      first, second := limit + 1, limit + 1;
      numWaiting := 0;
      dummyPending := false;
      queries := map[];
      IsFlushed();
    }

    twostate lemma IsFlushed()
      requires first == second == limit + 1 && numWaiting == 0 && !dummyPending && queries == map[]
      requires unchanged(session) && unchanged(`qid, `error, `registered, `texts, `outcome, `place)
      requires unchanged(`unanswered, `surplus)
      ensures S() == Flushed(old(S()))
    {
    }

    /** Is the result of this query available? */
    method IsFinished(q: nat) returns (r: Result<bool, Exn>)
      requires Valid()
      ensures r.Failure? <==> q !in queries
      ensures r == Success(true) ==> q < S().F() && q in outcome && queries[q].res == Some(outcome[q])
      ensures r == Success(false) ==> q >= S().F() || (q >= error && surplus)
    {
      if q !in queries {
        return Failure(LogicError);
      }
      hide Conversing, Truthful, Ordered;
      return Success(first == limit + 1 || (q < first && q < error));
    }

    /** Sends query q, if it has not been sent yet and nothing has failed. */
    method SendFor(q: nat) returns (o: Outcome<Exn>)
      requires Valid() && q in queries && q < error
      modifies this`queries, this`first, this`second, this`numWaiting, this`error, this`outcome, this`place
      modifies this`unanswered, this`surplus, this`dummyPending, this`registered
      modifies session`active, session`replies, session`lost, session`history, session`focus
      modifies session`failed, session`poll, session`waited
      ensures Step(old(S()), S())
      ensures o.Throw? ==> o.error in {BrokenConnection, LogicError, SendFailure} && session.Trouble()
      ensures o.Pass? ==> q < S().B() || error < limit
    {
      hide Inv, Step, S;
      ghost var s0 := S();
      StepRefl(s0);
      Fields();
      PendingIff(s0);
      CompareId(s0, q);
      o := Pass;
      if second != limit + 1 && q >= second {
        o := ReceiveAll();
        if o.Throw? {
          return;
        }
        ghost var s := S();
        StepInv(s0, s);
        StepIds(s0, s);
        PendingIff(s);
        Fields();
        if error == limit {
          StillWaiting(s0, s, q);
          o := Issue();
          StepTrans(s0, s, S());
          StepIds(s0, S());
          Fields();
        }
      }
    }

    /** Waits for query q, which was sent, or else takes in what has come. */
    method WaitFor(q: nat) returns (o: Outcome<Exn>)
      requires Valid() && q in queries && (q < S().B() || error < limit)
      modifies this`queries, this`first, this`second, this`numWaiting, this`error, this`outcome, this`place
      modifies this`unanswered, this`surplus, this`dummyPending, this`registered
      modifies session`active, session`replies, session`lost, session`history, session`focus
      modifies session`failed, session`poll, session`waited
      ensures Step(old(S()), S())
      ensures o.Throw? ==> o.error in {BrokenConnection, LogicError} && session.Trouble()
      ensures o.Pass? && q < error ==> q < S().F()
      ensures o.Pass? ==> !HavePending() || session.poll == Busy
    {
      hide Inv, Step, S, Next;
      ghost var s0 := S();
      StepRefl(s0);
      Fields();
      PendingHere();
      CompareId(s0, q);
      o := Pass;
      if HavePending() {
        if q >= first {
          PendingIsClean(s0);
          InRange(s0, q);
          var suc := Next(queries, limit, q);
          o := Receive(suc);
        } else {
          o := ReceiveIfAvailable();
        }
      }
      StepInv(s0, S());
      StepIds(s0, S());
      Fields();
      PendingHere();
      if o.Pass? && q < error {
        BelowMark(s0, S(), q);
      }
    }

    lemma Fields()
      ensures && S().limit == limit && S().queries == queries && S().first == first && S().second == second
              && S().numWaiting == numWaiting && S().qid == qid && S().error == error && S().outcome == outcome
              && S().texts == texts && S().dummyPending == dummyPending && S().registered == registered
              && S().lost == session.lost && S().replies == session.replies && S().active == session.active
              && S().history == session.history && S().db == session.db && S().place == place
              && S().focus == session.focus && S().unanswered == unanswered && S().surplus == surplus
              && S().trouble == session.Trouble()
    {
    }

    /** Gets the result of query q in, and keeps the server busy. */
    method BringIn(q: nat) returns (o: Outcome<Exn>)
      requires Valid() && q in queries && q < error
      modifies this`queries, this`first, this`second, this`numWaiting, this`error, this`outcome, this`place
      modifies this`unanswered, this`surplus, this`dummyPending, this`registered
      modifies session`active, session`replies, session`lost, session`history, session`focus
      modifies session`failed, session`poll, session`waited
      ensures Step(old(S()), S())
      ensures o.Throw? ==> o.error in {BrokenConnection, LogicError, SendFailure, EarlierError}
      ensures o.Throw? && o.error != EarlierError ==> session.Trouble()
      ensures o == Throw(EarlierError) ==> q >= error
      ensures o.Pass? ==> q < S().F() && q < error && (HavePending() || NothingDue())
    {
      hide Inv, Step, S;
      ghost var s0 := S();
      Fields();
      o := SendFor(q);
      if o.Throw? {
        return;
      }
      ghost var s := S();
      StepInv(s0, s);
      StepIds(s0, s);
      Fields();
      StillThere(s0, s, q);
      o := WaitFor(q);
      StepTrans(s0, s, S());
      if o.Throw? {
        return;
      }
      if q >= error {
        return Throw(EarlierError);
      }
      s := S();
      StepInv(s0, s);
      PendingHere();
      if numWaiting != 0 && !HavePending() && error == limit {
        o := Issue();
        StepTrans(s0, s, S());
        StepInv(s0, S());
        PendingHere();
      }
    }

    /** Retrieves the result of query q, once.  A normal return gives a good result,
        and it is what the server answered to the text of q; a query that failed
        itself leaves with its error.  A query at or above the error mark is
        refused; one below it stays only if there is trouble with the link.  When a
        query leaves, the server is not left idle. */
    method Retrieve(q: nat) returns (o: Outcome<Exn>, a: Answer)
      requires Valid()
      modifies this`queries, this`first, this`second, this`numWaiting, this`error, this`outcome, this`place
      modifies this`unanswered, this`surplus, this`dummyPending, this`registered
      modifies session`active, session`replies, session`lost, session`history, session`focus
      modifies session`failed, session`poll, session`waited
      ensures Valid() && Grows(old(S()), S()) && qid == old(qid) && texts == old(texts)
      ensures q !in old(queries) ==> o == Throw(LogicError) && S() == old(S())
      ensures q in old(queries) && q >= old(error) ==> o == Throw(EarlierError) && S() == old(S())
      ensures o == Throw(EarlierError) ==> q in queries && q >= error
      ensures o.Pass? ==> q in old(queries) && q !in queries && a.ok && Answered(S(), q, a)
      ensures o.Throw? && q in old(queries) && q !in queries ==>
                q in outcome && !outcome[q].ok && o == CheckStatus(outcome[q]) && Explained(S(), q, outcome[q])
      ensures q in old(queries) && !session.Trouble() && q < error ==> q !in queries
      ensures q in old(queries) && q !in queries ==> q in outcome && a == outcome[q]
      ensures q in old(queries) && q !in queries ==> HavePending() || NothingDue()
      ensures forall k :: k in old(queries) && k != q ==> k in queries
      ensures o.Throw? && (q in old(queries) ==> q in queries) ==>
                SameIds(old(S()), S()) && o.error in {LogicError, EarlierError, BrokenConnection, SendFailure}
    {
      hide Inv, Step, S, Explained, Answered;
      a := DummyAnswer;
      ghost var s0 := S();
      StepRefl(s0);
      StepParts(s0, s0);
      Fields();
      if q !in queries {
        return Throw(LogicError), a;
      }
      if q >= error {
        return Throw(EarlierError), a;
      }
      o := BringIn(q);
      ghost var s := S();
      StepInv(s0, s);
      StepParts(s0, s);
      StepIds(s0, s);
      Fields();
      StillThere(s0, s, q);
      AllThere(s0, s);
      if o.Throw? {
        return;
      }
      ResultIn(s, q);
      ErasedStep(s0, s, q);
      a := queries[q].res.value;
      Erase(q);
      ExplainedErased(s, q);
      Fields();
      o := CheckStatus(a);
      if a.ok {
        GoodIsAnswered(S(), q, a);
      }
    }

    method Erase(q: nat)
      modifies this`queries
      ensures S() == Erased(old(S()), q)
    {
      queries := queries - {q};
    }

    /** Retrieves the oldest query's result. */
    method RetrieveOldest() returns (o: Outcome<Exn>, q: nat, a: Answer)
      requires Valid()
      modifies this`queries, this`first, this`second, this`numWaiting, this`error, this`outcome, this`place
      modifies this`unanswered, this`surplus, this`dummyPending, this`registered
      modifies session`active, session`replies, session`lost, session`history, session`focus
      modifies session`failed, session`poll, session`waited
      ensures Valid() && Grows(old(S()), S())
      ensures old(queries) == map[] ==> o == Throw(LogicError) && S() == old(S())
      ensures old(queries) != map[] ==> q in old(queries) && forall k :: k in old(queries) ==> q <= k
      ensures o.Pass? ==> q in old(queries) && q !in queries && a.ok && Answered(S(), q, a)
      ensures o.Throw? && q in old(queries) && q !in queries ==>
                q in outcome && !outcome[q].ok && o == CheckStatus(outcome[q]) && Explained(S(), q, outcome[q])
      ensures q in old(queries) && q !in queries ==> q in outcome && a == outcome[q]
      ensures old(queries) != map[] && !session.Trouble() && q < error ==> q !in queries
      ensures forall k :: k in old(queries) && k != q ==> k in queries
      ensures qid == old(qid) && texts == old(texts)
    {
      hide Inv, S, Answered, Explained, Grows;
      if queries == map[] {
        StepRefl(S());
        StepParts(S(), S());
        return Throw(LogicError), 0, DummyAnswer;
      }
      q := Next(queries, limit, 0);
      Fields();
      OldestIsLeast(S());
      o, a := Retrieve(q);
    }
  }
}
