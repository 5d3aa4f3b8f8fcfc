/** The state of a pipeline (src/pipeline.cxx), together with its side of the
    conversation with the server, and the invariant that every call keeps. */
module PipelineState {
  import opened Wrappers
  import opened Backend

  datatype Query = Query(text: string, res: Option<Answer>)

  type QueryMap = map<nat, Query>

  /** Iterators into the query map are modelled by the id they point to, or by the
      first number that is no id for the end of the map.  The last lines are
      history: every text inserted, every result received and, for each query
      that was answered, where in the server's history it was executed; whether a
      batch was left without answers because its dummy query's result said that
      the connection is broken; whether a result came for which there was no query;
      and whether there has been any trouble with the link. */
  datatype State = State(
    limit: nat,
    db: Database,
    queries: QueryMap,
    first: nat,
    second: nat,
    numWaiting: int,
    qid: nat,
    dummyPending: bool,
    error: nat,
    registered: bool,
    focus: Focus,
    active: bool,
    replies: seq<Answer>,
    lost: bool,
    history: seq<Event>,
    texts: map<nat, string>,
    outcome: map<nat, Answer>,
    place: map<nat, nat>,
    unanswered: bool,
    surplus: bool,
    trouble: bool)
  {
    /** An iterator as a position in the sequence of ids: the end comes after the
        last id handed out. */
    function Norm(i: nat): nat {
      if i == limit + 1 then qid + 1 else i
    }

    /** Ids below F() are finished, [F(), B()) in flight, and from B() on waiting. */
    function F(): nat {
      Norm(first)
    }

    function B(): nat {
      Norm(second)
    }

    /** How many queries wait. */
    function Waiting(): int {
      qid + 1 - B()
    }
  }

  /** ++i on a map iterator: the next id in the map, or the end. */
  function Next(queries: QueryMap, limit: nat, i: nat): (n: nat)
    requires i <= limit
    ensures i < n <= limit + 1 && (n == limit + 1 || n in queries)
    decreases limit - i
  {
    if i == limit || i + 1 in queries then i + 1 else Next(queries, limit, i + 1)
  }

  /** The texts from an iterator to the end of the map. */
  function BatchFrom(queries: QueryMap, limit: nat, i: nat): (b: seq<string>)
    requires i == limit + 1 || (i <= limit && i in queries)
    decreases limit + 1 - i
  {
    if i == limit + 1 then [] else [queries[i].text] + BatchFrom(queries, limit, Next(queries, limit, i))
  }

  // ---- The invariant ----------------------------------------------------

  /** The map is three consecutive ranges of ids. */
  ghost predicate Shape(s: State) {
    && s.qid <= s.limit && s.error <= s.limit
    && (forall k :: k in s.queries ==> 1 <= k <= s.qid)
    && (s.first == s.limit + 1 || s.first in s.queries)
    && (s.second == s.limit + 1 || s.second in s.queries)
    && 1 <= s.F() <= s.B() <= s.qid + 1
    && (forall k :: s.F() <= k <= s.qid ==> k in s.queries)
    && (s.dummyPending ==> s.F() + 1 < s.B() && s.registered)
    && (s.registered ==> s.focus == ThePipeline)
  }

  /** A statement failed just before the very last id that can be handed out.
      Such an error cannot be recorded, because the mark for it would be the value
      that stands for "no error"; the last id is then never sent. */
  ghost predicate LastIdLost(s: State) {
    s.error == s.limit && s.numWaiting == 0 && s.F() == s.B() == s.qid == s.limit
  }

  /** The counter is the number of waiting queries while no error is recorded, and
      no more than that afterwards. */
  ghost predicate Counted(s: State) {
    && 0 <= s.numWaiting <= s.Waiting()
    && (s.error == s.limit ==> s.numWaiting == s.Waiting() || LastIdLost(s))
  }

  /** The query just below the mark is the one that failed. */
  ghost predicate CulpritBelow(s: State, mark: nat) {
    mark >= 1 && mark - 1 in s.outcome && !s.outcome[mark - 1].ok
  }

  /** Once an error is recorded, nothing is in flight, and what was not answered
      lies at or above the mark, now and later.  What was answered lies below it,
      unless a result came that was too many; and then or if a batch was left
      without answers, there need be no culprit. */
  ghost predicate Marked(s: State) {
    && (s.error < s.limit ==>
          && s.F() == s.B() && 1 <= s.error <= s.qid + 1
          && (forall k :: k in s.queries && k < s.error ==> k < s.F())
          && (!s.surplus ==> forall k :: k in s.queries && k < s.F() ==> k < s.error)
          && (!s.surplus && !s.unanswered ==> CulpritBelow(s, s.error)))
    && (s.error == s.limit ==> s.registered || s.Waiting() == 0 || (s.qid == s.limit && s.Waiting() == 1))
  }

  function IsEmpty(res: Option<Answer>): bool {
    res.None? || res.value.rows == 0
  }

  /** Query q was executed, and this is what the server answered. */
  ghost predicate Answered(s: State, q: nat, a: Answer) {
    && q in s.texts && q in s.place && s.place[q] < |s.history|
    && s.history[s.place[q]] == Executed(s.texts[q])
    && a == s.db(s.history[..s.place[q] + 1])
  }

  /** The map holds what was inserted and what was received. */
  ghost predicate Held(s: State) {
    && (forall k :: k in s.texts ==> k <= s.qid)
    && (forall k :: k in s.outcome ==> k < s.F())
    && (forall k :: k in s.queries ==> k in s.texts && s.queries[k].text == s.texts[k])
    && (forall k :: k in s.queries && k < s.F() ==> k in s.outcome && s.queries[k].res == Some(s.outcome[k]))
    && (forall k :: k in s.queries && s.F() <= k && s.error == s.limit ==> IsEmpty(s.queries[k].res))
  }

  /** The text of query q was executed by itself at some time, and failed. */
  ghost predicate FailedAlone(s: State, q: nat) {
    q in s.texts && exists i :: FailsAt(s.db, s.history, s.texts[q], i)
  }

  /** What accounts for the result of query q: it is the server's answer to that
      query's own text; or else it is an error, and either the query fails by
      itself, or there was trouble with the link. */
  ghost predicate Explained(s: State, q: nat, a: Answer) {
    Answered(s, q, a) || (!a.ok && (s.trouble || FailedAlone(s, q)))
  }

  /** Every result on record is accounted for. */
  ghost predicate Truthful(s: State) {
    forall k :: k in s.outcome ==> Explained(s, k, s.outcome[k])
  }

  /** Queries are executed in the order of their ids. */
  ghost predicate Ordered(s: State) {
    && (forall k :: k in s.place ==> k < s.F() && s.place[k] < |s.history|)
    && (forall j, k :: j in s.place && k in s.place && j < k ==> s.place[j] < s.place[k])
  }

  ghost predicate Recorded(s: State) {
    Held(s) && Truthful(s) && Ordered(s)
  }

  /** Event i of the history is the execution of query q, and a the answer to it. */
  ghost predicate AnswerTo(s: State, i: int, q: nat, a: Answer) {
    && 0 <= i < |s.history| && q in s.queries
    && s.history[i] == Executed(s.queries[q].text)
    && a == s.db(s.history[..i + 1])
  }

  /** The replies `rs` are the answers to the oldest queries in flight, and if they
      do not reach the last one, a failure explains it, or a broken connection. */
  ghost predicate Replies(s: State, rs: seq<Answer>) {
    var h := |s.history| - |rs|;
    && |rs| <= s.B() - s.F() && h >= 0
    && (forall j :: 0 <= j < |rs| ==> AnswerTo(s, h + j, s.F() + j, rs[j]))
    && (forall k :: k in s.place ==> s.place[k] < h)
    && (|rs| < s.B() - s.F() ==>
          if rs == [] then s.unanswered || CulpritBelow(s, s.F()) else !rs[|rs| - 1].ok)
  }

  /** The texts of the ids [from, stop). */
  function Texts(queries: QueryMap, from: nat, stop: nat): seq<string>
    requires forall k :: from <= k < stop ==> k in queries
    decreases stop - from
  {
    if from >= stop then [] else [queries[from].text] + Texts(queries, from + 1, stop)
  }

  /** What only the link can cause was caused by it. */
  ghost predicate Blamed(s: State) {
    s.lost || s.unanswered || s.surplus ==> s.trouble
  }

  ghost predicate Conversing(s: State)
    requires Shape(s)
  {
    && Blamed(s)
    && (!s.active || s.lost ==> s.replies == [])
    && (s.F() == s.B() ==> s.replies == [])
    && (s.F() < s.B() && !s.dummyPending ==> Replies(s, s.replies))
    && (s.dummyPending && s.replies != [] && s.replies[0].ok ==>
          s.replies[0] == DummyAnswer && |s.replies| >= 2 && Replies(s, s.replies[1..]))
    && (s.dummyPending && !(s.replies != [] && s.replies[0].ok) ==>
          |s.replies| == 1 && s.replies[0].rows == 0 && (s.replies[0].broken ==> s.trouble)
          && (s.replies[0].broken || SomeFails(s.db, s.history, Texts(s.queries, s.F(), s.B()))))
  }

  ghost predicate Inv(s: State) {
    Shape(s) && Counted(s) && Marked(s) && Recorded(s) && Conversing(s)
  }

  // ---- Walking the map --------------------------------------------------

  /** Where the ids are consecutive, ++ on an iterator is + 1. */
  lemma SuccessorOf(s: State, i: nat)
    requires i <= s.qid <= s.limit && (forall k :: k in s.queries ==> k <= s.qid) && (i < s.qid ==> i + 1 in s.queries)
    ensures s.Norm(Next(s.queries, s.limit, i)) == i + 1
    ensures Next(s.queries, s.limit, i) == if i < s.qid then i + 1 else s.limit + 1
  {
    if i == s.qid {
      NothingAbove(s.queries, s.limit, i);
    }
  }

  lemma NextIsSuccessor(s: State, i: nat)
    requires Shape(s) && s.F() <= i <= s.qid
    ensures i <= s.limit && s.Norm(Next(s.queries, s.limit, i)) == i + 1
    ensures Next(s.queries, s.limit, i) == if i < s.qid then i + 1 else s.limit + 1
  {
    SuccessorOf(s, i);
  }

  lemma {:induction false} NothingAbove(queries: QueryMap, limit: nat, i: nat)
    requires i <= limit && forall k :: k in queries ==> k <= i
    ensures Next(queries, limit, i) == limit + 1
    decreases limit - i
  {
    if i < limit {
      NothingAbove(queries, limit, i + 1);
    }
  }

  lemma {:induction false} BatchIsTexts(s: State, i: nat)
    requires Shape(s) && (i == s.limit + 1 || i in s.queries) && s.F() <= s.Norm(i)
    ensures BatchFrom(s.queries, s.limit, i) == Texts(s.queries, s.Norm(i), s.qid + 1)
    decreases s.limit + 1 - i
  {
    if i <= s.limit {
      NextIsSuccessor(s, i);
      BatchIsTexts(s, Next(s.queries, s.limit, i));
    }
  }

  lemma {:induction false} TextsAt(queries: QueryMap, from: nat, stop: nat)
    requires from <= stop && forall k :: from <= k < stop ==> k in queries
    ensures |Texts(queries, from, stop)| == stop - from
    ensures forall j :: 0 <= j < stop - from ==> Texts(queries, from, stop)[j] == queries[from + j].text
    decreases stop - from
  {
    if from < stop {
      TextsAt(queries, from + 1, stop);
      var rest := Texts(queries, from + 1, stop);
      assert Texts(queries, from, stop) == [queries[from].text] + rest;
      hide Texts;
      forall j | 0 <= j < stop - from
        ensures ([queries[from].text] + rest)[j] == queries[from + j].text
      {
        if j > 0 {
          assert rest[j - 1] == queries[from + 1 + (j - 1)].text;
        }
      }
    }
  }

  /** Texts do not depend on results, or on other queries. */
  lemma {:induction false} TextsStable(queries: QueryMap, queries': QueryMap, from: nat, stop: nat)
    requires forall k :: from <= k < stop ==> k in queries && k in queries' && queries'[k].text == queries[k].text
    ensures Texts(queries', from, stop) == Texts(queries, from, stop)
    decreases stop - from
  {
    if from < stop {
      TextsStable(queries, queries', from + 1, stop);
    }
  }

  // ---- Transitions ------------------------------------------------------

  function Min(a: nat, b: nat): nat {
    if a < b then a else b
  }

  /** Later events and later answers do not change what was answered. */
  ghost predicate Extends(s: State, s': State) {
    && s'.db == s.db && s.history <= s'.history && (s.trouble ==> s'.trouble)
    && (forall k :: k in s.texts ==> k in s'.texts && s'.texts[k] == s.texts[k])
    && (forall k :: k in s.place ==> k in s'.place && s'.place[k] == s.place[k])
  }

  lemma AnsweredStable(s: State, s': State, q: nat, a: Answer)
    requires Answered(s, q, a) && Extends(s, s')
    ensures Answered(s', q, a)
  {
    assert s'.history[..s.place[q] + 1] == s.history[..s.place[q] + 1];
  }

  lemma AnswerToStable(s: State, s': State, i: int, q: nat, a: Answer)
    requires AnswerTo(s, i, q, a)
    requires s'.db == s.db && s.history <= s'.history
    requires q in s.queries ==> q in s'.queries && s'.queries[q].text == s.queries[q].text
    ensures AnswerTo(s', i, q, a)
  {
    assert s'.history[..i + 1] == s.history[..i + 1];
  }

  lemma ExplainedStable(s: State, s': State, q: nat, a: Answer)
    requires Explained(s, q, a) && Extends(s, s')
    ensures Explained(s', q, a)
  {
    if Answered(s, q, a) {
      AnsweredStable(s, s', q, a);
    } else if !s.trouble {
      FailedAloneStable(s, s', q);
    }
  }

  lemma FailedAloneStable(s: State, s': State, q: nat)
    requires FailedAlone(s, q) && Extends(s, s')
    ensures FailedAlone(s', q)
  {
    var i :| FailsAt(s.db, s.history, s.texts[q], i);
    assert s'.history[..i + 1] == s.history[..i + 1];
    assert FailsAt(s'.db, s'.history, s'.texts[q], i);
  }

  /** New results must be accounted for; the old ones stay so. */
  lemma TruthfulStable(s: State, s': State)
    requires Truthful(s) && Extends(s, s')
    requires forall k :: k in s'.outcome ==>
               (k in s.outcome && s.outcome[k] == s'.outcome[k]) || Explained(s', k, s'.outcome[k])
    ensures Truthful(s')
  {
    hide Explained, Extends;
    forall k | k in s'.outcome
      ensures Explained(s', k, s'.outcome[k])
    {
      if k in s.outcome && s.outcome[k] == s'.outcome[k] {
        ExplainedStable(s, s', k, s.outcome[k]);
      }
    }
  }

  /** Nothing that is on record changes; only marks, counters and the link do. */
  ghost predicate SameRecord(s: State, s': State) {
    && s'.db == s.db && s'.queries == s.queries && s'.qid == s.qid && s'.F() == s.F() && s'.limit == s.limit
    && s'.history == s.history && s'.texts == s.texts && s'.outcome == s.outcome && s'.place == s.place
    && s'.error <= s.error <= s.limit && (s.trouble ==> s'.trouble)
  }

  lemma SameRecordKeeps(s: State, s': State)
    requires Recorded(s) && SameRecord(s, s')
    ensures Recorded(s')
  {
    hide Explained;
    TruthfulStable(s, s');
  }

  /** The oldest result in flight comes in. */
  function Received(s: State): State
    requires s.replies != [] && s.first in s.queries && s.first <= s.limit && |s.replies| <= |s.history|
  {
    var a := s.replies[0];
    s.(replies := s.replies[1..],
       queries := s.queries[s.first := s.queries[s.first].(res := Some(a))],
       first := Next(s.queries, s.limit, s.first),
       outcome := s.outcome[s.first := a],
       place := s.place[s.first := |s.history| - |s.replies|])
  }

  ghost predicate CanReceive(s: State) {
    Inv(s) && s.F() < s.B() && !s.dummyPending && s.replies != []
  }

  lemma ReceivedShape(s: State)
    requires CanReceive(s)
    ensures s.first == s.F() && s.first in s.queries && |s.replies| <= |s.history|
    ensures var s' := Received(s);
            s'.F() == s.F() + 1 && s'.B() == s.B() && Shape(s') && Counted(s') && Marked(s')
  {
    NextIsSuccessor(s, s.first);
    var s' := Received(s);
    assert forall k :: k in s.queries <==> k in s'.queries;
  }

  /** The oldest result in flight is there, and where it belongs. */
  ghost predicate OldestIn(s: State) {
    s.replies != [] && s.first == s.F() && s.first <= s.limit && s.first in s.queries && Replies(s, s.replies)
  }

  lemma ReceivedAnswered(s: State)
    requires OldestIn(s)
    requires s.first in s.texts && s.queries[s.first].text == s.texts[s.first]
    ensures Explained(Received(s), s.first, s.replies[0])
  {
    hide Next;
    assert AnswerTo(s, |s.history| - |s.replies| + 0, s.F() + 0, s.replies[0]);
  }

  lemma ReceivedHeld(s: State)
    requires OldestIn(s) && Held(s) && Received(s).F() == s.F() + 1
    ensures Held(Received(s))
  {
    hide Next, AnswerTo;
  }

  lemma ReceivedOrdered(s: State)
    requires OldestIn(s) && Ordered(s) && Received(s).F() == s.F() + 1
    ensures Ordered(Received(s))
  {
    hide Next, AnswerTo;
    assert s.first !in s.place;
  }

  lemma ReceivedTruthful(s: State)
    requires OldestIn(s) && Held(s) && Ordered(s) && Truthful(s)
    ensures Truthful(Received(s))
  {
    hide Next, AnswerTo, Explained, Truthful;
    ReceivedAnswered(s);
    assert s.first !in s.place;
    TruthfulStable(s, Received(s));
  }

  lemma ReceivedReplies(s: State)
    requires OldestIn(s) && Received(s).F() == s.F() + 1 && Received(s).B() == s.B()
    ensures Replies(Received(s), s.replies[1..])
  {
    hide Next, AnswerTo;
    var s', rs := Received(s), s.replies[1..];
    var h, h' := |s.history| - |s.replies|, |s.history| - |rs|;
    forall j | 0 <= j < |rs|
      ensures AnswerTo(s', h' + j, s'.F() + j, rs[j])
    {
      assert AnswerTo(s, h + (j + 1), s.F() + (j + 1), s.replies[j + 1]);
      AnswerToStable(s, s', h' + j, s'.F() + j, rs[j]);
    }
    assert s.replies[|s.replies| - 1] == if rs == [] then s.replies[0] else rs[|rs| - 1];
  }

  lemma ReceivedKeeps(s: State)
    requires CanReceive(s)
    ensures s.first == s.F() && s.first in s.queries && |s.replies| <= |s.history|
    ensures var s' := Received(s);
            Inv(s') && s'.F() == s.F() + 1 && s'.B() == s.B()
  {
    hide Held, Truthful, Ordered, AnswerTo;
    ReceivedShape(s);
    ReceivedHeld(s);
    ReceivedTruthful(s);
    ReceivedOrdered(s);
    ReceivedReplies(s);
  }

  /** A null result while queries are in flight. */
  function CutOff(s: State): State {
    s.(active := false, error := Min(s.error, s.first), second := s.first)
  }

  lemma CutOffKeeps(s: State)
    requires Inv(s) && s.F() < s.B() && !s.dummyPending && s.replies == []
    ensures var s' := CutOff(s);
            Inv(s') && s'.F() == s'.B() == s.F() && s'.error <= s.F()
  {
    hide Recorded;
    assert s.first == s.F();
    SameRecordKeeps(s, CutOff(s));
  }

  /** The link is lost while a result is awaited: the oldest query in flight gets
      the error that says so. */
  function Dropped(s: State, e: Answer): State
    requires s.first in s.queries && s.first <= s.limit
  {
    s.(active := false,
       replies := [],
       lost := true,
       trouble := true,
       queries := s.queries[s.first := s.queries[s.first].(res := Some(e))],
       first := Next(s.queries, s.limit, s.first),
       outcome := s.outcome[s.first := e])
  }

  lemma TroubleExplains(s: State, q: nat, e: Answer)
    requires s.trouble && !e.ok
    ensures Explained(s, q, e)
  {
  }

  lemma DroppedHeld(s: State, e: Answer)
    requires Held(s) && s.first == s.F() <= s.limit && s.first in s.queries && Dropped(s, e).F() == s.F() + 1
    ensures Held(Dropped(s, e))
  {
    hide Next;
  }

  lemma DroppedKeeps(s: State, e: Answer)
    requires Inv(s) && s.F() < s.B() && !s.dummyPending && IsLost(e)
    ensures s.first == s.F() <= s.limit && s.first in s.queries
    ensures var s' := Dropped(s, e);
            Inv(s') && s'.F() == s.F() + 1 && s'.B() == s.B()
  {
    hide Held, Truthful, AnswerTo, Explained;
    assert s.first == s.F();
    NextIsSuccessor(s, s.first);
    var s' := Dropped(s, e);
    TroubleExplains(s', s.first, e);
    assert forall k :: k in s.queries <==> k in s'.queries;
    DroppedHeld(s, e);
    TruthfulStable(s, s');
    hide Next;
    assert Replies(s', []);
  }

  /** The link is lost while only the null was awaited: there is no query for the
      error that says so, and the oldest query in the map is marked. */
  function Surplus(s: State): State {
    s.(active := false,
       replies := [],
       lost := true,
       trouble := true,
       error := Min(s.error, Next(s.queries, s.limit, 0)),
       surplus := true)
  }

  lemma SurplusKeeps(s: State)
    requires Inv(s) && s.F() == s.B() && s.queries != map[]
    ensures var s' := Surplus(s);
            Inv(s') && s'.F() == s'.B() == s.F() && Grows(s, s') && SameIds(s, s')
  {
    hide Recorded, Next;
    OldestIsLeast(s);
    SameRecordKeeps(s, Surplus(s));
  }

  /** A null result when nothing is in flight: the command is over. */
  function Idle(s: State): State {
    s.(active := false)
  }

  lemma IdleKeeps(s: State)
    requires Inv(s) && s.F() == s.B()
    ensures Inv(Idle(s)) && s.replies == []
  {
    hide Recorded;
    SameRecordKeeps(s, Idle(s));
  }

  /** There is trouble with the link, but it is not lost. */
  function Troubled(s: State): State {
    s.(trouble := true)
  }

  lemma TroubledStep(s: State)
    requires Inv(s)
    ensures Step(s, Troubled(s)) && Troubled(s).F() == s.F() && Troubled(s).B() == s.B()
  {
    hide Recorded, AnswerTo;
    SameRecordKeeps(s, Troubled(s));
    RepliesStable(s, Troubled(s));
  }

  /** Taking and giving up the transaction's focus. */
  function Attached(s: State): State {
    s.(registered := true, focus := ThePipeline)
  }

  function Detached(s: State): State {
    s.(registered := false, focus := if s.focus == ThePipeline then Nobody else s.focus)
  }

  lemma AttachedKeeps(s: State)
    requires Inv(s)
    ensures Inv(Attached(s))
  {
    hide Recorded, AnswerTo;
    SameRecordKeeps(s, Attached(s));
    RepliesStable(s, Attached(s));
  }

  lemma DetachedKeeps(s: State)
    requires Inv(s) && s.F() == s.B()
    requires s.error < s.limit || s.Waiting() == 0 || (s.qid == s.limit && s.Waiting() == 1)
    ensures Inv(Detached(s))
  {
    hide Recorded, AnswerTo;
    SameRecordKeeps(s, Detached(s));
  }

  /** What is in flight does not change with what is not. */
  lemma RepliesStable(s: State, s': State)
    requires s'.db == s.db && s'.history == s.history && s'.F() == s.F() && s'.B() == s.B()
    requires s'.place == s.place && s'.outcome == s.outcome && s'.unanswered == s.unanswered
    requires forall k :: s.F() <= k < s.B() && k in s.queries ==>
               k in s'.queries && s'.queries[k].text == s.queries[k].text
    ensures forall rs :: Replies(s, rs) ==> Replies(s', rs)
  {
    hide AnswerTo;
    forall rs | Replies(s, rs)
      ensures Replies(s', rs)
    {
      forall j | 0 <= j < |rs|
        ensures AnswerTo(s', |s.history| - |rs| + j, s'.F() + j, rs[j])
      {
        AnswerToStable(s, s', |s.history| - |rs| + j, s.F() + j, rs[j]);
      }
    }
  }

  /** A new query. */
  function Inserted(s: State, text: string): State {
    var id := s.qid + 1;
    s.(qid := id,
       queries := s.queries[id := Query(text, None)],
       texts := s.texts[id := text],
       first := if s.second == s.limit + 1 && s.first == s.limit + 1 then id else s.first,
       second := if s.second == s.limit + 1 then id else s.second,
       numWaiting := s.numWaiting + 1)
  }

  lemma InsertedShape(s: State, text: string)
    requires Inv(s) && s.registered && s.qid < s.limit
    ensures var s' := Inserted(s, text);
            s'.F() == s.F() && s'.B() == s.B() && Shape(s') && Counted(s') && Marked(s')
  {
    hide Recorded, Replies;
  }

  lemma InsertedHeld(s: State, text: string)
    requires Shape(s) && Held(s) && s.qid < s.limit
    ensures Held(Inserted(s, text))
  {
    var s' := Inserted(s, text);
    assert s'.F() == s.F();
    forall k | k in s'.queries
      ensures k in s'.texts && s'.queries[k].text == s'.texts[k]
      ensures k < s'.F() ==> k in s'.outcome && s'.queries[k].res == Some(s'.outcome[k])
      ensures s'.F() <= k && s'.error == s'.limit ==> IsEmpty(s'.queries[k].res)
    {
    }
  }

  lemma InsertedRecorded(s: State, text: string)
    requires Shape(s) && Recorded(s) && s.qid < s.limit
    ensures Recorded(Inserted(s, text))
  {
    hide Explained, Truthful, Held;
    var s' := Inserted(s, text);
    InsertedHeld(s, text);
    IdIsNew(s);
    assert s'.F() == s.F();
    TruthfulStable(s, s');
  }

  lemma IdIsNew(s: State)
    requires Held(s)
    ensures s.qid + 1 !in s.texts
  {
  }

  lemma InsertedKeeps(s: State, text: string)
    requires Inv(s) && s.registered && s.qid < s.limit
    ensures var s' := Inserted(s, text);
            Inv(s') && s'.F() == s.F() && s'.B() == s.B()
  {
    hide Recorded, Replies, SomeFails;
    InsertedShape(s, text);
    InsertedRecorded(s, text);
    var s' := Inserted(s, text);
    RepliesStable(s, s');
    TextsStable(s.queries, s'.queries, s.F(), s.B());
  }

  /** The first reply says that the connection is broken. */
  predicate Broken(replies: seq<Answer>)
    requires replies != []
  {
    !replies[0].ok && replies[0].broken
  }

  /** A batch was sent: everything that waited is now in flight. */
  function Issued(s: State, dummy: bool, replies: seq<Answer>, history: seq<Event>): State
    requires replies != []
  {
    s.(dummyPending := dummy,
       trouble := s.trouble || (dummy && Broken(replies)),
       first := s.second,
       second := s.limit + 1,
       numWaiting := s.numWaiting - s.Waiting(),
       active := true,
       replies := replies,
       history := history)
  }

  ghost predicate CanIssue(s: State) {
    Inv(s) && s.F() == s.B() && s.error == s.limit && s.numWaiting > 0
  }

  lemma IssuedShape(s: State, dummy: bool, replies: seq<Answer>, history: seq<Event>)
    requires CanIssue(s) && dummy == (s.Waiting() > 1) && replies != []
    ensures var s' := Issued(s, dummy, replies, history);
            s'.F() == s.F() < s'.B() == s.qid + 1 && Shape(s') && Counted(s') && Marked(s')
  {
    hide Recorded, Replies;
  }

  lemma IssuedRecorded(s: State, dummy: bool, replies: seq<Answer>, history: seq<Event>)
    requires CanIssue(s) && s.history <= history && replies != []
    ensures Recorded(Issued(s, dummy, replies, history))
  {
    hide Explained, Truthful, Replies, Conversing;
    TruthfulStable(s, Issued(s, dummy, replies, history));
  }

  /** The answers of an accepted batch belong to the queries in flight. */
  lemma IssuedAnswerTo(s: State, s': State, from: nat, texts: seq<string>, j: nat)
    requires j < |Run(s.db, s.history, texts)| && from + j in s.queries && texts[j] == s.queries[from + j].text
    requires s'.db == s.db && s'.queries == s.queries
    requires s'.history == After(s.history, texts, |Run(s.db, s.history, texts)|)
    ensures AnswerTo(s', |s.history| + j, from + j, Run(s.db, s.history, texts)[j])
  {
    hide Run;
    RunAnswers(s.db, s.history, texts, j);
  }

  lemma IssuedReplies(s: State, dummy: bool, replies: seq<Answer>, history: seq<Event>)
    requires CanIssue(s) && replies != []
    requires var texts := Texts(s.queries, s.F(), s.qid + 1);
             var answers := Run(s.db, s.history, texts);
             history == After(s.history, texts, |answers|)
    ensures Replies(Issued(s, dummy, replies, history), Run(s.db, s.history, Texts(s.queries, s.F(), s.qid + 1)))
  {
    hide Held, Truthful, Run, Conversing, Marked, AnswerTo, Texts;
    var s' := Issued(s, dummy, replies, history);
    var texts := Texts(s.queries, s.F(), s.qid + 1);
    var answers := Run(s.db, s.history, texts);
    TextsAt(s.queries, s.F(), s.qid + 1);
    forall j | 0 <= j < |answers|
      ensures AnswerTo(s', |s.history| + j, s.F() + j, answers[j])
    {
      IssuedAnswerTo(s, s', s.F(), texts, j);
    }
  }

  lemma IssuedKeeps(s: State, dummy: bool, replies: seq<Answer>, history: seq<Event>)
    requires CanIssue(s) && !s.lost && dummy == (s.Waiting() > 1) && replies != []
    requires var texts := Texts(s.queries, s.F(), s.qid + 1);
             var answers := Run(s.db, s.history, texts);
             || (&& replies == (if dummy then [DummyAnswer] else []) + answers
                 && history == After(s.history, texts, |answers|))
             || (dummy && |replies| == 1 && !replies[0].ok && replies[0].rows == 0
                 && s.history <= history && (replies[0].broken || SomeFails(s.db, history, texts)))
    ensures var s' := Issued(s, dummy, replies, history);
            Inv(s') && s'.F() == s.F() < s'.B() == s.qid + 1
  {
    hide Recorded, Replies, Run, SomeFails;
    var s' := Issued(s, dummy, replies, history);
    IssuedShape(s, dummy, replies, history);
    IssuedRecorded(s, dummy, replies, history);
    var texts := Texts(s.queries, s.F(), s.qid + 1);
    var answers := Run(s.db, s.history, texts);
    if replies == (if dummy then [DummyAnswer] else []) + answers && history == After(s.history, texts, |answers|) {
      IssuedReplies(s, dummy, replies, history);
      TextsAt(s.queries, s.F(), s.qid + 1);
      if dummy {
        assert replies[1..] == answers;
      } else {
        assert replies == answers;
      }
    }
  }

  /** The dummy query's result is as expected. */
  function DummyGood(s: State): State
    requires s.replies != []
  {
    s.(dummyPending := false, replies := s.replies[1..])
  }

  lemma DummyGoodKeeps(s: State)
    requires Inv(s) && s.dummyPending && s.replies != [] && s.replies[0].ok
    ensures Inv(DummyGood(s)) && DummyGood(s).F() == s.F() && DummyGood(s).B() == s.B()
  {
    hide Recorded, AnswerTo;
    SameRecordKeeps(s, DummyGood(s));
    RepliesStable(s, DummyGood(s));
  }

  /** The dummy query's result says that the connection is broken: the whole batch
      stays in flight, and no answers are to come. */
  function Unanswered(s: State, lost: bool): State {
    s.(dummyPending := false, replies := [], active := s.active && (s.lost || !lost), lost := lost,
       unanswered := true, trouble := true)
  }

  lemma UnansweredKeeps(s: State, lost: bool)
    requires Inv(s) && s.dummyPending
    ensures var s' := Unanswered(s, lost);
            Step(s, s') && s'.F() == s.F() && s'.B() == s.B()
  {
    hide Recorded, AnswerTo;
    SameRecordKeeps(s, Unanswered(s, lost));
    UnansweredReplies(s, lost);
  }

  lemma UnansweredReplies(s: State, lost: bool)
    requires Recorded(s) && s.F() < s.B()
    ensures Replies(Unanswered(s, lost), [])
  {
  }

  /** A query leaves the map. */
  function Erased(s: State, q: nat): State {
    s.(queries := s.queries - {q})
  }

  lemma ErasedKeeps(s: State, q: nat)
    requires Inv(s) && q < s.F()
    ensures Inv(Erased(s, q)) && Erased(s, q).F() == s.F() && Erased(s, q).B() == s.B()
  {
    hide Recorded, AnswerTo, SomeFails;
    var s' := Erased(s, q);
    ErasedRecorded(s, q);
    RepliesStable(s, s');
    TextsStable(s.queries, s'.queries, s.F(), s.B());
  }

  lemma ErasedRecorded(s: State, q: nat)
    requires Recorded(s)
    ensures Recorded(Erased(s, q))
  {
    hide Explained, Truthful;
    TruthfulStable(s, Erased(s, q));
  }

  /** Everything is forgotten, except the error mark. */
  function Flushed(s: State): State {
    s.(queries := map[], first := s.limit + 1, second := s.limit + 1, numWaiting := 0, dummyPending := false)
  }

  lemma FlushedKeeps(s: State)
    requires Inv(s) && s.F() == s.B()
    ensures Inv(Flushed(s))
  {
    hide Recorded, AnswerTo;
    FlushedRecorded(s);
  }

  lemma FlushedRecorded(s: State)
    requires Shape(s) && Recorded(s)
    ensures Recorded(Flushed(s))
  {
    hide Explained, Truthful;
    TruthfulStable(s, Flushed(s));
  }

  // ---- The replay of a refused batch ------------------------------------

  /** A query map in which the ids [from, stop) hold the batch's own error. */
  function WithError(queries: QueryMap, from: nat, stop: nat, e: Answer): QueryMap {
    map k | k in queries :: if from <= k < stop then queries[k].(res := Some(e)) else queries[k]
  }

  /** The batch was refused: its queries wait again, with the batch's error for a
      result, and the focus is free for the replay. */
  function BatchFailed(s: State): State
    requires s.replies != []
  {
    s.(dummyPending := false,
       active := false,
       replies := [],
       queries := WithError(s.queries, s.F(), s.B(), s.replies[0]),
       numWaiting := s.numWaiting + (s.B() - s.F()),
       second := s.first,
       registered := false,
       focus := if s.focus == ThePipeline then Nobody else s.focus)
  }

  /** In the middle of the replay of the batch [from, stop): ids below F() have
      their own results, the rest of the batch still holds the error e. */
  ghost predicate Replaying(s: State, from: nat, stop: nat, e: Answer) {
    && s.qid <= s.limit && s.error == s.limit
    && (forall k :: k in s.queries ==> 1 <= k <= s.qid)
    && (s.first == s.limit + 1 || s.first in s.queries)
    && s.second in s.queries && s.second == from
    && 1 <= from <= s.F() <= stop <= s.qid + 1
    && (forall k :: from <= k <= s.qid ==> k in s.queries)
    && s.numWaiting == s.qid + 1 - s.F()
    && !s.dummyPending && !s.registered && s.focus == Nobody && s.replies == [] && !s.active
    && !e.ok && e.rows == 0
    && (forall k :: s.F() <= k < stop ==> s.queries[k].res == Some(e))
    && Recorded(s) && Blamed(s)
  }

  lemma BatchFailedHeld(s: State)
    requires Shape(s) && Held(s) && s.F() < s.B() && s.replies != [] && s.replies[0].rows == 0
    ensures Held(BatchFailed(s))
  {
    var s' := BatchFailed(s);
    forall k | k in s'.queries
      ensures k in s'.texts && s'.queries[k].text == s'.texts[k]
      ensures k < s'.F() ==> k in s'.outcome && s'.queries[k].res == Some(s'.outcome[k])
      ensures s'.F() <= k && s'.error == s'.limit ==> IsEmpty(s'.queries[k].res)
    {
    }
  }

  lemma BatchFailedRecorded(s: State)
    requires Shape(s) && Recorded(s) && s.F() < s.B() && s.replies != [] && s.replies[0].rows == 0
    ensures Recorded(BatchFailed(s))
  {
    hide Explained, Truthful, Held;
    BatchFailedHeld(s);
    TruthfulStable(s, BatchFailed(s));
  }

  lemma BatchFailedReplaying(s: State)
    requires Inv(s) && s.dummyPending && s.replies != [] && !s.replies[0].ok && !s.replies[0].broken
    ensures Replaying(BatchFailed(s), s.F(), s.B(), s.replies[0])
    ensures BatchFailed(s).F() == s.F() && StillFails(BatchFailed(s), s.B()) && s.F() + 1 < s.B()
  {
    hide Recorded, Replies, SomeFails;
    var s' := BatchFailed(s);
    BatchFailedRecorded(s);
    TextsStable(s.queries, s'.queries, s.F(), s.B());
  }

  /** The link is lost while the refused batch's null is awaited: the first query
      of the batch gets the error that says so, and the replay starts behind it. */
  function FirstDropped(s: State, e: Answer): State
    requires s.first <= s.limit && s.first in s.queries
  {
    var next := Next(s.queries, s.limit, s.first);
    Dropped(s, e).(second := next, numWaiting := s.numWaiting - 1)
  }

  lemma FirstDroppedReplaying(s: State, from: nat, stop: nat, e: Answer, lost: Answer)
    requires Replaying(s, from, stop, e) && s.F() == from && from + 1 < stop && IsLost(lost)
    ensures s.first == from <= s.limit
    ensures Replaying(FirstDropped(s, lost), from + 1, stop, e) && FirstDropped(s, lost).F() == from + 1
    ensures Grows(s, FirstDropped(s, lost)) && SameIds(s, FirstDropped(s, lost))
  {
    hide Held, Truthful, Explained;
    SuccessorOf(s, s.first);
    var s' := FirstDropped(s, lost);
    hide Next;
    DroppedHeld(s, lost);
    FirstDroppedHeld(s, lost);
    TroubleExplains(s', s.first, lost);
    TruthfulStable(s, s');
    NothingKnown(s);
  }

  lemma FirstDroppedHeld(s: State, e: Answer)
    requires s.first <= s.limit && s.first in s.queries && Held(Dropped(s, e))
    ensures Held(FirstDropped(s, e))
  {
    hide Next;
  }

  /** The oldest query that is not finished has neither a result nor a place. */
  lemma NothingKnown(s: State)
    requires Held(s) && Ordered(s)
    ensures s.F() !in s.outcome && s.F() !in s.place
  {
  }

  /** The next query of the batch succeeds on its own. */
  function ReplayOk(s: State): State
    requires s.first <= s.limit && s.first in s.queries
  {
    var history := s.history + [Executed(s.queries[s.first].text)];
    var a := s.db(history);
    s.(history := history,
       queries := s.queries[s.first := s.queries[s.first].(res := Some(a))],
       outcome := s.outcome[s.first := a],
       place := s.place[s.first := |s.history|],
       first := Next(s.queries, s.limit, s.first),
       numWaiting := s.numWaiting - 1)
  }

  lemma ReplayOkHeld(s: State)
    requires Held(s) && s.first == s.F() <= s.limit && s.first in s.queries && ReplayOk(s).F() == s.F() + 1
    ensures Held(ReplayOk(s))
  {
    hide Next;
    var s' := ReplayOk(s);
    forall k | k in s'.queries
      ensures k in s'.texts && s'.queries[k].text == s'.texts[k]
      ensures k < s'.F() ==> k in s'.outcome && s'.queries[k].res == Some(s'.outcome[k])
      ensures s'.F() <= k && s'.error == s'.limit ==> IsEmpty(s'.queries[k].res)
    {
    }
  }

  lemma ReplayOkOrdered(s: State)
    requires Ordered(s) && s.first == s.F() <= s.limit && s.first in s.queries && ReplayOk(s).F() == s.F() + 1
    ensures Ordered(ReplayOk(s))
  {
    hide Next;
    assert s.first !in s.place;
  }

  lemma ReplayOkTruthful(s: State)
    requires Held(s) && Ordered(s) && Truthful(s) && s.first == s.F() <= s.limit && s.first in s.queries
    ensures Truthful(ReplayOk(s))
  {
    hide Next, Truthful;
    var s', q := ReplayOk(s), s.first;
    assert q !in s.place;
    assert Explained(s', q, s'.outcome[q]) by {
      assert s'.history[..|s.history| + 1] == s'.history;
    }
    hide Explained;
    TruthfulStable(s, s');
  }

  lemma ReplayOkKeeps(s: State, from: nat, stop: nat, e: Answer)
    requires Replaying(s, from, stop, e) && s.F() < stop && ReplayOk(s).outcome[s.first].ok
    ensures Replaying(ReplayOk(s), from, stop, e) && ReplayOk(s).F() == s.F() + 1
  {
    hide Held, Truthful, Ordered;
    SuccessorOf(s, s.first);
    ReplayOkHeld(s);
    ReplayOkOrdered(s);
    ReplayOkTruthful(s);
  }

  /** Executed one at a time, one of the queries from F() up to `stop` fails. */
  ghost predicate StillFails(s: State, stop: nat) {
    (forall k :: s.F() <= k < stop ==> k in s.queries) && SomeFails(s.db, s.history, Texts(s.queries, s.F(), stop))
  }

  lemma ReplayOkFails(s: State, from: nat, stop: nat, e: Answer)
    requires Replaying(s, from, stop, e) && s.F() < stop && ReplayOk(s).outcome[s.first].ok
    requires StillFails(s, stop) && ReplayOk(s).F() == s.F() + 1
    ensures StillFails(ReplayOk(s), stop)
  {
    hide Recorded, Next;
    var s' := ReplayOk(s);
    TextsStable(s.queries, s'.queries, s.F() + 1, stop);
    var texts := Texts(s.queries, s.F(), stop);
    assert texts[1..] == Texts(s.queries, s.F() + 1, stop);
  }

  /** When the replay runs through, the two ends of the range are crossed. */
  lemma ReplayedThrough(s: State, from: nat, stop: nat, e: Answer)
    requires Replaying(s, from, stop, e) && from < s.F() == stop
    ensures !Inv(s) && !StillFails(s, stop)
  {
  }

  /** The next query of the batch fails: it keeps the batch's error, and the mark
      goes just behind it. */
  function ReplayFailed(s: State, e: Answer, history: seq<Event>, trouble: bool): State
    requires s.first <= s.limit
  {
    var next := Next(s.queries, s.limit, s.first);
    s.(history := history,
       trouble := trouble,
       outcome := s.outcome[s.first := e],
       first := next,
       second := next,
       error := Min(s.error, if next == s.limit + 1 then s.first + 1 else next),
       numWaiting := s.numWaiting - 1)
  }

  /** Why the query fails: the database says so, or there is trouble with the link. */
  ghost predicate Fails(s: State, history: seq<Event>, trouble: bool)
    requires s.first in s.queries
  {
    && s.history <= history && (s.trouble ==> trouble)
    && (!trouble ==> history == s.history + [Executed(s.queries[s.first].text)] && !s.db(history).ok)
  }

  lemma ReplayFailedExplained(s: State, e: Answer, history: seq<Event>, trouble: bool)
    requires s.first in s.queries && s.first <= s.limit && Held(s) && Fails(s, history, trouble) && !e.ok
    ensures Explained(ReplayFailed(s, e, history, trouble), s.first, e)
  {
    hide Next;
    if !trouble {
      var i := |s.history|;
      assert history[..i + 1] == history;
      assert FailsAt(s.db, history, s.texts[s.first], i);
    }
  }

  lemma ReplayFailedRecorded(s: State, from: nat, stop: nat, e: Answer, history: seq<Event>, trouble: bool)
    requires Replaying(s, from, stop, e) && s.F() < stop && Fails(s, history, trouble)
    requires ReplayFailed(s, e, history, trouble).F() == s.F() + 1
    ensures Recorded(ReplayFailed(s, e, history, trouble))
  {
    hide Next, Truthful, Explained;
    var s' := ReplayFailed(s, e, history, trouble);
    assert Held(s');
    ReplayFailedExplained(s, e, history, trouble);
    TruthfulStable(s, s');
  }

  lemma ReplayFailedKeeps(s: State, from: nat, stop: nat, e: Answer, history: seq<Event>, trouble: bool)
    requires Replaying(s, from, stop, e) && s.F() < stop && Fails(s, history, trouble)
    ensures var s' := ReplayFailed(s, e, history, trouble);
            && Inv(s') && s'.F() == s'.B() == s.F() + 1 && s'.error <= s.F() + 1
            && s'.error == Min(s.limit, s.F() + 1) && s'.numWaiting == s'.Waiting()
            && s'.outcome[s.F()] == e
  {
    hide Recorded;
    SuccessorOf(s, s.first);
    ReplayFailedRecorded(s, from, stop, e, history, trouble);
  }

  // ---- What never goes back ---------------------------------------------

  ghost predicate SubMap<K, V>(m: map<K, V>, m': map<K, V>) {
    forall k :: k in m ==> k in m' && m'[k] == m[k]
  }

  /** Along every run, history, texts, results and places only grow, the mark only
      goes down, and an id that has left the map does not come back. */
  ghost predicate Grows(s: State, s': State) {
    && s'.limit == s.limit && s'.db == s.db
    && s.history <= s'.history && s'.error <= s.error && s.qid <= s'.qid && s.F() <= s'.F()
    && (s.trouble ==> s'.trouble)
    && SubMap(s.texts, s'.texts) && SubMap(s.outcome, s'.outcome) && SubMap(s.place, s'.place)
    && (forall k :: k in s'.queries && k <= s.qid ==> k in s.queries)
  }

  lemma GrowsTrans(s: State, s': State, s'': State)
    requires Grows(s, s') && Grows(s', s'')
    ensures Grows(s, s'')
  {
    assert forall k :: k in s.texts ==> k in s'.texts;
    assert forall k :: k in s.outcome ==> k in s'.outcome;
    assert forall k :: k in s.place ==> k in s'.place;
  }

  /** The same queries are in the map. */
  ghost predicate SameIds(s: State, s': State) {
    s'.qid == s.qid && s'.texts == s.texts && s'.queries.Keys == s.queries.Keys && s'.limit == s.limit
  }

  /** A step inside a call: the invariant holds again and nothing went back. */
  ghost predicate Step(s: State, s': State) {
    Inv(s') && Grows(s, s') && SameIds(s, s')
  }

  lemma StepInv(s: State, s': State)
    requires Step(s, s')
    ensures Inv(s')
  {
    hide Inv, Grows;
  }

  lemma StepRefl(s: State)
    requires Inv(s)
    ensures Step(s, s)
  {
    hide Inv;
  }

  lemma StepTrans(s: State, s': State, s'': State)
    requires Step(s, s') && Step(s', s'')
    ensures Step(s, s'')
  {
    hide Inv, Grows;
    GrowsTrans(s, s', s'');
  }

  /** Fetching one result, when the server's replies are as they should be. */
  function Obtained(s: State): State
    requires s.replies != [] ==> s.first in s.queries && s.first <= s.limit && |s.replies| <= |s.history|
  {
    if s.replies != [] then Received(s)
    else if s.first != s.second then CutOff(s)
    else Idle(s)
  }

  /** The cases in which fetching a result raises an error: more results than
      queries, or two results for one query. */
  predicate Strange(s: State)
    requires s.first != s.second ==> s.first in s.queries
  {
    s.replies != [] && (s.first == s.second || !IsEmpty(s.queries[s.first].res))
  }

  lemma PendingIff(s: State)
    requires Inv(s)
    ensures s.F() <= s.B() <= s.qid + 1 && s.qid <= s.limit && s.error <= s.limit
    ensures s.first != s.second <==> s.F() < s.B()
    ensures s.numWaiting >= 0 && (s.dummyPending ==> s.F() < s.B())
    ensures s.F() < s.B() ==> s.first in s.queries && s.first <= s.limit && s.first == s.F()
    ensures s.first <= s.limit ==> s.first in s.queries
  {
  }

  /** ... and the rest stays. */
  ghost predicate SameWaiting(s: State, s': State) {
    !s'.dummyPending && s'.numWaiting == s.numWaiting && s'.registered == s.registered
  }

  lemma ReceivedStep(s: State)
    requires CanReceive(s)
    ensures s.first == s.F() <= s.limit && s.first in s.queries && |s.replies| <= |s.history|
    ensures var s' := Received(s);
            Step(s, s') && SameWaiting(s, s') && s'.F() == s.F() + 1 <= s.B() == s'.B() && s'.error == s.error
  {
    hide Next, Recorded, Replies, Grows;
    ReceivedKeeps(s);
    hide Inv;
    ReceivedGrows(s);
  }

  lemma CutOffStep(s: State)
    requires Inv(s) && s.F() < s.B() && !s.dummyPending && s.replies == []
    ensures var s' := CutOff(s);
            Step(s, s') && SameWaiting(s, s') && s'.F() == s'.B() == s.F() && s'.error <= s.F() && !s'.active
  {
    hide Inv;
    CutOffKeeps(s);
  }

  lemma IdleStep(s: State)
    requires Inv(s) && s.F() == s.B() && !s.dummyPending
    ensures Step(s, Idle(s)) && SameWaiting(s, Idle(s)) && Idle(s).F() == Idle(s).B() == s.F() && s.replies == []
  {
    hide Inv;
    IdleKeeps(s);
  }

  lemma ObtainedKeeps(s: State)
    requires Inv(s) && !s.dummyPending
    ensures s.first != s.second ==> s.first in s.queries && s.first <= s.limit
    ensures s.replies != [] ==> s.first != s.second && |s.replies| <= |s.history| && s.queries != map[]
    ensures !Strange(s)
    ensures var s' := Obtained(s);
            && Step(s, s') && SameWaiting(s, s')
            && (s.replies != [] ==> s'.F() == s.F() + 1 <= s.B() == s'.B() && s'.error == s.error)
            && (s.replies == [] ==> s'.F() == s'.B() == s.F() && !s'.active)
            && (s.replies == [] && s.F() < s.B() ==> s'.error <= s.F())
            && (s.replies == [] && s.F() == s.B() ==> s' == Idle(s))
  {
    hide Inv, Step, Received, CutOff, Idle, SameWaiting;
    PendingIff(s);
    if s.F() == s.B() {
      IdleStep(s);
      assert !Idle(s).active by { IdleInactive(s); }
    } else {
      InFlightEmpty(s);
      if s.replies != [] {
        ReceivedStep(s);
      } else {
        CutOffStep(s);
      }
    }
  }

  lemma IdleInactive(s: State)
    ensures !Idle(s).active
  {
  }

  lemma IdleSame(s: State)
    ensures var s' := Idle(s);
            && s'.F() == s.F() && s'.B() == s.B() && s'.error == s.error && s'.limit == s.limit && s'.qid == s.qid
            && s'.numWaiting == s.numWaiting && s'.first == s.first && s'.second == s.second
  {
  }

  lemma TroubledSame(s: State)
    ensures Troubled(s).error == s.error && Troubled(s).limit == s.limit && Troubled(s).trouble
  {
  }

  lemma DroppedStep(s: State, e: Answer)
    requires Inv(s) && s.F() < s.B() && !s.dummyPending && IsLost(e)
    ensures s.first == s.F() <= s.limit && s.first in s.queries
    ensures var s' := Dropped(s, e);
            && Step(s, s') && s'.F() == s.F() + 1 <= s.B() == s'.B() && s'.error == s.error
            && !s'.dummyPending && s'.numWaiting == s.numWaiting && s'.registered == s.registered
  {
    hide Next, Replies, Explained;
    DroppedKeeps(s, e);
    NothingKnown(s);
  }

  lemma ReceivedGrows(s: State)
    requires CanReceive(s) && s.first == s.F() && s.first in s.queries && |s.replies| <= |s.history|
    requires Received(s).F() == s.F() + 1
    ensures Grows(s, Received(s)) && SameIds(s, Received(s))
  {
    hide Next, Replies, Explained;
    assert s.first !in s.outcome;
    assert s.first !in s.place;
  }

  /** Every id below n is finished, or is at or above the error mark. */
  ghost predicate Settled(s: State, n: nat) {
    n <= s.F() || s.error <= s.F()
  }

  ghost predicate IsIterator(s: State, i: nat) {
    i == s.limit + 1 || (i <= s.qid && i in s.queries)
  }

  lemma IteratorsCompare(s: State, i: nat, j: nat)
    requires IsIterator(s, i) && IsIterator(s, j) && s.qid <= s.limit
    ensures i == j <==> s.Norm(i) == s.Norm(j)
  {
  }

  lemma RangeIsIterators(s: State)
    requires Shape(s)
    ensures IsIterator(s, s.first) && IsIterator(s, s.second)
    ensures s.qid <= s.limit && s.F() <= s.B() <= s.qid + 1
  {
  }

  /** The replay goes on: the queries below F() have succeeded on their own. */
  ghost predicate ReplayedSoFar(s: State, s': State, from: nat) {
    && Grows(s, s') && SameIds(s, s')
    && (forall j :: from <= j < s'.F() ==> j in s'.outcome && s'.outcome[j].ok)
  }

  lemma ReplayOkGrows(s: State)
    requires Held(s) && Ordered(s) && s.first == s.F() <= s.limit && s.first in s.queries
    requires ReplayOk(s).F() == s.F() + 1
    ensures Grows(s, ReplayOk(s)) && SameIds(s, ReplayOk(s))
  {
    hide Next;
    assert s.first !in s.outcome && s.first !in s.place;
  }

  /** A query of the batch succeeds: the replay goes on with the next. */
  lemma ReplayOkGoesOn(s0: State, s: State, from: nat, stop: nat, e: Answer)
    requires Replaying(s, from, stop, e) && s.F() < stop
    requires ReplayedSoFar(s0, s, from) && ReplayOk(s).outcome[s.first].ok
    ensures var s' := ReplayOk(s);
            && Replaying(s', from, stop, e) && ReplayedSoFar(s0, s', from) && from < s'.F() == s.F() + 1 <= stop
            && (StillFails(s, stop) ==> StillFails(s', stop))
  {
    hide Grows, StillFails, Held, Truthful, Ordered, Next;
    var s' := ReplayOk(s);
    ReplayOkKeeps(s, from, stop, e);
    ReplayOkGrows(s);
    GrowsTrans(s0, s, s');
    assert s.first == s.F();
    if StillFails(s, stop) {
      ReplayOkFails(s, from, stop, e);
    }
  }

  /** The replay of a batch from `from` on has stopped at query k: the ones before
      it have succeeded, k holds the batch's error e, and all later ones are
      behind the mark. */
  ghost predicate ReplayEnded(s0: State, s: State, from: nat, k: nat, e: Answer) {
    && Grows(s0, s) && SameIds(s0, s)
    && (forall j :: from <= j < k ==> j in s.outcome && s.outcome[j].ok)
    && k in s.outcome && s.outcome[k] == e
    && s.F() == s.B() == k + 1 && s.error == Min(s.limit, k + 1) && s.numWaiting == s.Waiting()
    && !s.registered && s.focus == Nobody && !s.dummyPending
  }

  lemma ReplayFailedGrows(s: State, e: Answer, history: seq<Event>, trouble: bool)
    requires Held(s) && s.first == s.F() <= s.limit && s.history <= history && (s.trouble ==> trouble)
    requires ReplayFailed(s, e, history, trouble).F() == s.F() + 1
    ensures Grows(s, ReplayFailed(s, e, history, trouble)) && SameIds(s, ReplayFailed(s, e, history, trouble))
  {
    hide Next;
    assert s.first !in s.outcome;
  }

  lemma ReplayFailedEnds(
    s0: State, s: State, from: nat, stop: nat, e: Answer, history: seq<Event>, trouble: bool)
    requires Replaying(s, from, stop, e) && s.F() < stop && s.first in s.queries && s.first <= s.limit
    requires Fails(s, history, trouble) && ReplayedSoFar(s0, s, from)
    ensures Inv(ReplayFailed(s, e, history, trouble)) && from <= s.F() < stop
    ensures ReplayEnded(s0, ReplayFailed(s, e, history, trouble), from, s.F(), e)
  {
    hide Grows, Held, Truthful, Ordered, Next, Inv;
    var s' := ReplayFailed(s, e, history, trouble);
    ReplayFailedKeeps(s, from, stop, e, history, trouble);
    ReplayFailedGrows(s, e, history, trouble);
    GrowsTrans(s0, s, s');
  }

  lemma StopReached(s0: State, s: State, from: nat, n: nat, e: Answer, stop: nat)
    requires Replaying(s, from, n, e) && ReplayedSoFar(s0, s, from) && IsIterator(s0, stop) && s0.Norm(stop) == n
    ensures s.first == stop <==> s.F() == n
  {
    hide Recorded, Grows;
    assert s.queries.Keys == s0.queries.Keys;
    assert IsIterator(s, stop) by {
      assert stop in s0.queries.Keys <==> stop in s.queries.Keys;
    }
    IteratorsCompare(s, s.first, stop);
  }

  lemma ReplayStart(s: State, from: nat, stop: nat, e: Answer)
    requires Replaying(s, from, stop, e) && s.F() == from
    ensures ReplayedSoFar(s, s, from)
  {
    hide Recorded;
  }

  lemma ReplayHere(s: State, from: nat, stop: nat, e: Answer)
    requires Replaying(s, from, stop, e)
    ensures s.F() <= stop && s.focus == Nobody && s.replies == [] && !s.active && s.qid <= s.limit
    ensures IsIterator(s, s.first)
    ensures s.F() < stop ==> s.first in s.queries && s.first == s.F() && s.first <= s.limit
  {
    hide Recorded;
  }

  /** Is the dummy query's result as it should be?  If it is an error result, the
      batch was refused. */
  function CheckDummy(r: Option<Answer>): Result<bool, Exn> {
    if r.None? then Failure(InternalError)
    else match CheckStatus(r.value)
      case Throw(SqlError(_)) => Success(false)
      case Throw(e) => Failure(e)
      case Pass =>
        if r.value.rows > 1 then Failure(InternalError)
        else if r.value.rows == 0 then Failure(RangeError)
        else if r.value.value != DummyAnswer.value then Failure(InternalError)
        else Success(true)
  }

  /** std::distance between two iterators. */
  function Distance(queries: QueryMap, limit: nat, i: nat, stop: nat): nat
    decreases limit + 1 - i
  {
    if i == stop || i > limit then 0 else 1 + Distance(queries, limit, Next(queries, limit, i), stop)
  }

  lemma {:induction false} DistanceIsLength(s: State, i: nat, stop: nat)
    requires Shape(s) && IsIterator(s, i) && IsIterator(s, stop) && s.F() <= s.Norm(i) <= s.Norm(stop)
    ensures Distance(s.queries, s.limit, i, stop) == s.Norm(stop) - s.Norm(i)
    decreases s.Norm(stop) - s.Norm(i)
  {
    IteratorsCompare(s, i, stop);
    if i != stop {
      NextIsSuccessor(s, i);
      DistanceIsLength(s, Next(s.queries, s.limit, i), stop);
    }
  }

  lemma {:induction false} NextSameKeys(queries: QueryMap, queries': QueryMap, limit: nat, i: nat)
    requires i <= limit && queries.Keys == queries'.Keys
    ensures Next(queries, limit, i) == Next(queries', limit, i)
    decreases limit - i
  {
    assert i + 1 in queries.Keys <==> i + 1 in queries'.Keys;
    if i < limit && i + 1 !in queries {
      NextSameKeys(queries, queries', limit, i + 1);
    }
  }

  lemma WithErrorNone(queries: QueryMap, from: nat, e: Answer)
    ensures WithError(queries, from, from, e) == queries
  {
  }

  lemma SpreadStep(s: State, i: nat, e: Answer)
    requires Shape(s) && IsIterator(s, i) && s.F() <= s.Norm(i) < s.B()
    ensures var q := WithError(s.queries, s.F(), s.Norm(i), e);
            var next := Next(q, s.limit, i);
            && i <= s.limit && i in q && IsIterator(s, next) && s.Norm(next) == s.Norm(i) + 1
            && q[i := q[i].(res := Some(e))] == WithError(s.queries, s.F(), s.Norm(next), e)
  {
    NextIsSuccessor(s, i);
    hide Next;
    var q := WithError(s.queries, s.F(), s.Norm(i), e);
    assert q.Keys == s.queries.Keys;
    NextSameKeys(s.queries, q, s.limit, i);
  }

  lemma SpreadDistance(s: State, e: Answer)
    requires Shape(s)
    ensures Distance(WithError(s.queries, s.F(), s.B(), e), s.limit, s.first, s.second) == s.B() - s.F()
  {
    var s' := s.(queries := WithError(s.queries, s.F(), s.B(), e));
    assert s'.queries.Keys == s.queries.Keys;
    RangeIsIterators(s);
    DistanceIsLength(s', s.first, s.second);
  }

  /** ... and when the first query of the batch was answered by the loss of the link. */
  lemma DroppedDistance(s: State, e: Answer, lost: Answer)
    requires Shape(s) && s.F() < s.B()
    ensures var q := WithError(s.queries, s.F(), s.B(), e);
            && s.first <= s.limit && s.first in q
            && Distance(q[s.first := q[s.first].(res := Some(lost))], s.limit, Next(q, s.limit, s.first), s.second)
               == s.B() - s.F() - 1
  {
    FirstInFlight(s, e);
    RangeIsIterators(s);
    NextIsSuccessor(s, s.first);
    var q := WithError(s.queries, s.F(), s.B(), e);
    var q' := q[s.first := q[s.first].(res := Some(lost))];
    assert q.Keys == s.queries.Keys && q'.Keys == s.queries.Keys;
    NextSameKeys(s.queries, q, s.limit, s.first);
    DistanceIsLength(s.(queries := q'), Next(q, s.limit, s.first), s.second);
  }

  /** The last steps of forgetting a batch. */
  function Forgotten(s: State, n: int): State {
    Detached(s.(numWaiting := s.numWaiting + n, second := s.first))
  }

  lemma ForgottenBatch(s: State, e: Answer)
    requires s.replies == [] && !s.dummyPending && s.F() <= s.B()
    ensures var t := s.(queries := WithError(s.queries, s.F(), s.B(), e));
            Forgotten(Idle(t), s.B() - s.F()) == BatchFailed(s.(replies := [e]))
    ensures var b := BatchFailed(s.(replies := [e]));
            b.first == s.first && b.limit == s.limit && b.queries == WithError(s.queries, s.F(), s.B(), e)
  {
  }

  lemma ForgottenDropped(s: State, e: Answer, lost: Answer)
    requires Shape(s) && s.F() < s.B() && s.replies == [] && !s.dummyPending
    ensures var t, b := s.(queries := WithError(s.queries, s.F(), s.B(), e)), BatchFailed(s.(replies := [e]));
            && s.first in t.queries && s.first in b.queries && s.first <= s.limit
            && Forgotten(Dropped(t, lost), s.B() - s.F() - 1) == FirstDropped(b, lost)
  {
    hide Next;
    FirstInFlight(s, e);
  }

  lemma FirstInFlight(s: State, e: Answer)
    requires Shape(s) && s.F() < s.B()
    ensures s.first == s.F() <= s.limit && s.first != s.second && s.first in s.queries && s.queries != map[]
    ensures var q := WithError(s.queries, s.F(), s.B(), e); s.first in q && q[s.first].res == Some(e)
  {
  }

  lemma InFlightEmpty(s: State)
    requires Inv(s) && s.F() < s.B()
    ensures s.first == s.F() <= s.limit && s.first in s.queries && IsEmpty(s.queries[s.first].res)
  {
    hide Truthful, Ordered, Conversing;
  }

  lemma SurplusStep(s: State)
    requires Inv(s) && s.F() == s.B() && s.queries != map[]
    ensures Step(s, Surplus(s)) && Surplus(s).F() == Surplus(s).B() == s.F()
  {
    hide Inv, Grows, SameIds;
    SurplusKeeps(s);
  }

  lemma NonemptyInFlight(s: State)
    requires Inv(s)
    ensures s.F() < s.B() ==> s.queries != map[]
  {
    hide Recorded;
  }

  lemma WaitingNonempty(s: State)
    requires Inv(s) && s.numWaiting > 0
    ensures s.queries != map[]
  {
    hide Recorded;
    assert s.qid in s.queries;
  }

  /** After that every query that is still in the map is refused, also those whose
      results are good. */
  lemma SurplusRefusesAll(s: State, q: nat)
    requires Inv(s) && q in s.queries
    ensures q >= Surplus(s).error
  {
    OldestIsLeast(s);
  }

  /** A mark is for good: whatever is inserted later is refused. */
  lemma MarkIsForGood(s: State, s': State, q: nat)
    requires Inv(s) && s.error < s.limit && Grows(s, s') && q > s.qid
    ensures q >= s'.error
  {
    hide Recorded, Conversing;
  }

  /** If everything that was in flight is settled and there is no mark, it was all
      answered. */
  lemma AllAnswered(s: State, s': State)
    requires Inv(s) && Step(s, s') && Settled(s', s.B())
    ensures s'.error == s'.limit && s'.qid < s'.limit ==> forall k :: s.F() <= k < s.B() ==> k in s'.outcome
  {
    hide Conversing, Truthful, Ordered;
    forall k | s.F() <= k < s.B() && s'.error == s'.limit && s'.qid < s'.limit
      ensures k in s'.outcome
    {
      assert k in s.queries.Keys;
    }
  }

  lemma MarkHasCause(s: State)
    requires Inv(s)
    ensures s.error < s.limit ==> s.surplus || s.unanswered || CulpritBelow(s, s.error)
    ensures s.surplus || s.unanswered ==> s.trouble
  {
    hide Recorded, Replies;
  }

  lemma StillNonempty(s: State, s': State)
    requires SameIds(s, s') && s.queries != map[]
    ensures s'.queries != map[]
  {
    var k :| k in s.queries;
    assert k in s'.queries.Keys;
  }

  /** What the server can answer to the dummy query. */
  lemma DummyReplies(s: State)
    requires Inv(s) && s.dummyPending
    ensures s.replies != [] && s.F() < s.B() && s.first in s.queries && s.first <= s.limit && s.queries != map[]
    ensures var a := s.replies[0];
            CheckDummy(Some(a)) == if !a.ok && a.broken then Failure(BrokenConnection) else Success(a.ok)
    ensures !s.replies[0].ok ==> |s.replies| == 1 && s.replies[0].rows == 0
    ensures s.active && !s.lost && (!s.replies[0].ok && s.replies[0].broken ==> s.trouble)
    ensures Shape(s.(dummyPending := false, replies := s.replies[1..]))
    ensures s.registered && s.focus == ThePipeline
  {
    hide Recorded;
  }

  lemma DummyGoodStep(s: State)
    requires Inv(s) && s.dummyPending && s.replies != [] && s.replies[0].ok
    ensures Step(s, DummyGood(s)) && DummyGood(s).F() == s.F() && DummyGood(s).B() == s.B()
  {
    DummyGoodKeeps(s);
  }

  lemma SameBatch(s: State)
    requires Inv(s) && s.dummyPending && s.replies != []
    ensures BatchFailed(s.(dummyPending := false, replies := [s.replies[0]])) == BatchFailed(s)
    ensures IsIterator(BatchFailed(s), s.second) && BatchFailed(s).Norm(s.second) == s.B()
  {
  }

  lemma FirstDroppedStop(s: State, lost: Answer, stop: nat)
    requires s.first <= s.limit && s.first in s.queries && IsIterator(s, stop)
    ensures IsIterator(FirstDropped(s, lost), stop) && FirstDropped(s, lost).Norm(stop) == s.Norm(stop)
    ensures s.first in FirstDropped(s, lost).outcome && FirstDropped(s, lost).outcome[s.first] == lost
  {
    hide Next;
  }

  lemma OutcomeStays(s: State, s': State, from: nat, k: nat, e: Answer)
    requires ReplayEnded(s, s', from, k, e)
    ensures SubMap(s.outcome, s'.outcome)
  {
  }

  /** The loss of the link does not pass for a refusal of the batch. */
  lemma CheckLost(r: Option<Answer>)
    ensures r.Some? && IsLost(r.value) ==> CheckDummy(r) == Failure(BrokenConnection)
  {
  }

  lemma BatchFailedGrows(s: State)
    requires s.replies != [] && BatchFailed(s).F() == s.F()
    ensures Grows(s, BatchFailed(s)) && SameIds(s, BatchFailed(s))
  {
    assert BatchFailed(s).queries.Keys == s.queries.Keys;
  }

  /** Seen from further back. */
  lemma ReplayEndedSince(s: State, s1: State, s': State, from: nat, k: nat, e: Answer)
    requires Grows(s, s1) && SameIds(s, s1) && ReplayEnded(s1, s', from, k, e)
    ensures ReplayEnded(s, s', from, k, e)
  {
    hide Grows;
    GrowsTrans(s, s1, s');
  }

  /** Either the dummy query was answered, or an error is on record behind which
      everything lies. */
  ghost predicate AfterDummy(s: State, s': State) {
    && s'.B() <= s.B()
    && ((s'.F() == s.F() && s'.B() == s.B() && s'.error == s.error) || (s'.F() == s'.B() && s'.error <= s'.F()))
  }

  lemma ReplayCounts(s: State, s': State, from: nat, k: nat, e: Answer)
    requires Inv(s) && Inv(s') && k < s.B() && ReplayEnded(s, s', from, k, e)
    ensures Step(s, s') && s'.numWaiting >= s.numWaiting && AfterDummy(s, s') && !s'.dummyPending
    ensures s'.error < s'.limit || s'.qid == s'.limit || s'.numWaiting == 0
  {
    hide Recorded, Grows;
  }

  /** Results up to n are still to come, or none is to come at all. */
  ghost predicate Waits(s: State, n: nat) {
    s.F() < n <= s.B() || (s.F() == s.B() && s.error <= s.F())
  }

  lemma StopCompare(s: State, s0: State, s': State, stop: nat)
    requires IsIterator(s, stop) && Inv(s') && SameIds(s, s0) && SameIds(s0, s')
    ensures s'.first == stop <==> s'.F() == s.Norm(stop)
    ensures s'.F() <= s'.B() <= s'.qid + 1
  {
    hide Recorded;
    assert stop in s.queries.Keys <==> stop in s'.queries.Keys;
    IteratorsCompare(s', s'.first, stop);
  }

  lemma SettledStays(s: State, s': State, n: nat)
    requires Settled(s, n) && Grows(s, s') && Inv(s') && s'.B() <= s.B()
    ensures Settled(s', n) && (s.F() == s.B() ==> s'.F() == s'.B())
  {
    hide Recorded;
  }

  lemma RangeIsIteratorsInv(s: State)
    requires Inv(s)
    ensures IsIterator(s, s.first) && IsIterator(s, s.second) && s.qid <= s.limit
    ensures s.second == s.limit + 1 || (s.second <= s.limit && s.second in s.queries)
  {
    hide Recorded;
  }

  lemma BatchIsWaiting(s: State)
    requires CanIssue(s)
    requires s.second == s.limit + 1 || (s.second <= s.limit && s.second in s.queries)
    ensures forall k :: s.F() <= k < s.qid + 1 ==> k in s.queries
    ensures BatchFrom(s.queries, s.limit, s.second) == Texts(s.queries, s.F(), s.qid + 1)
    ensures |Texts(s.queries, s.F(), s.qid + 1)| == s.Waiting() == s.numWaiting > 0
  {
    hide Recorded;
    BatchIsTexts(s, s.second);
    TextsAt(s.queries, s.F(), s.qid + 1);
  }

  lemma IssuedStep(s: State, dummy: bool, replies: seq<Answer>, history: seq<Event>)
    requires CanIssue(s) && !s.lost && dummy == (s.Waiting() > 1) && replies != []
    requires forall k :: s.F() <= k < s.qid + 1 ==> k in s.queries
    requires var texts := Texts(s.queries, s.F(), s.qid + 1);
             var answers := Run(s.db, s.history, texts);
             || (&& replies == (if dummy then [DummyAnswer] else []) + answers
                 && history == After(s.history, texts, |answers|))
             || (dummy && |replies| == 1 && !replies[0].ok && replies[0].rows == 0
                 && s.history <= history && (replies[0].broken || SomeFails(s.db, history, texts)))
    ensures var s' := Issued(s, dummy, replies, history);
            Step(s, s') && s'.F() == s.F() < s'.B() == s.qid + 1
  {
    hide Inv, Texts, Run;
    IssuedKeeps(s, dummy, replies, history);
  }

  lemma IssuedSame(
    s: State, dummy: bool, active: bool, replies: seq<Answer>, history: seq<Event>, trouble: bool)
    requires replies != [] && trouble == (s.trouble || (dummy && Broken(replies)))
    ensures var t := s.(active := active, replies := replies, history := history, trouble := trouble);
            && t.Waiting() == s.Waiting()
            && Issued(t, dummy, replies, history).(active := true) == Issued(s, dummy, replies, history)
  {
  }

  lemma IssueInv(s: State)
    requires CanIssue(s)
    ensures Inv(s) && s.F() == s.B()
  {
    hide Inv;
  }

  /** Inserting keeps the invariant; s0 is where the call started. */
  lemma InsertedStep(s0: State, s: State, q: string)
    requires Inv(s) && Grows(s0, s) && SameIds(s0, s) && s.registered && s.qid < s.limit
    ensures var s' := Inserted(s, q);
            && Inv(s') && Grows(s0, s') && s'.numWaiting >= 1 && s'.qid == s0.qid + 1 && s'.limit == s0.limit
            && s'.texts == s0.texts[s'.qid := q] && s'.qid in s'.queries
  {
    InsertedKeeps(s, q);
    var s' := Inserted(s, q);
    assert s.qid + 1 !in s.texts;
    assert Grows(s, s');
    GrowsTrans(s0, s, s');
  }

  lemma StillThere(s: State, s': State, id: nat)
    requires SameIds(s, s') && id in s.queries
    ensures id in s'.queries
  {
    assert id in s.queries.Keys;
  }

  lemma AllThere(s: State, s': State)
    requires SameIds(s, s')
    ensures forall k :: k in s.queries ==> k in s'.queries
  {
    assert forall k :: k in s.queries ==> k in s.queries.Keys;
  }

  lemma DetachedStep(s0: State, s: State)
    requires Step(s0, s) && s.F() == s.B()
    requires s.error < s.limit || s.Waiting() == 0 || (s.qid == s.limit && s.Waiting() == 1)
    ensures Step(s0, Detached(s)) && Detached(s).F() == Detached(s).B() == s.F()
  {
    hide Inv;
    DetachedKeeps(s);
  }

  lemma StepIds(s: State, s': State)
    requires Step(s, s')
    ensures SameIds(s, s') && s'.limit == s.limit && s'.error <= s.error
  {
    hide Inv;
  }

  lemma StepParts(s: State, s': State)
    requires Step(s, s')
    ensures Inv(s') && Grows(s, s') && s'.qid == s.qid && s'.texts == s.texts
  {
    hide Inv, Grows;
  }

  lemma FlushedStep(s0: State, s: State)
    requires Step(s0, s) && s.F() == s.B()
    ensures var s' := Flushed(s);
            Inv(s') && Grows(s0, s') && s'.qid == s0.qid && s'.texts == s0.texts && s'.F() == s'.B() == s'.qid + 1
  {
    hide Recorded;
    FlushedKeeps(s);
    assert Grows(s, Flushed(s));
    GrowsTrans(s0, s, Flushed(s));
  }

  lemma FlushedEmpty(s: State)
    requires Inv(s) && s.queries == map[]
    ensures s.F() == s.B() == s.qid + 1 && s.numWaiting == 0
  {
    hide Recorded;
    assert s.F() <= s.qid ==> s.qid in s.queries;
  }

  lemma DetachedFlush(s0: State, s: State)
    requires Inv(s) && Grows(s0, s) && s.F() == s.B() == s.qid + 1
    ensures Inv(Detached(s)) && Grows(s0, Detached(s))
  {
    hide Inv;
    DetachedKeeps(s);
  }

  // ---- Retrieving a query -----------------------------------------------

  /** Query q waits, and nothing has failed: there is something to send. */
  lemma StillWaiting(s0: State, s: State, q: nat)
    requires Inv(s) && SameIds(s0, s) && q in s0.queries && s.B() <= q < s.limit && s.error == s.limit && s.F() == s.B()
    ensures s.numWaiting > 0
  {
    hide Recorded;
    assert q in s.queries.Keys;
  }

  /** Query q is among those that were sent. */
  lemma InRange(s: State, q: nat)
    requires Inv(s) && q in s.queries && s.F() <= q < s.B()
    ensures q <= s.limit
    ensures var suc := Next(s.queries, s.limit, q);
            IsIterator(s, suc) && s.Norm(suc) == q + 1 && s.F() < s.Norm(suc) <= s.B()
  {
    hide Recorded;
    NextIsSuccessor(s, q);
  }

  /** Where query q stands when it is behind an iterator. */
  lemma CompareId(s: State, q: nat)
    requires Inv(s) && q in s.queries
    ensures q <= s.qid <= s.limit
    ensures s.second != s.limit + 1 && q >= s.second <==> q >= s.B()
    ensures s.first != s.second ==> (q >= s.first <==> q >= s.F())
  {
    hide Recorded;
  }

  /** A query below the mark, of which it is settled whether it was answered, has
      its result. */
  lemma ResultIn(s: State, q: nat)
    requires Inv(s) && q in s.queries && q < s.error
    requires Settled(s, q + 1) || q < s.F() || (s.F() == s.B() && q < s.B())
    ensures q < s.F() && q in s.outcome && s.queries[q].res == Some(s.outcome[q])
    ensures Explained(s, q, s.outcome[q])
  {
    hide Conversing, Explained;
  }

  lemma AnswerExplains(s: State, q: nat, a: Answer)
    requires Answered(s, q, a)
    ensures Explained(s, q, a)
  {
  }

  /** A good result is always the server's own answer. */
  lemma GoodIsAnswered(s: State, q: nat, a: Answer)
    requires Explained(s, q, a) && a.ok
    ensures Answered(s, q, a)
  {
  }

  lemma ErasedStep(s0: State, s: State, q: nat)
    requires Step(s0, s) && q < s.F()
    ensures var s' := Erased(s, q);
            Inv(s') && Grows(s0, s') && q !in s'.queries && s'.qid == s0.qid && s'.texts == s0.texts
  {
    ErasedKeeps(s, q);
    hide Inv;
    assert Grows(s, Erased(s, q));
    GrowsTrans(s0, s, Erased(s, q));
  }

  lemma PendingIsClean(s: State)
    requires Inv(s) && s.F() < s.B()
    ensures s.error == s.limit
  {
    hide Recorded;
  }

  lemma BelowMark(s0: State, s: State, q: nat)
    requires Step(s0, s) && Inv(s0) && q in s0.queries && q < s.error
    requires Settled(s, q + 1) || q < s0.F() || (s0.F() == s0.B() && (q < s0.B() || s0.error < s0.limit))
    ensures q < s.F()
  {
    hide Recorded, Conversing;
    assert q in s.queries.Keys;
  }

  lemma ExplainedErased(s: State, q: nat)
    ensures forall a :: Explained(s, q, a) ==> Explained(Erased(s, q), q, a)
    ensures Erased(s, q).outcome == s.outcome && Erased(s, q).queries == s.queries - {q}
  {
  }

  lemma {:induction false} NothingSkipped(queries: QueryMap, limit: nat, i: nat)
    requires i <= limit
    ensures forall k :: k in queries && k > i ==> k >= Next(queries, limit, i)
    decreases limit - i
  {
    if i < limit && i + 1 !in queries {
      NothingSkipped(queries, limit, i + 1);
    }
  }

  lemma OldestIsLeast(s: State)
    requires Inv(s) && s.queries != map[]
    ensures var q := Next(s.queries, s.limit, 0);
            q in s.queries && forall k :: k in s.queries ==> q <= k
  {
    hide Recorded;
    NothingSkipped(s.queries, s.limit, 0);
    var k :| k in s.queries;
  }
}
