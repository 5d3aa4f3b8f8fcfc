/** Whole runs of a pipeline: every sequence of calls, against every database and
    every timing of the server. */
module PipelineRuns {
  import opened Wrappers
  import opened Backend
  import opened PipelineState
  import opened Pipeline

  datatype Op =
    | Insert(text: string)
    | Retain(max: int)
    | Resume
    | Complete
    | Flush
    | Retrieve(id: nat)
    | RetrieveOldest

  /** What a call reported: the id of a new query; the result of a query, good or
      bad, which has then left the pipeline; or neither. */
  datatype Report = Accepted(id: nat) | Delivered(id: nat, answer: Answer) | Failed(id: nat, answer: Answer) | Nothing

  /** Query q leaves the pipeline with this report. */
  predicate Leaves(report: Report, q: nat) {
    (report.Delivered? || report.Failed?) && report.id == q
  }

  /** The text of query q is the text with which it was inserted. */
  ghost predicate InsertedAs(ops: seq<Op>, trace: seq<Report>, j: nat, q: nat, text: string) {
    j < |ops| && j < |trace| && ops[j] == Insert(text) && trace[j] == Accepted(q)
  }

  /** Every text that the pipeline has on record was inserted as such. */
  ghost predicate TextsExplained(s: State, ops: seq<Op>, trace: seq<Report>) {
    forall q :: q in s.texts ==> exists j :: InsertedAs(ops, trace, j, q, s.texts[q])
  }

  /** A query's result has been reported, it is accounted for, and the query has left
      the pipeline. */
  ghost predicate ReportTrue(s: State, report: Report) {
    report.Delivered? || report.Failed? ==>
      && report.id <= s.qid && report.id !in s.queries
      && report.answer.ok == report.Delivered? && Explained(s, report.id, report.answer)
  }

  ghost predicate ReportsTrue(s: State, trace: seq<Report>) {
    forall i :: 0 <= i < |trace| ==> ReportTrue(s, trace[i])
  }

  ghost predicate ReportedOnce(trace: seq<Report>) {
    forall i, j :: 0 <= i < j < |trace| && (trace[i].Delivered? || trace[i].Failed?) ==> !Leaves(trace[j], trace[i].id)
  }

  /** Query q was inserted at step j, and before step n neither its result has been
      reported nor has the pipeline been flushed. */
  ghost predicate Open(ops: seq<Op>, trace: seq<Report>, j: nat, n: nat, q: nat)
    requires n <= |trace| <= |ops|
  {
    j < n && trace[j] == Accepted(q) && forall k :: j < k < n ==> !ops[k].Flush? && !Leaves(trace[k], q)
  }

  /** Open queries are in the pipeline. */
  ghost predicate OpenKept(s: State, ops: seq<Op>, trace: seq<Report>)
    requires |trace| <= |ops|
  {
    forall j: nat, q: nat :: Open(ops, trace, j, |trace|, q) ==> q in s.queries
  }

  /** Whoever asked for an open query has got its result, good or bad, unless the
      query lies behind the error mark. */
  ghost predicate OpenServed(mark: nat, ops: seq<Op>, trace: seq<Report>)
    requires |trace| <= |ops|
  {
    forall i: nat, j: nat, q: nat :: i < |trace| && ops[i] == Retrieve(q) && Open(ops, trace, j, i, q) ==>
      Leaves(trace[i], q) || q >= mark
  }

  lemma ReportsStay(s: State, s': State, trace: seq<Report>)
    requires ReportsTrue(s, trace) && Grows(s, s')
    ensures ReportsTrue(s', trace)
  {
    hide Explained;
    forall i | 0 <= i < |trace|
      ensures ReportTrue(s', trace[i])
    {
      if trace[i].Delivered? || trace[i].Failed? {
        ExplainedStable(s, s', trace[i].id, trace[i].answer);
      }
    }
  }

  lemma TextsStay(s: State, s': State, ops: seq<Op>, trace: seq<Report>, report: Report)
    requires TextsExplained(s, ops, trace) && s'.texts == s.texts
    ensures TextsExplained(s', ops, trace + [report])
  {
    forall q | q in s'.texts
      ensures exists j :: InsertedAs(ops, trace + [report], j, q, s'.texts[q])
    {
      var j :| InsertedAs(ops, trace, j, q, s.texts[q]);
      assert InsertedAs(ops, trace + [report], j, q, s.texts[q]);
    }
  }

  lemma TextsInsert(s: State, s': State, ops: seq<Op>, trace: seq<Report>, id: nat, text: string)
    requires TextsExplained(s, ops, trace) && s'.texts == s.texts[id := text]
    requires |trace| < |ops| && ops[|trace|] == Insert(text)
    ensures TextsExplained(s', ops, trace + [Accepted(id)])
  {
    var trace' := trace + [Accepted(id)];
    forall q | q in s'.texts
      ensures exists j :: InsertedAs(ops, trace', j, q, s'.texts[q])
    {
      if q == id {
        assert InsertedAs(ops, trace', |trace|, q, text);
      } else {
        var j :| InsertedAs(ops, trace, j, q, s.texts[q]);
        assert InsertedAs(ops, trace', j, q, s.texts[q]);
      }
    }
  }

  /** One call, however it ends. */
  method Call(p: Pipeline, op: Op) returns (report: Report)
    requires p.Valid() && p.retain >= 0
    modifies p, p.session
    ensures p.Valid() && p.retain >= 0 && Grows(old(p.S()), p.S())
    ensures report.Accepted? ==>
              op.Insert? && p.texts == old(p.texts)[report.id := op.text] && report.id in p.queries
    ensures !report.Accepted? ==> p.texts == old(p.texts)
    ensures report.Delivered? || report.Failed? ==>
              && report.id in old(p.queries) && report.id !in p.queries
              && report.answer.ok == report.Delivered? && Explained(p.S(), report.id, report.answer)
    ensures forall k :: k in old(p.queries) && !op.Flush? && !Leaves(report, k) ==> k in p.queries
    ensures op.Retrieve? && op.id in old(p.queries) && !p.session.Trouble() ==>
              Leaves(report, op.id) || op.id >= p.error
  {
    hide Inv, Grows, Explained, Answered, Pipeline.S;
    report := Nothing;
    var before := p.queries;
    ghost var s := p.S();
    p.Fields();
    match op
    case Insert(text) =>
      var o, id := p.Insert(text);
      if !(o.Throw? && o.error in {UsageError, OverflowError}) {
        report := Accepted(id);
      }
    case Retain(max) =>
      var _, _ := p.Retain(max);
      AllThere(s, p.S());
      p.Fields();
    case Resume =>
      var _ := p.Resume();
      AllThere(s, p.S());
      p.Fields();
    case Complete =>
      var _ := p.Complete();
      AllThere(s, p.S());
      p.Fields();
    case Flush =>
      var _ := p.Flush();
    case Retrieve(id) =>
      var o, a := p.Retrieve(id);
      if o.Pass? {
        AnswerExplains(p.S(), id, a);
        report := Delivered(id, a);
      } else if id in before && id !in p.queries {
        report := Failed(id, a);
      }
    case RetrieveOldest =>
      var o, id, a := p.RetrieveOldest();
      if o.Pass? {
        AnswerExplains(p.S(), id, a);
        report := Delivered(id, a);
      } else if id in before && id !in p.queries {
        report := Failed(id, a);
      }
  }

  /** Flushing does not make a failed pipeline usable again: a query that is inserted
      afterwards never delivers a result. */
  method RetryAfterFlush(p: Pipeline, text: string) returns (o: Outcome<Exn>)
    requires p.Valid() && p.retain >= 0 && p.error < p.limit
    modifies p, p.session
    ensures p.Valid() && o.Throw?
    ensures p.error <= old(p.error)
  {
    hide Inv, Answered;
    ghost var s := p.S();
    o := p.Flush();
    var id;
    o, id := p.Insert(text);
    if o.Pass? {
      MarkIsForGood(s, p.S(), id);
      var a;
      o, a := p.Retrieve(id);
    }
  }

  lemma ReportsNext(s: State, s': State, trace: seq<Report>, report: Report)
    requires Inv(s) && ReportsTrue(s, trace) && ReportedOnce(trace) && Grows(s, s')
    requires report.Delivered? || report.Failed? ==>
               && report.id in s.queries && report.id !in s'.queries
               && report.answer.ok == report.Delivered? && Explained(s', report.id, report.answer)
    ensures ReportsTrue(s', trace + [report]) && ReportedOnce(trace + [report])
  {
    hide Explained, Recorded, Conversing;
    ReportsStay(s, s', trace);
    forall i | 0 <= i < |trace| && (trace[i].Delivered? || trace[i].Failed?)
      ensures !Leaves(report, trace[i].id)
    {
      assert ReportTrue(s, trace[i]);
    }
  }

  /** What comes later does not change whether a query was open. */
  lemma OpenBefore(ops: seq<Op>, trace: seq<Report>, report: Report, j: nat, n: nat, q: nat)
    requires n <= |trace| < |ops|
    ensures Open(ops, trace + [report], j, n, q) <==> Open(ops, trace, j, n, q)
  {
    var trace' := trace + [report];
    assert forall k :: 0 <= k < n ==> trace'[k] == trace[k];
  }

  lemma OpenNext(s: State, s': State, ops: seq<Op>, trace: seq<Report>, report: Report)
    requires |trace| < |ops| && OpenKept(s, ops, trace)
    requires report.Accepted? ==> report.id in s'.queries
    requires forall k :: k in s.queries && !ops[|trace|].Flush? && !Leaves(report, k) ==> k in s'.queries
    ensures OpenKept(s', ops, trace + [report])
  {
    var n, trace' := |trace|, trace + [report];
    forall j: nat, q: nat | Open(ops, trace', j, |trace'|, q)
      ensures q in s'.queries
    {
      if j < n {
        assert !ops[n].Flush? && !Leaves(trace'[n], q);
        assert Open(ops, trace', j, n, q);
        OpenBefore(ops, trace, report, j, n, q);
      }
    }
  }

  lemma ServedNext(s: State, mark: nat, mark': nat, ops: seq<Op>, trace: seq<Report>, report: Report)
    requires |trace| < |ops| && OpenKept(s, ops, trace) && OpenServed(mark, ops, trace) && mark' <= mark
    requires ops[|trace|].Retrieve? && ops[|trace|].id in s.queries ==>
               Leaves(report, ops[|trace|].id) || ops[|trace|].id >= mark'
    ensures OpenServed(mark', ops, trace + [report])
  {
    var trace' := trace + [report];
    forall i: nat, j: nat, q: nat | i < |trace'| && ops[i] == Retrieve(q) && Open(ops, trace', j, i, q)
      ensures Leaves(trace'[i], q) || q >= mark'
    {
      OpenBefore(ops, trace, report, j, i, q);
    }
  }

  /** The text with which query q was inserted was executed, and it failed. */
  ghost predicate ReallyFailed(db: Database, history: seq<Event>, ops: seq<Op>, trace: seq<Report>, q: nat) {
    exists j, text, i :: InsertedAs(ops, trace, j, q, text) && FailsAt(db, history, text, i)
  }

  /** Every run: whatever calls are made in whatever order, every result that is
      delivered is what the database answered to the text of that very query, no
      query's result is reported twice, and queries were executed in the order of
      their ids.  And as long as there is no trouble with the link, every query that
      is asked for is delivered; or it has really failed, and the caller is told; or
      it comes after one that has really failed, the one just below the mark. */
  method Run(db: Database, limit: nat, ops: seq<Op>)
    returns (trace: seq<Report>, history: seq<Event>, mark: nat, ghost place: map<nat, nat>, ghost trouble: bool)
    requires limit >= 1
    ensures |trace| == |ops|
    ensures ReportedOnce(trace)
    ensures forall i :: 0 <= i < |trace| && trace[i].Delivered? ==>
              var q := trace[i].id;
              && trace[i].answer.ok
              && q in place && place[q] < |history|
              && trace[i].answer == db(history[..place[q] + 1])
              && exists j, text :: InsertedAs(ops, trace, j, q, text) && history[place[q]] == Executed(text)
    ensures forall p, q :: p in place && q in place && p < q ==> place[p] < place[q]
    ensures !trouble ==> OpenServed(mark, ops, trace)
    ensures !trouble ==> forall i :: 0 <= i < |trace| && trace[i].Failed? ==>
              !trace[i].answer.ok && ReallyFailed(db, history, ops, trace, trace[i].id)
    ensures !trouble && mark < limit ==> mark >= 1 && ReallyFailed(db, history, ops, trace, mark - 1)
  {
    hide Inv, Grows, Explained, Answered, Pipeline.S;
    var session := new Session(db);
    var p := new Pipeline(session, limit);
    trace := [];
    p.Fields();
    for i := 0 to |ops|
      invariant fresh(p) && fresh(p.session) && p.session.db == db && p.limit == limit
      invariant p.Valid() && p.retain >= 0 && |trace| == i
      invariant TextsExplained(p.S(), ops, trace)
      invariant ReportsTrue(p.S(), trace) && ReportedOnce(trace)
      invariant OpenKept(p.S(), ops, trace)
      invariant !p.session.Trouble() ==> OpenServed(p.error, ops, trace)
    {
      ghost var s := p.S();
      p.Fields();
      var report := Call(p, ops[i]);
      p.Fields();
      ReportsNext(s, p.S(), trace, report);
      OpenNext(s, p.S(), ops, trace, report);
      if !p.session.Trouble() {
        Forward(s, p.S());
        ServedNext(s, s.error, p.error, ops, trace, report);
      }
      if report.Accepted? {
        TextsInsert(s, p.S(), ops, trace, report.id, ops[i].text);
      } else {
        TextsStay(s, p.S(), ops, trace, report);
      }
      trace := trace + [report];
    }
    history, place, mark, trouble := p.session.history, p.place, p.error, p.session.Trouble();
    p.Fields();
    RunEnds(p.S(), ops, trace);
    RunFailures(p.S(), ops, trace);
  }

  lemma Forward(s: State, s': State)
    requires Grows(s, s')
    ensures s'.error <= s.error && (s.trouble ==> s'.trouble)
  {
  }

  lemma RunEnds(s: State, ops: seq<Op>, trace: seq<Report>)
    requires Inv(s) && TextsExplained(s, ops, trace) && ReportsTrue(s, trace)
    ensures forall i :: 0 <= i < |trace| && trace[i].Delivered? ==>
              var q := trace[i].id;
              && trace[i].answer.ok
              && q in s.place && s.place[q] < |s.history|
              && trace[i].answer == s.db(s.history[..s.place[q] + 1])
              && exists j, text :: InsertedAs(ops, trace, j, q, text) && s.history[s.place[q]] == Executed(text)
    ensures forall p, q :: p in s.place && q in s.place && p < q ==> s.place[p] < s.place[q]
  {
    hide Conversing, Held, Truthful, Explained;
    forall i | 0 <= i < |trace| && trace[i].Delivered?
      ensures var q := trace[i].id;
              && trace[i].answer.ok && Answered(s, q, trace[i].answer)
              && exists j, text :: InsertedAs(ops, trace, j, q, text) && s.history[s.place[q]] == Executed(text)
    {
      var q := trace[i].id;
      assert ReportTrue(s, trace[i]);
      GoodIsAnswered(s, q, trace[i].answer);
      var j :| InsertedAs(ops, trace, j, q, s.texts[q]);
    }
  }

  /** A bad result that is accounted for, without trouble with the link. */
  lemma BadIsReal(s: State, ops: seq<Op>, trace: seq<Report>, q: nat, a: Answer)
    requires TextsExplained(s, ops, trace) && Explained(s, q, a) && !a.ok && !s.trouble
    ensures ReallyFailed(s.db, s.history, ops, trace, q)
  {
    var i := if Answered(s, q, a) then s.place[q] else var i :| FailsAt(s.db, s.history, s.texts[q], i); i;
    var j :| InsertedAs(ops, trace, j, q, s.texts[q]);
    assert FailsAt(s.db, s.history, s.texts[q], i);
  }

  lemma RunFailures(s: State, ops: seq<Op>, trace: seq<Report>)
    requires Inv(s) && TextsExplained(s, ops, trace) && ReportsTrue(s, trace)
    ensures !s.trouble ==> forall i :: 0 <= i < |trace| && trace[i].Failed? ==>
              !trace[i].answer.ok && ReallyFailed(s.db, s.history, ops, trace, trace[i].id)
    ensures !s.trouble && s.error < s.limit ==>
              s.error >= 1 && ReallyFailed(s.db, s.history, ops, trace, s.error - 1)
  {
    hide Conversing, Held, Explained, ReallyFailed;
    if !s.trouble {
      forall i | 0 <= i < |trace| && trace[i].Failed?
        ensures !trace[i].answer.ok && ReallyFailed(s.db, s.history, ops, trace, trace[i].id)
      {
        assert ReportTrue(s, trace[i]);
        BadIsReal(s, ops, trace, trace[i].id, trace[i].answer);
      }
      if s.error < s.limit {
        MarkHasCause(s);
        BadIsReal(s, ops, trace, s.error - 1, s.outcome[s.error - 1]);
      }
    }
  }
}
