/** What callers get back under any interleaving: the outcomes of the `Run` events of a trace. */
module SheetOutcomes {
  import opened Wrappers
  import opened SheetDoc
  import opened SheetWorld
  import opened SheetLaws

  predicate RunsOn(tr: seq<Event>, j: nat, s: nat)
    requires j < |tr|
  {
    tr[j].Run? && tr[j].s == s
  }

  /** The operation that event j serves: the head of its sheet's queue. */
  ghost function Served(w: World, tr: seq<Event>, j: nat): Op
    requires j < |tr| && tr[j].Run? && Possible(w, tr)
  {
    QueueOf(After(w, tr[..j]), tr[j].s)[0]
  }

  /** How the caller's promise settles when event j of the trace serves the operation. */
  ghost function RunOutcome(w: World, tr: seq<Event>, j: nat): Outcome
    requires j < |tr| && tr[j].Run? && Possible(w, tr)
  {
    Execute(DocOf(After(w, tr[..j]), tr[j].s), Served(w, tr, j), tr[j].fail, tr[j].limits).1
  }

  lemma PossiblePrefix(w: World, tr: seq<Event>, n: nat)
    requires Possible(w, tr) && n <= |tr|
    ensures Possible(w, tr[..n])
  {
    forall k | 0 <= k < n ensures Enabled(After(w, tr[..n][..k]), tr[..n][k]) {
      assert tr[..n][..k] == tr[..k];
    }
  }

  lemma OutcomeInPrefix(w: World, tr: seq<Event>, n: nat, j: nat)
    requires Possible(w, tr) && j < n <= |tr| && tr[j].Run?
    ensures Possible(w, tr[..n]) && RunOutcome(w, tr[..n], j) == RunOutcome(w, tr, j)
    ensures Served(w, tr[..n], j) == Served(w, tr, j)
  {
    PossiblePrefix(w, tr, n);
    assert tr[..n][..j] == tr[..j];
  }

  /** The accepted runs on sheet s among the first n events. */
  ghost function Accepted(w: World, tr: seq<Event>, s: nat, n: nat): nat
    requires Possible(w, tr) && n <= |tr|
  {
    if n == 0 then 0
    else Accepted(w, tr, s, n - 1) + (if RunsOn(tr, n - 1, s) && RunOutcome(w, tr, n - 1).Accepted? then 1 else 0)
  }

  /** Event j runs an operation of unknown kind on the sheet while it is writable. */
  ghost predicate RunBreaksOff(w: World, tr: seq<Event>, j: nat)
    requires j < |tr| && tr[j].Run? && Possible(w, tr)
  {
    BreaksOff(DocOf(After(w, tr[..j]), tr[j].s), Served(w, tr, j), tr[j].fail)
  }

  /** The runs on sheet s, among the first n events, that raise its revision and then fail. */
  ghost function Broken(w: World, tr: seq<Event>, s: nat, n: nat): nat
    requires Possible(w, tr) && n <= |tr|
  {
    if n == 0 then 0
    else Broken(w, tr, s, n - 1) +
         (if RunsOn(tr, n - 1, s) && RunBreaksOff(w, tr, n - 1) then 1 else 0)
  }

  ghost predicate NoRunBreaksOff(w: World, tr: seq<Event>, s: nat, n: nat)
    requires Possible(w, tr) && n <= |tr|
  {
    forall k :: 0 <= k < n && RunsOn(tr, k, s) ==> !RunBreaksOff(w, tr, k)
  }

  lemma {:induction false} NoneBroken(w: World, tr: seq<Event>, s: nat, n: nat)
    requires Possible(w, tr) && n <= |tr|
    ensures Broken(w, tr, s, n) == 0 <==> NoRunBreaksOff(w, tr, s, n)
  {
    hide RunBreaksOff;
    if n > 0 {
      NoneBroken(w, tr, s, n - 1);
    }
  }

  /** The guard in front of the failing branch is exactly when the caller gets that failure. */
  lemma BrokenRunFails(w: World, tr: seq<Event>, j: nat)
    requires Possible(w, tr) && j < |tr| && tr[j].Run?
    ensures RunOutcome(w, tr, j) == Rejected(ApplyIsNotAFunction) <==> RunBreaksOff(w, tr, j)
  {
    hide Execute;
    ExecuteRevision(DocOf(After(w, tr[..j]), tr[j].s), Served(w, tr, j), tr[j].fail, tr[j].limits);
  }

  /** One event raises the revision of sheet s exactly when it is an accepted or a broken run on s. */
  lemma StepRevision(w: World, e: Event, s: nat)
    requires Enabled(w, e) && s in w.docs && s < w.nextSheetId
    ensures s in Step(w, e).docs && s < Step(w, e).nextSheetId
    ensures
      var here, d := e.Run? && e.s == s, DocOf(w, s);
      Step(w, e).docs[s].revision ==
      w.docs[s].revision
      + (if here && Execute(d, QueueOf(w, s)[0], e.fail, e.limits).1.Accepted? then 1 else 0)
      + (if here && BreaksOff(d, QueueOf(w, s)[0], e.fail) then 1 else 0)
  {
    hide Execute, DefDoc;
    if e.Run? && e.s == s {
      ExecuteRevision(DocOf(w, s), QueueOf(w, s)[0], e.fail, e.limits);
    }
  }

  /** At every point of every interleaving the revision counts the sheet's accepted and broken runs so far. */
  lemma {:induction false} RevisionInTrace(w: World, tr: seq<Event>, s: nat, n: nat)
    requires Possible(w, tr) && WorldValid(w) && s in w.docs && n <= |tr|
    ensures
      var now := After(w, tr[..n]);
      && s in now.docs && s < now.nextSheetId
      && now.docs[s].revision == w.docs[s].revision + Accepted(w, tr, s, n) + Broken(w, tr, s, n)
  {
    hide Execute, Step;
    if n == 0 {
      assert tr[..0] == [];
    } else {
      RevisionInTrace(w, tr, s, n - 1);
      assert tr[..n][..n - 1] == tr[..n - 1];
      assert Enabled(After(w, tr[..n - 1]), tr[n - 1]);
      StepRevision(After(w, tr[..n - 1]), tr[n - 1], s);
    }
  }

  /**
   The revision an accepted operation returns, under any interleaving over any number of sheets: one more
   than the starting revision, the runs of this sheet accepted before it, and the broken ones. So the returned
   revisions are consecutive exactly as long as no unknown operation is run on the writable sheet.
   */
  lemma AcceptedRevisionInTrace(w: World, tr: seq<Event>, s: nat, j: nat)
    requires Possible(w, tr) && WorldValid(w) && s in w.docs
    requires j < |tr| && RunsOn(tr, j, s) && RunOutcome(w, tr, j).Accepted?
    ensures RunOutcome(w, tr, j).revision == w.docs[s].revision + Accepted(w, tr, s, j) + Broken(w, tr, s, j) + 1
    ensures RunOutcome(w, tr, j).revision == w.docs[s].revision + Accepted(w, tr, s, j) + 1
            <==> NoRunBreaksOff(w, tr, s, j)
  {
    hide Execute, RunBreaksOff;
    RevisionInTrace(w, tr, s, j);
    NoneBroken(w, tr, s, j);
    ExecuteRevision(DocOf(After(w, tr[..j]), s), Served(w, tr, j), tr[j].fail, tr[j].limits);
  }

  // ----- The usual case: only known operations are called

  ghost predicate AllKnown(ops: seq<Op>) {
    forall i :: 0 <= i < |ops| ==> !ops[i].Unknown?
  }

  lemma {:induction false} QueueKnown(w: World, tr: seq<Event>, s: nat)
    requires AllKnown(QueueOf(w, s))
    requires forall k :: 0 <= k < |tr| && tr[k].Call? && tr[k].s == s ==> !tr[k].op.Unknown?
    ensures AllKnown(QueueOf(After(w, tr), s))
  {
    if tr != [] {
      QueueKnown(w, tr[..|tr| - 1], s);
    }
  }

  lemma NothingBroken(w: World, tr: seq<Event>, s: nat, n: nat)
    requires Possible(w, tr) && n <= |tr| && AllKnown(QueueOf(w, s))
    requires forall k :: 0 <= k < |tr| && tr[k].Call? && tr[k].s == s ==> !tr[k].op.Unknown?
    ensures NoRunBreaksOff(w, tr, s, n)
  {
    forall k | 0 <= k < n && RunsOn(tr, k, s) ensures !RunBreaksOff(w, tr, k) {
      QueueKnown(w, tr[..k], s);
    }
  }

  /** Consecutive revisions under any interleaving, when only operations of the four kinds are called on the sheet. */
  lemma AcceptedRunsAreConsecutive(w: World, tr: seq<Event>, s: nat, j: nat)
    requires Possible(w, tr) && WorldValid(w) && s in w.docs && AllKnown(QueueOf(w, s))
    requires forall k :: 0 <= k < |tr| && tr[k].Call? && tr[k].s == s ==> !tr[k].op.Unknown?
    requires j < |tr| && RunsOn(tr, j, s) && RunOutcome(w, tr, j).Accepted?
    ensures RunOutcome(w, tr, j).revision == w.docs[s].revision + Accepted(w, tr, s, j) + 1
  {
    NothingBroken(w, tr, s, j);
    AcceptedRevisionInTrace(w, tr, s, j);
  }

  // ----- The outcome in the sheet's own log

  /** The sheet's own log of a trace, as `Serializable` has it. */
  ghost function LogOf(w: World, tr: seq<Event>, s: nat): seq<Entry>
    requires Possible(w, tr)
  {
    Serializable(w, tr, s);
    Scheduled(QueueOf(w, s) + Calls(tr, s), Marks(tr, s, w.nextSheetId))
  }

  lemma LogIs(w: World, tr: seq<Event>, s: nat)
    requires Possible(w, tr)
    ensures
      var calls, marks := QueueOf(w, s) + Calls(tr, s), Marks(tr, s, w.nextSheetId);
      && Turns(marks) <= |calls| && QueueOf(After(w, tr), s) == calls[Turns(marks)..]
      && LogOf(w, tr, s) == Scheduled(calls, marks)
  {
    hide Replay, Scheduled, Calls, Marks, Turns, After, Possible;
    Serializable(w, tr, s);
  }

  /** One more call or one more mark only adds to what is scheduled. */
  lemma ScheduledExtends(calls: seq<Op>, more: seq<Op>, marks: seq<Mark>, mark: seq<Mark>)
    requires Turns(marks) <= |calls| && Turns(marks + mark) <= |calls + more| && |mark| <= 1
    ensures Scheduled(calls, marks) <= Scheduled(calls + more, marks + mark)
  {
    ScheduledPrefix(calls, more, marks);
    if mark == [] {
      assert marks + mark == marks;
    } else {
      assert (marks + mark)[..|marks|] == marks;
    }
  }

  /**
   The outcome a run has in the interleaving is the outcome of the sheet's own log at that place: the last
   entry of the log of the trace up to and including the run.
   */
  lemma RunOutcomeIsOutcomeAt(w: World, tr: seq<Event>, s: nat)
    requires Possible(w, tr) && tr != [] && RunsOn(tr, |tr| - 1, s)
    ensures
      var log, n := LogOf(w, tr, s), |LogOf(w, tr, s)| - 1;
      && log != [] && log[n].Ran? && log[n].op == Served(w, tr, |tr| - 1)
      && OutcomeAt(s, DocOf(w, s), log, n) == RunOutcome(w, tr, |tr| - 1)
  {
    hide Execute, Replay, LogOf, Scheduled, Calls, Marks, Turns, After, Possible, Creates, Step;
    var init, e := tr[..|tr| - 1], tr[|tr| - 1];
    PossibleInit(w, tr);
    LogIs(w, init, s);
    LogIs(w, tr, s);
    Serializable(w, init, s);
    SeenOnceMore(w, tr, s);
    var calls, marks := QueueOf(w, s) + Calls(init, s), Marks(init, s, w.nextSheetId);
    assert calls + CallOf(e, s) == calls;
    TurnIsLast(calls, marks, e.fail, e.limits);
  }

  lemma TurnIsLast(calls: seq<Op>, marks: seq<Mark>, fail: bool, limits: Limits)
    requires Turns(marks + [Turn(fail, limits)]) <= |calls|
    ensures Turns(marks) < |calls|
    ensures
      var log := Scheduled(calls, marks + [Turn(fail, limits)]);
      && |log| == |Scheduled(calls, marks)| + 1 && log[..|log| - 1] == Scheduled(calls, marks)
      && log[|log| - 1] == Ran(calls[Turns(marks)], fail, limits)
  {
    assert (marks + [Turn(fail, limits)])[..|marks|] == marks;
  }

  /** The log of a longer trace extends the log of a shorter one: what a sheet has executed is never revised. */
  lemma {:induction false} LogGrows(w: World, tr: seq<Event>, s: nat, n: nat)
    requires Possible(w, tr) && n <= |tr|
    ensures Possible(w, tr[..n]) && LogOf(w, tr[..n], s) <= LogOf(w, tr, s)
    decreases |tr|
  {
    PossiblePrefix(w, tr, n);
    if n == |tr| {
      assert tr[..n] == tr;
    } else {
      var init := tr[..|tr| - 1];
      PossibleInit(w, tr);
      LogGrows(w, init, s, n);
      assert init[..n] == tr[..n];
      LogStep(w, tr, s);
    }
  }

  lemma LogStep(w: World, tr: seq<Event>, s: nat)
    requires Possible(w, tr) && tr != []
    ensures Possible(w, tr[..|tr| - 1]) && LogOf(w, tr[..|tr| - 1], s) <= LogOf(w, tr, s)
  {
    hide LogOf, Scheduled, Calls, Marks, Turns, After, Possible, Creates, Step, CallOf;
    var init, e := tr[..|tr| - 1], tr[|tr| - 1];
    PossibleInit(w, tr);
    LogIs(w, init, s);
    LogIs(w, tr, s);
    SeenOnceMore(w, tr, s);
    ScheduledExtends(QueueOf(w, s) + Calls(init, s), CallOf(e, s), Marks(init, s, w.nextSheetId),
                     MarkOf(e, s, w.nextSheetId + Creates(init)));
  }

  lemma {:induction false} ScheduledLength(calls: seq<Op>, marks: seq<Mark>)
    requires Turns(marks) <= |calls|
    ensures |Scheduled(calls, marks)| == |marks|
  {
    if marks != [] {
      ScheduledLength(calls, marks[..|marks| - 1]);
    }
  }

  lemma LogLength(w: World, tr: seq<Event>, s: nat)
    requires Possible(w, tr)
    ensures |LogOf(w, tr, s)| == |Marks(tr, s, w.nextSheetId)|
  {
    hide LogOf, Possible, Scheduled, Marks, Calls, Turns;
    LogIs(w, tr, s);
    ScheduledLength(QueueOf(w, s) + Calls(tr, s), Marks(tr, s, w.nextSheetId));
  }

  /** Every run of a trace has its place in the sheet's log, with the same operation and the same outcome. */
  lemma RunOutcomeInLog(w: World, tr: seq<Event>, s: nat, j: nat, n: nat)
    requires Possible(w, tr) && j < |tr| && RunsOn(tr, j, s) && n == |Marks(tr[..j], s, w.nextSheetId)|
    ensures n < |LogOf(w, tr, s)| && LogOf(w, tr, s)[n].Ran? && LogOf(w, tr, s)[n].op == Served(w, tr, j)
    ensures OutcomeAt(s, DocOf(w, s), LogOf(w, tr, s), n) == RunOutcome(w, tr, j)
  {
    hide LogOf, Served, RunOutcome, Execute, Possible, Marks, Replay;
    var prefix := tr[..j + 1];
    assert prefix[..j] == tr[..j];
    OutcomeInPrefix(w, tr, j + 1, j);
    LogGrows(w, tr, s, j + 1);
    RunOutcomeIsOutcomeAt(w, prefix, s);
    LogLength(w, prefix, s);
    SeenOnceMore(w, prefix, s);
    assert LogOf(w, tr, s)[..n + 1] == LogOf(w, prefix, s);
    OutcomePrefix(s, DocOf(w, s), LogOf(w, tr, s), n + 1, n);
  }
}
