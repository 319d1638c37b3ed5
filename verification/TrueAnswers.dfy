/** What a run of a body is told and what it records, stated on the data and on the reads it makes. */
module TrueAnswers {
  import opened Wrappers
  import opened Keys
  import opened Entries
  import opened ScanOptions
  import opened Diffs
  import opened ScanMatching
  import opened Transactions

  // ---------- the reads of a run ----------

  /** The keys that were asked for before the last of these answers. */
  function AskedKeys(body: Body, log: seq<Answer>): set<Key> {
    if log == [] then {} else
      var before := log[..|log| - 1];
      var action := body.next(before);
      AskedKeys(body, before) + if action.Get? || action.Has? then {action.key} else {}
  }

  /** The scans that were made, in order: those that were opened, and `None` for each question whether there is data. */
  function Scans(body: Body, log: seq<Answer>): seq<Option<Options>> {
    if log == [] then [] else
      var before := log[..|log| - 1];
      var action := body.next(before);
      Scans(body, before)
      + if action.OpenScan? then [Some(action.options)] else if action.IsEmpty? then [None] else []
  }

  /** How many of the first `j` scans were opened. */
  function Opens(scans: seq<Option<Options>>, j: nat): (n: nat)
    requires j <= |scans|
    ensures n <= j
  {
    if j == 0 then 0 else Opens(scans, j - 1) + if scans[j - 1].Some? then 1 else 0
  }

  function OpenedScans(body: Body, log: seq<Answer>): seq<Options> {
    if log == [] then [] else
      var before := log[..|log| - 1];
      var action := body.next(before);
      OpenedScans(body, before) + if action.OpenScan? then [action.options] else []
  }

  /** How often the `i`-th opened scan was asked for an entry. */
  function Asks(body: Body, log: seq<Answer>, i: nat): nat {
    if log == [] then 0 else
      var before := log[..|log| - 1];
      Asks(body, before, i)
      + if body.next(before) == Next(i) && i < |OpenedScans(body, before)| then 1 else 0
  }

  // ---------- true answers ----------

  /** The answer to a read agrees with the data; `log` lists the answers before it. */
  ghost predicate TrueAnswer(s: Store, body: Body, log: seq<Answer>, answer: Answer) {
    match body.next(log)
    case Get(k) => answer == Value(if k in s.primary then Some(s.primary[k]) else None)
    case Has(k) => answer == Flag(k in s.primary)
    case IsEmpty => answer == Flag(|s.primary| == 0)
    case OpenScan(_) => answer == Opened
    case Next(i) =>
      var opens := OpenedScans(body, log);
      if i < |opens| then EntryOrEnd(s, opens[i], Asks(body, log, i), answer) else answer == Done
    case _ => false
  }

  ghost predicate TrueLog(s: Store, body: Body, log: seq<Answer>) {
    log == [] ||
      var before := log[..|log| - 1];
      TrueLog(s, body, before) && |before| < body.bound && TrueAnswer(s, body, before, log[|log| - 1])
  }

  predicate Finished(body: Body, log: seq<Answer>) {
    body.next(log).Return? || body.next(log).Throw? || |log| >= body.bound
  }

  function OutcomeAfter(body: Body, log: seq<Answer>): Outcome {
    match body.next(log)
    case Return(result) => Returned(result)
    case Throw(error) => Threw(error)
    case _ => Threw(Null)
  }

  /** One record for each scan, in order: its options, and the limit key if it was asked beyond its last entry. */
  ghost predicate ScansRecorded(s: Store, body: Body, log: seq<Answer>, infos: seq<ScanInfo>) {
    var scans := Scans(body, log);
    && |infos| == |scans|
    && forall j :: 0 <= j < |scans| ==>
         infos[j] == match scans[j]
                     case None => ScanInfo(NO_OPTIONS, None)
                     case Some(options) =>
                       RecordedInfo(s, options, |StreamOf(s, options).entries| < Asks(body, log, Opens(scans, j)))
  }

  // ---------- the transaction follows the log ----------

  ghost predicate FollowsReads(body: Body, log: seq<Answer>, tx: Tx) {
    var opens := OpenedScans(body, log);
    && tx.keys == AskedKeys(body, log) && |tx.cursors| == |opens|
    && (forall i :: 0 <= i < |opens| ==>
          tx.cursors[i].options == opens[i] && tx.cursors[i].asked == Asks(body, log, i))
    && forall i: nat :: |opens| <= i ==> Asks(body, log, i) == 0
  }

  ghost predicate FollowsScans(scans: seq<Option<Options>>, tx: Tx) {
    && |tx.scans| == |scans| && Opens(scans, |scans|) == |tx.cursors|
    && (forall j :: 0 <= j < |scans| ==>
          if scans[j].None? then tx.scans[j] == ScanInfo(NO_OPTIONS, None)
          else Opens(scans, j) < |tx.cursors| && tx.cursors[Opens(scans, j)].info == j)
    && forall i :: 0 <= i < |tx.cursors| ==>
         var j := tx.cursors[i].info; j < |scans| && scans[j] == Some(tx.cursors[i].options) && Opens(scans, j) == i
  }

  lemma Longer(body: Body, log: seq<Answer>, answer: Answer)
    ensures (log + [answer])[..|log|] == log
  {
  }

  lemma ReadsFollow(s: Store, body: Body, log: seq<Answer>, tx: Tx, answer: Answer)
    requires WellRecorded(s, tx) && FollowsReads(body, log, tx)
    ensures FollowsReads(body, log + [answer], Record(s, tx, body.next(log)))
  {
    hide StreamOf, ToDbScanOptions;
    Longer(body, log, answer);
    var action, longer := body.next(log), log + [answer];
    assert OpenedScans(body, longer) == OpenedScans(body, log) + if action.OpenScan? then [action.options] else [];
    forall i: nat
      ensures Asks(body, longer, i)
        == Asks(body, log, i) + if action == Next(i) && i < |OpenedScans(body, log)| then 1 else 0
    {
    }
  }

  lemma {:induction false} OpensAppend(scans: seq<Option<Options>>, more: seq<Option<Options>>, j: nat)
    requires j <= |scans|
    ensures Opens(scans + more, j) == Opens(scans, j)
  {
    if j > 0 { OpensAppend(scans, more, j - 1); }
  }

  lemma NewScanFollows(s: Store, tx: Tx, action: Action, scans: seq<Option<Options>>)
    requires WellRecorded(s, tx) && FollowsScans(scans, tx) && (action.OpenScan? || action.IsEmpty?)
    ensures FollowsScans(scans + [if action.OpenScan? then Some(action.options) else None], Record(s, tx, action))
  {
    hide StreamOf, ToDbScanOptions, WellRecorded;
    var more := scans + [if action.OpenScan? then Some(action.options) else None];
    forall j | 0 <= j <= |scans| ensures Opens(more, j) == Opens(scans, j) {
      OpensAppend(scans, more[|scans|..], j);
      assert more == scans + more[|scans|..];
    }
  }

  lemma OldScansFollow(s: Store, tx: Tx, action: Action, scans: seq<Option<Options>>)
    requires WellRecorded(s, tx) && FollowsScans(scans, tx) && (action.Next? || action.Get? || action.Has?)
    ensures FollowsScans(scans, Record(s, tx, action))
  {
    hide StreamOf, ToDbScanOptions, WellRecorded;
  }

  lemma ScansFollow(s: Store, tx: Tx, action: Action, scans: seq<Option<Options>>)
    requires WellRecorded(s, tx) && FollowsScans(scans, tx) && !action.Return? && !action.Throw?
    ensures var more := if action.OpenScan? then [Some(action.options)] else if action.IsEmpty? then [None] else [];
      FollowsScans(scans + more, Record(s, tx, action))
  {
    hide FollowsScans, Record, WellRecorded;
    if action.OpenScan? || action.IsEmpty? {
      NewScanFollows(s, tx, action, scans);
    } else {
      OldScansFollow(s, tx, action, scans);
      assert scans + [] == scans;
    }
  }

  /** The transaction's answers are true. */
  lemma AnswerIsTrue(s: Store, body: Body, log: seq<Answer>, tx: Tx)
    requires FollowsReads(body, log, tx) && !body.next(log).Return? && !body.next(log).Throw?
    ensures TrueAnswer(s, body, log, AnswerTo(s, tx, body.next(log)))
  {
    var action := body.next(log);
    if action.Next? && action.scan < |tx.cursors| {
      AnswerIsEntryOrEnd(s, tx, action.scan);
    }
    assert s.primary == map[] <==> |s.primary| == 0;
  }

  lemma RecordsAreRight(s: Store, body: Body, log: seq<Answer>, tx: Tx)
    requires WellRecorded(s, tx) && FollowsReads(body, log, tx) && FollowsScans(Scans(body, log), tx)
    ensures ScansRecorded(s, body, log, tx.scans)
  {
    hide StreamOf, RecordedInfo;
    var scans := Scans(body, log);
    forall j | 0 <= j < |scans| && scans[j].Some?
      ensures tx.scans[j]
        == RecordedInfo(s, scans[j].value, |StreamOf(s, scans[j].value).entries| < Asks(body, log, Opens(scans, j)))
    {
      var c := tx.cursors[Opens(scans, j)];
      assert c.info == j && scans[c.info] == Some(c.options);
    }
  }

  lemma {:induction false} RunFollows(s: Store, body: Body, tx: Tx, log: seq<Answer>) returns (all: seq<Answer>)
    requires WellRecorded(s, tx) && TrueLog(s, body, log)
    requires FollowsReads(body, log, tx) && FollowsScans(Scans(body, log), tx)
    ensures TrueLog(s, body, all) && Finished(body, all)
    ensures var r := RunFrom(s, body, tx, log);
      r.outcome == OutcomeAfter(body, all) && r.keys == AskedKeys(body, all) && ScansRecorded(s, body, all, r.scans)
    decreases body.bound - |log|
  {
    hide FollowsScans, ScansRecorded, TrueAnswer, Record, AnswerTo;
    if Finished(body, log) {
      all := log;
      RecordsAreRight(s, body, log, tx);
    } else {
      var action, answer := body.next(log), AnswerTo(s, tx, body.next(log));
      RecordKeepsWellRecorded(s, tx, action);
      AnswerIsTrue(s, body, log, tx);
      ReadsFollow(s, body, log, tx, answer);
      ScansFollow(s, tx, action, Scans(body, log));
      hide FollowsReads;
      Longer(body, log, answer);
      assert Scans(body, log + [answer]) == Scans(body, log)
        + if action.OpenScan? then [Some(action.options)] else if action.IsEmpty? then [None] else [];
      all := RunFollows(s, body, Record(s, tx, action), log + [answer]);
    }
  }

  /** A run of any body, however it interleaves its reads, is told the truth about the data at every read, and ends as
    * the body does after these answers.  It records exactly the keys that were asked for and, in order, the scans that
    * were made, each with its limit key if and only if it was asked beyond its last entry. */
  lemma RunIsTrue(s: Store, body: Body) returns (log: seq<Answer>)
    ensures TrueLog(s, body, log) && Finished(body, log)
    ensures var r := Run(s, body);
      r.outcome == OutcomeAfter(body, log) && r.keys == AskedKeys(body, log) && ScansRecorded(s, body, log, r.scans)
  {
    log := RunFollows(s, body, FRESH_TX, []);
  }

  /** There is only one such list of answers. */
  lemma {:induction false} OneTrueLog(s: Store, body: Body, a: seq<Answer>, b: seq<Answer>)
    requires TrueLog(s, body, a) && Finished(body, a) && TrueLog(s, body, b) && Finished(body, b)
    ensures a == b
  {
    var n := if |a| <= |b| then |a| else |b|;
    TrueLogsAgree(s, body, a, b, n);
    assert a[..|a|] == a && b[..|b|] == b;
    if |a| < |b| { LongerIsNotFinished(s, body, b, |a|); }
    if |b| < |a| { LongerIsNotFinished(s, body, a, |b|); }
  }

  lemma OneTrueAnswer(s: Store, body: Body, log: seq<Answer>, a: Answer, b: Answer)
    requires TrueAnswer(s, body, log, a) && TrueAnswer(s, body, log, b)
    ensures a == b
  {
    hide ScanFails;
  }

  lemma {:induction false} TrueLogsAgree(s: Store, body: Body, a: seq<Answer>, b: seq<Answer>, n: nat)
    requires TrueLog(s, body, a) && TrueLog(s, body, b) && n <= |a| && n <= |b|
    ensures a[..n] == b[..n]
  {
    hide TrueLog, TrueAnswer;
    if n > 0 {
      TrueLogsAgree(s, body, a, b, n - 1);
      TrueAt(s, body, a, n - 1);
      TrueAt(s, body, b, n - 1);
      OneTrueAnswer(s, body, a[..n - 1], a[n - 1], b[n - 1]);
      assert a[..n] == a[..n - 1] + [a[n - 1]] && b[..n] == b[..n - 1] + [b[n - 1]];
    }
  }

  lemma {:induction false} TrueAt(s: Store, body: Body, log: seq<Answer>, n: nat)
    requires TrueLog(s, body, log) && n < |log|
    ensures n < body.bound && TrueAnswer(s, body, log[..n], log[n])
    decreases |log|
  {
    hide TrueAnswer;
    var before := log[..|log| - 1];
    if n < |log| - 1 {
      TrueAt(s, body, before, n);
      assert before[..n] == log[..n];
    }
  }

  lemma LongerIsNotFinished(s: Store, body: Body, log: seq<Answer>, n: nat)
    requires TrueLog(s, body, log) && n < |log|
    ensures !Finished(body, log[..n])
  {
    TrueAt(s, body, log, n);
  }

  // ---------- the simplest bodies ----------

  function AnswerJson(answer: Answer): Json {
    match answer
    case Value(Some(v)) => Array([v])
    case Flag(b) => Bool(b)
    case _ => Array([])
  }

  /** Makes one read and returns what it was told. */
  function AskBody(action: Action): Body {
    Body(log => if log == [] then action else Return(AnswerJson(log[0])), 1)
  }

  lemma AskRun(s: Store, action: Action, answer: Answer)
    requires !action.Return? && !action.Throw? && TrueAnswer(s, AskBody(action), [], answer)
    requires forall other :: TrueAnswer(s, AskBody(action), [], other) ==> other == answer
    ensures Run(s, AskBody(action)).outcome == Returned(AnswerJson(answer))
  {
    hide TrueAnswer;
    var log := RunIsTrue(s, AskBody(action));
    assert Finished(AskBody(action), log) ==> log != [];
    TrueAt(s, AskBody(action), log, 0);
    assert log[..0] == [];
  }

  lemma GetReturnsTheValue(s: Store, k: Key)
    ensures Run(s, AskBody(Get(k))).outcome == Returned(Array(if k in s.primary then [s.primary[k]] else []))
  {
    AskRun(s, Get(k), Value(Lookup(s.primary, k)));
  }

  lemma HasReturnsPresence(s: Store, k: Key)
    ensures Run(s, AskBody(Has(k))).outcome == Returned(Bool(k in s.primary))
  {
    AskRun(s, Has(k), Flag(k in s.primary));
  }

  lemma IsEmptyReturnsEmptiness(s: Store)
    ensures Run(s, AskBody(IsEmpty)).outcome == Returned(Bool(forall k :: k !in s.primary))
  {
    AskRun(s, IsEmpty, Flag(|s.primary| == 0));
    assert s.primary == map[] <==> |s.primary| == 0;
  }
}
