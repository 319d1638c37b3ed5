/** The Datadog log sink: batching, retrying and dropping queued log messages. */
module LogSink {

  const MAX_LOG_ENTRIES_PER_FLUSH: nat := 1000
  const FORCE_FLUSH_THRESHOLD: nat := 250
  const MAX_ENTRY_BYTES: nat := 5 * 1024 * 1024
  const MAX_MESSAGE_RETRIES: nat := 2
  const MAX_ENTRY_CHARS: nat := MAX_ENTRY_BYTES / 4

  /** The logged content, or the note that replaces a content whose entry had the given length. */
  datatype Content = Original | Dropped(length: nat)

  /** `id` counts the calls of `log`; it stands for everything about a message that never changes but its date. */
  datatype Message = Message(id: nat, date: int, content: Content, flushDelayMs: int, flushRetryCount: nat)

  type Stringify = Message -> string

  // ---------- one batch ----------

  /** A message as it is written out: with the current delay, and replaced if it is too long. */
  function Prepared(json: Stringify, m: Message, flushTime: int): Message {
    var delayed := m.(flushDelayMs := flushTime - m.date);
    if |json(delayed)| > MAX_ENTRY_CHARS then delayed.(content := Dropped(|json(delayed)|)) else delayed
  }

  /** How many of the messages from the `i`-th on are added to a batch of `i` entries and `total` characters. */
  function Added(json: Stringify, ms: seq<Message>, flushTime: int, i: nat, total: nat): (n: nat)
    requires i <= |ms|
    ensures i + n <= |ms| && (i <= MAX_LOG_ENTRIES_PER_FLUSH ==> i + n <= MAX_LOG_ENTRIES_PER_FLUSH)
    decreases |ms| - i
  {
    if i >= MAX_LOG_ENTRIES_PER_FLUSH || i == |ms| then 0 else
      var length := |json(Prepared(json, ms[i], flushTime))|;
      if length + total + i > MAX_ENTRY_CHARS then 0 else 1 + Added(json, ms, flushTime, i + 1, total + length)
  }

  function BatchSize(json: Stringify, ms: seq<Message>, flushTime: int): nat {
    Added(json, ms, flushTime, 0, 0)
  }

  /** The messages that were looked at: the batch, and the one that did not fit if there was one. */
  function Touched(json: Stringify, ms: seq<Message>, flushTime: int): nat {
    var n := BatchSize(json, ms, flushTime);
    if n < |ms| && n < MAX_LOG_ENTRIES_PER_FLUSH then n + 1 else n
  }

  function AfterPrepare(json: Stringify, ms: seq<Message>, flushTime: int): seq<Message> {
    seq(|ms|, i requires 0 <= i < |ms| =>
      if i < Touched(json, ms, flushTime) then Prepared(json, ms[i], flushTime) else ms[i])
  }

  function Entries(json: Stringify, ms: seq<Message>, flushTime: int): seq<string> {
    var n := BatchSize(json, ms, flushTime);
    seq(n, i requires 0 <= i < n => json(Prepared(json, ms[i], flushTime)))
  }

  /** The request body: the entries with a newline between any two. */
  function Body(entries: seq<string>): string {
    if |entries| == 0 then "" else if |entries| == 1 then entries[0]
      else Body(entries[..|entries| - 1]) + "\n" + entries[|entries| - 1]
  }

  lemma {:induction false} BodyFitsFrom(json: Stringify, ms: seq<Message>, flushTime: int, i: nat, entries: seq<string>)
    requires i == |entries| <= |ms|
    requires var all := Entries(json, ms, flushTime); entries <= all
    requires |Body(entries)| <= MAX_ENTRY_CHARS
    requires var total := |Body(entries)| - (if i == 0 then 0 else i - 1);
      total >= 0 && |Entries(json, ms, flushTime)| == i + Added(json, ms, flushTime, i, total)
    ensures |Body(Entries(json, ms, flushTime))| <= MAX_ENTRY_CHARS
    decreases |ms| - i
  {
    var all, total := Entries(json, ms, flushTime), |Body(entries)| - (if i == 0 then 0 else i - 1);
    if Added(json, ms, flushTime, i, total) > 0 {
      var next := all[..i + 1];
      assert next[..i] == entries && next[i] == json(Prepared(json, ms[i], flushTime));
      BodyFitsFrom(json, ms, flushTime, i + 1, next);
    } else {
      assert entries == all;
    }
  }

  /** Every request body is within the size limit and has at most the allowed number of entries. */
  lemma BodyFits(json: Stringify, ms: seq<Message>, flushTime: int)
    ensures |Body(Entries(json, ms, flushTime))| <= MAX_ENTRY_CHARS
    ensures |Entries(json, ms, flushTime)| <= MAX_LOG_ENTRIES_PER_FLUSH
  {
    BodyFitsFrom(json, ms, flushTime, 0, []);
  }

  /** A batch makes progress if and only if the first message, replaced if necessary, fits. */
  lemma ProgressIff(json: Stringify, ms: seq<Message>, flushTime: int)
    requires ms != []
    ensures BatchSize(json, ms, flushTime) > 0 <==> |json(Prepared(json, ms[0], flushTime))| <= MAX_ENTRY_CHARS
  {
  }

  /** A message that is too long even when its content is replaced, as with an oversized context. */
  ghost predicate NeverFits(json: Stringify, m: Message) {
    forall content, delay :: |json(m.(content := content, flushDelayMs := delay))| > MAX_ENTRY_CHARS
  }

  // ---------- settling a batch ----------

  function Retried(ms: seq<Message>, n: nat): (r: seq<Message>)
    requires n <= |ms|
    ensures |r| == |ms|
  {
    seq(|ms|, i requires 0 <= i < |ms| => if i < n then ms[i].(flushRetryCount := ms[i].flushRetryCount + 1) else ms[i])
  }

  /** How many of the first `n` messages have been retried too often. */
  function Exhausted(ms: seq<Message>, n: nat): (c: nat)
    requires n <= |ms|
    ensures c <= n
  {
    if n == 0 then 0
    else Exhausted(ms, n - 1) + if ms[n - 1].flushRetryCount > MAX_MESSAGE_RETRIES then 1 else 0
  }

  function AfterSend(ms: seq<Message>, n: nat, ok: bool): (left: seq<Message>)
    requires n <= |ms|
    ensures |left| <= |ms|
  {
    if ok then ms[n..] else Retried(ms, n)[Exhausted(Retried(ms, n), n)..]
  }

  // ---------- the sink as a state machine ----------

  datatype Fate = Accepted | GivenUp

  /** A request that carried the `count` messages logged from the `first` on. */
  datatype Send = Send(first: nat, count: nat, ok: bool)

  /** `sending` is the batch size of the request under way; `retired` are the fates of the messages no longer queued,
    * in the order of logging; `sends` is the history of finished requests. */
  datatype State = State(logged: nat, retired: seq<Fate>, queue: seq<Message>, sending: int, sends: seq<Send>)

  const IDLE: int := -1

  const EMPTY := State(0, [], [], IDLE, [])

  datatype Step = Log(date: int) | StartSend(flushTime: int) | FinishSend(ok: bool)

  predicate Enabled(s: State, step: Step) {
    match step
    case Log(_) => true
    case StartSend(_) => s.sending == IDLE && s.queue != []
    case FinishSend(_) => 0 <= s.sending <= |s.queue|
  }

  function NewMessage(id: nat, date: int): Message {
    Message(id, date, Original, 0, 0)
  }

  function Stepped(json: Stringify, s: State, step: Step): State
    requires Enabled(s, step)
  {
    match step
    case Log(date) => s.(logged := s.logged + 1, queue := s.queue + [NewMessage(s.logged, date)])
    case StartSend(now) => s.(queue := AfterPrepare(json, s.queue, now), sending := BatchSize(json, s.queue, now))
    case FinishSend(ok) =>
      var n: nat := s.sending;
      var left := AfterSend(s.queue, n, ok);
      s.(queue := left, sending := IDLE,
         retired := s.retired + seq(|s.queue| - |left|, _ => if ok then Accepted else GivenUp),
         sends := s.sends + [Send(|s.retired|, n, ok)])
  }

  /** The state after those of the steps that were possible. */
  function After(json: Stringify, s: State, steps: seq<Step>): State {
    if steps == [] then s else
      var before := After(json, s, steps[..|steps| - 1]);
      if Enabled(before, steps[|steps| - 1]) then Stepped(json, before, steps[|steps| - 1]) else before
  }

  /** The number of finished requests that carried a message, by outcome. */
  function Count(sends: seq<Send>, id: nat, ok: bool): nat {
    if sends == [] then 0 else
      var last := sends[|sends| - 1];
      Count(sends[..|sends| - 1], id, ok) + if last.ok == ok && last.first <= id < last.first + last.count then 1 else 0
  }

  // ---------- the invariant ----------

  /** Retry counts do not increase from front to back, and are below the limit. */
  ghost predicate RetriesDescend(ms: seq<Message>) {
    && (forall i, j :: 0 <= i < j < |ms| ==> ms[j].flushRetryCount <= ms[i].flushRetryCount)
    && forall m :: m in ms ==> m.flushRetryCount <= MAX_MESSAGE_RETRIES
  }

  /** A queued message's place in the log is its own, and its count is the number of requests that failed with it. */
  ghost predicate QueuedOk(s: State, i: nat) {
    i < |s.queue| ==>
      && s.queue[i].id == |s.retired| + i
      && Count(s.sends, |s.retired| + i, false) == s.queue[i].flushRetryCount
      && Count(s.sends, |s.retired| + i, true) == 0
  }

  /** A retired message was accepted once after at most two failures, or given up after exactly three. */
  ghost predicate RetiredOk(s: State, id: nat) {
    id < |s.retired| ==>
      if s.retired[id].Accepted?
      then Count(s.sends, id, true) == 1 && Count(s.sends, id, false) <= MAX_MESSAGE_RETRIES
      else Count(s.sends, id, true) == 0 && Count(s.sends, id, false) == MAX_MESSAGE_RETRIES + 1
  }

  ghost predicate NotSentBefore(s: State, id: nat) {
    s.logged <= id ==> Count(s.sends, id, false) == 0 && Count(s.sends, id, true) == 0
  }

  ghost predicate Inv(s: State) {
    && RetriesDescend(s.queue)
    && s.logged == |s.retired| + |s.queue|
    && s.sending <= |s.queue|
    && (forall i: nat :: QueuedOk(s, i))
    && (forall id: nat :: RetiredOk(s, id))
    && forall id: nat :: NotSentBefore(s, id)
  }

  lemma {:induction false} ExhaustedIsPrefix(ms: seq<Message>, n: nat)
    requires n <= |ms| && forall i, j :: 0 <= i < j < n ==> ms[j].flushRetryCount <= ms[i].flushRetryCount
    ensures forall i :: 0 <= i < n ==> (i < Exhausted(ms, n) <==> ms[i].flushRetryCount > MAX_MESSAGE_RETRIES)
  {
    if n > 0 {
      ExhaustedIsPrefix(ms, n - 1);
    }
  }

  lemma RetriedDescends(ms: seq<Message>, n: nat, c: nat)
    requires n <= |ms| && RetriesDescend(ms) && c <= n
    requires forall i :: c <= i < n ==> Retried(ms, n)[i].flushRetryCount <= MAX_MESSAGE_RETRIES
    ensures RetriesDescend(Retried(ms, n)[c..])
  {
    var r := Retried(ms, n);
    var left := r[c..];
    forall m | m in left ensures m.flushRetryCount <= MAX_MESSAGE_RETRIES {
      var i :| 0 <= i < |left| && left[i] == m;
      assert left[i] == r[c + i];
      assert ms[c + i] in ms;
    }
  }

  /** "Splice the first N" drops exactly the messages of the failed request that have now failed three times. */
  lemma DropsExactlyTheExhausted(ms: seq<Message>, n: nat)
    requires n <= |ms| && RetriesDescend(ms)
    ensures var c := Exhausted(Retried(ms, n), n);
      && AfterSend(ms, n, false) == Retried(ms, n)[c..]
      && (forall i :: 0 <= i < |ms| ==> (i < c <==> i < n && ms[i].flushRetryCount == MAX_MESSAGE_RETRIES))
      && RetriesDescend(AfterSend(ms, n, false))
  {
    hide Exhausted;
    var r := Retried(ms, n);
    ExhaustedIsPrefix(r, n);
    forall i | 0 <= i < |ms| ensures i < Exhausted(r, n) <==> i < n && ms[i].flushRetryCount == MAX_MESSAGE_RETRIES {
      assert ms[i] in ms;
      assert i < n ==> r[i].flushRetryCount == ms[i].flushRetryCount + 1;
    }
    RetriedDescends(ms, n, Exhausted(r, n));
  }

  // ---------- every step keeps the invariant ----------

  lemma LogKeeps(json: Stringify, s: State, date: int)
    requires Inv(s)
    ensures Inv(Stepped(json, s, Log(date)))
  {
    hide Count;
    var s' := Stepped(json, s, Log(date));
    assert NotSentBefore(s, s.logged);
    forall i: nat ensures QueuedOk(s', i) { assert QueuedOk(s, i); }
    forall id: nat ensures RetiredOk(s', id) && NotSentBefore(s', id) {
      assert RetiredOk(s, id) && NotSentBefore(s, id);
    }
  }

  /** Preparing a request changes no identity and no count. */
  lemma PrepareKeepsRetries(json: Stringify, ms: seq<Message>, now: int)
    requires RetriesDescend(ms)
    ensures var ms' := AfterPrepare(json, ms, now);
      RetriesDescend(ms') && |ms'| == |ms| && BatchSize(json, ms, now) <= |ms|
      && forall i :: 0 <= i < |ms| ==> ms'[i].flushRetryCount == ms[i].flushRetryCount && ms'[i].id == ms[i].id
  {
    hide Prepared, Touched;
    var ms' := AfterPrepare(json, ms, now);
    forall i | 0 <= i < |ms| ensures ms'[i].flushRetryCount == ms[i].flushRetryCount && ms'[i].id == ms[i].id {
      PreparedKeeps(json, ms[i], now);
    }
    forall m | m in ms' ensures m.flushRetryCount <= MAX_MESSAGE_RETRIES {
      var i :| 0 <= i < |ms'| && ms'[i] == m;
      assert ms[i] in ms;
    }
  }

  lemma StartKeeps(json: Stringify, s: State, now: int)
    requires Inv(s) && Enabled(s, StartSend(now))
    ensures Inv(Stepped(json, s, StartSend(now)))
  {
    hide AfterPrepare, BatchSize, RetriesDescend, Count;
    var s' := Stepped(json, s, StartSend(now));
    PrepareKeepsRetries(json, s.queue, now);
    forall i: nat ensures QueuedOk(s', i) { assert QueuedOk(s, i); }
    forall id: nat ensures RetiredOk(s', id) && NotSentBefore(s', id) {
      assert RetiredOk(s, id) && NotSentBefore(s, id);
    }
  }

  lemma PreparedKeeps(json: Stringify, m: Message, now: int)
    ensures Prepared(json, m, now).flushRetryCount == m.flushRetryCount && Prepared(json, m, now).id == m.id
  {
  }

  lemma CountAppend(sends: seq<Send>, send: Send, id: nat, ok: bool)
    ensures Count(sends + [send], id, ok)
         == Count(sends, id, ok) + if send.ok == ok && send.first <= id < send.first + send.count then 1 else 0
  {
    assert (sends + [send])[..|sends|] == sends;
  }

  /** What one finished request adds to the counts. */
  lemma CountsAfterSend(s: State, ok: bool, id: nat)
    requires Inv(s) && Enabled(s, FinishSend(ok))
    ensures var first, n := |s.retired|, s.sending; var sends' := s.sends + [Send(first, n, ok)];
      var carried := if first <= id < first + n then 1 else 0;
      && Count(sends', id, true) == Count(s.sends, id, true) + (if ok then carried else 0)
      && Count(sends', id, false) == Count(s.sends, id, false) + (if ok then 0 else carried)
  {
    CountAppend(s.sends, Send(|s.retired|, s.sending, ok), id, true);
    CountAppend(s.sends, Send(|s.retired|, s.sending, ok), id, false);
  }

  lemma SuffixDescends(ms: seq<Message>, n: nat)
    requires n <= |ms| && RetriesDescend(ms)
    ensures RetriesDescend(ms[n..]) && forall i :: 0 <= i < |ms| ==> ms[i].flushRetryCount <= MAX_MESSAGE_RETRIES
  {
    forall i | 0 <= i < |ms| ensures ms[i].flushRetryCount <= MAX_MESSAGE_RETRIES {
      assert ms[i] in ms;
    }
  }

  lemma AcceptKeeps(json: Stringify, s: State)
    requires Inv(s) && Enabled(s, FinishSend(true))
    ensures Inv(Stepped(json, s, FinishSend(true)))
  {
    hide Count, RetriesDescend;
    var s', n: nat := Stepped(json, s, FinishSend(true)), s.sending;
    SuffixDescends(s.queue, n);
    forall i: nat ensures QueuedOk(s', i) {
      CountsAfterSend(s, true, |s'.retired| + i);
      assert QueuedOk(s, n + i);
    }
    forall id: nat ensures RetiredOk(s', id) && NotSentBefore(s', id) {
      CountsAfterSend(s, true, id);
      assert RetiredOk(s, id) && NotSentBefore(s, id);
      if |s.retired| <= id { assert QueuedOk(s, id - |s.retired|); }
    }
  }

  lemma RejectKeeps(json: Stringify, s: State)
    requires Inv(s) && Enabled(s, FinishSend(false))
    ensures Inv(Stepped(json, s, FinishSend(false)))
  {
    hide Count, RetriesDescend, Exhausted;
    var s', n: nat := Stepped(json, s, FinishSend(false)), s.sending;
    var r := Retried(s.queue, n);
    var c := Exhausted(r, n);
    DropsExactlyTheExhausted(s.queue, n);
    forall i: nat ensures QueuedOk(s', i) {
      CountsAfterSend(s, false, |s'.retired| + i);
      assert QueuedOk(s, c + i);
    }
    forall id: nat ensures RetiredOk(s', id) && NotSentBefore(s', id) {
      CountsAfterSend(s, false, id);
      assert RetiredOk(s, id) && NotSentBefore(s, id);
      if |s.retired| <= id { assert QueuedOk(s, id - |s.retired|); }
    }
  }

  /** In every reachable state, whatever is logged while requests are under way: the queued retry counts do not
    * increase from front to back and stay below the limit; the log is the retired messages followed by the queue; a
    * retired message was either accepted by one request after at most two failures, or given up after exactly three;
    * and a queued message's count is the number of requests that failed with it. */
  lemma {:induction false} LogIsConserved(json: Stringify, steps: seq<Step>)
    ensures Inv(After(json, EMPTY, steps))
    decreases |steps|
  {
    if steps != [] {
      var s, step := After(json, EMPTY, steps[..|steps| - 1]), steps[|steps| - 1];
      LogIsConserved(json, steps[..|steps| - 1]);
      if Enabled(s, step) {
        hide Inv, Stepped, Enabled;
        match step
        case Log(date) => LogKeeps(json, s, date);
        case StartSend(now) => StartKeeps(json, s, now);
        case FinishSend(ok) => if ok { AcceptKeeps(json, s); } else { RejectKeeps(json, s); }
      }
    }
  }

  // ---------- a message that never fits ----------

  lemma PreparedNeverFits(json: Stringify, m: Message, flushTime: int)
    requires NeverFits(json, m)
    ensures NeverFits(json, Prepared(json, m, flushTime)) && |json(Prepared(json, m, flushTime))| > MAX_ENTRY_CHARS
  {
    var p := Prepared(json, m, flushTime);
    assert p == m.(content := p.content, flushDelayMs := p.flushDelayMs);
    forall content, delay ensures |json(p.(content := content, flushDelayMs := delay))| > MAX_ENTRY_CHARS {
      assert p.(content := content, flushDelayMs := delay) == m.(content := content, flushDelayMs := delay);
    }
  }

  /** The message at the front never fits, and the request under way, if any, carries nothing. */
  ghost predicate Blocked(json: Stringify, s: State) {
    s.queue != [] && NeverFits(json, s.queue[0]) && s.sending <= 0
  }

  /** Nothing has been retired, the same message is at the front, and no message has been counted as failed. */
  ghost predicate NoProgress(s: State, s': State) {
    && s'.retired == s.retired && |s.queue| <= |s'.queue|
    && forall i :: 0 <= i < |s.queue| ==>
         s'.queue[i].id == s.queue[i].id && s'.queue[i].flushRetryCount == s.queue[i].flushRetryCount
  }

  lemma PrepareKeepsIds(json: Stringify, ms: seq<Message>, flushTime: int)
    ensures forall i :: 0 <= i < |ms| ==>
      AfterPrepare(json, ms, flushTime)[i].id == ms[i].id
      && AfterPrepare(json, ms, flushTime)[i].flushRetryCount == ms[i].flushRetryCount
  {
    hide Touched;
  }

  lemma BlockedStart(json: Stringify, s: State, flushTime: int)
    requires Blocked(json, s) && Enabled(s, StartSend(flushTime))
    ensures var s' := Stepped(json, s, StartSend(flushTime));
      Blocked(json, s') && NoProgress(s, s') && Body(Entries(json, s.queue, flushTime)) == ""
  {
    hide NeverFits, Prepared;
    PreparedNeverFits(json, s.queue[0], flushTime);
    assert BatchSize(json, s.queue, flushTime) == 0;
    PrepareKeepsIds(json, s.queue, flushTime);
  }

  lemma BlockedFinish(json: Stringify, s: State, ok: bool)
    requires Blocked(json, s) && Enabled(s, FinishSend(ok))
    ensures Blocked(json, Stepped(json, s, FinishSend(ok))) && NoProgress(s, Stepped(json, s, FinishSend(ok)))
  {
    hide NeverFits;
    assert Retried(s.queue, 0) == s.queue && s.queue[0..] == s.queue;
    assert s.retired + [] == s.retired;
  }

  lemma StepKeepsBlocked(json: Stringify, s: State, step: Step)
    requires Blocked(json, s) && Enabled(s, step)
    ensures Blocked(json, Stepped(json, s, step)) && NoProgress(s, Stepped(json, s, step))
  {
    hide NeverFits, AfterPrepare, BatchSize, AfterSend, Entries;
    match step
    case Log(_) =>
    case StartSend(now) => BlockedStart(json, s, now);
    case FinishSend(ok) => BlockedFinish(json, s, ok);
  }

  /** A message that never fits, once at the front, blocks the queue for good: whatever is logged and sent afterwards,
    * and whatever the responses, nothing is retired, the message stays at the front, no failure is ever counted, and a
    * queue that is long enough to keep the flush loop going stays long enough. */
  lemma {:induction false} NeverFittingHeadBlocks(json: Stringify, s: State, steps: seq<Step>)
    requires Blocked(json, s)
    ensures var t := After(json, s, steps);
      && Blocked(json, t) && NoProgress(s, t)
      && (|s.queue| >= FORCE_FLUSH_THRESHOLD ==> |t.queue| >= FORCE_FLUSH_THRESHOLD)
    decreases |steps|
  {
    hide Blocked, Enabled, Stepped;
    if steps != [] {
      var t, step := After(json, s, steps[..|steps| - 1]), steps[|steps| - 1];
      NeverFittingHeadBlocks(json, s, steps[..|steps| - 1]);
      if Enabled(t, step) {
        StepKeepsBlocked(json, t, step);
      }
    }
  }

  // ---------- the flush loop ----------

  /** The message fits into a request once its content is replaced, however long it has waited. */
  ghost predicate ReplacementFits(json: Stringify, m: Message) {
    forall length: nat, delay: int, count: nat ::
      |json(m.(content := Dropped(length), flushDelayMs := delay, flushRetryCount := count))| <= MAX_ENTRY_CHARS
  }

  lemma ReplacementStillFits(json: Stringify, m: Message, m': Message)
    requires ReplacementFits(json, m) && m'.id == m.id && m'.date == m.date
    ensures ReplacementFits(json, m')
  {
    forall length: nat, delay: int, count: nat
      ensures |json(m'.(content := Dropped(length), flushDelayMs := delay, flushRetryCount := count))|
        <= MAX_ENTRY_CHARS
    {
      assert m'.(content := Dropped(length), flushDelayMs := delay, flushRetryCount := count)
          == m.(content := Dropped(length), flushDelayMs := delay, flushRetryCount := count);
    }
  }

  /** The number of failures the queue can still take before it is empty. */
  function Budget(ms: seq<Message>): nat {
    if ms == [] then 0 else
      Budget(ms[..|ms| - 1])
      + if ms[|ms| - 1].flushRetryCount <= MAX_MESSAGE_RETRIES
        then MAX_MESSAGE_RETRIES + 1 - ms[|ms| - 1].flushRetryCount else 0
  }

  lemma {:induction false} BudgetConcat(a: seq<Message>, b: seq<Message>)
    ensures Budget(a + b) == Budget(a) + Budget(b)
    decreases |b|
  {
    if b == [] {
      assert a + b == a;
    } else {
      BudgetConcat(a, b[..|b| - 1]);
      assert (a + b)[..|a + b| - 1] == a + b[..|b| - 1];
    }
  }

  lemma {:induction false} BudgetSame(a: seq<Message>, b: seq<Message>)
    requires |a| == |b| && forall i :: 0 <= i < |a| ==> a[i].flushRetryCount == b[i].flushRetryCount
    ensures Budget(a) == Budget(b)
  {
    if a != [] {
      BudgetSame(a[..|a| - 1], b[..|b| - 1]);
    }
  }

  lemma {:induction false} BudgetRetried(ms: seq<Message>, n: nat)
    requires n <= |ms| && forall m :: m in ms ==> m.flushRetryCount <= MAX_MESSAGE_RETRIES
    ensures Budget(Retried(ms, n)) == Budget(ms) - n
  {
    if ms != [] {
      var front, r := ms[..|ms| - 1], Retried(ms, n);
      assert ms[|ms| - 1] in ms;
      if n == |ms| {
        BudgetRetried(front, n - 1);
        assert r[..|ms| - 1] == Retried(front, n - 1);
      } else {
        BudgetRetried(front, n);
        assert r[..|ms| - 1] == Retried(front, n);
      }
    }
  }

  lemma BudgetPositive(ms: seq<Message>)
    requires ms != [] && ms[|ms| - 1].flushRetryCount <= MAX_MESSAGE_RETRIES
    ensures Budget(ms) > 0
  {
  }

  lemma AcceptedUsesBudget(ms: seq<Message>, n: nat)
    requires 0 < n <= |ms| && RetriesDescend(ms)
    ensures Budget(ms[n..]) < Budget(ms)
  {
    hide Budget;
    var a, b := ms[..n], ms[n..];
    BudgetConcat(a, b);
    assert ms == a + b;
    SuffixDescends(ms, n);
    BudgetPositive(a);
  }

  lemma RejectedUsesBudget(ms: seq<Message>, n: nat)
    requires 0 < n <= |ms| && RetriesDescend(ms)
    ensures Budget(AfterSend(ms, n, false)) < Budget(ms)
  {
    hide Retried, Exhausted, Budget;
    var r := Retried(ms, n);
    var c := Exhausted(r, n);
    BudgetRetried(ms, n);
    var a, b := r[..c], r[c..];
    BudgetConcat(a, b);
    assert r == a + b;
  }

  /** Every request that carries something uses up budget, accepted or not. */
  lemma SendUsesBudget(ms: seq<Message>, n: nat, ok: bool)
    requires 0 < n <= |ms| && RetriesDescend(ms)
    ensures Budget(AfterSend(ms, n, ok)) < Budget(ms) && RetriesDescend(AfterSend(ms, n, ok))
  {
    hide RetriesDescend, Budget, Retried, Exhausted;
    if ok {
      AcceptedUsesBudget(ms, n);
      SuffixDescends(ms, n);
    } else {
      RejectedUsesBudget(ms, n);
      DropsExactlyTheExhausted(ms, n);
    }
  }

  // ---------- when the flush loop ends ----------

  /** The queue after one round of the loop. */
  function AfterRound(json: Stringify, ms: seq<Message>, now: int, ok: bool): seq<Message> {
    AfterSend(AfterPrepare(json, ms, now), BatchSize(json, ms, now), ok)
  }

  /** The queue after some rounds, if nothing more is logged. */
  function AfterRounds(json: Stringify, ms: seq<Message>, clock: nat -> int, accepts: nat -> bool,
      rounds: nat): seq<Message>
  {
    if rounds == 0 then ms
    else AfterRound(json, AfterRounds(json, ms, clock, accepts, rounds - 1), clock(rounds - 1), accepts(rounds - 1))
  }

  /** Each message either always fits once it is replaced, or never does. */
  ghost predicate Decided(json: Stringify, ms: seq<Message>) {
    forall i :: 0 <= i < |ms| ==> ReplacementFits(json, ms[i]) || NeverFits(json, ms[i])
  }

  /** A message that never fits, with as many messages from it on as keep the loop going. */
  ghost predicate LongTailAt(json: Stringify, ms: seq<Message>, i: nat) {
    i < |ms| && NeverFits(json, ms[i]) && |ms| - i >= FORCE_FLUSH_THRESHOLD
  }

  ghost predicate LongTail(json: Stringify, ms: seq<Message>) {
    exists i: nat :: LongTailAt(json, ms, i)
  }

  lemma NeverFitsOrFits(json: Stringify, m: Message)
    requires ReplacementFits(json, m)
    ensures !NeverFits(json, m)
  {
    assert |json(m.(content := Dropped(0), flushDelayMs := 0, flushRetryCount := m.flushRetryCount))|
      <= MAX_ENTRY_CHARS;
    assert m.(content := Dropped(0), flushDelayMs := 0, flushRetryCount := m.flushRetryCount)
        == m.(content := Dropped(0), flushDelayMs := 0);
  }

  /** Every message in a batch fits. */
  lemma {:induction false} AddedFit(json: Stringify, ms: seq<Message>, now: int, i: nat, total: nat, j: nat)
    requires i <= j < |ms| && j < i + Added(json, ms, now, i, total)
    ensures |json(Prepared(json, ms[j], now))| <= MAX_ENTRY_CHARS
    decreases |ms| - i
  {
    hide Prepared;
    if i < j {
      AddedFit(json, ms, now, i + 1, total + |json(Prepared(json, ms[i], now))|, j);
    }
  }

  lemma NeverInBatch(json: Stringify, ms: seq<Message>, now: int, i: nat)
    requires i < |ms| && NeverFits(json, ms[i])
    ensures BatchSize(json, ms, now) <= i
  {
    PreparedNeverFits(json, ms[i], now);
    hide NeverFits, Prepared;
    if i < BatchSize(json, ms, now) { AddedFit(json, ms, now, 0, 0, i); }
  }

  lemma SendAt(ms: seq<Message>, n: nat, ok: bool, j: nat)
    requires n <= |ms| && j < |AfterSend(ms, n, ok)|
    ensures var ms' := AfterSend(ms, n, ok); var i := |ms| - |ms'| + j;
      ms'[j].id == ms[i].id && ms'[j].date == ms[i].date && (n <= i ==> ms'[j] == ms[i])
  {
    hide Exhausted;
  }

  lemma PrepareAt(json: Stringify, ms: seq<Message>, now: int, i: nat)
    requires i < |ms|
    ensures var m' := AfterPrepare(json, ms, now)[i]; m' == ms[i] || m' == Prepared(json, ms[i], now)
  {
    hide Touched, Prepared;
  }

  lemma RoundShrinks(json: Stringify, ms: seq<Message>, now: int, ok: bool)
    ensures |AfterRound(json, ms, now, ok)| <= |ms|
  {
  }

  /** What a round leaves of the message at a position, counted from the end. */
  lemma RoundAt(json: Stringify, ms: seq<Message>, now: int, ok: bool, j: nat)
    requires j < |AfterRound(json, ms, now, ok)| <= |ms|
    ensures var ms' := AfterRound(json, ms, now, ok);
      var m, m' := ms[|ms| - |ms'| + j], ms'[j];
      && m'.id == m.id && m'.date == m.date
      && (BatchSize(json, ms, now) <= |ms| - |ms'| + j ==> m' == m || m' == Prepared(json, m, now))
  {
    var i, prepared := |ms| - |AfterRound(json, ms, now, ok)| + j, AfterPrepare(json, ms, now);
    PreparedKeepsDate(json, ms[i], now);
    PrepareAt(json, ms, now, i);
    SendAt(prepared, BatchSize(json, ms, now), ok, j);
    hide Prepared, AfterPrepare, AfterSend, BatchSize;
  }

  lemma PreparedKeepsDate(json: Stringify, m: Message, now: int)
    ensures Prepared(json, m, now).id == m.id && Prepared(json, m, now).date == m.date
  {
  }

  lemma RoundDecided(json: Stringify, ms: seq<Message>, now: int, ok: bool, j: nat)
    requires j < |AfterRound(json, ms, now, ok)| <= |ms|
    ensures var ms' := AfterRound(json, ms, now, ok); var i := |ms| - |ms'| + j;
      && (ReplacementFits(json, ms[i]) ==> ReplacementFits(json, ms'[j]))
      && (NeverFits(json, ms[i]) ==> NeverFits(json, ms'[j]))
  {
    hide ReplacementFits, NeverFits, Prepared, AfterRound, BatchSize;
    var ms' := AfterRound(json, ms, now, ok);
    var i := |ms| - |ms'| + j;
    RoundAt(json, ms, now, ok, j);
    if ReplacementFits(json, ms[i]) { ReplacementStillFits(json, ms[i], ms'[j]); }
    if NeverFits(json, ms[i]) {
      NeverInBatch(json, ms, now, i);
      PreparedNeverFits(json, ms[i], now);
    }
  }

  lemma RoundKeepsDecided(json: Stringify, ms: seq<Message>, now: int, ok: bool)
    requires Decided(json, ms)
    ensures Decided(json, AfterRound(json, ms, now, ok))
    ensures LongTail(json, AfterRound(json, ms, now, ok)) ==> LongTail(json, ms)
  {
    RoundShrinks(json, ms, now, ok);
    hide ReplacementFits, NeverFits, AfterRound;
    var ms' := AfterRound(json, ms, now, ok);
    forall j | 0 <= j < |ms'| ensures ReplacementFits(json, ms'[j]) || NeverFits(json, ms'[j]) {
      RoundDecided(json, ms, now, ok, j);
      assert ReplacementFits(json, ms[|ms| - |ms'| + j]) || NeverFits(json, ms[|ms| - |ms'| + j]);
    }
    if j: nat :| LongTailAt(json, ms', j) {
      RoundDecided(json, ms, now, ok, j);
      if ReplacementFits(json, ms'[j]) { NeverFitsOrFits(json, ms'[j]); }
      assert LongTailAt(json, ms, |ms| - |ms'| + j);
    }
  }

  /** A message that never fits stays, and so does everything behind it. */
  lemma RoundKeepsLongTail(json: Stringify, ms: seq<Message>, now: int, ok: bool)
    requires Decided(json, ms) && LongTail(json, ms)
    ensures LongTail(json, AfterRound(json, ms, now, ok))
  {
    hide ReplacementFits, NeverFits;
    var i: nat :| LongTailAt(json, ms, i);
    NeverInBatch(json, ms, now, i);
    hide BatchSize, Exhausted, Retried, AfterPrepare;
    var ms' := AfterRound(json, ms, now, ok);
    assert |ms| - |ms'| <= i;
    RoundDecided(json, ms, now, ok, i - (|ms| - |ms'|));
    assert LongTailAt(json, ms', i - (|ms| - |ms'|));
  }

  /** A round uses up budget, unless a message that never fits is at the front. */
  lemma RoundUsesBudget(json: Stringify, ms: seq<Message>, now: int, ok: bool)
    requires ms != [] && RetriesDescend(ms) && Decided(json, ms)
    ensures RetriesDescend(AfterRound(json, ms, now, ok))
    ensures if NeverFits(json, ms[0]) then Budget(AfterRound(json, ms, now, ok)) <= Budget(ms)
            else Budget(AfterRound(json, ms, now, ok)) < Budget(ms)
  {
    hide RetriesDescend, Budget, AfterPrepare, ReplacementFits, NeverFits, BatchSize;
    PrepareKeepsRetries(json, ms, now);
    BudgetSame(ms, AfterPrepare(json, ms, now));
    if NeverFits(json, ms[0]) {
      NeverInBatch(json, ms, now, 0);
      EmptySend(AfterPrepare(json, ms, now), ok);
    } else {
      FirstFits(json, ms[0], now);
      ProgressIff(json, ms, now);
      SendUsesBudget(AfterPrepare(json, ms, now), BatchSize(json, ms, now), ok);
    }
  }

  lemma EmptySend(ms: seq<Message>, ok: bool)
    ensures AfterSend(ms, 0, ok) == ms
  {
    assert Retried(ms, 0) == ms;
  }

  ghost predicate StillFlushing(json: Stringify, ms: seq<Message>, clock: nat -> int, accepts: nat -> bool,
      rounds: nat)
  {
    rounds > 0 ==> |AfterRounds(json, ms, clock, accepts, rounds)| >= FORCE_FLUSH_THRESHOLD
  }

  /** The loop that starts with this queue ends: it has nothing to do, or some round leaves few enough messages. */
  ghost predicate LoopEnds(json: Stringify, ms: seq<Message>, clock: nat -> int, accepts: nat -> bool) {
    ms == [] || exists rounds: nat :: !StillFlushing(json, ms, clock, accepts, rounds)
  }

  lemma {:induction false} RoundsKeepDecided(json: Stringify, ms: seq<Message>, clock: nat -> int, accepts: nat -> bool,
      rounds: nat)
    requires Decided(json, ms) && RetriesDescend(ms)
    ensures var t := AfterRounds(json, ms, clock, accepts, rounds);
      && Decided(json, t) && RetriesDescend(t) && (LongTail(json, t) <==> LongTail(json, ms))
  {
    hide Decided, RetriesDescend, LongTail, AfterRound;
    if rounds > 0 {
      RoundsKeepDecided(json, ms, clock, accepts, rounds - 1);
      var t := AfterRounds(json, ms, clock, accepts, rounds - 1);
      RoundKeepsDecided(json, t, clock(rounds - 1), accepts(rounds - 1));
      if LongTail(json, t) { RoundKeepsLongTail(json, t, clock(rounds - 1), accepts(rounds - 1)); }
      if t == [] { EmptyRound(json, clock(rounds - 1), accepts(rounds - 1)); }
      else { RoundUsesBudget(json, t, clock(rounds - 1), accepts(rounds - 1)); }
    }
  }

  lemma EmptyRound(json: Stringify, now: int, ok: bool)
    ensures AfterRound(json, [], now, ok) == [] && RetriesDescend([])
  {
    EmptySend([], ok);
  }

  lemma LongTailIsLong(json: Stringify, ms: seq<Message>)
    requires LongTail(json, ms)
    ensures |ms| >= FORCE_FLUSH_THRESHOLD
  {
  }

  lemma HeadOfShortTail(json: Stringify, ms: seq<Message>)
    requires |ms| >= FORCE_FLUSH_THRESHOLD && !LongTail(json, ms)
    ensures !NeverFits(json, ms[0])
  {
    hide NeverFits;
    assert !LongTailAt(json, ms, 0);
  }

  /** Without a long tail the budget is used up while the loop goes on. */
  lemma {:induction false} ShortTailEnds(json: Stringify, ms: seq<Message>, clock: nat -> int, accepts: nat -> bool,
      rounds: nat)
    returns (last: nat)
    requires Decided(json, ms) && RetriesDescend(ms) && !LongTail(json, ms)
    ensures !StillFlushing(json, ms, clock, accepts, last)
    decreases Budget(AfterRounds(json, ms, clock, accepts, rounds))
  {
    hide Decided, RetriesDescend, LongTail, AfterRound, Budget, NeverFits;
    var t := AfterRounds(json, ms, clock, accepts, rounds);
    RoundsKeepDecided(json, ms, clock, accepts, rounds);
    if |t| < FORCE_FLUSH_THRESHOLD && rounds > 0 {
      last := rounds;
    } else if |t| < FORCE_FLUSH_THRESHOLD {
      last := 1;
      RoundShrinks(json, ms, clock(0), accepts(0));
      assert AfterRounds(json, ms, clock, accepts, 0) == ms;
    } else {
      HeadOfShortTail(json, t);
      RoundUsesBudget(json, t, clock(rounds), accepts(rounds));
      last := ShortTailEnds(json, ms, clock, accepts, rounds + 1);
    }
  }

  /** For messages that always or never fit once replaced, the loop ends, whatever the times and the responses, if and
    * only if no message that never fits has so many messages behind it that, with it, they keep the loop going. */
  lemma FlushEndsIff(json: Stringify, ms: seq<Message>, clock: nat -> int, accepts: nat -> bool)
    requires Decided(json, ms) && RetriesDescend(ms)
    ensures LoopEnds(json, ms, clock, accepts) <==> !LongTail(json, ms)
  {
    hide Decided, RetriesDescend, LongTail, AfterRounds;
    if LongTail(json, ms) {
      LongTailIsLong(json, ms);
      forall rounds: nat ensures StillFlushing(json, ms, clock, accepts, rounds) {
        RoundsKeepDecided(json, ms, clock, accepts, rounds);
        LongTailIsLong(json, AfterRounds(json, ms, clock, accepts, rounds));
      }
    } else {
      var rounds := ShortTailEnds(json, ms, clock, accepts, 0);
    }
  }

  class DatadogLogSink {
    const json: Stringify
    var messages: seq<Message>

    constructor (json: Stringify)
      ensures messages == [] && this.json == json
    {
      this.json := json;
      messages := [];
    }

    /** Queues a message; returns whether this forces a flush. */
    method Log(m: Message, isError: bool) returns (flush: bool)
      modifies this
      ensures messages == old(messages) + [m]
      ensures flush == (isError || |messages| == FORCE_FLUSH_THRESHOLD)
    {
      messages := messages + [m];
      flush := isError || |messages| == FORCE_FLUSH_THRESHOLD;
    }

    /** Builds the next request from the front of the queue, updating the messages it looks at in place. */
    method Prepare(flushTime: int) returns (stringified: seq<string>)
      modifies this
      ensures messages == AfterPrepare(json, old(messages), flushTime)
      ensures stringified == Entries(json, old(messages), flushTime)
    {
      hide Prepared, AfterPrepare, Entries;
      ghost var ms := messages;
      stringified := [];
      var totalBytes: nat, i: nat := 0, 0;
      while i < |messages|
        invariant i == |stringified| <= |messages| == |ms| && i <= MAX_LOG_ENTRIES_PER_FLUSH
        invariant BatchSize(json, ms, flushTime) == i + Added(json, ms, flushTime, i, totalBytes)
        invariant forall j :: 0 <= j < |ms| ==> messages[j] == if j < i then Prepared(json, ms[j], flushTime) else ms[j]
        invariant forall j :: 0 <= j < i ==> stringified[j] == json(Prepared(json, ms[j], flushTime))
        invariant i < MAX_LOG_ENTRIES_PER_FLUSH
      {
        var m := Prepared(json, messages[i], flushTime);
        messages := messages[i := m];
        var str := json(m);
        if |str| + totalBytes + |stringified| > MAX_ENTRY_CHARS {
          break;
        }
        totalBytes := totalBytes + |str|;
        stringified := stringified + [str];
        i := i + 1;
        if |stringified| == MAX_LOG_ENTRIES_PER_FLUSH {
          break;
        }
      }
      PreparedAll(json, ms, flushTime, messages, stringified);
    }

    /** Handles the response to a request that carried the first `n` messages. */
    method Settle(n: nat, ok: bool)
      requires n <= |messages|
      modifies this
      ensures messages == AfterSend(old(messages), n, ok)
    {
      ghost var ms := messages;
      if ok {
        messages := messages[n..];
      } else {
        var numWithTooManyRetries: nat := 0;
        for i := 0 to n
          invariant |messages| == |ms| && numWithTooManyRetries <= i
          invariant forall j :: 0 <= j < |ms| ==> messages[j] == if j < i then Retried(ms, n)[j] else ms[j]
          invariant numWithTooManyRetries == Exhausted(Retried(ms, n), i)
        {
          var m := messages[i];
          m := m.(flushRetryCount := m.flushRetryCount + 1);
          messages := messages[i := m];
          if m.flushRetryCount > MAX_MESSAGE_RETRIES {
            numWithTooManyRetries := numWithTooManyRetries + 1;
          }
        }
        assert messages == Retried(ms, n);
        if numWithTooManyRetries > 0 {
          messages := messages[numWithTooManyRetries..];
        }
      }
    }

    /** The flush loop while nothing more is logged.  `clock` and `accepts` say when each request is built and
      * whether it succeeds.  The loop ends if no message that never fits has a long tail, and leaves fewer messages
      * than force a flush. */
    method Flush(clock: nat -> int, accepts: nat -> bool) returns (requests: nat)
      requires RetriesDescend(messages) && Decided(json, messages) && !LongTail(json, messages)
      modifies this
      ensures messages == AfterRounds(json, old(messages), clock, accepts, requests)
      ensures RetriesDescend(messages) && |messages| < FORCE_FLUSH_THRESHOLD
      ensures requests <= Budget(old(messages)) + 1 && (requests == 0 <==> old(messages) == [])
      ensures forall rounds :: 0 < rounds < requests ==> StillFlushing(json, old(messages), clock, accepts, rounds)
    {
      hide Prepared, RetriesDescend, Decided, LongTail, NeverFits, Budget, AfterSend, AfterPrepare, Entries, AfterRound;
      requests := 0;
      if |messages| == 0 {
        return;
      }
      ghost var first := messages;
      while true
        invariant messages == AfterRounds(json, first, clock, accepts, requests) && messages != []
        invariant requests + Budget(messages) <= Budget(first)
        invariant requests > 0 ==> |messages| >= FORCE_FLUSH_THRESHOLD
        invariant forall rounds :: 0 < rounds <= requests ==> StillFlushing(json, first, clock, accepts, rounds)
        decreases Budget(messages)
      {
        ghost var ms := messages;
        RoundsKeepDecided(json, first, clock, accepts, requests);
        RoundUsesBudget(json, ms, clock(requests), accepts(requests));
        RoundsKeepDecided(json, first, clock, accepts, requests + 1);
        if |ms| >= FORCE_FLUSH_THRESHOLD {
          HeadOfShortTail(json, ms);
        } else {
          RoundShrinks(json, ms, clock(requests), accepts(requests));
        }
        var stringified := Prepare(clock(requests));
        SameRound(json, ms, clock(requests), accepts(requests), |stringified|);
        Settle(|stringified|, accepts(requests));
        requests := requests + 1;
        if |messages| < FORCE_FLUSH_THRESHOLD {
          break;
        }
      }
    }
  }

  lemma SameRound(json: Stringify, ms: seq<Message>, now: int, ok: bool, n: nat)
    requires n == |Entries(json, ms, now)|
    ensures n <= |AfterPrepare(json, ms, now)|
    ensures AfterSend(AfterPrepare(json, ms, now), n, ok) == AfterRound(json, ms, now, ok)
  {
  }

  lemma FirstFits(json: Stringify, m: Message, now: int)
    requires ReplacementFits(json, m)
    ensures |json(Prepared(json, m, now))| <= MAX_ENTRY_CHARS
  {
    var p := Prepared(json, m, now);
    if p.content.Dropped? {
      assert p == m.(content := Dropped(p.content.length), flushDelayMs := p.flushDelayMs,
        flushRetryCount := m.flushRetryCount);
    }
  }

  /** What the loop that builds a request has done when it ends. */
  lemma PreparedAll(json: Stringify, ms: seq<Message>, flushTime: int, messages: seq<Message>, stringified: seq<string>)
    requires |messages| == |ms| && |stringified| == BatchSize(json, ms, flushTime) <= |ms|
    requires forall j :: 0 <= j < |ms| ==>
      messages[j] == if j < Touched(json, ms, flushTime) then Prepared(json, ms[j], flushTime) else ms[j]
    requires forall j :: 0 <= j < |stringified| ==> stringified[j] == json(Prepared(json, ms[j], flushTime))
    ensures messages == AfterPrepare(json, ms, flushTime) && stringified == Entries(json, ms, flushTime)
  {
  }
}
