/** What the log sink's requests say: the text of every entry, and where a batch ends. */
module LogContents {
  import opened LogSink

  // ---------- one request ----------

  /** The message with the delay that a request built at this time reports. */
  function Delayed(m: Message, flushTime: int): Message {
    m.(flushDelayMs := flushTime - m.date)
  }

  /** What becomes of a message that a request looks at: only a text that is too long is replaced. */
  ghost predicate WrittenAs(json: Stringify, m: Message, flushTime: int, written: Message) {
    var text := json(Delayed(m, flushTime));
    if |text| <= MAX_ENTRY_CHARS then written == Delayed(m, flushTime)
    else written == Delayed(m, flushTime).(content := Dropped(|text|))
  }

  /** Every message in the batch, and the first one that did not fit, is written with its current delay, and keeps its
    * content if its text fits.  The request carries the texts of the batch in order, and no other message changes. */
  lemma RequestSaysWhatWasLogged(json: Stringify, ms: seq<Message>, flushTime: int, i: nat)
    requires i < |ms|
    ensures var n, queue, entries := BatchSize(json, ms, flushTime), AfterPrepare(json, ms, flushTime),
                                     Entries(json, ms, flushTime);
      && |queue| == |ms| && |entries| == n <= |ms|
      && (i < n ==> WrittenAs(json, ms[i], flushTime, queue[i]) && entries[i] == json(queue[i]))
      && (i == n < MAX_LOG_ENTRIES_PER_FLUSH ==> WrittenAs(json, ms[i], flushTime, queue[i]))
      && (i > n || i == MAX_LOG_ENTRIES_PER_FLUSH ==> queue[i] == ms[i])
  {
  }

  lemma {:induction false} EndsFrom(json: Stringify, ms: seq<Message>, flushTime: int, i: nat)
    requires i <= BatchSize(json, ms, flushTime)
    requires var entries := Entries(json, ms, flushTime);
      var total := |Body(entries[..i])| - (if i == 0 then 0 else i - 1);
      total >= 0 && |entries| == i + Added(json, ms, flushTime, i, total)
    ensures var n, entries := BatchSize(json, ms, flushTime), Entries(json, ms, flushTime);
      n == |ms| || n == MAX_LOG_ENTRIES_PER_FLUSH
      || (n < |ms| && |Body(entries + [json(Prepared(json, ms[n], flushTime))])| > MAX_ENTRY_CHARS)
    decreases BatchSize(json, ms, flushTime) - i
  {
    hide Prepared;
    var n, entries := BatchSize(json, ms, flushTime), Entries(json, ms, flushTime);
    var total := |Body(entries[..i])| - (if i == 0 then 0 else i - 1);
    assert entries[..i + 0] == entries[..i];
    if i < n {
      BodyOfOneMore(entries[..i], entries[i]);
      assert entries[..i + 1] == entries[..i] + [entries[i]];
      EndsFrom(json, ms, flushTime, i + 1);
    } else if n < |ms| && n < MAX_LOG_ENTRIES_PER_FLUSH {
      assert entries[..i] == entries;
      BodyOfOneMore(entries, json(Prepared(json, ms[n], flushTime)));
    }
  }

  lemma BodyOfOneMore(entries: seq<string>, text: string)
    ensures |Body(entries + [text])| == |Body(entries)| + |text| + if entries == [] then 0 else 1
  {
    assert (entries + [text])[..|entries|] == entries;
  }

  /** A batch is as large as it can be: it ends only at the end of the queue, at the allowed number of entries, or at a
    * message with which the body would be too long. */
  lemma BatchIsMaximal(json: Stringify, ms: seq<Message>, flushTime: int)
    ensures var n, entries := BatchSize(json, ms, flushTime), Entries(json, ms, flushTime);
      n == |ms| || n == MAX_LOG_ENTRIES_PER_FLUSH
      || (n < |ms| && |Body(entries + [json(Prepared(json, ms[n], flushTime))])| > MAX_ENTRY_CHARS)
  {
    assert Entries(json, ms, flushTime)[..0] == [];
    EndsFrom(json, ms, flushTime, 0);
  }

  // ---------- over all runs ----------

  /** The dates of the messages logged in these steps. */
  function Dates(steps: seq<Step>): seq<int> {
    if steps == [] then [] else
      var last := steps[|steps| - 1];
      Dates(steps[..|steps| - 1]) + if last.Log? then [last.date] else []
  }

  /** The text of the message as it was logged was too long for some delay and some number of failures. */
  ghost predicate WasTooLong(json: Stringify, m: Message) {
    exists delay, count :: |json(Message(m.id, m.date, Original, delay, count))| > MAX_ENTRY_CHARS
  }

  /** The message says what was logged, or was replaced because it once was too long. */
  ghost predicate SaysWhatWasLogged(json: Stringify, m: Message, dates: seq<int>) {
    && m.id < |dates| && m.date == dates[m.id]
    && (m.content.Dropped? ==> WasTooLong(json, m))
  }

  ghost predicate AllAsLogged(json: Stringify, ms: seq<Message>, dates: seq<int>) {
    forall i :: 0 <= i < |ms| ==> SaysWhatWasLogged(json, ms[i], dates)
  }

  lemma PreparedAsLogged(json: Stringify, m: Message, now: int, dates: seq<int>)
    requires SaysWhatWasLogged(json, m, dates)
    ensures SaysWhatWasLogged(json, Prepared(json, m, now), dates)
  {
    var d := Delayed(m, now);
    if m.content.Original? && |json(d)| > MAX_ENTRY_CHARS {
      assert d == Message(m.id, m.date, Original, d.flushDelayMs, d.flushRetryCount);
      assert WasTooLong(json, Prepared(json, m, now));
    }
  }

  lemma StartKeepsContents(json: Stringify, ms: seq<Message>, now: int, dates: seq<int>)
    requires AllAsLogged(json, ms, dates)
    ensures AllAsLogged(json, AfterPrepare(json, ms, now), dates)
  {
    hide Prepared, SaysWhatWasLogged, Touched;
    forall i | 0 <= i < |ms| ensures SaysWhatWasLogged(json, AfterPrepare(json, ms, now)[i], dates) {
      PreparedAsLogged(json, ms[i], now, dates);
    }
  }

  lemma FinishKeepsContents(json: Stringify, ms: seq<Message>, n: nat, ok: bool, dates: seq<int>)
    requires n <= |ms| && AllAsLogged(json, ms, dates)
    ensures AllAsLogged(json, AfterSend(ms, n, ok), dates)
  {
    hide SaysWhatWasLogged, Exhausted;
    var r := Retried(ms, n);
    forall i | 0 <= i < |r| ensures SaysWhatWasLogged(json, r[i], dates) {
      RetriedAsLogged(json, ms[i], dates);
    }
  }

  lemma RetriedAsLogged(json: Stringify, m: Message, dates: seq<int>)
    requires SaysWhatWasLogged(json, m, dates)
    ensures SaysWhatWasLogged(json, m.(flushRetryCount := m.flushRetryCount + 1), dates)
  {
    var m' := m.(flushRetryCount := m.flushRetryCount + 1);
    if WasTooLong(json, m) {
      var delay, count :| |json(Message(m.id, m.date, Original, delay, count))| > MAX_ENTRY_CHARS;
      assert m'.id == m.id && m'.date == m.date;
      assert WasTooLong(json, m');
    }
  }

  lemma LogKeepsContents(json: Stringify, s: State, date: int, dates: seq<int>)
    requires AllAsLogged(json, s.queue, dates) && s.logged == |dates|
    ensures AllAsLogged(json, Stepped(json, s, Log(date)).queue, dates + [date])
  {
    hide WasTooLong;
  }

  lemma {:induction false} ContentsAreKept(json: Stringify, steps: seq<Step>)
    ensures var s := After(json, EMPTY, steps);
      s.logged == |Dates(steps)| && AllAsLogged(json, s.queue, Dates(steps))
    decreases |steps|
  {
    if steps != [] {
      var s, step := After(json, EMPTY, steps[..|steps| - 1]), steps[|steps| - 1];
      ContentsAreKept(json, steps[..|steps| - 1]);
      hide AllAsLogged, AfterPrepare, AfterSend, BatchSize;
      match step
      case Log(date) => LogKeepsContents(json, s, date, Dates(steps[..|steps| - 1]));
      case StartSend(now) =>
        if Enabled(s, step) { StartKeepsContents(json, s.queue, now, Dates(steps)); }
      case FinishSend(ok) =>
        if Enabled(s, step) { FinishKeepsContents(json, s.queue, s.sending, ok, Dates(steps)); }
    }
  }

  /** In every run, the `i`-th entry of the next request is the text of the message that is next in the log after the
    * retired ones and `i` others, with the date at which it was logged, the present delay, and the number of requests
    * that have failed with it.  Its content is the logged one, unless that once made its text too long. */
  lemma RequestsCarryTheLog(json: Stringify, steps: seq<Step>, now: int, i: nat) returns (m: Message)
    requires i < |Entries(json, After(json, EMPTY, steps).queue, now)|
    ensures var s, dates := After(json, EMPTY, steps), Dates(steps);
      && m.id == |s.retired| + i < |dates| && m.date == dates[m.id]
      && m.flushDelayMs == now - m.date && m.flushRetryCount == Count(s.sends, m.id, false)
      && Entries(json, s.queue, now)[i] == json(m)
      && (m.content.Original? || WasTooLong(json, m))
  {
    var s, dates := After(json, EMPTY, steps), Dates(steps);
    ContentsAreKept(json, steps);
    LogIsConserved(json, steps);
    assert QueuedOk(s, i);
    PreparedAsLogged(json, s.queue[i], now, dates);
    m := Prepared(json, s.queue[i], now);
  }
}
