/**
 * `Stream`: one track's playback session. It waits for the player to become ready, retries
 * a failed load at most three times, then relays the sink's events to its caller over an
 * unbounded channel. The player's events, the sink's channel and each attempt's events are
 * inputs; the caller's channel is the sequence of events it has accepted.
 */
module Stream {
  import opened Wrappers
  import opened Ints
  import ChannelSinks

  datatype StreamError = LoadError(message: string) | Unknown

  datatype StreamEvent =
    | Write(bytes: nat, total: nat, content: seq<I32>)
    | Finished
    | Retry(attempt: nat, maxAttempts: nat)
    | Error(error: StreamError)

  /** The player events `load` tells apart; everything else is `OtherEvent`. */
  datatype PlayerEvent = Playing | TrackChanged | EndOfTrack | Unavailable | OtherEvent

  // ---- load ----

  /** What a load attempt comes to after the player events it has seen. */
  datatype LoadOutcome = Ready | NotAvailable | Waiting

  /** `Some(Playing)`, `Some(TrackChanged)` and `Some(EndOfTrack)` mean the track is playing. */
  predicate IsReadySignal(e: Option<PlayerEvent>)
  {
    e == Some(Playing) || e == Some(TrackChanged) || e == Some(EndOfTrack)
  }

  predicate IsDecisive(e: Option<PlayerEvent>)
  {
    IsReadySignal(e) || e == Some(Unavailable)
  }

  /** The outcome of `load` on the player events received, in order. */
  function Classify(received: seq<Option<PlayerEvent>>): LoadOutcome
  {
    if received == [] then Waiting
    else if IsReadySignal(received[0]) then Ready
    else if received[0] == Some(Unavailable) then NotAvailable
    else Classify(received[1..])
  }

  /**
   * `load`'s loop: read player events until one says the track plays (success) or is
   * unavailable (failure), skipping every other event and every empty read. If the events
   * run out first, the attempt is still waiting.
   */
  method Load(received: seq<Option<PlayerEvent>>) returns (outcome: LoadOutcome)
    ensures outcome == Classify(received)
  {
    var i := 0;
    while i < |received|
      invariant 0 <= i <= |received|
      invariant Classify(received) == Classify(received[i..])
    {
      assert received[i..][1..] == received[i + 1..];
      match received[i] {
        case Some(Playing) => return Ready;
        case Some(TrackChanged) => return Ready;
        case Some(EndOfTrack) => return Ready;
        case Some(Unavailable) => return NotAvailable;
        case _ =>
      }
      i := i + 1;
    }
    return Waiting;
  }

  /** `load` succeeds exactly when the first decisive event is a ready signal. */
  lemma {:induction false} ClassifyReady(received: seq<Option<PlayerEvent>>)
    ensures Classify(received) == Ready <==>
      exists i :: 0 <= i < |received| && IsReadySignal(received[i])
        && forall j :: 0 <= j < i ==> !IsDecisive(received[j])
  {
    if received != [] && !IsDecisive(received[0]) {
      var rest := received[1..];
      ClassifyReady(rest);
      if Classify(received) == Ready {
        var i :| 0 <= i < |rest| && IsReadySignal(rest[i]) && forall j :: 0 <= j < i ==> !IsDecisive(rest[j]);
        assert received[i + 1] == rest[i];
        assert forall j :: 0 <= j < i + 1 ==> !IsDecisive(received[j]) by {
          forall j | 0 < j < i + 1 ensures !IsDecisive(received[j]) { assert received[j] == rest[j - 1]; }
        }
      }
      if exists i :: 0 <= i < |received| && IsReadySignal(received[i])
          && forall j :: 0 <= j < i ==> !IsDecisive(received[j]) {
        var i :| 0 <= i < |received| && IsReadySignal(received[i])
          && forall j :: 0 <= j < i ==> !IsDecisive(received[j]);
        assert i > 0 && IsReadySignal(rest[i - 1]);
        assert forall j :: 0 <= j < i - 1 ==> !IsDecisive(rest[j]) by {
          forall j | 0 <= j < i - 1 ensures !IsDecisive(rest[j]) { assert rest[j] == received[j + 1]; }
        }
      }
    }
  }

  /** `load` fails exactly when the first decisive event is `Unavailable`. */
  lemma {:induction false} ClassifyNotAvailable(received: seq<Option<PlayerEvent>>)
    ensures Classify(received) == NotAvailable <==>
      exists i :: 0 <= i < |received| && received[i] == Some(Unavailable)
        && forall j :: 0 <= j < i ==> !IsDecisive(received[j])
  {
    if received != [] && !IsDecisive(received[0]) {
      var rest := received[1..];
      ClassifyNotAvailable(rest);
      if Classify(received) == NotAvailable {
        var i :| 0 <= i < |rest| && rest[i] == Some(Unavailable) && forall j :: 0 <= j < i ==> !IsDecisive(rest[j]);
        assert received[i + 1] == rest[i];
        assert forall j :: 0 <= j < i + 1 ==> !IsDecisive(received[j]) by {
          forall j | 0 < j < i + 1 ensures !IsDecisive(received[j]) { assert received[j] == rest[j - 1]; }
        }
      }
      if exists i :: 0 <= i < |received| && received[i] == Some(Unavailable)
          && forall j :: 0 <= j < i ==> !IsDecisive(received[j]) {
        var i :| 0 <= i < |received| && received[i] == Some(Unavailable)
          && forall j :: 0 <= j < i ==> !IsDecisive(received[j]);
        assert i > 0 && rest[i - 1] == Some(Unavailable);
        assert forall j :: 0 <= j < i - 1 ==> !IsDecisive(rest[j]) by {
          forall j | 0 <= j < i - 1 ensures !IsDecisive(rest[j]) { assert rest[j] == received[j + 1]; }
        }
      }
    }
  }

  /** `load` keeps waiting exactly when no event so far is decisive. */
  lemma {:induction false} ClassifyWaiting(received: seq<Option<PlayerEvent>>)
    ensures Classify(received) == Waiting <==> forall i :: 0 <= i < |received| ==> !IsDecisive(received[i])
  {
    if received != [] {
      var rest := received[1..];
      ClassifyWaiting(rest);
      assert forall i :: 0 <= i < |rest| ==> rest[i] == received[i + 1];
    }
  }

  // ---- send_event ----

  /** The sending half of the caller's unbounded channel. */
  class EventSender {
    var delivered: seq<StreamEvent>
    var receiverAlive: bool

    constructor (receiverAlive: bool)
      ensures delivered == [] && this.receiverAlive == receiverAlive
    {
      delivered := [];
      this.receiverAlive := receiverAlive;
    }
  }

  /** What the caller receives of `events`: all of them, or nothing once it is gone. */
  function Sent(events: seq<StreamEvent>, receiverAlive: bool): seq<StreamEvent>
  {
    if receiverAlive then events else []
  }

  /** `send_event`: send, and swallow (log) the failure when the receiver is gone. */
  method SendEvent(tx: EventSender, event: StreamEvent)
    modifies tx
    ensures tx.receiverAlive == old(tx.receiverAlive)
    ensures tx.delivered == old(tx.delivered) + Sent([event], tx.receiverAlive)
  {
    if tx.receiverAlive {
      tx.delivered := tx.delivered + [event];
    }
  }

  /** Sending two runs of events one after the other sends their concatenation. */
  lemma SentAppend(before: seq<StreamEvent>, a: seq<StreamEvent>, b: seq<StreamEvent>, receiverAlive: bool)
    ensures (before + Sent(a, receiverAlive)) + Sent(b, receiverAlive) == before + Sent(a + b, receiverAlive)
  {
  }

  // ---- The relay loop ----

  /** A sink event as the stream forwards it. */
  function Forward(e: ChannelSinks.SinkEvent): StreamEvent
  {
    match e
    case Write(bytes, total, content) => Write(bytes, total, content)
    case Finished => Finished
  }

  /**
   * The events the relay loop forwards from the sink's channel: every `Write` as it is, up
   * to and including the first `Finished`; the loop stops there or when the channel closes.
   */
  function Relayed(sinkEvents: seq<ChannelSinks.SinkEvent>): seq<StreamEvent>
  {
    if sinkEvents == [] then []
    else if sinkEvents[0].Finished? then [Finished]
    else [Forward(sinkEvents[0])] + Relayed(sinkEvents[1..])
  }

  /** The sink events before the first `Finished` (all of them if there is none). */
  function BeforeFinished(sinkEvents: seq<ChannelSinks.SinkEvent>): (r: seq<ChannelSinks.SinkEvent>)
    ensures r <= sinkEvents
    ensures forall i :: 0 <= i < |r| ==> r[i].Write?
    ensures |r| < |sinkEvents| ==> sinkEvents[|r|].Finished?
  {
    if sinkEvents == [] || sinkEvents[0].Finished? then []
    else [sinkEvents[0]] + BeforeFinished(sinkEvents[1..])
  }

  /** Every event of `events`, forwarded. */
  function ForwardAll(events: seq<ChannelSinks.SinkEvent>): (r: seq<StreamEvent>)
    ensures |r| == |events|
    ensures forall i :: 0 <= i < |r| ==> r[i] == Forward(events[i])
  {
    seq(|events|, i requires 0 <= i < |events| => Forward(events[i]))
  }

  /** The `Finished` the relay sends, if the sink sent one. */
  function FinishedIfAny(sinkEvents: seq<ChannelSinks.SinkEvent>): seq<StreamEvent>
  {
    if |BeforeFinished(sinkEvents)| < |sinkEvents| then [Finished] else []
  }

  /**
   * The relay forwards, unchanged and in order, exactly the sink's events before its first
   * `Finished`, then that `Finished` if there is one, and nothing after it.
   */
  lemma {:induction false} RelayedShape(sinkEvents: seq<ChannelSinks.SinkEvent>)
    ensures Relayed(sinkEvents) == ForwardAll(BeforeFinished(sinkEvents)) + FinishedIfAny(sinkEvents)
  {
    if sinkEvents != [] && !sinkEvents[0].Finished? {
      var rest := sinkEvents[1..];
      RelayedShape(rest);
      var b := BeforeFinished(sinkEvents);
      assert b == [sinkEvents[0]] + BeforeFinished(rest);
      assert ForwardAll(b) == [Forward(sinkEvents[0])] + ForwardAll(BeforeFinished(rest));
      assert FinishedIfAny(sinkEvents) == FinishedIfAny(rest);
    }
  }

  /** The samples carried by the `Write` events of a stream, in order. */
  function StreamSamples(events: seq<StreamEvent>): seq<I32>
  {
    if events == [] then []
    else (if events[0].Write? then events[0].content else []) + StreamSamples(events[1..])
  }

  lemma {:induction false} StreamSamplesAppend(a: seq<StreamEvent>, b: seq<StreamEvent>)
    ensures StreamSamples(a + b) == StreamSamples(a) + StreamSamples(b)
  {
    if a == [] {
      assert a + b == b;
    } else {
      assert (a + b)[1..] == a[1..] + b;
      StreamSamplesAppend(a[1..], b);
    }
  }

  /** Forwarding keeps every sample, in order. */
  lemma {:induction false} ForwardAllSamples(events: seq<ChannelSinks.SinkEvent>)
    ensures StreamSamples(ForwardAll(events)) == ChannelSinks.WrittenSamples(events)
    decreases |events|
  {
    if events != [] {
      var init, last := events[..|events| - 1], events[|events| - 1];
      ForwardAllSamples(init);
      assert ForwardAll(events) == ForwardAll(init) + [Forward(last)];
      StreamSamplesAppend(ForwardAll(init), [Forward(last)]);
      assert [Forward(last)][1..] == [];
    }
  }

  /**
   * No sample is dropped or duplicated: the samples relayed are those the sink wrote
   * before its first `Finished`, in order.
   */
  lemma RelayedSamples(sinkEvents: seq<ChannelSinks.SinkEvent>)
    ensures StreamSamples(Relayed(sinkEvents)) == ChannelSinks.WrittenSamples(BeforeFinished(sinkEvents))
  {
    RelayedShape(sinkEvents);
    ForwardAllSamples(BeforeFinished(sinkEvents));
    StreamSamplesAppend(ForwardAll(BeforeFinished(sinkEvents)), FinishedIfAny(sinkEvents));
  }

  /** Relaying a run of `Write` events and then more relays the run and then the rest. */
  lemma {:induction false} RelayedAppend(writes: seq<ChannelSinks.SinkEvent>, more: seq<ChannelSinks.SinkEvent>)
    requires forall i :: 0 <= i < |writes| ==> writes[i].Write?
    ensures Relayed(writes + more) == Relayed(writes) + Relayed(more)
  {
    if writes == [] {
      assert writes + more == more;
    } else {
      assert (writes + more)[1..] == writes[1..] + more;
      RelayedAppend(writes[1..], more);
    }
  }

  /** One more `Write` after a run of `Write`s extends the relay by that event. */
  lemma RelayStepWrite(sinkEvents: seq<ChannelSinks.SinkEvent>, i: nat)
    requires i < |sinkEvents| && sinkEvents[i].Write?
    requires forall j :: 0 <= j < i ==> sinkEvents[j].Write?
    ensures Relayed(sinkEvents[..i + 1]) == Relayed(sinkEvents[..i]) + [Forward(sinkEvents[i])]
  {
    RelayedAppend(sinkEvents[..i], [sinkEvents[i]]);
    assert sinkEvents[..i + 1] == sinkEvents[..i] + [sinkEvents[i]];
  }

  /** A `Finished` after a run of `Write`s ends the relay. */
  lemma RelayStepFinished(sinkEvents: seq<ChannelSinks.SinkEvent>, i: nat)
    requires i < |sinkEvents| && sinkEvents[i].Finished?
    requires forall j :: 0 <= j < i ==> sinkEvents[j].Write?
    ensures Relayed(sinkEvents) == Relayed(sinkEvents[..i]) + [Finished]
  {
    RelayedAppend(sinkEvents[..i], sinkEvents[i..]);
    assert sinkEvents[..i] + sinkEvents[i..] == sinkEvents;
  }

  /**
   * The relay loop: forward each sink event until the first `Finished` (forwarded too) or
   * until the sink's channel closes.
   */
  method Relay(tx: EventSender, sinkEvents: seq<ChannelSinks.SinkEvent>)
    modifies tx
    ensures tx.receiverAlive == old(tx.receiverAlive)
    ensures tx.delivered == old(tx.delivered) + Sent(Relayed(sinkEvents), tx.receiverAlive)
  {
    var i := 0;
    while i < |sinkEvents|
      invariant 0 <= i <= |sinkEvents|
      invariant tx.receiverAlive == old(tx.receiverAlive)
      invariant forall j :: 0 <= j < i ==> sinkEvents[j].Write?
      invariant tx.delivered == old(tx.delivered) + Sent(Relayed(sinkEvents[..i]), tx.receiverAlive)
    {
      ghost var sentBefore := Relayed(sinkEvents[..i]);
      match sinkEvents[i] {
        case Write(bytes, total, content) =>
          SendEvent(tx, Write(bytes, total, content));
          RelayStepWrite(sinkEvents, i);
          SentAppend(old(tx.delivered), sentBefore, [Forward(sinkEvents[i])], tx.receiverAlive);
        case Finished =>
          SendEvent(tx, Finished);
          RelayStepFinished(sinkEvents, i);
          SentAppend(old(tx.delivered), sentBefore, [Finished], tx.receiverAlive);
          return;
      }
      i := i + 1;
    }
    assert sinkEvents[..i] == sinkEvents;
  }

  // ---- The retry driver ----

  /** `retries(3)`: a failed first attempt is retried at most three times. */
  const MaxRetries: nat := 3

  /** The message of the terminal error; `idText` is the track id as `{:?}` prints it. */
  function LoadErrorEvent(idText: string): StreamEvent
  {
    Error(LoadError("Failed to load track: " + idText))
  }

  /**
   * What each of the four attempts' `load` comes to, when attempt `k` sees the player
   * events `attemptEvents(k)`. An attempt after a ready or waiting one is never made, so
   * its entry is never read.
   */
  function Outcomes(attemptEvents: nat -> seq<Option<PlayerEvent>>): (r: seq<LoadOutcome>)
    ensures |r| == MaxRetries + 1
    ensures forall k :: 0 <= k < |r| ==> r[k] == Classify(attemptEvents(k))
  {
    seq(MaxRetries + 1, k requires 0 <= k => Classify(attemptEvents(k)))
  }

  /**
   * The events of the spawned task from attempt `k` (0-based) on, where `outcomes[k]` is
   * what attempt `k`'s `load` comes to. A failed attempt before the last is followed by a
   * `Retry` numbered `k + 1`; a failed last attempt ends in one `Error`; a ready one starts
   * the relay; one still waiting never returns, and nothing more is sent.
   */
  function AttemptsFrom(k: nat, outcomes: seq<LoadOutcome>, relayed: seq<StreamEvent>, failure: StreamEvent)
    : seq<StreamEvent>
    requires |outcomes| == MaxRetries + 1
    requires k <= MaxRetries
    decreases MaxRetries - k
  {
    match outcomes[k]
    case Ready => relayed
    case Waiting => []
    case NotAvailable =>
      if k < MaxRetries then [Retry(k + 1, MaxRetries)] + AttemptsFrom(k + 1, outcomes, relayed, failure)
      else [failure]
  }

  /** Everything the spawned task of `stream` sends. */
  function TaskEvents(outcomes: seq<LoadOutcome>, sinkEvents: seq<ChannelSinks.SinkEvent>,
                      idText: string): seq<StreamEvent>
    requires |outcomes| == MaxRetries + 1
  {
    AttemptsFrom(0, outcomes, Relayed(sinkEvents), LoadErrorEvent(idText))
  }

  /** The `Retry` events numbered `lo + 1` up to `hi`, each announcing three retries at most. */
  function Retries(lo: nat, hi: nat): (r: seq<StreamEvent>)
    requires lo <= hi
    ensures |r| == hi - lo
    ensures forall i :: 0 <= i < |r| ==> r[i] == Retry(lo + i + 1, MaxRetries)
    decreases hi - lo
  {
    if lo == hi then [] else [Retry(lo + 1, MaxRetries)] + Retries(lo + 1, hi)
  }

  /** The number of failed attempts in a row from attempt `k` on (the last attempt is 3). */
  function Failures(k: nat, outcomes: seq<LoadOutcome>): (n: nat)
    requires |outcomes| == MaxRetries + 1
    requires k <= MaxRetries + 1
    ensures k + n <= MaxRetries + 1
    decreases MaxRetries + 1 - k
  {
    if k > MaxRetries || outcomes[k] != NotAvailable then 0
    else 1 + Failures(k + 1, outcomes)
  }

  /** The events from attempt `k` on when every attempt from `k` fails: retries, then the `Error`. */
  lemma {:induction false} AllFailClosedForm(k: nat, outcomes: seq<LoadOutcome>,
                                             relayed: seq<StreamEvent>, failure: StreamEvent)
    requires |outcomes| == MaxRetries + 1
    requires k <= MaxRetries && k + Failures(k, outcomes) == MaxRetries + 1
    ensures AttemptsFrom(k, outcomes, relayed, failure) == Retries(k, MaxRetries) + [failure]
    decreases MaxRetries - k
  {
    if k < MaxRetries {
      AllFailClosedForm(k + 1, outcomes, relayed, failure);
    }
  }

  /**
   * The events from attempt `k` on when the attempt after the failures is ready: the
   * retries of the failed attempts, then the relay.
   */
  lemma {:induction false} ReadyClosedForm(k: nat, outcomes: seq<LoadOutcome>,
                                           relayed: seq<StreamEvent>, failure: StreamEvent)
    requires |outcomes| == MaxRetries + 1
    requires k <= MaxRetries
    requires k + Failures(k, outcomes) <= MaxRetries && outcomes[k + Failures(k, outcomes)] == Ready
    ensures AttemptsFrom(k, outcomes, relayed, failure) == Retries(k, k + Failures(k, outcomes)) + relayed
    decreases MaxRetries - k
  {
    if outcomes[k] == NotAvailable {
      ReadyClosedForm(k + 1, outcomes, relayed, failure);
    }
  }

  /**
   * The events from attempt `k` on when the attempt after the failures is still waiting:
   * the retries of the failed attempts and nothing more.
   */
  lemma {:induction false} WaitingClosedForm(k: nat, outcomes: seq<LoadOutcome>,
                                             relayed: seq<StreamEvent>, failure: StreamEvent)
    requires |outcomes| == MaxRetries + 1
    requires k <= MaxRetries
    requires k + Failures(k, outcomes) <= MaxRetries && outcomes[k + Failures(k, outcomes)] == Waiting
    ensures AttemptsFrom(k, outcomes, relayed, failure) == Retries(k, k + Failures(k, outcomes))
    decreases MaxRetries - k
  {
    if outcomes[k] == NotAvailable {
      WaitingClosedForm(k + 1, outcomes, relayed, failure);
    }
  }

  /**
   * The task's events, in closed form: with `n` failed attempts in a row, `n` numbered
   * retries come first; four failures end in exactly one `Error` and nothing else; a ready
   * attempt is followed by the relay.
   */
  lemma TaskEventsClosedForm(outcomes: seq<LoadOutcome>,
                             sinkEvents: seq<ChannelSinks.SinkEvent>, idText: string)
    requires |outcomes| == MaxRetries + 1
    ensures Failures(0, outcomes) == MaxRetries + 1 ==>
      TaskEvents(outcomes, sinkEvents, idText) == Retries(0, MaxRetries) + [LoadErrorEvent(idText)]
    ensures Failures(0, outcomes) <= MaxRetries && outcomes[Failures(0, outcomes)] == Ready ==>
      TaskEvents(outcomes, sinkEvents, idText) == Retries(0, Failures(0, outcomes)) + Relayed(sinkEvents)
    ensures Failures(0, outcomes) <= MaxRetries && outcomes[Failures(0, outcomes)] == Waiting ==>
      TaskEvents(outcomes, sinkEvents, idText) == Retries(0, Failures(0, outcomes))
  {
    var n := Failures(0, outcomes);
    if n > MaxRetries {
      AllFailClosedForm(0, outcomes, Relayed(sinkEvents), LoadErrorEvent(idText));
    } else if outcomes[n] == Ready {
      ReadyClosedForm(0, outcomes, Relayed(sinkEvents), LoadErrorEvent(idText));
    } else if outcomes[n] == Waiting {
      WaitingClosedForm(0, outcomes, Relayed(sinkEvents), LoadErrorEvent(idText));
    }
  }

  predicate IsTerminal(e: StreamEvent)
  {
    e.Finished? || e.Error?
  }

  /** Every `Retry` is numbered by its position from 1, among the first three, and bounded by 3. */
  predicate RetriesNumbered(events: seq<StreamEvent>)
  {
    forall i :: 0 <= i < |events| && events[i].Retry? ==> i < MaxRetries && events[i] == Retry(i + 1, MaxRetries)
  }

  /** A terminal event can only be the last one. */
  predicate TerminalLast(events: seq<StreamEvent>)
  {
    forall i :: 0 <= i < |events| && IsTerminal(events[i]) ==> i == |events| - 1
  }

  /** Retries followed by a tail without retries, whose terminal event is last, keep both. */
  lemma RetriesThen(n: nat, tail: seq<StreamEvent>)
    requires n <= MaxRetries
    requires forall i :: 0 <= i < |tail| ==> !tail[i].Retry?
    requires TerminalLast(tail)
    ensures RetriesNumbered(Retries(0, n) + tail)
    ensures TerminalLast(Retries(0, n) + tail)
  {
    var events := Retries(0, n) + tail;
    assert forall i :: n <= i < |events| ==> events[i] == tail[i - n];
  }

  /** The relay sends only `Write` and `Finished` events, and only the last can be terminal. */
  lemma RelayedWellFormed(sinkEvents: seq<ChannelSinks.SinkEvent>)
    ensures forall i :: 0 <= i < |Relayed(sinkEvents)| ==>
      Relayed(sinkEvents)[i].Write? || Relayed(sinkEvents)[i].Finished?
    ensures TerminalLast(Relayed(sinkEvents))
  {
    RelayedShape(sinkEvents);
    var w := ForwardAll(BeforeFinished(sinkEvents));
    assert forall i :: 0 <= i < |w| ==> w[i].Write?;
  }

  /**
   * Every `Retry` the task sends comes before anything else, carries `max_attempts = 3` and
   * is numbered by its position from 1, so there are at most three; and a terminal event
   * (`Finished` or `Error`) can only be the last event sent.
   */
  lemma TaskEventsWellFormed(outcomes: seq<LoadOutcome>,
                             sinkEvents: seq<ChannelSinks.SinkEvent>, idText: string)
    requires |outcomes| == MaxRetries + 1
    ensures RetriesNumbered(TaskEvents(outcomes, sinkEvents, idText))
    ensures TerminalLast(TaskEvents(outcomes, sinkEvents, idText))
  {
    var n := Failures(0, outcomes);
    var relayed, failure := Relayed(sinkEvents), LoadErrorEvent(idText);
    if n > MaxRetries {
      AllFailClosedForm(0, outcomes, relayed, failure);
      RetriesThen(MaxRetries, [failure]);
    } else if outcomes[n] == Ready {
      ReadyClosedForm(0, outcomes, relayed, failure);
      RelayedWellFormed(sinkEvents);
      RetriesThen(n, relayed);
    } else if outcomes[n] == Waiting {
      WaitingClosedForm(0, outcomes, relayed, failure);
      RetriesThen(n, []);
      assert Retries(0, n) + [] == Retries(0, n);
    }
  }

  /** Some event of `events` is an `Error`. */
  predicate HasError(events: seq<StreamEvent>)
  {
    exists i :: 0 <= i < |events| && events[i].Error?
  }

  lemma HasErrorAppend(a: seq<StreamEvent>, b: seq<StreamEvent>)
    ensures HasError(a + b) <==> HasError(a) || HasError(b)
  {
    if HasError(a + b) {
      var i :| 0 <= i < |a + b| && (a + b)[i].Error?;
      if i < |a| {
        assert a[i] == (a + b)[i];
      } else {
        assert b[i - |a|] == (a + b)[i];
      }
    }
    if HasError(a) {
      var i :| 0 <= i < |a| && a[i].Error?;
      assert (a + b)[i] == a[i];
    }
    if HasError(b) {
      var j :| 0 <= j < |b| && b[j].Error?;
      assert (a + b)[|a| + j] == b[j];
    }
  }

  /** Retries hold no `Error`: one follows them exactly when the tail has one. */
  lemma ErrorAfterRetries(n: nat, tail: seq<StreamEvent>)
    ensures HasError(Retries(0, n) + tail) <==> HasError(tail)
  {
    HasErrorAppend(Retries(0, n), tail);
  }

  /**
   * An `Error` is sent exactly when all four attempts fail; it is then the last of four
   * events, after exactly three retries, so no `Write` or `Finished` is sent.
   */
  lemma ErrorExactlyWhenAllAttemptsFail(outcomes: seq<LoadOutcome>,
                                        sinkEvents: seq<ChannelSinks.SinkEvent>, idText: string)
    requires |outcomes| == MaxRetries + 1
    ensures HasError(TaskEvents(outcomes, sinkEvents, idText)) <==> Failures(0, outcomes) == MaxRetries + 1
  {
    var n := Failures(0, outcomes);
    var relayed, failure := Relayed(sinkEvents), LoadErrorEvent(idText);
    if n > MaxRetries {
      AllFailClosedForm(0, outcomes, relayed, failure);
      ErrorAfterRetries(MaxRetries, [failure]);
      assert [failure][0].Error?;
    } else if outcomes[n] == Ready {
      ReadyClosedForm(0, outcomes, relayed, failure);
      RelayedWellFormed(sinkEvents);
      ErrorAfterRetries(n, relayed);
      assert !HasError(relayed);
    } else if outcomes[n] == Waiting {
      WaitingClosedForm(0, outcomes, relayed, failure);
      ErrorAfterRetries(n, []);
      assert !HasError(Retries(0, n)) by {
        assert Retries(0, n) + [] == Retries(0, n);
      }
    }
  }

  /** When all four attempts fail, the caller gets three numbered retries and then the `Error`. */
  lemma AllAttemptsFailEvents(outcomes: seq<LoadOutcome>, sinkEvents: seq<ChannelSinks.SinkEvent>, idText: string)
    requires |outcomes| == MaxRetries + 1
    requires Failures(0, outcomes) == MaxRetries + 1
    ensures TaskEvents(outcomes, sinkEvents, idText)
         == [Retry(1, MaxRetries), Retry(2, MaxRetries), Retry(3, MaxRetries), LoadErrorEvent(idText)]
  {
    AllFailClosedForm(0, outcomes, Relayed(sinkEvents), LoadErrorEvent(idText));
    assert Retries(0, MaxRetries) == [Retry(1, MaxRetries), Retry(2, MaxRetries), Retry(3, MaxRetries)];
  }

  /** When the sink sent a `Finished`, the relay's last event is that `Finished`. */
  lemma RelayedEndsWithFinished(sinkEvents: seq<ChannelSinks.SinkEvent>)
    requires exists i :: 0 <= i < |sinkEvents| && sinkEvents[i].Finished?
    ensures |Relayed(sinkEvents)| > 0 && Relayed(sinkEvents)[|Relayed(sinkEvents)| - 1] == Finished
  {
    RelayedShape(sinkEvents);
  }

  /** Retries followed by the relay carry the relay's samples and end as it ends. */
  lemma RetriesThenRelay(n: nat, sinkEvents: seq<ChannelSinks.SinkEvent>)
    ensures StreamSamples(Retries(0, n) + Relayed(sinkEvents))
         == ChannelSinks.WrittenSamples(BeforeFinished(sinkEvents))
    ensures (exists i :: 0 <= i < |sinkEvents| && sinkEvents[i].Finished?) ==>
      (Retries(0, n) + Relayed(sinkEvents))[|Retries(0, n) + Relayed(sinkEvents)| - 1] == Finished
  {
    RetriesCarryNoSamples(0, n);
    StreamSamplesAppend(Retries(0, n), Relayed(sinkEvents));
    RelayedSamples(sinkEvents);
    if exists i :: 0 <= i < |sinkEvents| && sinkEvents[i].Finished? {
      RelayedEndsWithFinished(sinkEvents);
    }
  }

  /**
   * After a ready attempt, the caller receives every sample the sink wrote before its
   * first `Finished`, in order, and ends with a `Finished` if the sink sent one.
   */
  lemma ReadyDeliversSamples(outcomes: seq<LoadOutcome>,
                             sinkEvents: seq<ChannelSinks.SinkEvent>, idText: string)
    requires |outcomes| == MaxRetries + 1
    requires Failures(0, outcomes) <= MaxRetries
    requires outcomes[Failures(0, outcomes)] == Ready
    ensures StreamSamples(TaskEvents(outcomes, sinkEvents, idText))
         == ChannelSinks.WrittenSamples(BeforeFinished(sinkEvents))
    ensures (exists i :: 0 <= i < |sinkEvents| && sinkEvents[i].Finished?) ==>
      TaskEvents(outcomes, sinkEvents, idText)[|TaskEvents(outcomes, sinkEvents, idText)| - 1] == Finished
  {
    TaskEventsClosedForm(outcomes, sinkEvents, idText);
    RetriesThenRelay(Failures(0, outcomes), sinkEvents);
  }

  lemma {:induction false} RetriesCarryNoSamples(lo: nat, hi: nat)
    requires lo <= hi
    ensures StreamSamples(Retries(lo, hi)) == []
    decreases hi - lo
  {
    if lo < hi {
      RetriesCarryNoSamples(lo + 1, hi);
    }
  }

  // ---- Backoff ----

  function Pow2(n: nat): (p: nat)
    ensures p >= 1
  {
    if n == 0 then 1 else 2 * Pow2(n - 1)
  }

  /**
   * The wait in seconds before retry `attempt` (from 1): exponential from 10 s, capped at
   * 30 s. The exact growth is the retry library's; the model keeps the base and the cap.
   */
  function BackoffDelay(attempt: nat): (seconds: nat)
    requires attempt >= 1
    ensures 10 <= seconds <= 30
  {
    var d := 10 * Pow2(attempt - 1);
    if d < 30 then d else 30
  }

  /** Waits never shrink from one retry to the next. */
  lemma BackoffMonotone(attempt: nat)
    requires attempt >= 1
    ensures BackoffDelay(attempt) <= BackoffDelay(attempt + 1)
  {
  }

  // ---- The spawned task ----

  /** A failed attempt before the last moves one `Retry` from the remaining events to the sent ones. */
  lemma RetryStep(k: nat, outcomes: seq<LoadOutcome>, relayed: seq<StreamEvent>, failure: StreamEvent)
    requires |outcomes| == MaxRetries + 1
    requires k < MaxRetries && outcomes[k] == NotAvailable
    ensures Retries(0, k) + AttemptsFrom(k, outcomes, relayed, failure)
         == Retries(0, k + 1) + AttemptsFrom(k + 1, outcomes, relayed, failure)
  {
    RetriesSnoc(k);
  }

  /** Failures from `k` on after `k` failures in a row. */
  lemma {:induction false} FailuresFrom(k: nat, outcomes: seq<LoadOutcome>)
    requires |outcomes| == MaxRetries + 1
    requires k <= MaxRetries + 1
    requires forall j :: 0 <= j < k ==> outcomes[j] == NotAvailable
    ensures Failures(0, outcomes) == k + Failures(k, outcomes)
    decreases k
  {
    if k > 0 {
      FailuresFrom(k - 1, outcomes);
    }
  }

  /**
   * When attempt `k` ends the task after `k` failures in a row, the number of failures in
   * a row, capped at the three retries, is `k`.
   */
  lemma FailuresCounted(k: nat, outcomes: seq<LoadOutcome>)
    requires |outcomes| == MaxRetries + 1
    requires k <= MaxRetries
    requires forall j :: 0 <= j < k ==> outcomes[j] == NotAvailable
    requires outcomes[k] != NotAvailable || k == MaxRetries
    ensures (if Failures(0, outcomes) > MaxRetries then MaxRetries else Failures(0, outcomes)) == k
  {
    FailuresFrom(k, outcomes);
  }

  /**
   * What the task does after an attempt that is not retried: a ready attempt starts the
   * relay, the last failed attempt sends the `Error`, a waiting one sends nothing more.
   */
  method FinishAttempt(tx: EventSender, outcome: LoadOutcome, k: nat,
                       ghost outcomes: seq<LoadOutcome>,
                       sinkEvents: seq<ChannelSinks.SinkEvent>, idText: string)
    requires |outcomes| == MaxRetries + 1
    requires k <= MaxRetries && outcome == outcomes[k]
    requires outcome != NotAvailable || k == MaxRetries
    modifies tx
    ensures tx.receiverAlive == old(tx.receiverAlive)
    ensures tx.delivered == old(tx.delivered) + Sent(AttemptsFrom(k, outcomes, Relayed(sinkEvents), LoadErrorEvent(idText)), tx.receiverAlive)
  {
    match outcome {
      case Ready =>
        Relay(tx, sinkEvents);
      case Waiting =>
      case NotAvailable =>
        SendEvent(tx, LoadErrorEvent(idText));
    }
  }

  /** After `k` failed attempts in a row, the task has sent `k` retries and goes on from attempt `k`. */
  lemma {:induction false} AttemptsAfterFailures(k: nat, outcomes: seq<LoadOutcome>,
                                                 relayed: seq<StreamEvent>, failure: StreamEvent)
    requires |outcomes| == MaxRetries + 1
    requires k <= MaxRetries
    requires forall j :: 0 <= j < k ==> outcomes[j] == NotAvailable
    ensures AttemptsFrom(0, outcomes, relayed, failure) == Retries(0, k) + AttemptsFrom(k, outcomes, relayed, failure)
  {
    if k == 0 {
      assert Retries(0, 0) == [];
    } else {
      AttemptsAfterFailures(k - 1, outcomes, relayed, failure);
      RetryStep(k - 1, outcomes, relayed, failure);
    }
  }

  /**
   * `tryhard`'s retry loop around `load`: while an attempt fails and retries remain, send
   * the numbered `Retry`, wait the backoff delay and load again.
   */
  method RetryLoop(tx: EventSender, attemptEvents: nat -> seq<Option<PlayerEvent>>, ghost outcomes: seq<LoadOutcome>)
    returns (attempt: nat, outcome: LoadOutcome, delays: seq<nat>)
    requires outcomes == Outcomes(attemptEvents)
    modifies tx
    ensures attempt <= MaxRetries && outcome == outcomes[attempt]
    ensures outcome != NotAvailable || attempt == MaxRetries
    ensures forall j :: 0 <= j < attempt ==> outcomes[j] == NotAvailable
    ensures tx.receiverAlive == old(tx.receiverAlive)
    ensures tx.delivered == old(tx.delivered) + Sent(Retries(0, attempt), tx.receiverAlive)
    ensures |delays| == attempt
    ensures forall i :: 0 <= i < |delays| ==> delays[i] == BackoffDelay(i + 1)
  {
    attempt := 0;
    delays := [];
    outcome := Load(attemptEvents(attempt));
    while outcome == NotAvailable && attempt < MaxRetries
      invariant attempt <= MaxRetries && outcome == outcomes[attempt]
      invariant forall j :: 0 <= j < attempt ==> outcomes[j] == NotAvailable
      invariant tx.receiverAlive == old(tx.receiverAlive)
      invariant tx.delivered == old(tx.delivered) + Sent(Retries(0, attempt), tx.receiverAlive)
      invariant |delays| == attempt
      invariant forall i :: 0 <= i < |delays| ==> delays[i] == BackoffDelay(i + 1)
      decreases MaxRetries - attempt
    {
      SendEvent(tx, Retry(attempt + 1, MaxRetries));
      SentAppend(old(tx.delivered), Retries(0, attempt), [Retry(attempt + 1, MaxRetries)], tx.receiverAlive);
      RetriesSnoc(attempt);
      delays := delays + [BackoffDelay(attempt + 1)];
      attempt := attempt + 1;
      outcome := Load(attemptEvents(attempt));
    }
  }

  /**
   * The task `stream` spawns: load with retries, then relay. Each failed attempt but the
   * last sends a numbered `Retry` and waits the backoff delay (`delays` lists the waits);
   * the last failure sends the `Error` and stops; a ready attempt starts the relay; an
   * attempt whose events run out without a decision stays waiting, so nothing more is sent.
   */
  method StreamTask(tx: EventSender, attemptEvents: nat -> seq<Option<PlayerEvent>>,
                    sinkEvents: seq<ChannelSinks.SinkEvent>, idText: string)
    returns (delays: seq<nat>)
    modifies tx
    ensures tx.receiverAlive == old(tx.receiverAlive)
    ensures tx.delivered
         == old(tx.delivered) + Sent(TaskEvents(Outcomes(attemptEvents), sinkEvents, idText), tx.receiverAlive)
    ensures |delays| == if Failures(0, Outcomes(attemptEvents)) > MaxRetries then MaxRetries
                        else Failures(0, Outcomes(attemptEvents))
    ensures forall i :: 0 <= i < |delays| ==> delays[i] == BackoffDelay(i + 1)
  {
    ghost var outcomes := Outcomes(attemptEvents);
    ghost var relayed, failure := Relayed(sinkEvents), LoadErrorEvent(idText);
    var attempt, outcome;
    attempt, outcome, delays := RetryLoop(tx, attemptEvents, outcomes);
    FinishAttempt(tx, outcome, attempt, outcomes, sinkEvents, idText);
    SentAppend(old(tx.delivered), Retries(0, attempt), AttemptsFrom(attempt, outcomes, relayed, failure), tx.receiverAlive);
    AttemptsAfterFailures(attempt, outcomes, relayed, failure);
    FailuresCounted(attempt, outcomes);
  }

  lemma RetriesSnoc(n: nat)
    ensures Retries(0, n + 1) == Retries(0, n) + [Retry(n + 1, MaxRetries)]
  {
  }
}
