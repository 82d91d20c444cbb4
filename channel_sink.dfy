/**
 * `ChannelSink`: the audio back end that turns each decoded packet into a `Write` event on a
 * single-consumer channel, and end of playback into `Finished`. The channel is modelled by
 * the sequence of events it has accepted, in order, and whether its receiver still exists.
 */
module ChannelSinks {
  import opened Wrappers
  import opened Ints
  import Tracks

  datatype SinkEvent = Write(bytes: nat, total: nat, content: seq<I32>) | Finished

  datatype SinkError = OnWrite(message: string)

  /** librespot's `AudioPacket`: decoded samples, or raw bytes that have no samples. */
  datatype AudioPacket = Samples(pcm: seq<real>) | Raw(data: seq<bv8>)

  const SampleRate: nat := 44100
  const Channels: nat := 2
  const BitsPerSample: nat := 16

  /** 2^64: `usize` arithmetic wraps modulo this (a 64-bit target, release build). */
  const UsizeModulus: nat := 0x1_0000_0000_0000_0000

  /** Rust's `/` on integers, which truncates toward zero. */
  function TruncDiv(a: int, b: nat): int
    requires b > 0
  {
    if a >= 0 then a / b else -((-a) / b)
  }

  /** Rust's `as usize` on an `i32`: two's complement sign extension. */
  function AsUsize(x: int): nat
    requires -0x8000_0000 <= x < 0x8000_0000
  {
    if x >= 0 then x else UsizeModulus + x
  }

  /**
   * `convert_track_duration_to_size`: whole seconds of the track (truncating), times
   * 44100 Hz, 2 channels, 2 bytes per sample, and a further factor of 2.
   */
  function ConvertTrackDurationToSize(durationMs: I32): (size: nat)
    ensures size < UsizeModulus
    ensures durationMs >= 0 ==> size == (durationMs as int / 1000) * 352800
    ensures -1000 < durationMs as int < 1000 ==> size == 0
  {
    var seconds := TruncDiv(durationMs as int, 1000);
    var bytesPerSample := BitsPerSample / 8;
    (AsUsize(seconds) * SampleRate * Channels * bytesPerSample * 2) % UsizeModulus
  }

  /** The samples of every `Write` event, concatenated in order; `Finished` adds nothing. */
  function WrittenSamples(events: seq<SinkEvent>): seq<I32>
  {
    if events == [] then []
    else WrittenSamples(events[..|events| - 1]) + (match events[|events| - 1]
                                                   case Write(_, _, content) => content
                                                   case Finished => [])
  }

  /** The samples written by a concatenation of event sequences are those of each part. */
  lemma {:induction false} WrittenSamplesAppend(a: seq<SinkEvent>, b: seq<SinkEvent>)
    ensures WrittenSamples(a + b) == WrittenSamples(a) + WrittenSamples(b)
    decreases |b|
  {
    if b == [] {
      assert a + b == a;
    } else {
      var b' := b[..|b| - 1];
      assert (a + b)[..|a + b| - 1] == a + b';
      assert (a + b)[|a + b| - 1] == b[|b| - 1];
      WrittenSamplesAppend(a, b');
    }
  }

  /** A `Finished` in the middle of the events does not stop later samples from counting. */
  lemma FinishedDoesNotStopSamples(before: seq<SinkEvent>, after: seq<SinkEvent>)
    ensures WrittenSamples(before + [Finished] + after) == WrittenSamples(before) + WrittenSamples(after)
  {
    WrittenSamplesAppend(before + [Finished], after);
    assert (before + [Finished])[..|before|] == before;
  }

  /**
   * Every `Write` event carries the byte count of all samples written up to and including it
   * (4 bytes per `i32` sample) and the sink's fixed estimate.
   */
  ghost predicate WritesCarryCounts(events: seq<SinkEvent>, total: nat)
  {
    forall i :: 0 <= i < |events| && events[i].Write? ==>
      events[i].bytes == 4 * |WrittenSamples(events[..i + 1])| && events[i].total == total
  }

  /** Appending `Finished`, or a `Write` with the right counts, keeps `WritesCarryCounts`. */
  lemma WritesCarryCountsSnoc(events: seq<SinkEvent>, total: nat, e: SinkEvent)
    requires WritesCarryCounts(events, total)
    requires e.Write? ==> e.bytes == 4 * |WrittenSamples(events + [e])| && e.total == total
    ensures WritesCarryCounts(events + [e], total)
  {
    var all := events + [e];
    forall i | 0 <= i < |all| && all[i].Write?
      ensures all[i].bytes == 4 * |WrittenSamples(all[..i + 1])| && all[i].total == total
    {
      if i < |events| {
        assert all[..i + 1] == events[..i + 1];
      } else {
        assert all[..i + 1] == all;
      }
    }
  }

  /** Under `WritesCarryCounts`, byte counts never decrease from one `Write` to a later one. */
  lemma BytesNonDecreasing(events: seq<SinkEvent>, total: nat, i: nat, j: nat)
    requires WritesCarryCounts(events, total)
    requires i < j < |events| && events[i].Write? && events[j].Write?
    ensures events[i].bytes <= events[j].bytes
  {
    assert events[..j + 1] == events[..i + 1] + events[i + 1..j + 1];
    WrittenSamplesAppend(events[..i + 1], events[i + 1..j + 1]);
  }

  /**
   * After the last `Write`, the buffer of all written samples is exactly as long as that
   * event's byte count says (in `i32` samples).
   */
  lemma LastWriteCountsAllSamples(events: seq<SinkEvent>, total: nat, i: nat)
    requires WritesCarryCounts(events, total)
    requires i < |events| && events[i].Write?
    requires forall j :: i < j < |events| ==> events[j].Finished?
    ensures 4 * |WrittenSamples(events)| == events[i].bytes
  {
    var rest := events[i + 1..];
    assert events == events[..i + 1] + rest;
    WrittenSamplesAppend(events[..i + 1], rest);
    NoWritesNoSamples(rest);
  }

  lemma {:induction false} NoWritesNoSamples(events: seq<SinkEvent>)
    requires forall j :: 0 <= j < |events| ==> events[j].Finished?
    ensures WrittenSamples(events) == []
  {
    if events != [] {
      NoWritesNoSamples(events[..|events| - 1]);
    }
  }

  class ChannelSink {
    /** The events the sink's sender has put on the channel, oldest first. */
    var channel: seq<SinkEvent>
    /** Whether the consumer still holds the receiving half; sends fail once it is gone. */
    var receiverAlive: bool
    var bytesSent: nat
    const bytesTotal: nat

    ghost predicate Valid()
      reads this
    {
      && (receiverAlive ==> bytesSent == 4 * |WrittenSamples(channel)|)
      && WritesCarryCounts(channel, bytesTotal)
    }

    /** `ChannelSink::new`: an empty channel, nothing sent, the estimate fixed from the duration. */
    constructor (metadata: Tracks.TrackMetadata)
      ensures Valid()
      ensures channel == [] && receiverAlive && bytesSent == 0
      ensures bytesTotal == ConvertTrackDurationToSize(metadata.duration)
    {
      channel := [];
      receiverAlive := true;
      bytesSent := 0;
      bytesTotal := ConvertTrackDurationToSize(metadata.duration);
    }

    /** `get_approximate_size`: the estimate fixed at construction. */
    function GetApproximateSize(): (size: nat)
      reads this
      ensures size == bytesTotal
    {
      bytesTotal
    }

    /** `Sink::start`: succeeds and changes nothing. */
    method Start() returns (r: Outcome<SinkError>)
      ensures r == Pass
    {
      r := Pass;
    }

    /** `Sink::stop`: puts `Finished` on the channel, or fails if the receiver is gone. */
    method Stop() returns (r: Outcome<SinkError>)
      requires Valid()
      modifies this
      ensures Valid()
      ensures receiverAlive == old(receiverAlive) && bytesSent == old(bytesSent)
      ensures old(receiverAlive) ==> r == Pass && channel == old(channel) + [Finished]
      ensures !old(receiverAlive) ==> r == Fail(OnWrite("Failed to send finished event")) && channel == old(channel)
    {
      if receiverAlive {
        WrittenSamplesAppend(channel, [Finished]);
        assert WrittenSamples([Finished]) == [] by { assert [Finished][..0] == []; }
        WritesCarryCountsSnoc(channel, bytesTotal, Finished);
        channel := channel + [Finished];
        r := Pass;
      } else {
        r := Fail(OnWrite("Failed to send finished event"));
      }
    }

    /**
     * `Sink::write`: convert the packet's samples to `i16` (`convert` stands for the
     * converter), widen them to `i32`, add 4 bytes per sample to `bytesSent`, and put one
     * `Write` event on the channel. A raw packet fails before anything changes; a gone
     * receiver fails after `bytesSent` has been advanced.
     */
    method Write(packet: AudioPacket, convert: seq<real> -> seq<I16>) returns (r: Outcome<SinkError>)
      requires Valid()
      modifies this
      ensures Valid()
      ensures receiverAlive == old(receiverAlive)
      ensures packet.Raw? ==> r == Fail(OnWrite("Failed to get samples")) && channel == old(channel) && bytesSent == old(bytesSent)
      ensures packet.Samples? ==>
        var content := Widen(convert(packet.pcm));
        && bytesSent == old(bytesSent) + 4 * |content|
        && (old(receiverAlive) ==> r == Pass && channel == old(channel) + [SinkEvent.Write(bytesSent, bytesTotal, content)])
        && (!old(receiverAlive) ==> r == Fail(OnWrite("Failed to send event")) && channel == old(channel))
    {
      if packet.Raw? {
        return Fail(OnWrite("Failed to get samples"));
      }
      var data32 := Widen(convert(packet.pcm));
      bytesSent := bytesSent + |data32| * 4;
      if receiverAlive {
        var event := SinkEvent.Write(bytesSent, bytesTotal, data32);
        var old' := channel;
        channel := channel + [event];
        assert channel[..|channel| - 1] == old';
        assert WrittenSamples(channel) == WrittenSamples(old') + data32;
        WritesCarryCountsSnoc(old', bytesTotal, event);
        r := Pass;
      } else {
        r := Fail(OnWrite("Failed to send event"));
      }
    }

    /** The consumer drops the receiving half; every later send fails. */
    method DropReceiver()
      requires Valid()
      modifies this
      ensures Valid()
      ensures !receiverAlive && channel == old(channel) && bytesSent == old(bytesSent)
    {
      receiverAlive := false;
    }
  }
}
