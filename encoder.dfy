/** The output format enum, its encoder dispatch, and the data handed to an encoder. */
module Encoder {
  import opened Wrappers
  import opened Ints

  /** `Format`; `Mp3` exists only when the crate is built with its `mp3` feature. */
  datatype Format = Flac | Mp3

  /** A format the build can name: `Mp3` needs the `mp3` feature. */
  predicate Available(f: Format, mp3Enabled: bool)
  {
    f.Flac? || mp3Enabled
  }

  /** `Format::from_str`. */
  function FromStr(s: string, mp3Enabled: bool): (r: Result<Format, string>)
    ensures r.Success? <==> s == "flac" || (mp3Enabled && s == "mp3")
    ensures r.Success? ==> Available(r.value, mp3Enabled)
    ensures r.Failure? ==> r.error == "Unsupported format"
  {
    if s == "flac" then Success(Flac)
    else if mp3Enabled && s == "mp3" then Success(Mp3)
    else Failure("Unsupported format")
  }

  /** `Format::extension`. */
  function Extension(f: Format): (ext: string)
    ensures ext != [] && '.' !in ext
  {
    match f
    case Flac => "flac"
    case Mp3 => "mp3"
  }

  /** Parsing a format's extension gives back the format. */
  lemma FromStrExtension(f: Format, mp3Enabled: bool)
    requires Available(f, mp3Enabled)
    ensures FromStr(Extension(f), mp3Enabled) == Success(f)
  {
  }

  /** Every accepted string is the extension of the format it is parsed to. */
  lemma ExtensionFromStr(s: string, mp3Enabled: bool)
    requires FromStr(s, mp3Enabled).Success?
    ensures Extension(FromStr(s, mp3Enabled).value) == s
  {
  }

  /** Different formats have different extensions. */
  lemma ExtensionInjective(f: Format, g: Format)
    requires Extension(f) == Extension(g)
    ensures f == g
  {
    assert Extension(Flac)[0] != Extension(Mp3)[0];
  }

  /** The two encoder implementations (the FLAC and LAME wrappers are not part of this model). */
  datatype EncoderImpl = FlacEncoder | Mp3Encoder

  /** `get_encoder`: one encoder per format, no failure case. */
  function GetEncoder(f: Format): (e: EncoderImpl)
    ensures e.FlacEncoder? <==> f.Flac?
  {
    match f
    case Flac => FlacEncoder
    case Mp3 => Mp3Encoder
  }

  /** `Samples`: the interleaved PCM buffer and its format tags. */
  datatype Samples = Samples(samples: seq<I32>, sampleRate: nat, channels: nat, bitsPerSample: nat)

  /** `Samples::new`. */
  function NewSamples(samples: seq<I32>, sampleRate: nat, channels: nat, bitsPerSample: nat): (s: Samples)
    ensures s.samples == samples && s.sampleRate == sampleRate
    ensures s.channels == channels && s.bitsPerSample == bitsPerSample
  {
    Samples(samples, sampleRate, channels, bitsPerSample)
  }

  /** The sending half of a one-shot channel: it delivers at most one value. */
  class OneshotSender<T> {
    var delivered: Option<T>
    var receiverAlive: bool

    constructor (receiverAlive: bool)
      ensures this.delivered.None? && this.receiverAlive == receiverAlive
    {
      this.delivered := None;
      this.receiverAlive := receiverAlive;
    }
  }

  /**
   * The closure `execute_with_result` returns, when it is run: evaluate `func` and send its
   * result; a receiver that is gone is ignored, nothing is reported.
   */
  method RunWithResult<T>(func: () -> Result<T, string>, tx: OneshotSender<Result<T, string>>)
    requires tx.delivered.None?
    modifies tx
    ensures tx.receiverAlive == old(tx.receiverAlive)
    ensures tx.delivered == if tx.receiverAlive then Some(func()) else None
  {
    var result := func();
    if tx.receiverAlive {
      tx.delivered := Some(result);
    }
  }
}
