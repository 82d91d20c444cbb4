/**
 * The legacy `FileSink`: buffers every written packet, widened to `i32`, for a FLAC encoder
 * that runs when playback stops (the encoder and the file it writes are not part of this model).
 */
module FileSinks {
  import opened Wrappers
  import opened Ints

  /** An `io::Error`; no modelled operation produces one. */
  datatype IoError = IoError(message: string)

  /** 2^32: `as u32` keeps the value modulo this. */
  const U32Modulus: nat := 0x1_0000_0000

  class FileSink {
    /** The output path. */
    var sink: string
    /** Every sample written so far, in order. */
    var content: seq<I32>

    /** `Open::open(Some(path))`: the path, nothing buffered. `open(None)` panics. */
    constructor Open(path: Option<string>)
      requires path.Some?
      ensures sink == path.value && content == []
    {
      sink := path.value;
      content := [];
    }

    /** `Sink::start`: always succeeds and changes nothing. */
    method Start() returns (r: Outcome<IoError>)
      ensures r == Pass
    {
      r := Pass;
    }

    /** `Sink::write`: the packet's samples, widened and in order, go after what is buffered. */
    method Write(data: seq<I16>) returns (r: Outcome<IoError>)
      modifies this
      ensures r == Pass
      ensures content == old(content) + Widen(data)
      ensures |content| == |old(content)| + |data|
      ensures content[..|old(content)|] == old(content)
      ensures sink == old(sink)
    {
      var input := Widen(data);
      content := content + input;
      assert content[..|old(content)|] == old(content);
      r := Pass;
    }

    /**
     * The frame count `stop` hands the encoder, `(content.len() / 2) as u32`: every complete
     * stereo pair, truncated to 32 bits.
     */
    function StopFrameCount(): (frames: nat)
      reads this
      ensures frames < U32Modulus
      ensures |content| < 2 * U32Modulus ==> 2 * frames <= |content| < 2 * frames + 2
    {
      (|content| / 2) % U32Modulus
    }
  }

  /** Two writes in a row buffer the same samples as one write of both packets. */
  lemma WritesCompose(before: seq<I32>, a: seq<I16>, b: seq<I16>)
    ensures (before + Widen(a)) + Widen(b) == before + Widen(a + b)
  {
    WidenAppend(a, b);
  }
}
