/**
 * `ImageSaver.run`: copy a captured frame into a file. The file system is
 * left out; what is kept is which calls the saver makes on the image and on
 * the output stream, given whether opening the file and writing to it succeed.
 */
module ImageSaving {

  /** The calls `run` makes, in the order it makes them. */
  datatype Step =
    | ReadBuffer     // the first plane's bytes are copied out of the image
    | OpenOutput     // the output stream is opened
    | WriteBytes     // the bytes are written to it
    | CloseImage     // the image is handed back to its reader
    | CloseOutput    // the output stream is closed

  /** How many times `step` occurs in `trace`. */
  function Count(trace: seq<Step>, step: Step): nat
  {
    if trace == [] then 0
    else Count(trace[..|trace| - 1], step) + (if trace[|trace| - 1] == step then 1 else 0)
  }

  predicate IsClose(step: Step)
  {
    step == CloseImage || step == CloseOutput
  }

  /**
   * `run()`, given whether the stream opens and whether the write succeeds
   * (either failure is an `IOException` that is caught and printed). The
   * image is closed exactly once and before the stream; the stream is closed
   * exactly when it was opened; the closes come after everything else; and
   * `saved` tells whether the bytes reached the file.
   */
  method Run(opens: bool, writes: bool) returns (trace: seq<Step>, saved: bool)
    ensures |trace| > 0 && trace[0] == ReadBuffer
    ensures Count(trace, CloseImage) == 1
    ensures Count(trace, CloseOutput) == Count(trace, OpenOutput) == (if opens then 1 else 0)
    ensures Count(trace, WriteBytes) == Count(trace, OpenOutput)
    ensures forall i, j :: 0 <= i < j < |trace| && IsClose(trace[i]) ==> IsClose(trace[j]) && trace[j] != CloseImage
    ensures saved <==> opens && writes
  {
    trace := [ReadBuffer];
    var outputOpen := false;
    saved := false;
    // try
    if opens {
      outputOpen := true;
      trace := trace + [OpenOutput];
      trace := trace + [WriteBytes];
      saved := writes;
    }
    // finally
    trace := trace + [CloseImage];
    if outputOpen {
      trace := trace + [CloseOutput];
    }
    if opens {
      assert trace == [ReadBuffer] + [OpenOutput] + [WriteBytes] + [CloseImage] + [CloseOutput];
      CountAppend([ReadBuffer] + [OpenOutput] + [WriteBytes] + [CloseImage], CloseOutput);
      CountAppend([ReadBuffer] + [OpenOutput] + [WriteBytes], CloseImage);
      CountAppend([ReadBuffer] + [OpenOutput], WriteBytes);
      CountAppend([ReadBuffer], OpenOutput);
    } else {
      assert trace == [ReadBuffer] + [CloseImage];
      CountAppend([ReadBuffer], CloseImage);
    }
    CountAppend([], ReadBuffer);
  }

  lemma CountAppend(t: seq<Step>, x: Step)
    ensures forall s :: Count(t + [x], s) == Count(t, s) + (if x == s then 1 else 0)
  {
    assert (t + [x])[..|t|] == t;
  }
}
