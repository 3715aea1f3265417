/** The two factories: a detector or a signal processor chosen by name and configured by keyword
    arguments, each parameter falling back to its constructor's default. */
module Factories {
  import opened Wrappers

  /** The value of a keyword argument: a number (threshold, minimum amount, sample rate, level)
      or a text (wavelet name). The constructors store the value without checking it. */
  datatype Arg = Number(number: real) | Text(text: string)

  datatype Detector =
    | ThresholdDetector(threshold: Arg)
    | GraphFraudDetector(minPathAmount: Arg)

  datatype Processor =
    | FFTProcessor(sampleRate: Arg)
    | WaveletProcessor(waveletType: Arg, level: Arg)

  /** `ValueError` for a name no branch handles; `TypeError` for a keyword the chosen
      constructor does not accept. */
  datatype FactoryError = UnsupportedType(kind: string) | UnexpectedKeyword

  /** The value passed for `name`, or the constructor's default when none is. */
  function Param(kwargs: map<string, Arg>, name: string, default: Arg): (a: Arg)
    ensures name in kwargs ==> a == kwargs[name]
    ensures name !in kwargs ==> a == default
  {
    if name in kwargs then kwargs[name] else default
  }

  /** `DetectorFactory.create_detector(detector_type, **kwargs)`. */
  function CreateDetector(detectorType: string, kwargs: map<string, Arg>): (r: Result<Detector, FactoryError>)
    ensures r.Success? <==>
              || (detectorType == "threshold" && kwargs.Keys <= {"threshold"})
              || (detectorType == "graph" && kwargs.Keys <= {"min_path_amount"})
    ensures r.Success? ==> (r.value.ThresholdDetector? <==> detectorType == "threshold")
    ensures detectorType != "threshold" && detectorType != "graph" ==> r == Failure(UnsupportedType(detectorType))
  {
    if detectorType == "threshold" then
      if kwargs.Keys <= {"threshold"} then Success(ThresholdDetector(Param(kwargs, "threshold", Number(2.0))))
      else Failure(UnexpectedKeyword)
    else if detectorType == "graph" then
      if kwargs.Keys <= {"min_path_amount"} then Success(GraphFraudDetector(Param(kwargs, "min_path_amount", Number(5000.0))))
      else Failure(UnexpectedKeyword)
    else
      Failure(UnsupportedType(detectorType))
  }

  /** `ProcessorFactory.create_processor(processor_type, **kwargs)`. */
  function CreateProcessor(processorType: string, kwargs: map<string, Arg>): (r: Result<Processor, FactoryError>)
    ensures r.Success? <==>
              || (processorType == "fft" && kwargs.Keys <= {"sample_rate"})
              || (processorType == "wavelet" && kwargs.Keys <= {"wavelet_type", "level"})
    ensures r.Success? ==> (r.value.FFTProcessor? <==> processorType == "fft")
    ensures processorType != "fft" && processorType != "wavelet" ==> r == Failure(UnsupportedType(processorType))
  {
    if processorType == "fft" then
      if kwargs.Keys <= {"sample_rate"} then Success(FFTProcessor(Param(kwargs, "sample_rate", Number(1000.0))))
      else Failure(UnexpectedKeyword)
    else if processorType == "wavelet" then
      if kwargs.Keys <= {"wavelet_type", "level"} then
        Success(WaveletProcessor(Param(kwargs, "wavelet_type", Text("db4")), Param(kwargs, "level", Number(5.0))))
      else Failure(UnexpectedKeyword)
    else
      Failure(UnsupportedType(processorType))
  }

  /** With no keyword arguments each detector takes its default: threshold 2, minimum path
      amount 5000. */
  lemma DetectorDefaults()
    ensures CreateDetector("threshold", map[]) == Success(ThresholdDetector(Number(2.0)))
    ensures CreateDetector("graph", map[]) == Success(GraphFraudDetector(Number(5000.0)))
  {
  }

  /** With no keyword arguments each processor takes its default: sample rate 1000; wavelet
      `db4` at level 5. */
  lemma ProcessorDefaults()
    ensures CreateProcessor("fft", map[]) == Success(FFTProcessor(Number(1000.0)))
    ensures CreateProcessor("wavelet", map[]) == Success(WaveletProcessor(Text("db4"), Number(5.0)))
  {
  }

  /** A configured parameter reaches the detector unchanged. */
  lemma DetectorKeepsArguments(a: Arg)
    ensures CreateDetector("threshold", map["threshold" := a]) == Success(ThresholdDetector(a))
    ensures CreateDetector("graph", map["min_path_amount" := a]) == Success(GraphFraudDetector(a))
  {
  }

  /** Configured parameters reach the processor unchanged; an omitted one takes its default. */
  lemma ProcessorKeepsArguments(a: Arg, b: Arg)
    ensures CreateProcessor("fft", map["sample_rate" := a]) == Success(FFTProcessor(a))
    ensures CreateProcessor("wavelet", map["wavelet_type" := a, "level" := b]) == Success(WaveletProcessor(a, b))
    ensures CreateProcessor("wavelet", map["level" := b]) == Success(WaveletProcessor(Text("db4"), b))
    ensures CreateProcessor("wavelet", map["wavelet_type" := a]) == Success(WaveletProcessor(a, Number(5.0)))
  {
  }

  /** The name is checked before the keywords: an unknown name is a `ValueError` whatever the
      keywords, and a known name with a foreign keyword is a `TypeError`. */
  lemma ErrorsByKind(kind: string, kwargs: map<string, Arg>)
    ensures kind !in {"threshold", "graph"} ==> CreateDetector(kind, kwargs) == Failure(UnsupportedType(kind))
    ensures kind !in {"fft", "wavelet"} ==> CreateProcessor(kind, kwargs) == Failure(UnsupportedType(kind))
    ensures kind in {"threshold", "graph"} && CreateDetector(kind, kwargs).Failure? ==>
              CreateDetector(kind, kwargs) == Failure(UnexpectedKeyword)
    ensures kind in {"fft", "wavelet"} && CreateProcessor(kind, kwargs).Failure? ==>
              CreateProcessor(kind, kwargs) == Failure(UnexpectedKeyword)
  {
  }
}
