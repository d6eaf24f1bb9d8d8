/** Option-argument helpers of the command-line front end (Amatsukaze/AmatsukazeCLI.hpp):
    fetching the parameter that follows an option, and mapping the encoder and decoder
    names a user may type to the pipeline's encoder and decoder kinds. */
module CliOptions {
  import opened Wrappers

  /** The FormatException getParam throws, naming the option that lacks its parameter. */
  datatype CliError = MissingParameter(option: string)

  /** getParam: the argument after `argv[ikey]`, or a format error when `argv[ikey]` is the
      last argument. The source reads `argv[ikey]` for its message, so `ikey` is an index
      of `argv`; `argc` is `|argv|`. */
  function GetParam(argv: seq<string>, ikey: nat): (r: Result<string, CliError>)
    requires ikey < |argv|
    ensures r.Err? <==> ikey + 1 >= |argv|
    ensures r.Err? ==> r.error == MissingParameter(argv[ikey])
    ensures r.Ok? ==> r.value == argv[ikey + 1]
  {
    if ikey + 1 >= |argv| then Err(MissingParameter(argv[ikey])) else Ok(argv[ikey + 1])
  }

  /** ENUM_ENCODER; EncoderInvalid is the value (ENUM_ENCODER)-1. */
  datatype Encoder = EncoderX264 | EncoderX265 | EncoderQsvEnc | EncoderNvEnc | EncoderInvalid

  /** DECODER_TYPE; DecoderInvalid is the value (DECODER_TYPE)-1. */
  datatype Decoder = DecoderDefault | DecoderQsv | DecoderCuvid | DecoderInvalid

  /** encoderFtomString: exact, case-sensitive comparison against the accepted spellings. */
  function EncoderFromString(s: string): (e: Encoder)
    ensures e != EncoderInvalid ==> s in EncoderSpellings(e)
    ensures e == EncoderInvalid ==> forall k: Encoder :: s !in EncoderSpellings(k)
  {
    if s == "x264" then EncoderX264
    else if s == "x265" then EncoderX265
    else if s == "qsv" || s == "QSVEnc" then EncoderQsvEnc
    else if s == "nvenc" || s == "NVEnc" then EncoderNvEnc
    else EncoderInvalid
  }

  /** decoderFromString: exact, case-sensitive comparison against the accepted spellings. */
  function DecoderFromString(s: string): (d: Decoder)
    ensures d != DecoderInvalid ==> s in DecoderSpellings(d)
    ensures d == DecoderInvalid ==> forall k: Decoder :: s !in DecoderSpellings(k)
  {
    if s == "default" then DecoderDefault
    else if s == "qsv" || s == "QSV" then DecoderQsv
    else if s == "cuvid" || s == "CUVID" || s == "nvdec" || s == "NVDec" then DecoderCuvid
    else DecoderInvalid
  }

  /** Every spelling accepted for an encoder kind; none for the invalid kind. */
  function EncoderSpellings(e: Encoder): (names: set<string>)
    ensures e == EncoderInvalid <==> names == {}
  {
    match e
    case EncoderX264 => {"x264"}
    case EncoderX265 => {"x265"}
    case EncoderQsvEnc => {"qsv", "QSVEnc"}
    case EncoderNvEnc => {"nvenc", "NVEnc"}
    case EncoderInvalid => {}
  }

  /** Every spelling accepted for a decoder kind; none for the invalid kind. */
  function DecoderSpellings(d: Decoder): (names: set<string>)
    ensures d == DecoderInvalid <==> names == {}
  {
    match d
    case DecoderDefault => {"default"}
    case DecoderQsv => {"qsv", "QSV"}
    case DecoderCuvid => {"cuvid", "CUVID", "nvdec", "NVDec"}
    case DecoderInvalid => {}
  }

  /** The name the help text lists for an encoder kind (x264, x265, QSVEnc, NVEnc). */
  function EncoderHelpName(e: Encoder): string
    requires e != EncoderInvalid
  {
    match e
    case EncoderX264 => "x264"
    case EncoderX265 => "x265"
    case EncoderQsvEnc => "QSVEnc"
    case EncoderNvEnc => "NVEnc"
  }

  /** The name the help text lists for a decoder kind (default, QSV, CUVID). */
  function DecoderHelpName(d: Decoder): string
    requires d != DecoderInvalid
  {
    match d
    case DecoderDefault => "default"
    case DecoderQsv => "QSV"
    case DecoderCuvid => "CUVID"
  }

  /** A string maps to an encoder kind exactly when it is one of that kind's spellings,
      and to the -1 sentinel exactly when it is no kind's spelling. */
  lemma EncoderFromStringCharacterized(s: string, e: Encoder)
    ensures e != EncoderInvalid ==> (EncoderFromString(s) == e <==> s in EncoderSpellings(e))
    ensures EncoderFromString(s) == EncoderInvalid <==>
      forall k: Encoder :: s !in EncoderSpellings(k)
  {
    if EncoderFromString(s) == EncoderInvalid {
      forall k: Encoder ensures s !in EncoderSpellings(k) { }
    } else {
      var k := EncoderFromString(s);
      assert s in EncoderSpellings(k);
    }
  }

  /** A string maps to a decoder kind exactly when it is one of that kind's spellings,
      and to the -1 sentinel exactly when it is no kind's spelling. */
  lemma DecoderFromStringCharacterized(s: string, d: Decoder)
    ensures d != DecoderInvalid ==> (DecoderFromString(s) == d <==> s in DecoderSpellings(d))
    ensures DecoderFromString(s) == DecoderInvalid <==>
      forall k: Decoder :: s !in DecoderSpellings(k)
  {
    if DecoderFromString(s) == DecoderInvalid {
      forall k: Decoder ensures s !in DecoderSpellings(k) { }
    } else {
      var k := DecoderFromString(s);
      assert s in DecoderSpellings(k);
    }
  }

  /** Every name in the help text is accepted and names its own kind. */
  lemma HelpNamesRoundTrip(e: Encoder, d: Decoder)
    ensures e != EncoderInvalid ==> EncoderFromString(EncoderHelpName(e)) == e
    ensures d != DecoderInvalid ==> DecoderFromString(DecoderHelpName(d)) == d
  {
  }

  /** Matching is case-sensitive: spellings the lists do not hold are rejected. */
  lemma NamesAreCaseSensitive()
    ensures EncoderFromString("X264") == EncoderInvalid
    ensures EncoderFromString("Qsv") == EncoderInvalid
    ensures DecoderFromString("Default") == DecoderInvalid
    ensures DecoderFromString("nvDec") == DecoderInvalid
  {
  }
}
