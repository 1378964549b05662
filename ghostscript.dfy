/**
 * The Ghostscript pass of app.py (`run_ghostscript`): the command line is a
 * fixed list of flags naming the output and input files, followed by the
 * three flags of a quality preset; an unknown preset name falls back to
 * "balanced". The process itself is a parameter: a function from the
 * argument list to the exit status it ends with.
 */
module Ghostscript {
  import opened Wrappers

  /** The preset table of `run_ghostscript`. */
  const Presets: map<string, seq<string>> := map[
    "high_quality" := ["-dPDFSETTINGS=/prepress", "-dColorImageResolution=300", "-dGrayImageResolution=300"],
    "balanced" := ["-dPDFSETTINGS=/ebook", "-dColorImageResolution=300", "-dGrayImageResolution=300"],
    "max_compression" := ["-dPDFSETTINGS=/screen", "-dColorImageResolution=150", "-dGrayImageResolution=150"]
  ]

  /** The preset used when the requested one is not in the table, and the default `preset` argument. */
  const DefaultPreset: string := "balanced"

  /** The flags between the program name and the output-file flag. */
  const FixedFlags: seq<string> := [
    "-q", "-dNOPAUSE", "-dBATCH", "-dSAFER",
    "-sDEVICE=pdfwrite",
    "-dCompatibilityLevel=1.4",
    "-sColorConversionStrategy=Gray",
    "-dProcessColorModel=/DeviceGray",
    "-dEmbedAllFonts=true",
    "-dSubsetFonts=true",
    "-dCompressFonts=true"
  ]

  const OutputFilePrefix: string := "-sOutputFile="

  /** Positions (counted from 0) of the output-file flag, the input path and the first preset flag. */
  const OutputIndex: nat := 12
  const InputIndex: nat := 13
  const PresetIndex: nat := 14

  /** The flags of the named preset, or those of "balanced" when the name is not in the table. */
  function PresetFlags(preset: string): (flags: seq<string>)
    ensures preset in Presets ==> flags == Presets[preset]
    ensures preset !in Presets ==> flags == Presets[DefaultPreset]
    ensures flags in Presets.Values && |flags| == 3
  {
    if preset in Presets then Presets[preset] else Presets[DefaultPreset]
  }

  /** The argument list handed to `subprocess.run`. */
  function GhostscriptArgs(inputPdf: string, outputPdf: string, preset: string := DefaultPreset): (args: seq<string>)
    ensures |args| == PresetIndex + 3
    ensures args[0] == "gs" && args[1..OutputIndex] == FixedFlags
    ensures args[OutputIndex] == OutputFilePrefix + outputPdf
    ensures args[InputIndex] == inputPdf
    ensures args[PresetIndex..] == PresetFlags(preset)
  {
    ["gs"] + FixedFlags + [OutputFilePrefix + outputPdf, inputPdf] + PresetFlags(preset)
  }

  /** What a Ghostscript command line of this shape asks for. */
  datatype Invocation = Invocation(inputPdf: string, outputPdf: string, presetFlags: seq<string>)

  /** Reads the input path, output path and preset flags back out of an argument list. */
  function ParseArgs(args: seq<string>): Option<Invocation>
  {
    if |args| == PresetIndex + 3 && args[..OutputIndex] == ["gs"] + FixedFlags
       && OutputFilePrefix <= args[OutputIndex]
    then Some(Invocation(args[InputIndex], args[OutputIndex][|OutputFilePrefix|..], args[PresetIndex..]))
    else None
  }

  /** The command line determines the two paths and the preset flags it was built from. */
  lemma ParseArgsRoundTrip(inputPdf: string, outputPdf: string, preset: string)
    ensures ParseArgs(GhostscriptArgs(inputPdf, outputPdf, preset)) == Some(Invocation(inputPdf, outputPdf, PresetFlags(preset)))
  {
  }

  /** Different paths give different command lines. */
  lemma ArgsDeterminePaths(in1: string, out1: string, p1: string, in2: string, out2: string, p2: string)
    requires GhostscriptArgs(in1, out1, p1) == GhostscriptArgs(in2, out2, p2)
    ensures in1 == in2 && out1 == out2 && PresetFlags(p1) == PresetFlags(p2)
  {
    ParseArgsRoundTrip(in1, out1, p1);
    ParseArgsRoundTrip(in2, out2, p2);
  }

  /** An unknown preset name yields exactly the "balanced" command line. */
  lemma UnknownPresetIsBalanced(inputPdf: string, outputPdf: string, preset: string)
    requires preset !in Presets
    ensures GhostscriptArgs(inputPdf, outputPdf, preset) == GhostscriptArgs(inputPdf, outputPdf, DefaultPreset)
  {
  }

  /** The three presets give three different command lines, so the choice is never lost. */
  lemma PresetsDistinct(p1: string, p2: string)
    requires p1 in Presets && p2 in Presets && p1 != p2
    ensures PresetFlags(p1) != PresetFlags(p2)
  {
  }

  /** Why `run_ghostscript` raised instead of returning: the `gs` process could not be started. */
  datatype RunError = CannotStart

  /**
   * `run_ghostscript`. `exitStatus` stands for `subprocess.run` on an argument
   * list: the exit status of the finished process, or None when the process
   * could not be started, in which case the call raises instead of returning.
   */
  function RunGhostscript(exitStatus: seq<string> -> Option<int>, inputPdf: string, outputPdf: string,
                          preset: string := DefaultPreset): (r: Result<bool, RunError>)
    ensures r.Failure? <==> exitStatus(GhostscriptArgs(inputPdf, outputPdf, preset)).None?
    ensures r.Success? ==> (r.value <==> exitStatus(GhostscriptArgs(inputPdf, outputPdf, preset)) == Some(0))
  {
    var args := GhostscriptArgs(inputPdf, outputPdf, preset);
    match exitStatus(args)
    case None => Failure(CannotStart)
    case Some(code) => Success(code == 0)
  }

  /** Two argument lists of this shape that ask for the same invocation are the same list. */
  lemma ParseArgsInjective(a: seq<string>, b: seq<string>)
    requires ParseArgs(a).Some? && ParseArgs(a) == ParseArgs(b)
    ensures a == b
  {
    assert a[OutputIndex] == OutputFilePrefix + a[OutputIndex][|OutputFilePrefix|..];
    assert b[OutputIndex] == OutputFilePrefix + b[OutputIndex][|OutputFilePrefix|..];
    assert a == a[..OutputIndex] + [a[OutputIndex], a[InputIndex]] + a[PresetIndex..];
    assert b == b[..OutputIndex] + [b[OutputIndex], b[InputIndex]] + b[PresetIndex..];
  }

  /**
   * The verdict is the exit status of whatever command line asks for this input,
   * this output and this preset's flags: only those three things reach `gs`.
   */
  lemma RunVerdictFromInvocation(exitStatus: seq<string> -> Option<int>, inputPdf: string, outputPdf: string,
                                 preset: string, a: seq<string>)
    requires ParseArgs(a) == Some(Invocation(inputPdf, outputPdf, PresetFlags(preset)))
    ensures RunGhostscript(exitStatus, inputPdf, outputPdf, preset) ==
      match exitStatus(a)
      case None => Failure(CannotStart)
      case Some(code) => Success(code == 0)
  {
    ParseArgsRoundTrip(inputPdf, outputPdf, preset);
    ParseArgsInjective(a, GhostscriptArgs(inputPdf, outputPdf, preset));
  }

  /** Leaving out the preset is asking for "balanced". */
  lemma DefaultPresetIsBalanced(exitStatus: seq<string> -> Option<int>, inputPdf: string, outputPdf: string)
    ensures GhostscriptArgs(inputPdf, outputPdf) == GhostscriptArgs(inputPdf, outputPdf, "balanced")
    ensures RunGhostscript(exitStatus, inputPdf, outputPdf) == RunGhostscript(exitStatus, inputPdf, outputPdf, "balanced")
  {
  }

  /** An unknown preset name gets the same verdict as "balanced", whatever the process does. */
  lemma UnknownPresetSameVerdict(exitStatus: seq<string> -> Option<int>, inputPdf: string, outputPdf: string, preset: string)
    requires preset !in Presets
    ensures RunGhostscript(exitStatus, inputPdf, outputPdf, preset) == RunGhostscript(exitStatus, inputPdf, outputPdf, DefaultPreset)
  {
  }
}
