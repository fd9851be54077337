/** The output-format checks of `main`: lower-casing `-e`, demanding `-o`
    unless only standard output is wanted, the flags derived from the formats,
    and the sample identifier. */
module Formats {
  import opened Wrappers
  import opened Errors
  import Text

  /** `args.output`: argparse's `False` default, or the given file name. */
  datatype OutputArg = NoOutput | OutputPath(path: string)

  /** Python truthiness of `args.output`: `False` and the empty string are falsy. */
  predicate OutputGiven(o: OutputArg)
  {
    o.OutputPath? && |o.path| > 0
  }

  /** `[atype.lower() for atype in args.extension]`. */
  function Normalize(ext: seq<string>): (r: seq<string>)
    ensures |r| == |ext|
    ensures forall i :: 0 <= i < |r| ==> r[i] == Text.Lower(ext[i])
  {
    if |ext| == 0 then [] else [Text.Lower(ext[0])] + Normalize(ext[1..])
  }

  /** Normalizing an already normalized list changes nothing. */
  lemma NormalizeIdempotent(ext: seq<string>)
    ensures Normalize(Normalize(ext)) == Normalize(ext)
  {
    forall i | 0 <= i < |ext|
      ensures Text.Lower(Text.Lower(ext[i])) == Text.Lower(ext[i])
    {
      Text.LowerIdempotent(ext[i]);
    }
  }

  /** The single format requested is standard output, in any letter case. */
  predicate StdoutOnly(ext: seq<string>)
  {
    |ext| == 1 && Text.Lower(ext[0]) == "stdout"
  }

  /** The check of `main`: after lower-casing, the run is refused when no output
      is given and the list is not exactly `['stdout']`; otherwise the
      lower-cased list is what the rest of `main` consults. */
  function ValidateOutput(ext: seq<string>, output: OutputArg): (r: Result<seq<string>, CliError>)
    ensures r.Err? <==> !OutputGiven(output) && !StdoutOnly(ext)
    ensures r.Err? ==> r.error == OutputRequired
    ensures r.Ok? ==> |r.value| == |ext| && forall i :: 0 <= i < |ext| ==> r.value[i] == Text.Lower(ext[i])
  {
    var lowered := Normalize(ext);
    if !OutputGiven(output) && lowered != ["stdout"] then Err(OutputRequired) else Ok(lowered)
  }

  /** A repeated `stdout` is not "exactly stdout": the output is still demanded. */
  lemma RepeatedStdoutNeedsOutput()
    ensures ValidateOutput(["stdout", "stdout"], NoOutput) == Err(OutputRequired)
  {
  }

  /** Standard output mixed with another format still demands an output. */
  lemma MixedFormatsNeedOutput()
    ensures ValidateOutput(["STDOUT", "tsv"], NoOutput) == Err(OutputRequired)
  {
  }

  /** An upper-case `STDOUT` alone is accepted without an output. */
  lemma UpperCaseStdoutAccepted()
    ensures ValidateOutput(["STDOUT"], NoOutput) == Ok(["stdout"])
  {
    assert Text.Lower("STDOUT") == "stdout";
  }

  /** The flags written into the `phigaro` configuration section, and the two
      file outputs `main` produces after the chain has run. */
  datatype FormatFlags = FormatFlags(noHtml: bool, gff: bool, bed: bool, writeTsv: bool, writeStdout: bool)

  /** Membership tests on the lower-cased format list. */
  function DeriveFlags(lowered: seq<string>): (f: FormatFlags)
    ensures f.noHtml <==> forall i :: 0 <= i < |lowered| ==> lowered[i] != "html"
    ensures f.gff <==> exists i :: 0 <= i < |lowered| && lowered[i] == "gff"
    ensures f.bed <==> exists i :: 0 <= i < |lowered| && lowered[i] == "bed"
    ensures f.writeTsv <==> exists i :: 0 <= i < |lowered| && lowered[i] == "tsv"
    ensures f.writeStdout <==> exists i :: 0 <= i < |lowered| && lowered[i] == "stdout"
  {
    FormatFlags(
      noHtml := "html" !in lowered,
      gff := "gff" in lowered,
      bed := "bed" in lowered,
      writeTsv := "tsv" in lowered,
      writeStdout := "stdout" in lowered)
  }

  /** The flags depend only on which formats occur, not on order or repetition. */
  lemma FlagsDependOnFormatSet(a: seq<string>, b: seq<string>)
    requires (set x | x in a) == (set x | x in b)
    ensures DeriveFlags(a) == DeriveFlags(b)
  {
    var sa, sb := set y | y in a, set y | y in b;
    forall x: string
      ensures x in a <==> x in b
    {
      if x in a {
        assert x in sa;
      }
      if x in b {
        assert x in sb;
      }
    }
  }

  /** A run accepted without an output asks for standard output alone: no
      report, no interval files and no `.tsv` copy. */
  lemma AcceptedWithoutOutputIsStdoutOnly(ext: seq<string>, output: OutputArg)
    requires ValidateOutput(ext, output).Ok?
    requires !OutputGiven(output)
    ensures DeriveFlags(ValidateOutput(ext, output).value)
         == FormatFlags(noHtml := true, gff := false, bed := false, writeTsv := false, writeStdout := true)
  {
    assert ValidateOutput(ext, output).value == ["stdout"];
  }

  /** Every accepted run that writes the `.tsv` copy has an output name to write it to. */
  lemma TsvImpliesOutput(ext: seq<string>, output: OutputArg)
    requires ValidateOutput(ext, output).Ok?
    requires DeriveFlags(ValidateOutput(ext, output).value).writeTsv
    ensures OutputGiven(output)
  {
    if !OutputGiven(output) {
      AcceptedWithoutOutputIsStdoutOnly(ext, output);
    }
  }

  /** `uuid.uuid4().hex`: 32 lower-case hexadecimal digits. */
  predicate IsUuidHex(u: string)
  {
    |u| == 32 && forall i :: 0 <= i < |u| ==> ('0' <= u[i] <= '9' || 'a' <= u[i] <= 'f')
  }

  /** `'{}-{}'.format(sample_name(filename), uuid)`. */
  function SampleId(sampleName: string, uuid: string): (s: string)
    ensures |s| == |sampleName| + 1 + |uuid|
    ensures s[..|sampleName|] == sampleName && s[|sampleName|] == '-' && s[|sampleName| + 1..] == uuid
  {
    sampleName + "-" + uuid
  }

  /** Cut a sample identifier at its last dash into the sample name and the uuid. */
  function SplitSampleId(s: string): (r: Option<(string, string)>)
    ensures r.Some? ==> SampleId(r.value.0, r.value.1) == s && '-' !in r.value.1
  {
    var i := Text.AfterLast(s, '-');
    if i == 0 then None else Some((s[..i - 1], s[i..]))
  }

  /** The sample name and the uuid are recoverable from the sample identifier,
      whatever dashes the sample name holds, because a uuid hex has none. */
  lemma SampleIdRoundTrip(sampleName: string, uuid: string)
    requires IsUuidHex(uuid)
    ensures SplitSampleId(SampleId(sampleName, uuid)) == Some((sampleName, uuid))
  {
    var s := SampleId(sampleName, uuid);
    var n := |sampleName|;
    assert '-' !in uuid;
    var i := Text.AfterLast(s, '-');
    assert s[n] == '-';
    assert i == n + 1;
  }
}
