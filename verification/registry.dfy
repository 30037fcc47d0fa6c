/** The subtitle parser facade: a table from file extension to codec, and
    `parse`/`stringify` entry points that look the codec up and delegate. */
module Registry {
  import opened Text
  import opened Cues
  import Srt
  import Vtt
  import Ass
  import Sub

  /** The four codecs. */
  datatype Codec = SrtCodec | VttCodec | AssCodec | SubCodec

  /** A facade call either returns the codec's result or fails with a message. */
  datatype Outcome<T> = Ok(value: T) | Failed(message: string)

  /** The extension table: `.txt` is read as SRT, `.ssa` as ASS and `.sbv`
      by the SUB family codec. */
  const Table: map<string, Codec> := map[
    ".srt" := SrtCodec, ".vtt" := VttCodec, ".ass" := AssCodec, ".ssa" := AssCodec,
    ".sub" := SubCodec, ".sbv" := SubCodec, ".txt" := SrtCodec]

  /** The error both entry points raise for a key the table lacks. */
  function Unsupported(format: string): string {
    "Unsupported format: " + format
  }

  /** The codec's decoder. */
  function Decode(codec: Codec, content: string): seq<Cue> {
    match codec
    case SrtCodec => Srt.Parse(content)
    case VttCodec => Vtt.Parse(content)
    case AssCodec => Ass.Parse(content)
    case SubCodec => Sub.Parse(content)
  }

  /** The codec's encoder. */
  function Encode(codec: Codec, cs: seq<Cue>, originalContent: string, preserveFormatting: bool): string {
    match codec
    case SrtCodec => Srt.Stringify(cs, originalContent, preserveFormatting)
    case VttCodec => Vtt.Stringify(cs, originalContent, preserveFormatting)
    case AssCodec => Ass.Stringify(cs, originalContent, preserveFormatting)
    case SubCodec => Sub.Stringify(cs, originalContent, preserveFormatting)
  }

  /** The lower-case names the parser table inherits from `Object.prototype`:
      looking one up finds a truthy value that has no `parse` method. */
  const Inherited: set<string> := {"constructor", "__proto__"}

  /** The error a lookup that lands on an inherited name raises. */
  const NotAFunction: string := "parser.parse is not a function"

  /** `SubtitleParser.parse`: the lower-cased format, dot included, selects
      the codec; an unknown one fails and no codec runs, and an inherited
      name passes the guard but fails at the call. */
  function Parse(content: string, format: string): (r: Outcome<seq<Cue>>)
    ensures r.Ok? <==> Lower(format) in Table
    ensures r.Ok? ==> r.value == Decode(Table[Lower(format)], content)
    ensures r.Failed? ==> r.message == (if Lower(format) in Inherited then NotAFunction else Unsupported(format))
  {
    var key := Lower(format);
    if key in Table then Ok(Decode(Table[key], content))
    else if key in Inherited then Failed(NotAFunction)
    else Failed(Unsupported(format))
  }

  /** `SubtitleParser.stringify`: a dot and the lower-cased format select the
      codec; an absent preserve flag means `true`. */
  function Stringify(cs: seq<Cue>, format: string, originalContent: string, preserveFormatting: Option<bool>): (r: Outcome<string>)
    ensures r.Ok? <==> "." + Lower(format) in Table
    ensures r.Ok? ==> r.value == Encode(Table["." + Lower(format)], cs, originalContent,
                                        if preserveFormatting.Some? then preserveFormatting.value else true)
    ensures r.Failed? ==> r.message == Unsupported(format)
  {
    var key := "." + Lower(format);
    var pf := if preserveFormatting.Some? then preserveFormatting.value else true;
    if key in Table then Ok(Encode(Table[key], cs, originalContent, pf)) else Failed(Unsupported(format))
  }

  /** The table has exactly seven keys, each a dot and a lower-case
      extension. */
  lemma TableKeys()
    ensures Table.Keys == {".srt", ".vtt", ".ass", ".ssa", ".sub", ".sbv", ".txt"}
    ensures |Table.Keys| == 7
  {
  }

  /** Every key starts with a single dot. */
  lemma KeysDotted()
    ensures forall key :: key in Table ==> |key| == 4 && key[0] == '.' && key[1] != '.'
  {
  }

  /** The aliases pick the same codec as their main extension. */
  lemma Aliases()
    ensures Table[".txt"] == Table[".srt"] && Table[".ssa"] == Table[".ass"] && Table[".sbv"] == Table[".sub"]
    ensures Table[".srt"] != Table[".vtt"] && Table[".srt"] != Table[".ass"] && Table[".srt"] != Table[".sub"]
    ensures Table[".vtt"] != Table[".ass"] && Table[".vtt"] != Table[".sub"] && Table[".ass"] != Table[".sub"]
  {
  }

  /** The decoder wants the dot and the encoder does not: a format naming
      an extension with its dot is never accepted by the encoder. */
  lemma {:induction false} DottedFormatNotEncoded(cs: seq<Cue>, format: string, originalContent: string, preserveFormatting: Option<bool>)
    requires |format| > 0 && format[0] == '.'
    ensures Stringify(cs, format, originalContent, preserveFormatting).Failed?
  {
    var key := "." + Lower(format);
    assert key[1] == '.';
    KeysDotted();
  }

  /** The encoder takes the format without its dot: encoding with `f`
      succeeds exactly when decoding with `.f` does, and uses the same
      codec. */
  lemma {:induction false} SameCodecBothWays(content: string, cs: seq<Cue>, format: string, originalContent: string, preserveFormatting: Option<bool>)
    ensures Parse(content, "." + format).Ok? <==> Stringify(cs, format, originalContent, preserveFormatting).Ok?
    ensures Parse(content, "." + format).Ok? ==> Table[Lower("." + format)] == Table["." + Lower(format)]
  {
    assert ("." + format)[1..] == format;
    assert Lower("." + format) == "." + Lower(format);
  }

  /** No inherited name is an extension, and none starts with the dot the
      encoder puts in front of its key, so `stringify` never reaches one. */
  lemma InheritedApart()
    ensures forall key :: key in Inherited ==> key !in Table
    ensures forall key :: key in Inherited ==> |key| > 0 && key[0] != '.'
  {
  }

  /** Letter case of the format is ignored. */
  lemma {:induction false} CaseIgnored(content: string, f: string, g: string)
    requires Lower(f) == Lower(g)
    ensures Parse(content, f).Ok? <==> Parse(content, g).Ok?
    ensures Parse(content, f).Ok? ==> Parse(content, f) == Parse(content, g)
    ensures Lower(f) in Inherited ==> Parse(content, f) == Parse(content, g)
  {
  }

  /** Leaving the preserve flag out is passing `true`. */
  lemma {:induction false} PreserveDefault(cs: seq<Cue>, format: string, originalContent: string)
    ensures Stringify(cs, format, originalContent, None) == Stringify(cs, format, originalContent, Some(true))
  {
  }
}
