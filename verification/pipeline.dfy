/**
 * The subtitle stages of main.py in the order the script runs them: the
 * .srt file is parsed (lines 129-176), neighbouring cues are combined
 * (line 214), the buffer is promoted (lines 217-221), and then, for each
 * target language in turn, a fresh copy of that dictionary is translated
 * (lines 330-337). A parse error or a translation error stops the script.
 */
module Pipeline {
  import opened Wrappers
  import opened Text
  import opened Timestamps
  import opened Cues
  import opened SrtParser
  import opened Combiner
  import opened Promotion
  import opened Translation
  import opened Subtitles

  datatype PipelineError =
    | ParseFailed(parseError: ParseError)
    | TranslateFailed(translateError: TranslateError)

  /** A parsed dictionary meets what the combiner needs: digit keys and timing lines with a separator. */
  lemma ParsedCombinable(es: seq<Entry>, buffer: int)
    requires WellFormed(es, buffer)
    ensures Combinable(es)
  {
    forall i | 0 <= i < |es| ensures Fits(es[i]) {
      assert es[i] in es;
      TimestampSplit(es[i].cue.timestampsLine);
    }
  }

  // ---------------------------------------------------------------------------
  // Preparing the dictionary
  // ---------------------------------------------------------------------------

  /** The dictionary after parsing, combining and promoting, or the parse error. */
  function Prepare(lines: seq<string>, maxChars: int, buffer: int): (r: Result<seq<Entry>, ParseError>)
    ensures r.Success? <==> Parse(lines, buffer).Success?
    ensures r.Failure? ==> r.error == Parse(lines, buffer).error
  {
    match Parse(lines, buffer)
    case Failure(e) => Failure(e)
    case Success(es) =>
      ParseWellFormed(lines, buffer);
      ParsedCombinable(es, buffer);
      Success(PromoteAll(Combine(es, maxChars, buffer), buffer))
  }

  /**
   * When the index lines count up, preparing merges neighbours pairwise and
   * promotes the result; preparing never lets a cue through that a second
   * combining pass would still merge.
   */
  lemma PrepareIsPairwise(lines: seq<string>, maxChars: int, buffer: int)
    requires Parse(lines, buffer).Success? && Increasing(Parse(lines, buffer).value)
    ensures var es := Parse(lines, buffer).value;
      && Combinable(es)
      && Prepare(lines, maxChars, buffer) == Success(PromoteAll(Pairwise(es, maxChars, buffer), buffer))
      && Combine(Combine(es, maxChars, buffer), maxChars, buffer) == Combine(es, maxChars, buffer)
  {
    var es := Parse(lines, buffer).value;
    ParseWellFormed(lines, buffer);
    ParsedCombinable(es, buffer);
    CombineIsPairwise(es, maxChars, buffer);
    CombineIdempotent(es, maxChars, buffer);
  }

  /**
   * When the index lines count up, the parsed dictionary meets the timing
   * hypothesis of the combiner: every cue's fields agree with each other
   * and with its timing line, and every '0' recorded for a cue whose
   * successor is next in the dictionary is a true zero gap.
   */
  lemma ParsedTimed(lines: seq<string>, buffer: int)
    requires Parse(lines, buffer).Success? && Increasing(Parse(lines, buffer).value)
    ensures TimedDict(Parse(lines, buffer).value, buffer)
  {
    var es := Parse(lines, buffer).value;
    ParseWellFormed(lines, buffer);
    IncreasingApart(es);
    IncreasingDistinct(es);
    ParseGaps(lines, buffer);
    forall i | 0 <= i < |es| ensures Timed(es[i], buffer) {
      assert es[i] in es;
    }
    forall q | 0 <= q < |es| - 1 ensures ZeroGapMeets(es[q], es[q + 1]) {
      IndexOfDistinct(es, q);
      IndexOfDistinct(es, q + 1);
      assert Lookup(es, es[q].key) == Some(es[q].cue);
      assert Lookup(es, es[q + 1].key) == Some(es[q + 1].cue);
    }
  }

  /**
   * When the index lines count up and the buffer is not negative, every
   * prepared cue lasts from its start to its end: its duration is end minus
   * start, and its buffered fields equal its plain ones.
   */
  lemma PreparedTimed(lines: seq<string>, maxChars: int, buffer: int)
    requires Parse(lines, buffer).Success? && Increasing(Parse(lines, buffer).value) && buffer >= 0
    ensures var p := Prepare(lines, maxChars, buffer);
      p.Success? && forall i :: 0 <= i < |p.value| ==> Consistent(p.value[i].cue, 0)
  {
    var es := Parse(lines, buffer).value;
    ParsedTimed(lines, buffer);
    CombineTimed(es, maxChars, buffer);
    var c := Combine(es, maxChars, buffer);
    assert forall i :: 0 <= i < |c| ==> Consistent(c[i].cue, buffer);
    PromoteAllTiming(c, buffer);
    assert Prepare(lines, maxChars, buffer) == Success(PromoteAll(c, buffer));
  }

  /** Parses the file and combines and promotes the cues of the dictionary it builds. */
  method PrepareSubtitles(lines: seq<string>, maxChars: int, buffer: int) returns (r: Result<SubtitleDict, ParseError>)
    ensures r.Failure? <==> Prepare(lines, maxChars, buffer).Failure?
    ensures r.Failure? ==> r.error == Prepare(lines, maxChars, buffer).error
    ensures r.Success? ==> fresh(r.value) && r.value.entries == Prepare(lines, maxChars, buffer).value
  {
    var parsed := ParseSrt(lines, buffer);
    if parsed.Failure? {
      return Failure(parsed.error);
    }
    ParseWellFormed(lines, buffer);
    ParsedCombinable(parsed.value, buffer);
    var d := new SubtitleDict(parsed.value);
    d.CombineEntries(maxChars, buffer);
    d.PromoteBuffer(buffer);
    return Success(d);
  }

  // ---------------------------------------------------------------------------
  // One translation per language
  // ---------------------------------------------------------------------------

  /**
   * The language loop: each language translates the prepared dictionary
   * through its own service; the first failure stops the loop.
   */
  function TranslateAll(prepared: seq<Entry>, skip: bool, services: seq<seq<string> -> seq<string>>)
    : Result<seq<Option<string>>, TranslateError>
    decreases |services|
  {
    if services == [] then Success([])
    else
      var file :- TranslatedFile(prepared, skip, services[0]);
      var rest :- TranslateAll(prepared, skip, services[1..]);
      Success([file] + rest)
  }

  /**
   * Each language sees the same prepared dictionary, whatever the languages
   * before it did: the loop goes through exactly when every language does,
   * and then yields each language's own file; otherwise it reports the
   * error of the first language that fails.
   */
  lemma TranslateAllSpec(prepared: seq<Entry>, skip: bool, services: seq<seq<string> -> seq<string>>)
    ensures var r := TranslateAll(prepared, skip, services);
      && (r.Success? <==> forall l :: 0 <= l < |services| ==> TranslatedFile(prepared, skip, services[l]).Success?)
      && (r.Success? ==> |r.value| == |services| && forall l :: 0 <= l < |services| ==>
            r.value[l] == TranslatedFile(prepared, skip, services[l]).value)
      && (r.Failure? ==>
            exists l :: (0 <= l < |services| && TranslatedFile(prepared, skip, services[l]) == Failure(r.error)
              && forall m :: 0 <= m < l ==> TranslatedFile(prepared, skip, services[m]).Success?))
  {
    TranslateAllFiles(prepared, skip, services);
    TranslateAllFirstError(prepared, skip, services);
  }

  lemma {:induction false} TranslateAllFiles(prepared: seq<Entry>, skip: bool, services: seq<seq<string> -> seq<string>>)
    ensures var r := TranslateAll(prepared, skip, services);
      && (r.Success? <==> forall l :: 0 <= l < |services| ==> TranslatedFile(prepared, skip, services[l]).Success?)
      && (r.Success? ==> |r.value| == |services| && forall l :: 0 <= l < |services| ==>
            r.value[l] == TranslatedFile(prepared, skip, services[l]).value)
    decreases |services|
  {
    if services != [] {
      var tail := services[1..];
      TranslateAllFiles(prepared, skip, tail);
      assert forall l :: 1 <= l < |services| ==> services[l] == tail[l - 1];
    }
  }

  lemma {:induction false} TranslateAllFirstError(prepared: seq<Entry>, skip: bool, services: seq<seq<string> -> seq<string>>)
    ensures var r := TranslateAll(prepared, skip, services);
      r.Failure? ==>
        exists l :: (0 <= l < |services| && TranslatedFile(prepared, skip, services[l]) == Failure(r.error)
          && forall m :: 0 <= m < l ==> TranslatedFile(prepared, skip, services[m]).Success?)
    decreases |services|
  {
    var r := TranslateAll(prepared, skip, services);
    if services != [] && r.Failure? {
      if TranslatedFile(prepared, skip, services[0]).Failure? {
        assert TranslatedFile(prepared, skip, services[0]) == Failure(r.error);
      } else {
        var tail := services[1..];
        TranslateAllFirstError(prepared, skip, tail);
        var l :| 0 <= l < |tail| && TranslatedFile(prepared, skip, tail[l]) == Failure(r.error)
          && forall m :: 0 <= m < l ==> TranslatedFile(prepared, skip, tail[m]).Success?;
        assert services[l + 1] == tail[l];
        assert forall m :: 1 <= m < l + 1 ==> services[m] == tail[m - 1];
      }
    }
  }

  /** The files gathered so far in front of the outcome of the remaining languages. */
  function After(files: seq<Option<string>>, rest: Result<seq<Option<string>>, TranslateError>): Result<seq<Option<string>>, TranslateError> {
    match rest
    case Failure(e) => Failure(e)
    case Success(more) => Success(files + more)
  }

  /** The loop's outcome from language `l` on, once language `l` has produced `file`. */
  lemma AfterFile(prepared: seq<Entry>, skip: bool, services: seq<seq<string> -> seq<string>>, l: nat, files: seq<Option<string>>, file: Option<string>)
    requires l < |services| && TranslatedFile(prepared, skip, services[l]) == Success(file)
    ensures After(files, TranslateAll(prepared, skip, services[l..]))
         == After(files + [file], TranslateAll(prepared, skip, services[l + 1..]))
  {
    assert services[l..][1..] == services[l + 1..];
    var rest := TranslateAll(prepared, skip, services[l + 1..]);
    if rest.Success? {
      assert files + ([file] + rest.value) == (files + [file]) + rest.value;
    }
  }

  /** Translates a fresh copy of the prepared dictionary for every language, stopping at the first failure. */
  method TranslateLanguages(prepared: seq<Entry>, skip: bool, services: seq<seq<string> -> seq<string>>)
    returns (r: Result<seq<Option<string>>, TranslateError>)
    ensures r == TranslateAll(prepared, skip, services)
  {
    var files: seq<Option<string>> := [];
    assert services[0..] == services;
    if TranslateAll(prepared, skip, services).Success? {
      var all := TranslateAll(prepared, skip, services).value;
      assert files + all == all;
    }
    for l := 0 to |services|
      invariant After(files, TranslateAll(prepared, skip, services[l..])) == TranslateAll(prepared, skip, services)
    {
      var copy := new SubtitleDict(prepared);
      var file := copy.Translate(skip, services[l]);
      if file.Failure? {
        assert services[l..][0] == services[l];
        return Failure(file.error);
      }
      AfterFile(prepared, skip, services, l, files, file.value);
      files := files + [file.value];
    }
    assert services[|services|..] == [];
    assert files + [] == files;
    r := Success(files);
  }

  // ---------------------------------------------------------------------------
  // The whole run
  // ---------------------------------------------------------------------------

  /** The subtitle stages end to end: one output per language, or the first error. */
  function Process(lines: seq<string>, maxChars: int, buffer: int, skip: bool, services: seq<seq<string> -> seq<string>>)
    : Result<seq<Option<string>>, PipelineError>
  {
    match Prepare(lines, maxChars, buffer)
    case Failure(e) => Failure(ParseFailed(e))
    case Success(prepared) =>
      match TranslateAll(prepared, skip, services)
      case Failure(e) => Failure(TranslateFailed(e))
      case Success(files) => Success(files)
  }

  /**
   * A run goes through exactly when the file parses and every language's
   * translation does; each output is then that language's translated file
   * of the prepared dictionary. A parse error is reported before any
   * language is tried.
   */
  lemma ProcessSpec(lines: seq<string>, maxChars: int, buffer: int, skip: bool, services: seq<seq<string> -> seq<string>>)
    ensures var r := Process(lines, maxChars, buffer, skip, services);
      && (r.Success? <==>
            && Parse(lines, buffer).Success?
            && forall l :: 0 <= l < |services| ==>
                 TranslateEntries(Prepare(lines, maxChars, buffer).value, skip, services[l]).Success?)
      && (Parse(lines, buffer).Failure? ==> r == Failure(ParseFailed(Parse(lines, buffer).error)))
      && (r.Success? ==> |r.value| == |services| && forall l :: 0 <= l < |services| ==>
            r.value[l] == TranslatedFile(Prepare(lines, maxChars, buffer).value, skip, services[l]).value)
  {
    var p := Prepare(lines, maxChars, buffer);
    if p.Success? {
      TranslateAllSpec(p.value, skip, services);
    }
  }

  /** Runs the subtitle stages: parse, combine, promote, then translate for every language. */
  method Run(lines: seq<string>, maxChars: int, buffer: int, skip: bool, services: seq<seq<string> -> seq<string>>)
    returns (r: Result<seq<Option<string>>, PipelineError>)
    ensures r == Process(lines, maxChars, buffer, skip, services)
  {
    var prepared := PrepareSubtitles(lines, maxChars, buffer);
    if prepared.Failure? {
      return Failure(ParseFailed(prepared.error));
    }
    var files := TranslateLanguages(prepared.value.entries, skip, services);
    if files.Failure? {
      return Failure(TranslateFailed(files.error));
    }
    return Success(files.value);
  }
}
