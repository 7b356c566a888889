/**
 * The request side of `translate_dictionary` in main.py (lines 228-316):
 * collecting the cue texts in dictionary order, measuring their UTF-8
 * size, splitting them into slices of 100 when the size is above 27000
 * bytes, writing the service's answers back by position, the mode that
 * skips the service and copies each text, and the layout of the translated
 * SubRip file. The translation service is a parameter: a function from the
 * list of texts sent to the list of texts received.
 */
module Translation {
  import opened Wrappers
  import opened Text
  import opened Cues

  /** Above this many UTF-8 bytes the texts are sent in slices. */
  const ByteLimit := 27000
  /** The number of texts in one slice. */
  const ChunkSize := 100

  datatype TranslateError =
    /** `translatedTexts[i]` with `i` past the end of the service's answer (IndexError). */
    | AnswerTooShort(received: nat, needed: nat)

  // ---------------------------------------------------------------------------
  // Payload
  // ---------------------------------------------------------------------------

  /** The cue texts in dictionary order. */
  function Texts(es: seq<Entry>): (ts: seq<string>)
    ensures |ts| == |es| && forall i :: 0 <= i < |es| ==> ts[i] == es[i].cue.text
  {
    seq(|es|, i requires 0 <= i < |es| => es[i].cue.text)
  }

  /** The summed UTF-8 length of the texts. */
  function Utf8Total(ts: seq<string>): nat
    decreases |ts|
  {
    if ts == [] then 0 else Utf8Total(ts[..|ts| - 1]) + Utf8Length(ts[|ts| - 1])
  }

  /** The number of characters in all the texts. */
  function CharTotal(ts: seq<string>): nat
    decreases |ts|
  {
    if ts == [] then 0 else CharTotal(ts[..|ts| - 1]) + |ts[|ts| - 1]|
  }

  /** The payload takes at least one and at most four bytes per character, and exactly one for ASCII texts. */
  lemma {:induction false} Utf8TotalBounds(ts: seq<string>)
    ensures CharTotal(ts) <= Utf8Total(ts) <= 4 * CharTotal(ts)
    ensures (forall i, j :: 0 <= i < |ts| && 0 <= j < |ts[i]| ==> ts[i][j] < '\U{80}') ==> Utf8Total(ts) == CharTotal(ts)
    decreases |ts|
  {
    if ts != [] {
      var p := ts[..|ts| - 1];
      Utf8TotalBounds(p);
      Utf8LengthAscii(ts[|ts| - 1]);
      assert forall i :: 0 <= i < |p| ==> p[i] == ts[i];
    }
  }

  /** The payload of two lists is the sum of their payloads. */
  lemma {:induction false} Utf8TotalAppend(a: seq<string>, b: seq<string>)
    ensures Utf8Total(a + b) == Utf8Total(a) + Utf8Total(b)
    decreases |b|
  {
    if b == [] {
      assert a + b == a;
    } else {
      assert (a + b)[..|a + b| - 1] == a + b[..|b| - 1];
      Utf8TotalAppend(a, b[..|b| - 1]);
    }
  }

  /** The `codepoints` loop: the byte count accumulated text by text. */
  method PayloadBytes(ts: seq<string>) returns (codepoints: nat)
    ensures codepoints == Utf8Total(ts)
  {
    codepoints := 0;
    for i := 0 to |ts|
      invariant codepoints == Utf8Total(ts[..i])
    {
      assert ts[..i + 1][..i] == ts[..i];
      codepoints := codepoints + Utf8Length(ts[i]);
    }
    assert ts[..|ts|] == ts;
  }

  // ---------------------------------------------------------------------------
  // Slices of 100
  // ---------------------------------------------------------------------------

  function Min(a: int, b: int): int {
    if a < b then a else b
  }

  /** `[xs[x:x+100] for x in range(0, len(xs), 100)]`. */
  function Chunked(xs: seq<string>): (cs: seq<seq<string>>)
    ensures |cs| == (|xs| + ChunkSize - 1) / ChunkSize
  {
    seq((|xs| + ChunkSize - 1) / ChunkSize,
        k requires 0 <= k < (|xs| + ChunkSize - 1) / ChunkSize =>
          xs[k * ChunkSize .. Min(k * ChunkSize + ChunkSize, |xs|)])
  }

  function Flatten(cs: seq<seq<string>>): seq<string>
    decreases |cs|
  {
    if cs == [] then [] else Flatten(cs[..|cs| - 1]) + cs[|cs| - 1]
  }

  /**
   * The slices: as many as `ceil(n / 100)`, none empty, every one but the
   * last exactly 100 long, and together, in order, the original list.
   */
  lemma ChunkedSpec(xs: seq<string>)
    ensures var cs := Chunked(xs);
      && |cs| * ChunkSize >= |xs| > (|cs| - 1) * ChunkSize
      && (forall k :: 0 <= k < |cs| ==> 0 < |cs[k]| <= ChunkSize)
      && (forall k :: 0 <= k < |cs| - 1 ==> |cs[k]| == ChunkSize)
      && Flatten(cs) == xs
  {
    var cs := Chunked(xs);
    ChunkedPrefix(xs, |cs|);
    assert cs[..|cs|] == cs;
    assert Min(|cs| * ChunkSize, |xs|) == |xs|;
    assert xs[..|xs|] == xs;
  }

  /** The first `n` slices, flattened, are the list up to the end of slice `n`. */
  lemma {:induction false} ChunkedPrefix(xs: seq<string>, n: nat)
    requires n <= |Chunked(xs)|
    ensures Flatten(Chunked(xs)[..n]) == xs[..Min(n * ChunkSize, |xs|)]
  {
    var cs := Chunked(xs);
    if n > 0 {
      ChunkedPrefix(xs, n - 1);
      assert cs[..n][..n - 1] == cs[..n - 1];
      assert xs[..Min(n * ChunkSize, |xs|)]
          == xs[..Min((n - 1) * ChunkSize, |xs|)] + cs[n - 1];
    }
  }

  // ---------------------------------------------------------------------------
  // Writing the answers back
  // ---------------------------------------------------------------------------

  /** Cue `i` receives answer `i`, for every cue; an answer list shorter than the dictionary stops the run. */
  function AssignPositional(es: seq<Entry>, answers: seq<string>): (r: Result<seq<Entry>, TranslateError>)
    ensures r.Success? <==> |answers| >= |es|
    ensures r.Success? ==> |r.value| == |es| && forall i :: 0 <= i < |es| ==>
      r.value[i] == Entry(es[i].key, es[i].cue.(translatedText := Some(answers[i])))
  {
    if |answers| < |es| then Failure(AnswerTooShort(|answers|, |es|))
    else Success(seq(|es|, i requires 0 <= i < |es| =>
      Entry(es[i].key, es[i].cue.(translatedText := Some(answers[i])))))
  }

  /**
   * The sliced path as written: each slice is sent on its own, and its
   * answers are written back by position over the whole dictionary, from
   * the first cue on.
   */
  function AssignChunks(es: seq<Entry>, chunks: seq<seq<string>>, service: seq<string> -> seq<string>): Result<seq<Entry>, TranslateError>
    decreases |chunks|
  {
    if chunks == [] then Success(es)
    else
      var r :- AssignPositional(es, service(chunks[0]));
      AssignChunks(r, chunks[1..], service)
  }

  /** Every cue gets its own text as its translation. */
  function CopyTexts(es: seq<Entry>): (r: seq<Entry>)
    ensures |r| == |es|
  {
    seq(|es|, i requires 0 <= i < |es| => Entry(es[i].key, es[i].cue.(translatedText := Some(es[i].cue.text))))
  }

  /** `translate_dictionary` without its output file. */
  function TranslateEntries(es: seq<Entry>, skip: bool, service: seq<string> -> seq<string>): Result<seq<Entry>, TranslateError> {
    if skip then Success(CopyTexts(es))
    else if Utf8Total(Texts(es)) > ByteLimit then AssignChunks(es, Chunked(Texts(es)), service)
    else AssignPositional(es, service(Texts(es)))
  }

  /**
   * What a run hands back: the error of the first answer that came back too
   * short, nothing with the translation skipped, and otherwise the contents
   * of the translated file.
   */
  function TranslatedFile(es: seq<Entry>, skip: bool, service: seq<string> -> seq<string>): (r: Result<Option<string>, TranslateError>)
    ensures r.Success? <==> TranslateEntries(es, skip, service).Success?
    ensures r.Success? && skip ==> r.value == None
    ensures r.Success? && !skip ==> r.value.Some?
  {
    match TranslateEntries(es, skip, service)
    case Failure(e) => Failure(e)
    case Success(t) =>
      TranslateKeepsCues(es, skip, service);
      Success(if skip then None else Some(SrtDocument(t)))
  }

  // ---------------------------------------------------------------------------
  // What each path does
  // ---------------------------------------------------------------------------

  /**
   * The sliced path: the run goes through exactly when every slice is
   * answered with at least as many texts as there are cues, and since every
   * slice writes its answers over the dictionary from the first cue on, the
   * last slice's answers are the ones that remain.
   */
  lemma {:induction false} AssignChunksSpec(es: seq<Entry>, chunks: seq<seq<string>>, service: seq<string> -> seq<string>)
    ensures var r := AssignChunks(es, chunks, service);
      && (r.Success? <==> forall k :: 0 <= k < |chunks| ==> |service(chunks[k])| >= |es|)
      && (chunks == [] ==> r == Success(es))
      && (r.Success? && chunks != [] ==> |r.value| == |es| && forall i :: 0 <= i < |es| ==>
            r.value[i] == Entry(es[i].key, es[i].cue.(translatedText := Some(service(chunks[|chunks| - 1])[i]))))
    decreases |chunks|
  {
    if chunks != [] {
      var a := AssignPositional(es, service(chunks[0]));
      if a.Success? {
        AssignChunksSpec(a.value, chunks[1..], service);
        assert forall k :: 1 <= k < |chunks| ==> chunks[1..][k - 1] == chunks[k];
        if chunks[1..] == [] {
          assert chunks[|chunks| - 1] == chunks[0];
        } else {
          assert chunks[1..][|chunks[1..]| - 1] == chunks[|chunks| - 1];
        }
      }
    }
  }

  /** With the translation skipped, every cue gets its own text and nothing else changes. */
  lemma SkipCopiesText(es: seq<Entry>, service: seq<string> -> seq<string>)
    ensures var r := TranslateEntries(es, true, service);
      && r.Success? && |r.value| == |es|
      && forall i :: 0 <= i < |es| ==> r.value[i] == Entry(es[i].key, es[i].cue.(translatedText := Some(es[i].cue.text)))
  {
  }

  /**
   * A payload of at most 27000 bytes goes out in one request: the run goes
   * through exactly when the answer has at least one text per cue, and cue
   * `i` then holds answer `i`.
   */
  lemma SinglePath(es: seq<Entry>, service: seq<string> -> seq<string>)
    requires Utf8Total(Texts(es)) <= ByteLimit
    ensures var r := TranslateEntries(es, false, service);
      && (r.Success? <==> |service(Texts(es))| >= |es|)
      && (r.Success? ==> |r.value| == |es| && forall i :: 0 <= i < |es| ==>
            r.value[i] == Entry(es[i].key, es[i].cue.(translatedText := Some(service(Texts(es))[i]))))
  {
  }

  /**
   * With 100 cues or fewer the size of the payload makes no difference: the
   * only slice is the whole list, so both paths send the same request and
   * write back the same answers.
   */
  lemma SmallDictionarySingleRequest(es: seq<Entry>, service: seq<string> -> seq<string>)
    requires |es| <= ChunkSize
    ensures TranslateEntries(es, false, service) == AssignPositional(es, service(Texts(es)))
  {
    var ts := Texts(es);
    if Utf8Total(ts) > ByteLimit {
      assert ts != [];
      var cs := Chunked(ts);
      assert |cs| == 1;
      assert cs[0] == ts[0..Min(ChunkSize, |ts|)] == ts;
      assert cs[1..] == [];
      var a := AssignPositional(es, service(ts));
      if a.Success? {
        assert AssignChunks(a.value, cs[1..], service) == Success(a.value);
      }
    }
  }

  /**
   * Above 27000 bytes and 100 cues, a service that never answers with more
   * texts than it was sent makes the run fail: the first slice holds only
   * 100 texts, and its answers are written over all the cues.
   */
  lemma LargeDictionaryFails(es: seq<Entry>, service: seq<string> -> seq<string>)
    requires Utf8Total(Texts(es)) > ByteLimit && |es| > ChunkSize
    requires forall xs :: |service(xs)| <= |xs|
    ensures TranslateEntries(es, false, service).Failure?
  {
    var cs := Chunked(Texts(es));
    ChunkedSpec(Texts(es));
    AssignChunksSpec(es, cs, service);
    assert |service(cs[0])| < |es|;
  }

  /**
   * A successful run keeps every key, position and field of every cue and
   * gives each of them a translation.
   */
  lemma TranslateKeepsCues(es: seq<Entry>, skip: bool, service: seq<string> -> seq<string>)
    ensures var r := TranslateEntries(es, skip, service);
      r.Success? ==> |r.value| == |es| && forall i :: 0 <= i < |es| ==>
        && r.value[i].key == es[i].key
        && r.value[i].cue.translatedText.Some?
        && r.value[i].cue == es[i].cue.(translatedText := r.value[i].cue.translatedText)
  {
    var ts := Texts(es);
    if !skip && Utf8Total(ts) > ByteLimit {
      var cs := Chunked(ts);
      AssignChunksSpec(es, cs, service);
    }
  }

  // ---------------------------------------------------------------------------
  // The translated SubRip file
  // ---------------------------------------------------------------------------

  predicate AllTranslated(es: seq<Entry>) {
    forall i :: 0 <= i < |es| ==> es[i].cue.translatedText.Some?
  }

  /** One block of the translated file: index, timing line, translation, blank line. */
  function SrtBlock(e: Entry): string
    requires e.cue.translatedText.Some?
  {
    e.key + "\n" + e.cue.timestampsLine + "\n" + e.cue.translatedText.value + "\n\n"
  }

  /** The translated file: the blocks in dictionary order. */
  function SrtDocument(es: seq<Entry>): string
    requires AllTranslated(es)
    decreases |es|
  {
    if es == [] then [] else SrtDocument(es[..|es| - 1]) + SrtBlock(es[|es| - 1])
  }

  /** The file of two dictionaries laid end to end is the two files laid end to end. */
  lemma {:induction false} SrtDocumentAppend(a: seq<Entry>, b: seq<Entry>)
    requires AllTranslated(a) && AllTranslated(b)
    ensures AllTranslated(a + b)
    ensures SrtDocument(a + b) == SrtDocument(a) + SrtDocument(b)
    decreases |b|
  {
    if b == [] {
      assert a + b == a;
    } else {
      assert (a + b)[..|a + b| - 1] == a + b[..|b| - 1];
      SrtDocumentAppend(a, b[..|b| - 1]);
    }
  }

  /**
   * A block spells out its key, timing line and translation, each on a
   * line of its own, and ends with a blank line.
   */
  lemma SrtBlockLayout(e: Entry)
    requires e.cue.translatedText.Some?
    ensures var b := SrtBlock(e);
      var k := |e.key|;
      var t := |e.cue.timestampsLine|;
      var x := |e.cue.translatedText.value|;
      && |b| == k + t + x + 4
      && b[..k] == e.key && b[k] == '\n'
      && b[k + 1..k + 1 + t] == e.cue.timestampsLine && b[k + 1 + t] == '\n'
      && b[k + t + 2..k + t + 2 + x] == e.cue.translatedText.value
      && b[k + t + x + 2..] == "\n\n"
  {
  }

  /** The output-file loop: the blocks written one after another. */
  method WriteSrt(es: seq<Entry>) returns (contents: string)
    requires AllTranslated(es)
    ensures contents == SrtDocument(es)
  {
    contents := [];
    for i := 0 to |es|
      invariant contents == SrtDocument(es[..i])
    {
      assert es[..i + 1][..i] == es[..i];
      var e := es[i];
      contents := contents + e.key + "\n";
      contents := contents + e.cue.timestampsLine + "\n";
      contents := contents + e.cue.translatedText.value + "\n\n";
    }
    assert es[..|es|] == es;
  }
}
