/**
 * The subtitle dictionary `subsDict` of main.py as the object the script
 * updates in place: the combiner (lines 180-212) deletes and rewrites its
 * entries, the promotion loop (lines 217-221) overwrites timing fields, and
 * `translate_dictionary` (lines 228-316) writes a translation into every cue
 * and lays out the translated file. Each method is proved against the
 * function of the same stage, whose properties are proved in its own module.
 */
module Subtitles {
  import opened Wrappers
  import opened Text
  import opened Cues
  import opened Combiner
  import opened Promotion
  import opened Translation

  class SubtitleDict {
    /** The entries in insertion order. */
    var entries: seq<Entry>

    constructor (es: seq<Entry>)
      ensures entries == es
    {
      entries := es;
    }

    /**
     * One iteration of the combiner's loop, for the entry `e` of the copy:
     * a missing key (the current one, already absorbed, or its successor)
     * ends the iteration with nothing changed.
     */
    method AbsorbNext(e: Entry, maxChars: int, buffer: int)
      requires Combinable(entries)
      modifies this
      ensures entries == CombineStep(e, old(entries), maxChars, buffer)
    {
      var here := IndexOf(entries, e.key);
      if here.None? {
        return;
      }
      var i := here.value;
      if entries[i].cue.breakUntilNext != Some(0) {
        return;
      }
      var next := IndexOf(entries, SuccKey(e.key));
      if next.None? {
        return;
      }
      var j := next.value;
      if |e.cue.text + entries[j].cue.text| < maxChars {
        var merged := MergeCue(entries[i].cue, entries[j].cue, e.cue.text, buffer);
        entries := RemoveAt(entries[i := Entry(e.key, merged)], j);
      }
    }

    /**
     * `combine_subtitle_entries`: the loop walks a copy of the dictionary
     * taken before it starts and updates the dictionary itself.
     */
    method CombineEntries(maxChars: int, buffer: int)
      requires Combinable(entries)
      modifies this
      ensures entries == Combine(old(entries), maxChars, buffer)
    {
      var snapshot := entries;
      for i := 0 to |snapshot|
        invariant Combinable(entries)
        invariant CombineFrom(snapshot[i..], entries, maxChars, buffer) == Combine(snapshot, maxChars, buffer)
      {
        assert snapshot[i..][1..] == snapshot[i + 1..];
        AbsorbNext(snapshot[i], maxChars, buffer);
      }
    }

    /** The promotion loop: with a positive buffer every cue takes its buffered timing. */
    method PromoteBuffer(buffer: int)
      modifies this
      ensures entries == PromoteAll(old(entries), buffer)
    {
      ghost var before := entries;
      for i := 0 to |entries|
        invariant |entries| == |before|
        invariant forall k :: 0 <= k < i ==> entries[k] == PromoteAll(before, buffer)[k]
        invariant forall k :: i <= k < |entries| ==> entries[k] == before[k]
      {
        if buffer > 0 {
          var c := entries[i].cue;
          entries := entries[i := Entry(entries[i].key,
            c.(startMs := c.startMsBuffered, endMs := c.endMsBuffered, durationMs := c.durationMsBuffered))];
        }
      }
    }

    /** The texts to translate, gathered in dictionary order. */
    method CollectTexts() returns (ts: seq<string>)
      ensures ts == Texts(entries)
    {
      ts := [];
      for i := 0 to |entries|
        invariant ts == Texts(entries[..i])
      {
        ts := ts + [entries[i].cue.text];
      }
      assert entries[..|entries|] == entries;
    }

    /**
     * `for i, key in enumerate(d): d[key]['translated_text'] = answers[i]`:
     * the run stops at the first cue without an answer, the cues before it
     * already overwritten.
     */
    method AssignAnswers(answers: seq<string>) returns (ok: bool)
      modifies this
      ensures ok <==> |answers| >= |old(entries)|
      ensures ok ==> Success(entries) == AssignPositional(old(entries), answers)
      ensures |entries| == |old(entries)|
    {
      ghost var before := entries;
      for i := 0 to |entries|
        invariant |entries| == |before|
        invariant i <= |answers|
        invariant forall k :: 0 <= k < i ==> entries[k] == Entry(before[k].key, before[k].cue.(translatedText := Some(answers[k])))
        invariant forall k :: i <= k < |entries| ==> entries[k] == before[k]
      {
        if i >= |answers| {
          return false;
        }
        entries := entries[i := Entry(entries[i].key, entries[i].cue.(translatedText := Some(answers[i])))];
      }
      assert entries == AssignPositional(before, answers).value;
      return true;
    }

    /** The skip mode: every cue's own text stands for its translation. */
    method CopyOwnTexts()
      modifies this
      ensures entries == CopyTexts(old(entries))
    {
      ghost var before := entries;
      for i := 0 to |entries|
        invariant |entries| == |before|
        invariant forall k :: 0 <= k < i ==> entries[k] == CopyTexts(before)[k]
        invariant forall k :: i <= k < |entries| ==> entries[k] == before[k]
      {
        entries := entries[i := Entry(entries[i].key, entries[i].cue.(translatedText := Some(entries[i].cue.text)))];
      }
    }

    /**
     * `translate_dictionary`: the texts are sent through `service` in one
     * request, or in slices of 100 above 27000 bytes, and written back by
     * position; with `skip` they are copied. Unless skipped, the run also
     * yields the contents of the translated file. A failed run reports the
     * first answer that came back too short.
     */
    method Translate(skip: bool, service: seq<string> -> seq<string>)
      returns (r: Result<Option<string>, TranslateError>)
      modifies this
      ensures r == TranslatedFile(old(entries), skip, service)
      ensures r.Success? ==> entries == TranslateEntries(old(entries), skip, service).value && AllTranslated(entries)
    {
      ghost var before := entries;
      var texts := CollectTexts();
      var codepoints := PayloadBytes(texts);
      TranslateKeepsCues(before, skip, service);
      if skip {
        CopyOwnTexts();
        return Success(None);
      }
      if codepoints > ByteLimit {
        var chunks := Chunked(texts);
        for c := 0 to |chunks|
          invariant AssignChunks(before, chunks, service) == AssignChunks(entries, chunks[c..], service)
        {
          var answers := service(chunks[c]);
          var ok := AssignAnswers(answers);
          if !ok {
            return Failure(AnswerTooShort(|answers|, |entries|));
          }
          assert chunks[c..][1..] == chunks[c + 1..];
        }
        assert AssignChunks(entries, chunks[|chunks|..], service) == Success(entries);
      } else {
        var answers := service(texts);
        var ok := AssignAnswers(answers);
        if !ok {
          return Failure(AnswerTooShort(|answers|, |entries|));
        }
      }
      var contents := WriteSrt(entries);
      return Success(Some(contents));
    }
  }
}
