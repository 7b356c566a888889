/**
 * The buffer promotion of main.py (lines 217-221): with a positive
 * `addBufferMilliseconds`, every cue's start, end and duration are
 * overwritten by their buffered counterparts; otherwise nothing changes.
 */
module Promotion {
  import opened Wrappers
  import opened Cues

  /** One cue after promotion. */
  function PromoteCue(c: Cue, buffer: int): Cue {
    if buffer > 0 then
      c.(startMs := c.startMsBuffered, endMs := c.endMsBuffered, durationMs := c.durationMsBuffered)
    else c
  }

  /** The dictionary after promotion: same keys, same order, each cue promoted. */
  function PromoteAll(es: seq<Entry>, buffer: int): (r: seq<Entry>)
    ensures |r| == |es|
    ensures forall i :: 0 <= i < |es| ==> r[i].key == es[i].key
  {
    seq(|es|, i requires 0 <= i < |es| => Entry(es[i].key, PromoteCue(es[i].cue, buffer)))
  }

  /**
   * Promoting a consistent cue with a positive buffer `b` moves its start
   * `b` later and its end `b` earlier and shortens it by `2 * b`, leaving
   * the buffered fields, text, gap and timing line as they were; it is
   * then consistent with no buffer at all. With any other buffer the cue is
   * unchanged.
   */
  lemma PromoteTiming(c: Cue, buffer: int)
    requires Consistent(c, buffer)
    ensures var p := PromoteCue(c, buffer);
      && (buffer > 0 ==>
            && p.startMs == c.startMs + buffer && p.endMs == c.endMs - buffer
            && p.durationMs == c.durationMs - 2 * buffer
            && p.durationMs == p.endMs - p.startMs
            && p.startMsBuffered == p.startMs && p.endMsBuffered == p.endMs
            && Consistent(p, 0))
      && (buffer <= 0 ==> p == c)
      && p.text == c.text && p.breakUntilNext == c.breakUntilNext
      && p.timestampsLine == c.timestampsLine && p.translatedText == c.translatedText
  {
  }

  /** Promotion keeps every key where it was: a lookup finds the same position before and after. */
  lemma PromoteAllKeys(es: seq<Entry>, buffer: int)
    ensures forall k :: IndexOf(PromoteAll(es, buffer), k) == IndexOf(es, k)
  {
    forall k ensures IndexOf(PromoteAll(es, buffer), k) == IndexOf(es, k) {
      PromoteIndexOf(es, buffer, k);
    }
  }

  lemma {:induction false} PromoteIndexOf(es: seq<Entry>, buffer: int, k: string)
    ensures IndexOf(PromoteAll(es, buffer), k) == IndexOf(es, k)
    decreases |es|
  {
    if es != [] {
      var r := PromoteAll(es, buffer);
      assert r[1..] == PromoteAll(es[1..], buffer);
      PromoteIndexOf(es[1..], buffer, k);
    }
  }

  /** With a positive buffer, every cue of a consistent dictionary ends up consistent with no buffer. */
  lemma PromoteAllTiming(es: seq<Entry>, buffer: int)
    requires forall i :: 0 <= i < |es| ==> Consistent(es[i].cue, buffer)
    ensures forall i :: 0 <= i < |es| ==> PromoteAll(es, buffer)[i].cue == PromoteCue(es[i].cue, buffer)
    ensures buffer > 0 ==> forall i :: 0 <= i < |es| ==> Consistent(PromoteAll(es, buffer)[i].cue, 0)
    ensures buffer <= 0 ==> PromoteAll(es, buffer) == es
  {
    forall i | 0 <= i < |es| ensures buffer > 0 ==> Consistent(PromoteAll(es, buffer)[i].cue, 0) {
      PromoteTiming(es[i].cue, buffer);
    }
    if buffer <= 0 {
      assert forall i :: 0 <= i < |es| ==> PromoteAll(es, buffer)[i] == es[i];
    }
  }
}
