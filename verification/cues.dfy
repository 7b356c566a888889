/**
 * The subtitle dictionary of main.py. Each cue is a record of timing fields
 * (stored by the source as decimal strings, here as integers), its text, the
 * gap to the next cue and the original timing line. The dictionary itself is
 * an insertion-ordered mapping from the index line's text to a cue: a
 * sequence of entries with distinct keys, where assigning to an existing key
 * keeps its position and assigning to a new key appends.
 */
module Cues {
  import opened Wrappers
  import opened Text
  import opened Timestamps

  datatype Cue = Cue(
    startMs: int,
    endMs: int,
    durationMs: int,
    text: string,
    /** `None` stands for the empty string the parser starts every cue with. */
    breakUntilNext: Option<int>,
    timestampsLine: string,
    startMsBuffered: int,
    endMsBuffered: int,
    durationMsBuffered: int,
    /** Absent until the translation stage writes it. */
    translatedText: Option<string>)

  datatype Entry = Entry(key: string, cue: Cue)

  // ---------------------------------------------------------------------------
  // The ordered dictionary
  // ---------------------------------------------------------------------------

  predicate DistinctKeys(es: seq<Entry>) {
    forall i, j :: 0 <= i < j < |es| ==> es[i].key != es[j].key
  }

  /** Where `k` sits in the dictionary, if it is there (`k in d`). */
  function IndexOf(es: seq<Entry>, k: string): (r: Option<nat>)
    ensures r.Some? ==> r.value < |es| && es[r.value].key == k
    ensures r.Some? ==> forall j :: 0 <= j < r.value ==> es[j].key != k
    ensures r.None? ==> forall j :: 0 <= j < |es| ==> es[j].key != k
  {
    if es == [] then None
    else if es[0].key == k then Some(0)
    else match IndexOf(es[1..], k)
      case None => None
      case Some(i) => Some(i + 1)
  }

  lemma IndexOfDistinct(es: seq<Entry>, i: nat)
    requires DistinctKeys(es) && i < |es|
    ensures IndexOf(es, es[i].key) == Some(i)
  {
  }

  /** `d[k] = c`: overwrite in place when `k` is present, append otherwise. */
  function Put(es: seq<Entry>, k: string, c: Cue): seq<Entry> {
    match IndexOf(es, k)
    case Some(i) => es[i := Entry(k, c)]
    case None => es + [Entry(k, c)]
  }

  /** After `d[k] = c` the key is present. */
  lemma PutFinds(es: seq<Entry>, k: string, c: Cue)
    ensures IndexOf(Put(es, k, c), k).Some?
  {
    var r := Put(es, k, c);
    match IndexOf(es, k)
    case Some(i) =>
      assert r[i].key == k;
    case None =>
      assert r[|es|].key == k;
  }

  /** After `d[k] = c`, `k` maps to `c`, no other key moves or changes, and keys stay distinct. */
  lemma PutSpec(es: seq<Entry>, k: string, c: Cue)
    requires DistinctKeys(es)
    ensures var r := Put(es, k, c);
      && DistinctKeys(r)
      && IndexOf(r, k).Some? && r[IndexOf(r, k).value] == Entry(k, c)
      && |r| == (if IndexOf(es, k).Some? then |es| else |es| + 1)
      && forall j :: 0 <= j < |es| && es[j].key != k ==> r[j] == es[j]
  {
    var r := Put(es, k, c);
    match IndexOf(es, k)
    case Some(i) =>
      IndexOfDistinct(r, i);
    case None =>
      IndexOfDistinct(r, |es|);
  }

  /** The keys in insertion order (`list(d)`). */
  function Keys(es: seq<Entry>): (ks: seq<string>)
    ensures |ks| == |es| && forall i :: 0 <= i < |es| ==> ks[i] == es[i].key
  {
    seq(|es|, i requires 0 <= i < |es| => es[i].key)
  }

  /** `d.get(k)`: the cue stored under `k`, if any. */
  function Lookup(es: seq<Entry>, k: string): Option<Cue> {
    match IndexOf(es, k)
    case Some(i) => Some(es[i].cue)
    case None => None
  }

  /** Lookups depend only on the keys, in order. */
  lemma {:induction false} IndexOfSameKeys(a: seq<Entry>, b: seq<Entry>, k: string)
    requires Keys(a) == Keys(b)
    ensures IndexOf(a, k) == IndexOf(b, k)
    decreases |a|
  {
    if a != [] {
      assert Keys(a[1..]) == Keys(a)[1..] == Keys(b)[1..] == Keys(b[1..]);
      IndexOfSameKeys(a[1..], b[1..], k);
    }
  }

  /** Appending an entry under another key does not move any lookup. */
  lemma {:induction false} IndexOfAppend(es: seq<Entry>, e: Entry, k: string)
    requires e.key != k
    ensures IndexOf(es + [e], k) == IndexOf(es, k)
    decreases |es|
  {
    if es != [] {
      assert (es + [e])[1..] == es[1..] + [e];
      IndexOfAppend(es[1..], e, k);
    }
  }

  /** After `d[k] = c`, `k` maps to `c` and every other key maps to what it did. */
  lemma PutLookup(es: seq<Entry>, k: string, c: Cue)
    ensures Lookup(Put(es, k, c), k) == Some(c)
    ensures forall k' :: k' != k ==> Lookup(Put(es, k, c), k') == Lookup(es, k')
  {
    var r := Put(es, k, c);
    PutFinds(es, k, c);
    match IndexOf(es, k)
    case Some(i) =>
      assert Keys(r) == Keys(es);
      forall k' | k' != k ensures Lookup(r, k') == Lookup(es, k') {
        IndexOfSameKeys(r, es, k');
      }
    case None =>
      forall k' | k' != k ensures Lookup(r, k') == Lookup(es, k') {
        IndexOfAppend(es, Entry(k, c), k');
      }
  }

  /** `d[k] = c` keeps the key order; a new key goes last. */
  lemma PutKeys(es: seq<Entry>, k: string, c: Cue)
    ensures Keys(Put(es, k, c)) == (if k in Keys(es) then Keys(es) else Keys(es) + [k])
  {
    var r := Put(es, k, c);
    match IndexOf(es, k)
    case Some(i) =>
      assert Keys(r) == Keys(es);
    case None =>
      assert k !in Keys(es);
      assert Keys(r) == Keys(es) + [k];
  }

  /** Every entry after `d[k] = c` is the new one or the one that was at its position. */
  lemma PutElements(es: seq<Entry>, k: string, c: Cue)
    ensures var r := Put(es, k, c);
      forall j :: 0 <= j < |r| ==> r[j] == Entry(k, c) || (j < |es| && r[j] == es[j])
  {
  }

  /** A key is present exactly when it is among the keys. */
  lemma LookupKeys(es: seq<Entry>, k: string)
    ensures Lookup(es, k).Some? <==> k in Keys(es)
  {
    if k in Keys(es) {
      var i :| 0 <= i < |es| && Keys(es)[i] == k;
      assert es[i].key == k;
    }
  }

  /** `del d[key]` for the entry at position `j`. */
  function RemoveAt(es: seq<Entry>, j: nat): (r: seq<Entry>)
    requires j < |es|
    ensures |r| == |es| - 1
    ensures forall k :: 0 <= k < j ==> r[k] == es[k]
    ensures forall k :: j <= k < |r| ==> r[k] == es[k + 1]
  {
    es[..j] + es[j + 1..]
  }

  // ---------------------------------------------------------------------------
  // Keys: `str(int(k) - 1)` and `str(int(k) + 1)`
  // ---------------------------------------------------------------------------

  /** The key the parser looks up for the previous cue. */
  function PredKey(k: string): string
    requires IsDigits(k)
  {
    ShowInt(DigitsValue(k) - 1)
  }

  /** The key the combiner looks up for the next cue. */
  function SuccKey(k: string): string
    requires IsDigits(k)
  {
    ShowNat(DigitsValue(k) + 1)
  }

  /** Neither neighbour key can be the key itself, and each is one away in value. */
  lemma NeighbourKeys(k: string)
    requires IsDigits(k)
    ensures PredKey(k) != k && SuccKey(k) != k
    ensures IsDigits(SuccKey(k)) && DigitsValue(SuccKey(k)) == DigitsValue(k) + 1
    ensures IsDigits(PredKey(k)) ==> DigitsValue(PredKey(k)) + 1 == DigitsValue(k)
    ensures Canonical(k) && DigitsValue(k) > 0 ==> SuccKey(PredKey(k)) == k
  {
    ShowNatRoundTrip(DigitsValue(k) + 1);
    if DigitsValue(k) > 0 {
      ShowNatRoundTrip(DigitsValue(k) - 1);
      if Canonical(k) {
        CanonicalRoundTrip(k);
      }
    }
  }

  /** Digit keys no two of which have the same value, as in a file whose index lines count up. */
  predicate KeysApart(ks: seq<string>) {
    && (forall k :: k in ks ==> IsDigits(k))
    && (forall a, b :: a in ks && b in ks && IsDigits(a) && IsDigits(b) && DigitsValue(a) == DigitsValue(b) ==> a == b)
  }

  /** The previous key is never the key itself. */
  lemma PredKeyDiffers(k: string)
    requires IsDigits(k)
    ensures PredKey(k) != k
  {
    NeighbourKeys(k);
  }

  // ---------------------------------------------------------------------------
  // Buffered timing
  // ---------------------------------------------------------------------------

  /** The padding actually applied: `addBufferMilliseconds` when positive, nothing otherwise. */
  function Pad(buffer: int): nat {
    if buffer > 0 then buffer else 0
  }

  /**
   * A freshly parsed cue: `duration_ms = end - start`, buffered start and end
   * moved inwards by the buffer when it is positive, copied otherwise.
   */
  function NewCue(startMs: int, endMs: int, text: string, line: string, buffer: int): Cue {
    if buffer > 0 then
      Cue(startMs, endMs, endMs - startMs, text, None, line,
          startMs + buffer, endMs - buffer, (endMs - buffer) - (startMs + buffer), None)
    else
      Cue(startMs, endMs, endMs - startMs, text, None, line,
          startMs, endMs, endMs - startMs, None)
  }

  /** How the timing fields of a cue relate to each other for a given buffer. */
  predicate Consistent(c: Cue, buffer: int) {
    && c.durationMs == c.endMs - c.startMs
    && c.startMsBuffered == c.startMs + Pad(buffer)
    && c.endMsBuffered == c.endMs - Pad(buffer)
    && c.durationMsBuffered == c.endMsBuffered - c.startMsBuffered
  }

  /**
   * A new cue is consistent; with a positive buffer `b` its buffered
   * interval is `[start + b, end - b]` and two `b` shorter, and with any
   * other buffer it is the canonical interval.
   */
  lemma NewCueTiming(startMs: int, endMs: int, text: string, line: string, buffer: int)
    ensures var c := NewCue(startMs, endMs, text, line, buffer);
      && Consistent(c, buffer)
      && c.startMs == startMs && c.endMs == endMs && c.durationMs == endMs - startMs
      && (buffer > 0 ==>
            c.startMsBuffered == startMs + buffer && c.endMsBuffered == endMs - buffer
            && c.durationMsBuffered == c.durationMs - 2 * buffer)
      && (buffer <= 0 ==>
            c.startMsBuffered == startMs && c.endMsBuffered == endMs
            && c.durationMsBuffered == c.durationMs)
      && c.text == text && c.timestampsLine == line
      && c.breakUntilNext == None && c.translatedText == None
  {
  }

  /** The timing line still spells out the cue's canonical start and end. */
  predicate TimestampsAgree(c: Cue) {
    && TimestampLine(c.timestampsLine)
    && c.startMs == ClockMs(c.timestampsLine, 0)
    && c.endMs == ClockMs(c.timestampsLine, 17)
  }
}
