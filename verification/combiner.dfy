/**
 * `combine_subtitle_entries` of main.py (lines 180-212). The loop walks a
 * copy of the dictionary taken before it starts; for each key still present
 * whose gap to the next cue is exactly zero, it looks up `str(int(key) + 1)`
 * and, when the two texts together are shorter than the limit, folds that
 * cue into this one and deletes it. A key that was deleted earlier in the
 * loop, or a successor that is missing, raises a KeyError that the loop
 * swallows.
 *
 * The literal loop is `CombineFrom`; `Pairwise` is an independent reference
 * that walks the entries left to right and merges each one with at most its
 * immediate neighbour. The two agree whenever the keys increase along the
 * dictionary order, as they do for a SubRip file whose index lines count up.
 */
module Combiner {
  import opened Wrappers
  import opened Text
  import opened Timestamps
  import opened Cues

  /**
   * What the loop needs of the dictionary to run without an uncaught error:
   * every key is digits (it goes through `int(key)`) and every timing line
   * has a separator (the successor's line goes through `split(' --> ')[1]`).
   */
  predicate Combinable(es: seq<Entry>) {
    forall i :: 0 <= i < |es| ==> Fits(es[i])
  }

  predicate Fits(e: Entry) {
    IsDigits(e.key) && FirstArrow(e.cue.timestampsLine).Some?
  }

  lemma CombinableTail(es: seq<Entry>, k: nat)
    requires Combinable(es) && k <= |es|
    ensures Combinable(es[k..])
  {
    assert forall i :: 0 <= i < |es[k..]| ==> es[k..][i] == es[i + k];
  }

  /** Overwriting the cue at `i` with one that fits and deleting the entry at `j` keeps the dictionary combinable. */
  lemma ReplaceRemove(es: seq<Entry>, i: nat, j: nat, m: Cue)
    requires Combinable(es) && i < |es| && j < |es| && i != j
    requires FirstArrow(m.timestampsLine).Some?
    ensures var r := RemoveAt(es[i := Entry(es[i].key, m)], j);
      && Combinable(r)
      && (DistinctKeys(es) ==> DistinctKeys(r))
  {
    var u := es[i := Entry(es[i].key, m)];
    assert Combinable(u) by {
      forall k | 0 <= k < |u| ensures Fits(u[k]) {
        if k != i {
          assert u[k] == es[k];
        }
      }
    }
    assert forall k :: 0 <= k < |u| ==> u[k].key == es[k].key;
    assert DistinctKeys(es) ==> DistinctKeys(u);
  }

  /** The key of `a` is a smaller number than the key of `b`. */
  predicate KeyLess(a: Entry, b: Entry) {
    IsDigits(a.key) && IsDigits(b.key) && DigitsValue(a.key) < DigitsValue(b.key)
  }

  /** A combinable dictionary whose keys, read as numbers, strictly increase along its order. */
  predicate Increasing(es: seq<Entry>) {
    Combinable(es) && forall i, j :: 0 <= i < j < |es| ==> KeyLess(es[i], es[j])
  }

  /** Increasing keys are digit keys no two of which share a value. */
  lemma IncreasingApart(es: seq<Entry>)
    requires Increasing(es)
    ensures KeysApart(Keys(es))
  {
    forall a, b | a in Keys(es) && b in Keys(es) && IsDigits(a) && IsDigits(b) && DigitsValue(a) == DigitsValue(b)
      ensures a == b
    {
      var i :| 0 <= i < |es| && Keys(es)[i] == a;
      var j :| 0 <= j < |es| && Keys(es)[j] == b;
      assert i == j;
    }
    forall k | k in Keys(es) ensures IsDigits(k) {
      var i :| 0 <= i < |es| && Keys(es)[i] == k;
      assert Fits(es[i]);
    }
  }

  lemma IncreasingDistinct(es: seq<Entry>)
    requires Increasing(es)
    ensures DistinctKeys(es)
  {
    forall i, j | 0 <= i < j < |es| ensures es[i].key != es[j].key {
      assert KeyLess(es[i], es[j]);
    }
  }

  /**
   * The cue `c` after it absorbs its successor `n`: the text is `firstText`
   * (this cue's text in the copy the loop walks), a space and the
   * successor's text; the end times come from the successor; the durations
   * are summed, the buffered one with twice the buffer added back; and the
   * timing line is this cue's start part joined to the successor's end part.
   */
  function MergeCue(c: Cue, n: Cue, firstText: string, buffer: int): (m: Cue)
    requires FirstArrow(n.timestampsLine).Some?
    ensures FirstArrow(m.timestampsLine).Some?
    ensures m.startMs == c.startMs && m.startMsBuffered == c.startMsBuffered
    ensures m.breakUntilNext == c.breakUntilNext && m.translatedText == c.translatedText
    ensures |m.text| == |firstText| + 1 + |n.text|
  {
    c.(text := firstText + " " + n.text,
       endMs := n.endMs,
       endMsBuffered := n.endMsBuffered,
       durationMs := c.durationMs + n.durationMs,
       durationMsBuffered := c.durationMsBuffered + n.durationMsBuffered + 2 * buffer,
       timestampsLine := RejoinedLine(c.timestampsLine, n.timestampsLine))
  }

  // ---------------------------------------------------------------------------
  // The loop as written
  // ---------------------------------------------------------------------------

  /**
   * One iteration, for the entry `e` of the copy: the merge test reads the
   * live dictionary's gap and the copy's text, and every missing key ends
   * the iteration with the dictionary as it was.
   */
  function CombineStep(e: Entry, es: seq<Entry>, maxChars: int, buffer: int): (r: seq<Entry>)
    requires Combinable(es)
    ensures Combinable(r) && |r| <= |es|
    ensures DistinctKeys(es) ==> DistinctKeys(r)
  {
    match IndexOf(es, e.key)
    case None => es
    case Some(i) =>
      if es[i].cue.breakUntilNext != Some(0) then es
      else
        match IndexOf(es, SuccKey(e.key))
        case None => es
        case Some(j) =>
          if |e.cue.text + es[j].cue.text| < maxChars then
            NeighbourKeys(e.key);
            ReplaceRemove(es, i, j, MergeCue(es[i].cue, es[j].cue, e.cue.text, buffer));
            RemoveAt(es[i := Entry(e.key, MergeCue(es[i].cue, es[j].cue, e.cue.text, buffer))], j)
          else es
  }

  /** The loop over the remaining entries `todo` of the copy, `es` being the live dictionary. */
  function CombineFrom(todo: seq<Entry>, es: seq<Entry>, maxChars: int, buffer: int): (r: seq<Entry>)
    requires Combinable(es)
    ensures Combinable(r)
    decreases |todo|
  {
    if todo == [] then es
    else CombineFrom(todo[1..], CombineStep(todo[0], es, maxChars, buffer), maxChars, buffer)
  }

  /** `combine_subtitle_entries(d, maxChars)`: the loop over a copy of `d` itself. */
  function Combine(es: seq<Entry>, maxChars: int, buffer: int): seq<Entry>
    requires Combinable(es)
  {
    CombineFrom(es, es, maxChars, buffer)
  }

  // ---------------------------------------------------------------------------
  // The reference: merge neighbours pairwise, left to right
  // ---------------------------------------------------------------------------

  /** The merge test for the cue `a` and the cue `b` right after it. */
  predicate Joinable(a: Entry, b: Entry, maxChars: int)
    requires IsDigits(a.key)
  {
    a.cue.breakUntilNext == Some(0) && b.key == SuccKey(a.key) && |a.cue.text + b.cue.text| < maxChars
  }

  function Merged(a: Entry, b: Entry, buffer: int): Entry
    requires FirstArrow(b.cue.timestampsLine).Some?
  {
    Entry(a.key, MergeCue(a.cue, b.cue, a.cue.text, buffer))
  }

  /** How many entries the reference consumes at the front: two when the first absorbs the second. */
  function Taken(es: seq<Entry>, maxChars: int): (n: nat)
    requires Combinable(es) && es != []
    ensures 1 <= n <= |es|
  {
    if |es| >= 2 && Joinable(es[0], es[1], maxChars) then 2 else 1
  }

  /** The entry the reference emits for the front of `es`. */
  function Front(es: seq<Entry>, maxChars: int, buffer: int): (e: Entry)
    requires Combinable(es) && es != []
    ensures e.key == es[0].key && Fits(e)
    ensures e.cue.breakUntilNext == es[0].cue.breakUntilNext && |e.cue.text| >= |es[0].cue.text|
  {
    if Taken(es, maxChars) == 2 then Merged(es[0], es[1], buffer) else es[0]
  }

  /** Each entry absorbs the next one when the two are joinable; an absorbed entry absorbs nothing. */
  function Pairwise(es: seq<Entry>, maxChars: int, buffer: int): (r: seq<Entry>)
    requires Combinable(es)
    ensures |r| <= |es|
    decreases |es|
  {
    if es == [] then []
    else
      CombinableTail(es, Taken(es, maxChars));
      [Front(es, maxChars, buffer)] + Pairwise(es[Taken(es, maxChars)..], maxChars, buffer)
  }

  /** The reference's result starts with the front entry and goes on with the reference applied to the rest. */
  lemma PairwiseCons(es: seq<Entry>, maxChars: int, buffer: int)
    requires Combinable(es) && es != []
    ensures Combinable(es[Taken(es, maxChars)..])
    ensures Pairwise(es, maxChars, buffer)
      == [Front(es, maxChars, buffer)] + Pairwise(es[Taken(es, maxChars)..], maxChars, buffer)
  {
    CombinableTail(es, Taken(es, maxChars));
  }

  /** The reference's result is combinable again. */
  lemma {:induction false} PairwiseCombinable(es: seq<Entry>, maxChars: int, buffer: int)
    requires Combinable(es)
    ensures Combinable(Pairwise(es, maxChars, buffer))
    decreases |es|
  {
    if es != [] {
      PairwiseCons(es, maxChars, buffer);
      PairwiseCombinable(es[Taken(es, maxChars)..], maxChars, buffer);
      ConsCombinable(Front(es, maxChars, buffer), Pairwise(es[Taken(es, maxChars)..], maxChars, buffer));
    }
  }

  lemma ConsCombinable(e: Entry, es: seq<Entry>)
    requires Fits(e) && Combinable(es)
    ensures Combinable([e] + es)
  {
  }

  // ---------------------------------------------------------------------------
  // The loop agrees with the reference
  // ---------------------------------------------------------------------------

  /** Two keys whose values differ are different keys. */
  lemma ValuesApart(a: string, b: string)
    requires IsDigits(a) && IsDigits(b) && DigitsValue(a) != DigitsValue(b)
    ensures a != b
  {
  }

  /** With increasing keys, no entry other than the one right after position `n` can hold the successor key. */
  lemma SuccessorOnlyNext(es: seq<Entry>, n: nat, j: nat)
    requires Increasing(es) && n < |es| && j < |es| && j != n + 1
    ensures IsDigits(es[n].key) && es[j].key != SuccKey(es[n].key)
  {
    assert Fits(es[n]) && Fits(es[j]);
    var v := DigitsValue(es[n].key);
    NeighbourKeys(es[n].key);
    if j < n {
      assert KeyLess(es[j], es[n]);
    } else if j > n + 1 {
      assert KeyLess(es[n], es[n + 1]) && KeyLess(es[n + 1], es[j]);
    }
    ValuesApart(es[j].key, SuccKey(es[n].key));
  }

  /** With increasing keys the successor key, if present at all, sits right after the key. */
  lemma SuccessorNext(es: seq<Entry>, n: nat)
    requires Increasing(es) && n < |es|
    ensures IsDigits(es[n].key)
    ensures IndexOf(es, SuccKey(es[n].key))
      == if n + 1 < |es| && es[n + 1].key == SuccKey(es[n].key) then Some(n + 1) else None
  {
    assert Fits(es[n]);
    var k := SuccKey(es[n].key);
    IncreasingDistinct(es);
    forall j | 0 <= j < |es| && j != n + 1 ensures es[j].key != k {
      SuccessorOnlyNext(es, n, j);
    }
    OnlyAt(es, n + 1, k);
  }

  /** In a dictionary with distinct keys, a key that can only sit at position `p` is found there or nowhere. */
  lemma OnlyAt(es: seq<Entry>, p: nat, k: string)
    requires DistinctKeys(es)
    requires forall j :: 0 <= j < |es| && j != p ==> es[j].key != k
    ensures IndexOf(es, k) == if p < |es| && es[p].key == k then Some(p) else None
  {
    if p < |es| && es[p].key == k {
      IndexOfDistinct(es, p);
    }
  }

  /** The step for the entry at position `n` of the live dictionary, when that entry is unchanged from the copy. */
  lemma StepAt(es: seq<Entry>, n: nat, maxChars: int, buffer: int)
    requires Increasing(es) && n < |es|
    ensures Fits(es[n])
    ensures CombineStep(es[n], es, maxChars, buffer)
      == if n + 1 < |es| && Joinable(es[n], es[n + 1], maxChars)
         then RemoveAt(es[n := Merged(es[n], es[n + 1], buffer)], n + 1)
         else es
  {
    assert Fits(es[n]);
    IncreasingDistinct(es);
    IndexOfDistinct(es, n);
    SuccessorNext(es, n);
  }

  /** Positions of `done + [m] + t` against those of `done + [a, b] + t`. */
  lemma SpliceMerge(done: seq<Entry>, rest: seq<Entry>, m: Entry)
    requires |rest| >= 2
    ensures RemoveAt((done + rest)[|done| := m], |done| + 1) == done + [m] + rest[2..]
  {
    var x := (done + rest)[|done| := m];
    var r := RemoveAt(x, |done| + 1);
    var y := done + [m] + rest[2..];
    assert |r| == |y|;
    forall k | 0 <= k < |r| ensures r[k] == y[k] {
      if k > |done| {
        assert r[k] == x[k + 1] == rest[k + 1 - |done|];
      }
    }
  }

  /** Where each entry of `done + [m] + rest[2..]` comes from in `done + rest`. */
  lemma MergedPositions(done: seq<Entry>, rest: seq<Entry>, m: Entry)
    requires |rest| >= 2
    ensures var x, y := done + rest, done + [m] + rest[2..];
      && |y| == |x| - 1 && y[|done|] == m
      && (forall k :: 0 <= k < |done| ==> y[k] == x[k])
      && (forall k :: |done| < k < |y| ==> y[k] == x[k + 1])
  {
    var x, y := done + rest, done + [m] + rest[2..];
    forall k | |done| < k < |y| ensures y[k] == x[k + 1] {
      assert y[k] == rest[k - |done| + 1];
    }
  }

  /** Replacing two neighbours by one entry under the first one's key keeps the keys increasing. */
  lemma IncreasingMerge(done: seq<Entry>, rest: seq<Entry>, m: Entry)
    requires Increasing(done + rest) && |rest| >= 2 && m.key == rest[0].key && Fits(m)
    ensures Increasing(done + [m] + rest[2..])
  {
    var x, y := done + rest, done + [m] + rest[2..];
    var n := |done|;
    MergedPositions(done, rest, m);
    assert x[n] == rest[0];
    forall k | 0 <= k < |y| ensures Fits(y[k]) && y[k].key == x[if k <= n then k else k + 1].key {
      if k != n {
        assert Fits(x[if k < n then k else k + 1]);
      }
    }
    forall i, j | 0 <= i < j < |y| ensures KeyLess(y[i], y[j]) {
      assert KeyLess(x[if i <= n then i else i + 1], x[if j <= n then j else j + 1]);
    }
  }

  /** Moving the boundary between handled and unhandled entries changes neither the sequence nor its order. */
  lemma Shift(done: seq<Entry>, rest: seq<Entry>)
    requires rest != []
    ensures done + rest == (done + [rest[0]]) + rest[1..]
  {
  }

  /** The entry a merge absorbed is no longer in the dictionary. */
  lemma AbsorbedGone(done: seq<Entry>, rest: seq<Entry>, m: Entry)
    requires Increasing(done + rest) && |rest| >= 2 && m.key == rest[0].key
    requires Increasing(done + [m] + rest[2..])
    ensures IndexOf(done + [m] + rest[2..], rest[1].key) == None
  {
    var x, y := done + rest, done + [m] + rest[2..];
    var n := |done|;
    assert x[n] == rest[0] && x[n + 1] == rest[1];
    forall k | 0 <= k < |y| ensures y[k].key != rest[1].key {
      if k < n {
        assert y[k] == x[k] && KeyLess(x[k], x[n + 1]);
      } else if k == n {
        assert KeyLess(x[n], x[n + 1]);
      } else {
        assert y[k] == x[k + 1] && KeyLess(x[n + 1], x[k + 1]);
      }
    }
  }

  /** The step for an entry that is no longer in the dictionary changes nothing. */
  lemma StepAbsent(e: Entry, es: seq<Entry>, maxChars: int, buffer: int)
    requires Combinable(es) && IndexOf(es, e.key) == None
    ensures CombineStep(e, es, maxChars, buffer) == es
  {
  }

  /**
   * The loop, having handled the entries `done` (now merged where they
   * merged), handles the rest of the copy exactly as the reference does,
   * whenever the keys increase along the order.
   */
  lemma {:induction false} CombineFromPairwise(done: seq<Entry>, rest: seq<Entry>, maxChars: int, buffer: int)
    requires Increasing(done + rest) && Combinable(rest)
    ensures CombineFrom(rest, done + rest, maxChars, buffer) == done + Pairwise(rest, maxChars, buffer)
    decreases |rest|
  {
    if rest == [] {
      assert done + rest == done;
      return;
    }
    var n := |done|;
    var cur := done + rest;
    assert cur[n] == rest[0];
    StepAt(cur, n, maxChars, buffer);
    if |rest| >= 2 {
      assert cur[n + 1] == rest[1];
    }
    if |rest| >= 2 && Joinable(rest[0], rest[1], maxChars) {
      MergeBranch(done, rest, maxChars, buffer);
    } else {
      KeepBranch(done, rest, maxChars, buffer);
    }
  }

  /** One turn of the loop, once its step is known. */
  lemma FromStep(todo: seq<Entry>, es: seq<Entry>, step: seq<Entry>, maxChars: int, buffer: int)
    requires Combinable(es) && todo != [] && CombineStep(todo[0], es, maxChars, buffer) == step
    ensures CombineFrom(todo, es, maxChars, buffer) == CombineFrom(todo[1..], step, maxChars, buffer)
  {
  }

  /** The reference keeps an entry that cannot absorb its neighbour. */
  lemma PairwiseKeeps(done: seq<Entry>, rest: seq<Entry>, maxChars: int, buffer: int)
    requires Combinable(rest) && rest != []
    requires !(|rest| >= 2 && Joinable(rest[0], rest[1], maxChars))
    ensures Combinable(rest[1..])
    ensures (done + [rest[0]]) + Pairwise(rest[1..], maxChars, buffer) == done + Pairwise(rest, maxChars, buffer)
  {
    PairwiseCons(rest, maxChars, buffer);
    var p := Pairwise(rest[1..], maxChars, buffer);
    assert (done + [rest[0]]) + p == done + ([rest[0]] + p);
  }

  /** The reference merges an entry that can absorb its neighbour. */
  lemma PairwiseMerges(done: seq<Entry>, rest: seq<Entry>, maxChars: int, buffer: int)
    requires Combinable(rest) && |rest| >= 2 && Joinable(rest[0], rest[1], maxChars)
    ensures Combinable(rest[2..])
    ensures var m := Merged(rest[0], rest[1], buffer);
      (done + [m]) + Pairwise(rest[2..], maxChars, buffer) == done + Pairwise(rest, maxChars, buffer)
  {
    PairwiseCons(rest, maxChars, buffer);
    var m := Merged(rest[0], rest[1], buffer);
    var p := Pairwise(rest[2..], maxChars, buffer);
    assert (done + [m]) + p == done + ([m] + p);
  }

  /** The case of `CombineFromPairwise` where the first remaining entry stays as it is. */
  lemma {:induction false} KeepBranch(done: seq<Entry>, rest: seq<Entry>, maxChars: int, buffer: int)
    requires Increasing(done + rest) && Combinable(rest) && rest != []
    requires !(|rest| >= 2 && Joinable(rest[0], rest[1], maxChars))
    requires CombineStep(rest[0], done + rest, maxChars, buffer) == done + rest
    ensures CombineFrom(rest, done + rest, maxChars, buffer) == done + Pairwise(rest, maxChars, buffer)
    decreases |rest|, 0
  {
    FromStep(rest, done + rest, done + rest, maxChars, buffer);
    Shift(done, rest);
    PairwiseKeeps(done, rest, maxChars, buffer);
    CombineFromPairwise(done + [rest[0]], rest[1..], maxChars, buffer);
  }

  /** The case of `CombineFromPairwise` where the first remaining entry absorbs the second. */
  lemma {:induction false} MergeBranch(done: seq<Entry>, rest: seq<Entry>, maxChars: int, buffer: int)
    requires Increasing(done + rest) && Combinable(rest) && |rest| >= 2
    requires Joinable(rest[0], rest[1], maxChars)
    requires CombineStep(rest[0], done + rest, maxChars, buffer)
      == RemoveAt((done + rest)[|done| := Merged(rest[0], rest[1], buffer)], |done| + 1)
    ensures CombineFrom(rest, done + rest, maxChars, buffer) == done + Pairwise(rest, maxChars, buffer)
    decreases |rest|, 0
  {
    var m := Merged(rest[0], rest[1], buffer);
    SpliceMerge(done, rest, m);
    var step := done + [m] + rest[2..];
    FromStep(rest, done + rest, step, maxChars, buffer);
    IncreasingMerge(done, rest, m);
    AbsorbedGone(done, rest, m);
    StepAbsent(rest[1], step, maxChars, buffer);
    assert rest[1..][1..] == rest[2..];
    FromStep(rest[1..], step, step, maxChars, buffer);
    PairwiseMerges(done, rest, maxChars, buffer);
    CombineFromPairwise(done + [m], rest[2..], maxChars, buffer);
  }

  /** With increasing keys, `combine_subtitle_entries` merges neighbours pairwise. */
  lemma CombineIsPairwise(es: seq<Entry>, maxChars: int, buffer: int)
    requires Increasing(es)
    ensures Combine(es, maxChars, buffer) == Pairwise(es, maxChars, buffer)
  {
    assert [] + es == es;
    CombineFromPairwise([], es, maxChars, buffer);
  }

  // ---------------------------------------------------------------------------
  // What one call does, entry by entry
  // ---------------------------------------------------------------------------

  /**
   * The entry at position `p` is folded into the one before it: that one
   * was not itself folded away, and the two are joinable.
   */
  predicate Absorbed(es: seq<Entry>, p: nat, maxChars: int)
    requires Combinable(es) && p < |es|
  {
    p > 0 && !Absorbed(es, p - 1, maxChars) && Joinable(es[p - 1], es[p], maxChars)
  }

  /**
   * No chains in the loop as written: when the entry at `p` is folded into
   * the one before it, that one holds exactly the two merged, and the entry
   * after `p` keeps its own key. The loop reaches `p` after its key was
   * deleted, so the KeyError it swallows leaves the successor alone.
   */
  lemma NoCascade(es: seq<Entry>, p: nat, maxChars: int, buffer: int)
    requires Increasing(es) && p + 1 < |es| && Absorbed(es, p, maxChars)
    ensures var out := Combine(es, maxChars, buffer);
      && p > 0
      && IndexOf(out, es[p].key).None?
      && IndexOf(out, es[p - 1].key).Some?
      && out[IndexOf(out, es[p - 1].key).value] == Merged(es[p - 1], es[p], buffer)
      && IndexOf(out, es[p + 1].key).Some?
  {
    CombineIsPairwise(es, maxChars, buffer);
    PairwiseEntry(es, p, maxChars, buffer);
    PairwiseEntry(es, p - 1, maxChars, buffer);
    PairwiseEntry(es, p + 1, maxChars, buffer);
  }

  /** Dropping an entry that absorbs nothing shifts the folding pattern by one. */
  lemma {:induction false} AbsorbedAfterKeep(es: seq<Entry>, p: nat, maxChars: int)
    requires Combinable(es) && 1 <= p < |es|
    requires !(|es| >= 2 && Joinable(es[0], es[1], maxChars))
    ensures Combinable(es[1..]) && Absorbed(es, p, maxChars) == Absorbed(es[1..], p - 1, maxChars)
  {
    CombinableTail(es, 1);
    if p > 1 {
      AbsorbedAfterKeep(es, p - 1, maxChars);
      assert es[1..][p - 2] == es[p - 1] && es[1..][p - 1] == es[p];
    }
  }

  /** Dropping an entry and the neighbour it absorbs shifts the folding pattern by two. */
  lemma {:induction false} AbsorbedAfterMerge(es: seq<Entry>, p: nat, maxChars: int)
    requires Combinable(es) && 2 <= p < |es| && Joinable(es[0], es[1], maxChars)
    ensures Combinable(es[2..]) && Absorbed(es, p, maxChars) == Absorbed(es[2..], p - 2, maxChars)
  {
    CombinableTail(es, 2);
    assert Absorbed(es, 1, maxChars);
    if p > 2 {
      AbsorbedAfterMerge(es, p - 1, maxChars);
      assert es[2..][p - 3] == es[p - 1] && es[2..][p - 2] == es[p];
    }
  }

  /** Every key of `es` is a number above `v`. */
  predicate Above(es: seq<Entry>, v: int) {
    forall i :: 0 <= i < |es| ==> IsDigits(es[i].key) && DigitsValue(es[i].key) > v
  }

  lemma IncreasingTail(es: seq<Entry>, k: nat)
    requires Increasing(es) && k <= |es|
    ensures Increasing(es[k..])
  {
    CombinableTail(es, k);
    forall i, j | 0 <= i < j < |es[k..]| ensures KeyLess(es[k..][i], es[k..][j]) {
      assert es[k..][i] == es[i + k] && es[k..][j] == es[j + k];
    }
  }

  /** Everything after the first entry of an increasing dictionary lies above the first key. */
  lemma IncreasingAbove(es: seq<Entry>, k: nat)
    requires Increasing(es) && 0 < k <= |es|
    ensures IsDigits(es[k - 1].key) && Above(es[k..], DigitsValue(es[k - 1].key))
  {
    assert Fits(es[k - 1]);
    forall i | 0 <= i < |es[k..]| ensures IsDigits(es[k..][i].key) && DigitsValue(es[k..][i].key) > DigitsValue(es[k - 1].key) {
      assert es[k..][i] == es[i + k] && KeyLess(es[k - 1], es[i + k]);
    }
  }

  /** The reference only ever keeps keys it was given: a bound on all keys carries over. */
  lemma {:induction false} PairwiseAbove(es: seq<Entry>, v: int, maxChars: int, buffer: int)
    requires Combinable(es) && Above(es, v)
    ensures Above(Pairwise(es, maxChars, buffer), v)
    decreases |es|
  {
    if es != [] {
      var k := Taken(es, maxChars);
      PairwiseCons(es, maxChars, buffer);
      AboveTail(es, k, v);
      PairwiseAbove(es[k..], v, maxChars, buffer);
      AboveCons(Front(es, maxChars, buffer), Pairwise(es[k..], maxChars, buffer), v);
    }
  }

  lemma AboveTail(es: seq<Entry>, k: nat, v: int)
    requires Above(es, v) && k <= |es|
    ensures Above(es[k..], v)
  {
    assert forall i :: 0 <= i < |es[k..]| ==> es[k..][i] == es[i + k];
  }

  lemma AboveCons(e: Entry, es: seq<Entry>, v: int)
    requires Above(es, v) && IsDigits(e.key) && DigitsValue(e.key) > v
    ensures Above([e] + es, v)
  {
  }

  /** A key below every key of `es` is not a key of the reference's result. */
  lemma AboveAbsent(es: seq<Entry>, k: string, v: int)
    requires Above(es, v) && IsDigits(k) && DigitsValue(k) <= v
    ensures IndexOf(es, k) == None
  {
  }

  /** `IndexOf` on a dictionary with one more entry in front. */
  lemma IndexOfCons(x: Entry, t: seq<Entry>, k: string)
    ensures IndexOf([x] + t, k)
      == if x.key == k then Some(0)
         else match IndexOf(t, k) case None => None case Some(i) => Some(i + 1)
  {
    assert ([x] + t)[1..] == t;
  }

  /** The reference keeps the keys increasing. */
  lemma {:induction false} PairwiseIncreasing(es: seq<Entry>, maxChars: int, buffer: int)
    requires Increasing(es)
    ensures Increasing(Pairwise(es, maxChars, buffer))
    decreases |es|
  {
    if es != [] {
      var k := Taken(es, maxChars);
      PairwiseCons(es, maxChars, buffer);
      IncreasingTail(es, k);
      PairwiseIncreasing(es[k..], maxChars, buffer);
      IncreasingAbove(es, 1);
      if k == 2 {
        AboveTail(es[1..], 1, DigitsValue(es[0].key));
        assert es[1..][1..] == es[2..];
      }
      PairwiseAbove(es[k..], DigitsValue(es[0].key), maxChars, buffer);
      IncreasingCons(Front(es, maxChars, buffer), Pairwise(es[k..], maxChars, buffer));
    }
  }

  /** An entry whose key lies below every key of an increasing dictionary can go in front of it. */
  lemma IncreasingCons(e: Entry, es: seq<Entry>)
    requires Fits(e) && Increasing(es) && Above(es, DigitsValue(e.key))
    ensures Increasing([e] + es)
  {
    var r := [e] + es;
    forall i, j | 0 <= i < j < |r| ensures KeyLess(r[i], r[j]) {
      if i == 0 {
        assert r[j] == es[j - 1];
      } else {
        assert r[i] == es[i - 1] && r[j] == es[j - 1];
      }
    }
  }

  /** What the reference emits for the entry at position `p`, if it keeps that entry's key. */
  function Outcome(es: seq<Entry>, p: nat, maxChars: int, buffer: int): Entry
    requires Combinable(es) && p < |es|
  {
    if p + 1 < |es| && Absorbed(es, p + 1, maxChars) then Merged(es[p], es[p + 1], buffer) else es[p]
  }

  /**
   * Entry by entry: a key disappears exactly when its entry was absorbed by
   * the one before it; a key that stays holds its entry merged with the
   * next one when it absorbed that one, and otherwise its entry unchanged.
   */
  lemma {:induction false} PairwiseEntry(es: seq<Entry>, p: nat, maxChars: int, buffer: int)
    requires Increasing(es) && p < |es|
    ensures var out := Pairwise(es, maxChars, buffer);
      && (IndexOf(out, es[p].key).None? <==> Absorbed(es, p, maxChars))
      && (IndexOf(out, es[p].key).Some? ==>
            out[IndexOf(out, es[p].key).value] == Outcome(es, p, maxChars, buffer))
    decreases |es|
  {
    var k := Taken(es, maxChars);
    PairwiseCons(es, maxChars, buffer);
    var rest := Pairwise(es[k..], maxChars, buffer);
    var f := Front(es, maxChars, buffer);
    IndexOfCons(f, rest, es[p].key);
    if p == 0 {
      assert k == 2 <==> 1 < |es| && Absorbed(es, 1, maxChars);
    } else if p < k {
      AbsorbedSecond(es, maxChars, buffer);
    } else {
      LaterEntry(es, p, maxChars, buffer);
    }
  }

  /** The second entry, when the first absorbs it, leaves no trace of its key. */
  lemma AbsorbedSecond(es: seq<Entry>, maxChars: int, buffer: int)
    requires Increasing(es) && |es| >= 2 && Taken(es, maxChars) == 2
    ensures Absorbed(es, 1, maxChars)
    ensures IndexOf(Pairwise(es[2..], maxChars, buffer), es[1].key) == None
    ensures Front(es, maxChars, buffer).key != es[1].key
  {
    IncreasingAbove(es, 2);
    IncreasingTail(es, 2);
    PairwiseAbove(es[2..], DigitsValue(es[1].key), maxChars, buffer);
    AboveAbsent(Pairwise(es[2..], maxChars, buffer), es[1].key, DigitsValue(es[1].key));
    assert KeyLess(es[0], es[1]);
  }

  /** An entry past the front: the claim for `es` is the claim for what follows the front. */
  lemma {:induction false} LaterEntry(es: seq<Entry>, p: nat, maxChars: int, buffer: int)
    requires Increasing(es) && es != [] && Taken(es, maxChars) <= p < |es|
    ensures var k := Taken(es, maxChars);
      && Combinable(es[k..])
      && Front(es, maxChars, buffer).key != es[p].key
      && Absorbed(es, p, maxChars) == Absorbed(es[k..], p - k, maxChars)
      && Outcome(es, p, maxChars, buffer) == Outcome(es[k..], p - k, maxChars, buffer)
      && var out := Pairwise(es[k..], maxChars, buffer);
         && (IndexOf(out, es[p].key).None? <==> Absorbed(es, p, maxChars))
         && (IndexOf(out, es[p].key).Some? ==>
               out[IndexOf(out, es[p].key).value] == Outcome(es, p, maxChars, buffer))
    decreases |es|, 0
  {
    var k := Taken(es, maxChars);
    IncreasingTail(es, k);
    assert es[k..][p - k] == es[p];
    assert KeyLess(es[0], es[p]);
    if k == 1 {
      AbsorbedAfterKeep(es, p, maxChars);
      if p + 1 < |es| {
        AbsorbedAfterKeep(es, p + 1, maxChars);
        assert es[k..][p - k + 1] == es[p + 1];
      }
    } else {
      AbsorbedAfterMerge(es, p, maxChars);
      if p + 1 < |es| {
        AbsorbedAfterMerge(es, p + 1, maxChars);
        assert es[k..][p - k + 1] == es[p + 1];
      }
    }
    PairwiseEntry(es[k..], p - k, maxChars, buffer);
  }

  // ---------------------------------------------------------------------------
  // A second call changes nothing; chains are not followed
  // ---------------------------------------------------------------------------

  /** No entry can absorb the entry after it. */
  predicate Settled(es: seq<Entry>, maxChars: int) {
    Combinable(es) && forall q :: 0 <= q < |es| - 1 ==> !Joinable(es[q], es[q + 1], maxChars)
  }

  lemma SettledCons(e: Entry, es: seq<Entry>, maxChars: int)
    requires Fits(e) && Settled(es, maxChars) && (es != [] ==> !Joinable(e, es[0], maxChars))
    ensures Settled([e] + es, maxChars)
  {
    var r := [e] + es;
    forall q | 0 <= q < |r| - 1 ensures !Joinable(r[q], r[q + 1], maxChars) {
      if q > 0 {
        assert r[q] == es[q - 1] && r[q + 1] == es[q];
      }
    }
  }

  /** After the reference has run, no entry can absorb its neighbour any more. */
  lemma {:induction false} PairwiseSettled(es: seq<Entry>, maxChars: int, buffer: int)
    requires Increasing(es)
    ensures Settled(Pairwise(es, maxChars, buffer), maxChars)
    decreases |es|
  {
    if es != [] {
      var k := Taken(es, maxChars);
      PairwiseCons(es, maxChars, buffer);
      IncreasingTail(es, k);
      PairwiseSettled(es[k..], maxChars, buffer);
      PairwiseCombinable(es[k..], maxChars, buffer);
      var f := Front(es, maxChars, buffer);
      var rest := Pairwise(es[k..], maxChars, buffer);
      if rest != [] {
        PairwiseCons(es[k..], maxChars, buffer);
        assert rest[0] == Front(es[k..], maxChars, buffer);
        assert es[k..][0] == es[k];
        if k == 2 {
          NeighbourKeys(es[0].key);
          assert KeyLess(es[1], es[2]);
        }
      }
      SettledCons(f, rest, maxChars);
    }
  }

  /** The reference leaves a settled dictionary as it is. */
  lemma {:induction false} PairwiseOfSettled(es: seq<Entry>, maxChars: int, buffer: int)
    requires Settled(es, maxChars)
    ensures Pairwise(es, maxChars, buffer) == es
    decreases |es|
  {
    if es != [] {
      PairwiseCons(es, maxChars, buffer);
      assert Settled(es[1..], maxChars) by {
        forall q | 0 <= q < |es[1..]| - 1 ensures !Joinable(es[1..][q], es[1..][q + 1], maxChars) {
          assert es[1..][q] == es[q + 1] && es[1..][q + 1] == es[q + 2];
        }
      }
      PairwiseOfSettled(es[1..], maxChars, buffer);
      assert es == [es[0]] + es[1..];
    }
  }

  /** With increasing keys, running the combiner a second time changes nothing. */
  lemma CombineIdempotent(es: seq<Entry>, maxChars: int, buffer: int)
    requires Increasing(es)
    ensures Combine(Combine(es, maxChars, buffer), maxChars, buffer) == Combine(es, maxChars, buffer)
  {
    CombineIsPairwise(es, maxChars, buffer);
    var out := Pairwise(es, maxChars, buffer);
    PairwiseIncreasing(es, maxChars, buffer);
    CombineIsPairwise(out, maxChars, buffer);
    PairwiseSettled(es, maxChars, buffer);
    PairwiseOfSettled(out, maxChars, buffer);
  }

  /**
   * Three cues in a row, each joinable with the next, become two: the first
   * absorbs the second and the third stays as it was.
   */
  lemma ChainOfThree(a: Entry, b: Entry, c: Entry, maxChars: int, buffer: int)
    requires Fits(a) && Fits(b) && Fits(c) && Increasing([a, b, c])
    requires Joinable(a, b, maxChars) && Joinable(b, c, maxChars)
    ensures Combine([a, b, c], maxChars, buffer) == [Merged(a, b, buffer), c]
  {
    var es := [a, b, c];
    CombineIsPairwise(es, maxChars, buffer);
    PairwiseCons(es, maxChars, buffer);
    assert es[2..] == [c];
    PairwiseCons([c], maxChars, buffer);
    assert [c][1..] == [];
  }

  // ---------------------------------------------------------------------------
  // Timing of merged cues
  // ---------------------------------------------------------------------------

  /**
   * Merging two consistent cues that touch (the second starts where the
   * first ends): the merged cue runs from the first start to the second
   * end, and its duration is that span. Its buffered duration is its
   * buffered span when the buffer is not negative; with a negative buffer,
   * which the parser never applies, the `2 * buffer` added back makes the
   * buffered duration fall short of the buffered span by twice its size.
   */
  lemma MergeTiming(c: Cue, n: Cue, buffer: int)
    requires Consistent(c, buffer) && Consistent(n, buffer) && n.startMs == c.endMs
    requires FirstArrow(n.timestampsLine).Some?
    ensures var m := MergeCue(c, n, c.text, buffer);
      && m.startMs == c.startMs && m.endMs == n.endMs
      && m.durationMs == m.endMs - m.startMs == c.durationMs + n.durationMs
      && (buffer >= 0 ==> Consistent(m, buffer))
      && (buffer < 0 ==> m.durationMsBuffered == (m.endMsBuffered - m.startMsBuffered) + 2 * buffer)
  {
  }

  /** The rewritten timing line of a merged cue spells out its new start and end. */
  lemma MergeTimestamps(c: Cue, n: Cue, firstText: string, buffer: int)
    requires TimestampsAgree(c) && TimestampsAgree(n)
    ensures FirstArrow(n.timestampsLine).Some?
    ensures TimestampsAgree(MergeCue(c, n, firstText, buffer))
  {
    TimestampSplit(n.timestampsLine);
    RejoinedClocks(c.timestampsLine, n.timestampsLine);
  }

  /** A cue whose timing fields fit the buffer and whose timing line spells them out. */
  predicate Timed(e: Entry, buffer: int) {
    Consistent(e.cue, buffer) && TimestampsAgree(e.cue)
  }

  /** A zero gap recorded for `a`, with `b` the next cue, means `b` starts where `a` ends. */
  predicate ZeroGapMeets(a: Entry, b: Entry) {
    IsDigits(a.key) && (a.cue.breakUntilNext == Some(0) && b.key == SuccKey(a.key) ==> b.cue.startMs == a.cue.endMs)
  }

  /** Every cue is timed, and every recorded zero gap is a true one. */
  predicate TimedDict(es: seq<Entry>, buffer: int) {
    && Combinable(es)
    && (forall i :: 0 <= i < |es| ==> Timed(es[i], buffer))
    && (forall q :: 0 <= q < |es| - 1 ==> ZeroGapMeets(es[q], es[q + 1]))
  }

  lemma TimedTail(es: seq<Entry>, k: nat, buffer: int)
    requires TimedDict(es, buffer) && k <= |es|
    ensures TimedDict(es[k..], buffer)
  {
    CombinableTail(es, k);
    var t := es[k..];
    forall q | 0 <= q < |t| - 1 ensures ZeroGapMeets(t[q], t[q + 1]) {
      assert t[q] == es[q + k] && t[q + 1] == es[q + k + 1];
    }
  }

  /**
   * With a buffer that is not negative, the reference keeps every cue
   * timed: merges only happen across true zero gaps, and the merged cue's
   * fields and timing line agree with each other.
   */
  lemma {:induction false} PairwiseTimed(es: seq<Entry>, maxChars: int, buffer: int)
    requires TimedDict(es, buffer) && buffer >= 0
    ensures forall i :: 0 <= i < |Pairwise(es, maxChars, buffer)| ==> Timed(Pairwise(es, maxChars, buffer)[i], buffer)
    decreases |es|
  {
    if es != [] {
      var k := Taken(es, maxChars);
      PairwiseCons(es, maxChars, buffer);
      TimedTail(es, k, buffer);
      PairwiseTimed(es[k..], maxChars, buffer);
      var f := Front(es, maxChars, buffer);
      assert Timed(es[0], buffer);
      if k == 2 {
        assert Timed(es[1], buffer) && ZeroGapMeets(es[0], es[1]);
        MergeTiming(es[0].cue, es[1].cue, buffer);
        MergeTimestamps(es[0].cue, es[1].cue, es[0].cue.text, buffer);
      }
      var out := [f] + Pairwise(es[k..], maxChars, buffer);
      forall i | 0 <= i < |out| ensures Timed(out[i], buffer) {
        if i > 0 {
          assert out[i] == Pairwise(es[k..], maxChars, buffer)[i - 1];
        }
      }
    }
  }

  /** With increasing keys and a buffer that is not negative, `combine_subtitle_entries` keeps every cue timed. */
  lemma CombineTimed(es: seq<Entry>, maxChars: int, buffer: int)
    requires Increasing(es) && TimedDict(es, buffer) && buffer >= 0
    ensures forall i :: 0 <= i < |Combine(es, maxChars, buffer)| ==> Timed(Combine(es, maxChars, buffer)[i], buffer)
  {
    CombineIsPairwise(es, maxChars, buffer);
    PairwiseTimed(es, maxChars, buffer);
  }
}
