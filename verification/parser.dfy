/**
 * The SubRip parse loop of main.py (lines 129-176). Every line is examined
 * in turn; a digit-only line followed by a timing line opens a cue whose
 * text runs from the line after the timing line up to the first blank
 * line. The previous cue, looked up by `str(int(index) - 1)`, learns the gap
 * to the new one. Reading past the last line and a missing previous cue
 * stop the program; they are the two errors here.
 */
module SrtParser {
  import opened Wrappers
  import opened Text
  import opened Timestamps
  import opened Cues

  datatype ParseError =
    /** `lines[n]` with `n` past the last line (IndexError). */
    | IndexOutOfRange(index: nat)
    /** `subsDict[key]` for a previous-cue key that was never parsed (KeyError). */
    | MissingKey(key: string)

  /** Line `i` opens a cue: it is digits only and the next line matches the timing pattern. */
  predicate Recognised(lines: seq<string>, i: int) {
    0 <= i && i + 1 < |lines| && IsDigits(Strip(lines[i])) && TimestampLine(lines[i + 1])
  }

  // ---------------------------------------------------------------------------
  // Specification of the loop
  // ---------------------------------------------------------------------------

  /** The `while True` loop over `count`: append stripped lines until a blank one. */
  function Gather(lines: seq<string>, j: nat, acc: string): Result<string, ParseError>
    decreases |lines| - j
  {
    if j >= |lines| then Failure(IndexOutOfRange(j))
    else if Strip(lines[j]) == [] then Success(acc)
    else Gather(lines, j + 1, acc + " " + Strip(lines[j]))
  }

  /** The text of the cue opened at line `i`. */
  function CueText(lines: seq<string>, i: nat): Result<string, ParseError> {
    if i + 2 >= |lines| then Failure(IndexOutOfRange(i + 2))
    else Gather(lines, i + 3, Strip(lines[i + 2]))
  }

  /** The cue record built for the block opened at line `i`. */
  function CueAt(lines: seq<string>, i: nat, text: string, buffer: int): Cue
    requires Recognised(lines, i)
  {
    NewCue(ClockMs(lines[i + 1], 0), ClockMs(lines[i + 1], 17), text, Strip(lines[i + 1]), buffer)
  }

  /** `subsDict[key]['break_until_next'] = str(gap)` for the entry at position `p`. */
  function WithBreak(es: seq<Entry>, p: nat, gap: int): seq<Entry>
    requires p < |es|
  {
    es[p := Entry(es[p].key, es[p].cue.(breakUntilNext := Some(gap)))]
  }

  /**
   * The gap bookkeeping after `d[key] = cue`: a later block writes the
   * distance from the previous cue's end to its own start into the previous
   * cue, found under `prevKey`; the block on the first line writes '0' into
   * its own cue.
   */
  function Link(es: seq<Entry>, key: string, prevKey: string, first: bool, startMs: int): Result<seq<Entry>, ParseError>
    requires IndexOf(es, key).Some?
  {
    if !first then
      match IndexOf(es, prevKey)
      case None => Failure(MissingKey(prevKey))
      case Some(p) => Success(WithBreak(es, p, startMs - es[p].cue.endMs))
    else
      Success(WithBreak(es, IndexOf(es, key).value, 0))
  }

  /**
   * `d[key] = cue` followed by the gap bookkeeping; `prevKey` is where the
   * previous cue is looked up and `first` says the block is on the file's
   * first line.
   */
  function Store(acc: seq<Entry>, key: string, prevKey: string, cue: Cue, first: bool): Result<seq<Entry>, ParseError> {
    PutFinds(acc, key, cue);
    Link(Put(acc, key, cue), key, prevKey, first, cue.startMs)
  }

  /** The dictionary after the block opened at line `i` is stored; the previous cue is looked up under `str(int(key) - 1)`. */
  function AddCue(lines: seq<string>, i: nat, text: string, acc: seq<Entry>, buffer: int): Result<seq<Entry>, ParseError>
    requires Recognised(lines, i)
  {
    var key := Strip(lines[i]);
    Store(acc, key, PredKey(key), CueAt(lines, i, text, buffer), i == 0)
  }

  /** The parse loop from line `i` on, with `acc` the dictionary built so far. */
  function ParseFrom(lines: seq<string>, i: nat, acc: seq<Entry>, buffer: int): Result<seq<Entry>, ParseError>
    decreases |lines| - i
  {
    if i >= |lines| then Success(acc)
    else if !IsDigits(Strip(lines[i])) then ParseFrom(lines, i + 1, acc, buffer)
    else if i + 1 >= |lines| then Failure(IndexOutOfRange(i + 1))
    else if !TimestampLine(lines[i + 1]) then ParseFrom(lines, i + 1, acc, buffer)
    else match CueText(lines, i)
      case Failure(e) => Failure(e)
      case Success(text) =>
        match AddCue(lines, i, text, acc, buffer)
        case Failure(e) => Failure(e)
        case Success(acc') => ParseFrom(lines, i + 1, acc', buffer)
  }

  function Parse(lines: seq<string>, buffer: int): Result<seq<Entry>, ParseError> {
    ParseFrom(lines, 0, [], buffer)
  }

  // ---------------------------------------------------------------------------
  // The loops themselves
  // ---------------------------------------------------------------------------

  /** Reads the text of the block opened at line `lineNum`, up to the first blank line. */
  method CollectText(lines: seq<string>, lineNum: nat) returns (r: Result<string, ParseError>)
    ensures r == CueText(lines, lineNum)
  {
    if lineNum + 2 >= |lines| {
      return Failure(IndexOutOfRange(lineNum + 2));
    }
    var text := Strip(lines[lineNum + 2]);
    var count := 3;
    while true
      invariant 3 <= count && lineNum + count <= |lines|
      invariant Gather(lines, lineNum + count, text) == CueText(lines, lineNum)
      decreases |lines| - (lineNum + count)
    {
      if lineNum + count >= |lines| {
        return Failure(IndexOutOfRange(lineNum + count));
      }
      var next := Strip(lines[lineNum + count]);
      if next != [] {
        text := text + " " + next;
        count := count + 1;
      } else {
        break;
      }
    }
    return Success(text);
  }

  /** Records the gap to the cue just stored under `key`, in the previous cue or in that cue itself. */
  method LinkPrevious(subs: seq<Entry>, key: string, prevKey: string, first: bool, startMs: int)
    returns (r: Result<seq<Entry>, ParseError>)
    requires IndexOf(subs, key).Some?
    ensures r == Link(subs, key, prevKey, first, startMs)
  {
    var updated := subs;
    if !first {
      var prev := IndexOf(updated, prevKey);
      if prev.None? {
        return Failure(MissingKey(prevKey));
      }
      var p := prev.value;
      updated := WithBreak(updated, p, startMs - updated[p].cue.endMs);
    } else {
      updated := WithBreak(updated, IndexOf(updated, key).value, 0);
    }
    return Success(updated);
  }

  /** Stores the cue opened at line `lineNum` and records the gap it leaves. */
  method StoreCue(lines: seq<string>, lineNum: nat, text: string, subs: seq<Entry>, buffer: int)
    returns (r: Result<seq<Entry>, ParseError>)
    requires Recognised(lines, lineNum)
    ensures r == AddCue(lines, lineNum, text, subs, buffer)
  {
    var line := Strip(lines[lineNum]);
    var cue := CueAt(lines, lineNum, text, buffer);
    PutFinds(subs, line, cue);
    r := LinkPrevious(Put(subs, line, cue), line, PredKey(line), lineNum == 0, cue.startMs);
  }

  /** Builds the subtitle dictionary from the lines of a .srt file. */
  method ParseSrt(lines: seq<string>, buffer: int) returns (r: Result<seq<Entry>, ParseError>)
    ensures r == Parse(lines, buffer)
  {
    var subs: seq<Entry> := [];
    for lineNum := 0 to |lines|
      invariant ParseFrom(lines, lineNum, subs, buffer) == Parse(lines, buffer)
    {
      var line := Strip(lines[lineNum]);
      if IsDigits(line) {
        if lineNum + 1 >= |lines| {
          return Failure(IndexOutOfRange(lineNum + 1));
        }
        if TimestampLine(lines[lineNum + 1]) {
          var collected := CollectText(lines, lineNum);
          if collected.Failure? {
            return Failure(collected.error);
          }
          var stored := StoreCue(lines, lineNum, collected.value, subs, buffer);
          if stored.Failure? {
            return Failure(stored.error);
          }
          subs := stored.value;
        }
      }
    }
    return Success(subs);
  }

  // ---------------------------------------------------------------------------
  // What a block's text is
  // ---------------------------------------------------------------------------

  /** The first blank line at or after line `j`. */
  function FirstBlankFrom(lines: seq<string>, j: nat): (r: Option<nat>)
    ensures r.Some? ==> j <= r.value < |lines| && Strip(lines[r.value]) == []
    ensures forall m :: j <= m < (if r.Some? then r.value else |lines|) ==> Strip(lines[m]) != []
    decreases |lines| - j
  {
    if j >= |lines| then None
    else if Strip(lines[j]) == [] then Some(j)
    else FirstBlankFrom(lines, j + 1)
  }

  /** Lines `a` up to, not including, `b`, each stripped. */
  function StrippedLines(lines: seq<string>, a: nat, b: nat): (ws: seq<string>)
    requires a <= b <= |lines|
    ensures |ws| == b - a && forall m :: 0 <= m < b - a ==> ws[m] == Strip(lines[a + m])
  {
    seq(b - a, m requires 0 <= m < b - a => Strip(lines[a + m]))
  }

  /**
   * A block's text is the stripped line after the timing line, blank or
   * not, and then every stripped line up to the first blank one further
   * down, joined by single spaces; a block with no blank line below it runs
   * off the end of the file.
   */
  lemma CueTextSpec(lines: seq<string>, i: nat)
    ensures CueText(lines, i) ==
      if i + 2 >= |lines| then Failure(IndexOutOfRange(i + 2))
      else match FirstBlankFrom(lines, i + 3)
        case None => Failure(IndexOutOfRange(|lines|))
        case Some(k) => Success(JoinSpaced(StrippedLines(lines, i + 2, k)))
  {
    if i + 2 < |lines| {
      assert StrippedLines(lines, i + 2, i + 3) == [Strip(lines[i + 2])];
      GatherSpec(lines, i + 2, i + 3);
    }
  }

  lemma {:induction false} GatherSpec(lines: seq<string>, a: nat, j: nat)
    requires a < j <= |lines|
    ensures Gather(lines, j, JoinSpaced(StrippedLines(lines, a, j))) ==
      match FirstBlankFrom(lines, j)
      case None => Failure(IndexOutOfRange(|lines|))
      case Some(k) => Success(JoinSpaced(StrippedLines(lines, a, k)))
    decreases |lines| - j
  {
    if j < |lines| && Strip(lines[j]) != [] {
      var acc := JoinSpaced(StrippedLines(lines, a, j));
      JoinOneMore(lines, a, j);
      assert Gather(lines, j, acc) == Gather(lines, j + 1, JoinSpaced(StrippedLines(lines, a, j + 1)));
      assert FirstBlankFrom(lines, j) == FirstBlankFrom(lines, j + 1);
      GatherSpec(lines, a, j + 1);
    }
  }

  lemma JoinOneMore(lines: seq<string>, a: nat, j: nat)
    requires a < j < |lines|
    ensures JoinSpaced(StrippedLines(lines, a, j + 1))
         == JoinSpaced(StrippedLines(lines, a, j)) + " " + Strip(lines[j])
  {
    var ws := StrippedLines(lines, a, j + 1);
    assert ws[..|ws| - 1] == StrippedLines(lines, a, j);
  }

  // ---------------------------------------------------------------------------
  // What storing a block does
  // ---------------------------------------------------------------------------

  /** Recording a gap keeps the keys and changes only the cue at position `p`. */
  lemma WithBreakLookup(es: seq<Entry>, p: nat, gap: int)
    requires p < |es| && IndexOf(es, es[p].key) == Some(p)
    ensures Keys(WithBreak(es, p, gap)) == Keys(es)
    ensures Lookup(WithBreak(es, p, gap), es[p].key) == Some(es[p].cue.(breakUntilNext := Some(gap)))
    ensures forall k :: k != es[p].key ==> Lookup(WithBreak(es, p, gap), k) == Lookup(es, k)
  {
    var w := WithBreak(es, p, gap);
    assert Keys(w) == Keys(es);
    IndexOfSameKeys(w, es, es[p].key);
    forall k | k != es[p].key ensures Lookup(w, k) == Lookup(es, k) {
      IndexOfSameKeys(w, es, k);
    }
  }

  /** A later block fails exactly when no cue is stored under the previous key. */
  lemma LinkFails(es: seq<Entry>, key: string, prevKey: string, first: bool, startMs: int)
    requires IndexOf(es, key).Some?
    ensures Link(es, key, prevKey, first, startMs).Failure? <==> !first && Lookup(es, prevKey).None?
  {
  }

  /** Recording a gap in the cue stored under `k` changes that cue's gap and nothing else. */
  lemma WithBreakAt(es: seq<Entry>, k: string, gap: int)
    requires IndexOf(es, k).Some?
    ensures var w := WithBreak(es, IndexOf(es, k).value, gap);
      && Keys(w) == Keys(es)
      && Lookup(w, k) == Some(Lookup(es, k).value.(breakUntilNext := Some(gap)))
      && forall k' :: k' != k ==> Lookup(w, k') == Lookup(es, k')
  {
    WithBreakLookup(es, IndexOf(es, k).value, gap);
  }

  /** A later block whose previous cue is stored records the gap in that cue. */
  lemma LinkLater(es: seq<Entry>, key: string, prevKey: string, startMs: int)
    requires IndexOf(es, key).Some? && IndexOf(es, prevKey).Some?
    ensures Link(es, key, prevKey, false, startMs)
      == Success(WithBreak(es, IndexOf(es, prevKey).value, startMs - Lookup(es, prevKey).value.endMs))
  {
  }

  /** The first block records a zero gap in its own cue and changes nothing else. */
  lemma LinkFirst(es: seq<Entry>, key: string, prevKey: string, startMs: int)
    requires IndexOf(es, key).Some?
    ensures var r := Link(es, key, prevKey, true, startMs);
      && r.Success?
      && Keys(r.value) == Keys(es)
      && Lookup(r.value, key) == Some(Lookup(es, key).value.(breakUntilNext := Some(0)))
      && forall k :: k != key ==> Lookup(r.value, k) == Lookup(es, k)
  {
    WithBreakLookup(es, IndexOf(es, key).value, 0);
  }

  /**
   * Storing `cue` under `key` puts it there, a new key going last, and then
   * fails exactly when the block is not the first and no cue is stored
   * under the previous key.
   */
  lemma StoreKeys(acc: seq<Entry>, key: string, prevKey: string, cue: Cue, first: bool)
    requires prevKey != key
    ensures var r := Store(acc, key, prevKey, cue, first);
      && (r.Failure? <==> !first && Lookup(acc, prevKey).None?)
      && (r.Failure? ==> r.error == MissingKey(prevKey))
      && (r.Success? ==> Keys(r.value) == (if key in Keys(acc) then Keys(acc) else Keys(acc) + [key]))
  {
    var put := Put(acc, key, cue);
    PutLookup(acc, key, cue);
    PutKeys(acc, key, cue);
    PutFinds(acc, key, cue);
    assert Lookup(put, prevKey) == Lookup(acc, prevKey);
    LinkFails(put, key, prevKey, first, cue.startMs);
    if first {
      LinkFirst(put, key, prevKey, cue.startMs);
    } else if Lookup(put, prevKey).Some? {
      LinkLater(put, key, prevKey, cue.startMs);
      WithBreakAt(put, prevKey, cue.startMs - Lookup(put, prevKey).value.endMs);
    }
  }

  /**
   * A block that is not the first, stored as `cue` under `key`, records in
   * the cue under `prevKey` the gap from that cue's end to the start of
   * `cue`; every other key keeps its cue.
   */
  lemma StoreLater(acc: seq<Entry>, key: string, prevKey: string, cue: Cue)
    requires prevKey != key && Lookup(acc, prevKey).Some?
    ensures var r := Store(acc, key, prevKey, cue, false);
      var prev := Lookup(acc, prevKey).value;
      && r.Success?
      && Lookup(r.value, key) == Some(cue)
      && Lookup(r.value, prevKey) == Some(prev.(breakUntilNext := Some(cue.startMs - prev.endMs)))
      && forall k :: k != key && k != prevKey ==> Lookup(r.value, k) == Lookup(acc, k)
  {
    var put := Put(acc, key, cue);
    PutLookup(acc, key, cue);
    PutFinds(acc, key, cue);
    var prev := Lookup(acc, prevKey).value;
    assert Lookup(put, prevKey) == Some(prev);
    var gap := cue.startMs - prev.endMs;
    LinkLater(put, key, prevKey, cue.startMs);
    var w := WithBreak(put, IndexOf(put, prevKey).value, gap);
    WithBreakAt(put, prevKey, gap);
    forall k | k != key && k != prevKey ensures Lookup(w, k) == Lookup(acc, k) {
      assert Lookup(w, k) == Lookup(put, k);
    }
    assert Lookup(w, key) == Lookup(put, key);
  }

  /** The block on the first line records a zero gap in its own cue; every other key keeps its cue. */
  lemma StoreFirst(acc: seq<Entry>, key: string, prevKey: string, cue: Cue)
    ensures var r := Store(acc, key, prevKey, cue, true);
      && r.Success?
      && Lookup(r.value, key) == Some(cue.(breakUntilNext := Some(0)))
      && forall k :: k != key ==> Lookup(r.value, k) == Lookup(acc, k)
  {
    PutLookup(acc, key, cue);
    PutFinds(acc, key, cue);
    LinkFirst(Put(acc, key, cue), key, prevKey, cue.startMs);
  }

  /**
   * Storing the block opened at line `i` under `key`: a block below the
   * first line fails with a KeyError exactly when no cue is stored under
   * `str(int(key) - 1)`; otherwise `key` is present afterwards, a new key
   * going last.
   */
  lemma AddCueKeys(lines: seq<string>, i: nat, text: string, acc: seq<Entry>, buffer: int)
    requires Recognised(lines, i)
    ensures var key := Strip(lines[i]);
      var r := AddCue(lines, i, text, acc, buffer);
      && (r.Failure? <==> i != 0 && Lookup(acc, PredKey(key)).None?)
      && (r.Failure? ==> r.error == MissingKey(PredKey(key)))
      && (r.Success? ==> Keys(r.value) == (if key in Keys(acc) then Keys(acc) else Keys(acc) + [key]))
  {
    var key := Strip(lines[i]);
    PredKeyDiffers(key);
    StoreKeys(acc, key, PredKey(key), CueAt(lines, i, text, buffer), i == 0);
  }

  /**
   * A block below the first line whose previous cue is stored: its cue goes
   * in under its key and no key other than the two looked up changes (the
   * gap written into the previous cue is stated by `StoreLater`).
   */
  lemma AddCueLater(lines: seq<string>, i: nat, text: string, acc: seq<Entry>, buffer: int)
    requires Recognised(lines, i) && i > 0 && Lookup(acc, PredKey(Strip(lines[i]))).Some?
    ensures var key := Strip(lines[i]);
      var r := AddCue(lines, i, text, acc, buffer);
      && r.Success?
      && Lookup(r.value, key) == Some(CueAt(lines, i, text, buffer))
      && forall k :: k != key && k != PredKey(key) ==> Lookup(r.value, k) == Lookup(acc, k)
  {
    var key := Strip(lines[i]);
    PredKeyDiffers(key);
    StoreLater(acc, key, PredKey(key), CueAt(lines, i, text, buffer));
  }

  /** The block on the first line stores its cue with a zero gap and changes nothing else. */
  lemma AddCueFirst(lines: seq<string>, text: string, acc: seq<Entry>, buffer: int)
    requires Recognised(lines, 0)
    ensures var key := Strip(lines[0]);
      var r := AddCue(lines, 0, text, acc, buffer);
      && r.Success?
      && Lookup(r.value, key) == Some(CueAt(lines, 0, text, buffer).(breakUntilNext := Some(0)))
      && forall k :: k != key ==> Lookup(r.value, k) == Lookup(acc, k)
  {
    var key := Strip(lines[0]);
    StoreFirst(acc, key, PredKey(key), CueAt(lines, 0, text, buffer));
  }

  // ---------------------------------------------------------------------------
  // What the whole loop does
  // ---------------------------------------------------------------------------

  /** With no block opened from line `i` on, the loop leaves the dictionary as it is (or runs off the end). */
  lemma {:induction false} ParseFromNoBlocks(lines: seq<string>, i: nat, acc: seq<Entry>, buffer: int)
    requires forall j :: i <= j < |lines| ==> !Recognised(lines, j)
    ensures var r := ParseFrom(lines, i, acc, buffer);
      r.Success? ==> r.value == acc
    decreases |lines| - i
  {
    if i < |lines| {
      assert !Recognised(lines, i);
      ParseFromNoBlocks(lines, i + 1, acc, buffer);
    }
  }

  /** A block is opened at some line from `i` on under the key `k`. */
  predicate OpensFrom(lines: seq<string>, i: nat, k: string) {
    exists j :: i <= j < |lines| && Recognised(lines, j) && Strip(lines[j]) == k
  }

  /** Whether a block opens under `k` from line `i` on, in terms of line `i` and the lines after it. */
  lemma OpensFromStep(lines: seq<string>, i: nat, k: string)
    requires i < |lines|
    ensures OpensFrom(lines, i, k) <==> (Recognised(lines, i) && Strip(lines[i]) == k) || OpensFrom(lines, i + 1, k)
  {
    if OpensFrom(lines, i, k) && !(Recognised(lines, i) && Strip(lines[i]) == k) {
      var j :| i <= j < |lines| && Recognised(lines, j) && Strip(lines[j]) == k;
      assert j != i;
    }
    if OpensFrom(lines, i + 1, k) {
      var j :| i + 1 <= j < |lines| && Recognised(lines, j) && Strip(lines[j]) == k;
      assert i <= j;
    }
  }

  /** The loop from line `i` on adds exactly the keys of the blocks it meets. */
  lemma {:induction false} ParseFromKeys(lines: seq<string>, i: nat, acc: seq<Entry>, buffer: int)
    ensures var r := ParseFrom(lines, i, acc, buffer);
      r.Success? ==> forall k :: k in Keys(r.value) <==> k in Keys(acc) || OpensFrom(lines, i, k)
    decreases |lines| - i
  {
    var r := ParseFrom(lines, i, acc, buffer);
    if i < |lines| && r.Success? {
      forall k ensures OpensFrom(lines, i, k) <==> (Recognised(lines, i) && Strip(lines[i]) == k) || OpensFrom(lines, i + 1, k) {
        OpensFromStep(lines, i, k);
      }
      if Recognised(lines, i) {
        var text := CueText(lines, i).value;
        var acc' := AddCue(lines, i, text, acc, buffer).value;
        assert r == ParseFrom(lines, i + 1, acc', buffer);
        AddCueKeys(lines, i, text, acc, buffer);
        ParseFromKeys(lines, i + 1, acc', buffer);
      } else {
        assert r == ParseFrom(lines, i + 1, acc, buffer);
        ParseFromKeys(lines, i + 1, acc, buffer);
      }
    }
  }

  /**
   * A successful parse has a key for every block and no other key: a key
   * is present exactly when some digit-only line followed by a timing line
   * reads as that key once stripped.
   */
  lemma ParseKeys(lines: seq<string>, buffer: int)
    ensures var r := Parse(lines, buffer);
      r.Success? ==> forall k :: k in Keys(r.value) <==> OpensFrom(lines, 0, k)
  {
    ParseFromKeys(lines, 0, [], buffer);
  }

  /**
   * The cue of the last block, when that block is below the first line,
   * keeps the cue built for it: in particular its gap stays empty.
   */
  lemma {:induction false} ParseFromLast(lines: seq<string>, i: nat, acc: seq<Entry>, last: nat, buffer: int)
    requires i <= last && Recognised(lines, last) && last > 0
    requires forall j :: last < j < |lines| ==> !Recognised(lines, j)
    ensures var r := ParseFrom(lines, i, acc, buffer);
      r.Success? ==>
        && CueText(lines, last).Success?
        && Lookup(r.value, Strip(lines[last])) == Some(CueAt(lines, last, CueText(lines, last).value, buffer))
    decreases |lines| - i
  {
    if i == last {
      match CueText(lines, i)
      case Failure(_) =>
      case Success(text) =>
        if Lookup(acc, PredKey(Strip(lines[i]))).Some? {
          AddCueLater(lines, i, text, acc, buffer);
          ParseFromNoBlocks(lines, i + 1, AddCue(lines, i, text, acc, buffer).value, buffer);
        } else {
          AddCueKeys(lines, i, text, acc, buffer);
        }
    } else if IsDigits(Strip(lines[i])) && TimestampLine(lines[i + 1]) {
      match CueText(lines, i)
      case Failure(_) =>
      case Success(text) =>
        match AddCue(lines, i, text, acc, buffer)
        case Failure(_) =>
        case Success(acc') => ParseFromLast(lines, i + 1, acc', last, buffer);
    } else {
      ParseFromLast(lines, i + 1, acc, last, buffer);
    }
  }

  /**
   * In a successful parse, the last block (unless it is on the first line)
   * is stored exactly as built from its own lines, with no gap: no later
   * block exists to write one.
   */
  lemma LastCueOpen(lines: seq<string>, last: nat, buffer: int)
    requires Recognised(lines, last) && last > 0
    requires forall j :: last < j < |lines| ==> !Recognised(lines, j)
    ensures var r := Parse(lines, buffer);
      r.Success? ==>
        && CueText(lines, last).Success?
        && var c := Lookup(r.value, Strip(lines[last]));
        && c == Some(CueAt(lines, last, CueText(lines, last).value, buffer))
        && c.value.breakUntilNext == None
        && c.value.text == CueText(lines, last).value
  {
    ParseFromLast(lines, 0, [], last, buffer);
    if CueText(lines, last).Success? {
      CueAtShaped(lines, last, CueText(lines, last).value, buffer);
    }
  }

  // ---------------------------------------------------------------------------
  // The shape of what the parser builds
  // ---------------------------------------------------------------------------

  /** A parsed cue: a digit-only key, timing fields that agree with each other and with the timing line, no translation yet. */
  predicate Shaped(e: Entry, buffer: int) {
    && IsDigits(e.key)
    && Consistent(e.cue, buffer)
    && TimestampsAgree(e.cue)
    && e.cue.translatedText == None
  }

  predicate WellFormed(es: seq<Entry>, buffer: int) {
    DistinctKeys(es) && forall e :: e in es ==> Shaped(e, buffer)
  }

  /** The cue built for a recognised block is well shaped and has no gap yet. */
  lemma CueAtShaped(lines: seq<string>, i: nat, text: string, buffer: int)
    requires Recognised(lines, i)
    ensures Shaped(Entry(Strip(lines[i]), CueAt(lines, i, text, buffer)), buffer)
    ensures CueAt(lines, i, text, buffer).text == text
    ensures CueAt(lines, i, text, buffer).breakUntilNext == None
  {
    var line := lines[i + 1];
    StripTimestampLine(line);
    NewCueTiming(ClockMs(line, 0), ClockMs(line, 17), text, Strip(line), buffer);
  }

  lemma WithBreakWellFormed(es: seq<Entry>, p: nat, gap: int, buffer: int)
    requires p < |es| && WellFormed(es, buffer)
    ensures WellFormed(WithBreak(es, p, gap), buffer)
  {
    var w := WithBreak(es, p, gap);
    assert forall j :: 0 <= j < |es| ==> w[j].key == es[j].key;
    forall e | e in w ensures Shaped(e, buffer) {
      var j :| 0 <= j < |w| && w[j] == e;
      assert es[j] in es;
    }
  }

  lemma LinkWellFormed(es: seq<Entry>, key: string, prevKey: string, first: bool, startMs: int, buffer: int)
    requires IndexOf(es, key).Some? && WellFormed(es, buffer)
    ensures var r := Link(es, key, prevKey, first, startMs);
      r.Success? ==> WellFormed(r.value, buffer)
  {
    if first {
      WithBreakWellFormed(es, IndexOf(es, key).value, 0, buffer);
    } else if IndexOf(es, prevKey).Some? {
      LinkLaterWellFormed(es, key, prevKey, startMs, buffer);
    }
  }

  lemma LinkLaterWellFormed(es: seq<Entry>, key: string, prevKey: string, startMs: int, buffer: int)
    requires IndexOf(es, key).Some? && IndexOf(es, prevKey).Some? && WellFormed(es, buffer)
    ensures WellFormed(Link(es, key, prevKey, false, startMs).value, buffer)
  {
    var p := IndexOf(es, prevKey).value;
    var w := WithBreak(es, p, startMs - es[p].cue.endMs);
    assert Link(es, key, prevKey, false, startMs) == Success(w);
    WithBreakWellFormed(es, p, startMs - es[p].cue.endMs, buffer);
  }

  lemma PutWellFormed(acc: seq<Entry>, key: string, cue: Cue, buffer: int)
    requires WellFormed(acc, buffer) && Shaped(Entry(key, cue), buffer)
    ensures WellFormed(Put(acc, key, cue), buffer)
  {
    var r := Put(acc, key, cue);
    PutSpec(acc, key, cue);
    PutElements(acc, key, cue);
    forall e | e in r ensures Shaped(e, buffer) {
      var j :| 0 <= j < |r| && r[j] == e;
      if j < |acc| {
        assert acc[j] in acc;
      }
    }
  }

  /** Storing a well-shaped cue keeps the dictionary well formed. */
  lemma StoreWellFormed(acc: seq<Entry>, key: string, prevKey: string, cue: Cue, first: bool, buffer: int)
    requires WellFormed(acc, buffer) && Shaped(Entry(key, cue), buffer)
    ensures var r := Store(acc, key, prevKey, cue, first);
      r.Success? ==> WellFormed(r.value, buffer)
  {
    PutWellFormed(acc, key, cue, buffer);
    PutFinds(acc, key, cue);
    LinkWellFormed(Put(acc, key, cue), key, prevKey, first, cue.startMs, buffer);
  }

  lemma AddCueWellFormed(lines: seq<string>, i: nat, text: string, acc: seq<Entry>, buffer: int)
    requires Recognised(lines, i) && WellFormed(acc, buffer)
    ensures var r := AddCue(lines, i, text, acc, buffer);
      r.Success? ==> WellFormed(r.value, buffer)
  {
    var key := Strip(lines[i]);
    CueAtShaped(lines, i, text, buffer);
    StoreWellFormed(acc, key, PredKey(key), CueAt(lines, i, text, buffer), i == 0, buffer);
  }

  /** The parse loop from any line on keeps the dictionary well formed. */
  lemma {:induction false} ParseFromWellFormed(lines: seq<string>, i: nat, acc: seq<Entry>, buffer: int)
    requires WellFormed(acc, buffer)
    ensures var r := ParseFrom(lines, i, acc, buffer);
      r.Success? ==> WellFormed(r.value, buffer)
    decreases |lines| - i
  {
    if i < |lines| && IsDigits(Strip(lines[i])) && i + 1 < |lines| && TimestampLine(lines[i + 1]) {
      match CueText(lines, i)
      case Failure(_) =>
      case Success(text) =>
        AddCueWellFormed(lines, i, text, acc, buffer);
        match AddCue(lines, i, text, acc, buffer)
        case Failure(_) =>
        case Success(acc') => ParseFromWellFormed(lines, i + 1, acc', buffer);
    } else if i < |lines| {
      ParseFromWellFormed(lines, i + 1, acc, buffer);
    }
  }

  /**
   * A successful parse yields distinct digit-only keys, and cues whose
   * durations are end minus start, whose buffered fields follow the buffer,
   * whose timing line still spells out their start and end, and which carry
   * no translation.
   */
  lemma ParseWellFormed(lines: seq<string>, buffer: int)
    ensures Parse(lines, buffer).Success? ==> WellFormed(Parse(lines, buffer).value, buffer)
  {
    ParseFromWellFormed(lines, 0, [], buffer);
  }

  // ---------------------------------------------------------------------------
  // The recorded gaps
  // ---------------------------------------------------------------------------

  /** The gap recorded in `c`, if any, is the distance from its end to the start of `n`. */
  predicate GapTrue(c: Cue, n: Cue) {
    c.breakUntilNext.Some? ==> n.startMs - c.endMs == c.breakUntilNext.value
  }

  /** Wherever a cue and the cue under the next index are both stored, the gap recorded in the first is the true one. */
  ghost predicate GapsMeasured(es: seq<Entry>) {
    forall k :: IsDigits(k) && Lookup(es, k).Some? && Lookup(es, SuccKey(k)).Some? ==>
      GapTrue(Lookup(es, k).value, Lookup(es, SuccKey(k)).value)
  }

  /** The first block's unmeasured '0' is harmless: it is the only cue, so no next cue is stored yet. */
  lemma StoreFirstMeasured(key: string, prevKey: string, cue: Cue)
    requires IsDigits(key)
    ensures var r := Store([], key, prevKey, cue, true);
      r.Success? && GapsMeasured(r.value)
  {
    StoreFirst([], key, prevKey, cue);
    var r := Store([], key, prevKey, cue, true).value;
    NeighbourKeys(key);
    forall k | k != key ensures Lookup(r, k) == None {
      assert Lookup([], k) == None;
    }
  }

  /**
   * A later block keeps every recorded gap true: it measures the gap it
   * writes into the previous cue, and the cue it stores has no gap yet.
   */
  lemma StoreLaterMeasured(acc: seq<Entry>, key: string, prevKey: string, cue: Cue, ks: seq<string>)
    requires IsDigits(key) && IsDigits(prevKey) && DigitsValue(prevKey) + 1 == DigitsValue(key)
    requires Lookup(acc, prevKey).Some? && cue.breakUntilNext == None && GapsMeasured(acc)
    requires KeysApart(ks) && key in ks && forall k :: k in Keys(acc) ==> k in ks
    ensures var r := Store(acc, key, prevKey, cue, false);
      r.Success? && GapsMeasured(r.value)
  {
    assert prevKey != key;
    StoreLater(acc, key, prevKey, cue);
    StoreKeys(acc, key, prevKey, cue, false);
    var r := Store(acc, key, prevKey, cue, false).value;
    var prev := Lookup(acc, prevKey).value;
    LookupKeys(acc, prevKey);
    assert forall k :: k in Keys(r) ==> k in ks;
    forall k | IsDigits(k) && Lookup(r, k).Some? && Lookup(r, SuccKey(k)).Some?
      ensures GapTrue(Lookup(r, k).value, Lookup(r, SuccKey(k)).value)
    {
      var n := SuccKey(k);
      NeighbourKeys(k);
      LookupKeys(r, k);
      LookupKeys(r, n);
      assert k in ks && n in ks && prevKey in ks;
      if k == key {
        assert Lookup(r, k) == Some(cue);
      } else if k == prevKey {
        assert n == key;
      } else {
        if n == key {
          assert false;
        }
        assert Lookup(r, k) == Lookup(acc, k);
        if n == prevKey {
          assert Lookup(r, n).value.startMs == prev.startMs;
        } else {
          assert Lookup(r, n) == Lookup(acc, n);
        }
      }
    }
  }

  /** Storing a block keeps every recorded gap true, given keys no two of which share a value. */
  lemma AddCueMeasured(lines: seq<string>, i: nat, text: string, acc: seq<Entry>, buffer: int, ks: seq<string>)
    requires Recognised(lines, i) && GapsMeasured(acc) && (i == 0 ==> acc == [])
    requires KeysApart(ks) && Strip(lines[i]) in ks && forall k :: k in Keys(acc) ==> k in ks
    ensures var r := AddCue(lines, i, text, acc, buffer);
      r.Success? ==> GapsMeasured(r.value)
  {
    var key := Strip(lines[i]);
    var cue := CueAt(lines, i, text, buffer);
    CueAtShaped(lines, i, text, buffer);
    if i == 0 {
      StoreFirstMeasured(key, PredKey(key), cue);
    } else if Lookup(acc, PredKey(key)).Some? {
      LookupKeys(acc, PredKey(key));
      NeighbourKeys(key);
      StoreLaterMeasured(acc, key, PredKey(key), cue, ks);
    } else {
      AddCueKeys(lines, i, text, acc, buffer);
    }
  }

  lemma {:induction false} ParseFromMeasured(lines: seq<string>, i: nat, acc: seq<Entry>, buffer: int, ks: seq<string>)
    requires GapsMeasured(acc) && (i == 0 ==> acc == []) && KeysApart(ks)
    ensures var r := ParseFrom(lines, i, acc, buffer);
      r.Success? && (forall k :: k in Keys(r.value) ==> k in ks) ==> GapsMeasured(r.value)
    decreases |lines| - i
  {
    var r := ParseFrom(lines, i, acc, buffer);
    if i < |lines| && r.Success? && (forall k :: k in Keys(r.value) ==> k in ks) {
      if Recognised(lines, i) {
        var text := CueText(lines, i).value;
        var acc' := AddCue(lines, i, text, acc, buffer).value;
        assert r == ParseFrom(lines, i + 1, acc', buffer);
        AddCueKeys(lines, i, text, acc, buffer);
        ParseFromKeys(lines, i + 1, acc', buffer);
        assert Strip(lines[i]) in Keys(acc');
        AddCueMeasured(lines, i, text, acc, buffer, ks);
        ParseFromMeasured(lines, i + 1, acc', buffer, ks);
      } else {
        assert r == ParseFrom(lines, i + 1, acc, buffer);
        ParseFromMeasured(lines, i + 1, acc, buffer, ks);
      }
    }
  }

  /**
   * In a successful parse whose index lines have distinct values, every
   * gap recorded in a cue is the distance from its end to the start of the
   * cue under the next index, when that cue exists. This holds for the '0'
   * written into the first line's cue too: once the next cue is stored,
   * that cue's gap has been measured.
   */
  lemma ParseGaps(lines: seq<string>, buffer: int)
    requires Parse(lines, buffer).Success? && KeysApart(Keys(Parse(lines, buffer).value))
    ensures GapsMeasured(Parse(lines, buffer).value)
  {
    forall k ensures Lookup([], k) == None {
    }
    ParseFromMeasured(lines, 0, [], buffer, Keys(Parse(lines, buffer).value));
  }
}
