/**
 * The arithmetic of the ncurses front end (ncurses.c): `wordwrap`, the
 * sector-map geometry set by `redraw_sector_map`, the cell chosen by
 * `draw_sector` and the block colours chosen by `draw_sectors`. The drawing
 * calls themselves become values (`Draw`) that the methods return.
 */
module Display {
  import opened Flags
  import opened Util

  datatype Option<T> = None | Some(value: T)

  // ---------------------------------------------------------------------------
  // wordwrap
  // ---------------------------------------------------------------------------

  /** The C string terminator, written over '\n' and over break characters. */
  const NUL: char := '\0'

  predicate IsBreak(c: char) { c == ' ' || c == '\t' }

  /** A working copy as `wordwrap` keeps it: characters followed by a terminator. */
  predicate Terminated(w: seq<char>) { |w| > 0 && w[|w| - 1] == NUL }

  /** `strlen(w + cur)`: the distance from `cur` to the next terminator. */
  function SegLen(w: seq<char>, cur: nat): (len: nat)
    requires Terminated(w) && cur < |w|
    ensures cur + len < |w| && w[cur + len] == NUL
    decreases |w| - cur
  {
    if w[cur] == NUL then 0 else 1 + SegLen(w, cur + 1)
  }

  /** No terminator comes before the one `SegLen` finds. */
  lemma {:induction false} SegLenNoNul(w: seq<char>, cur: nat)
    requires Terminated(w) && cur < |w|
    ensures forall j :: cur <= j < cur + SegLen(w, cur) ==> w[j] != NUL
    decreases |w| - cur
  {
    if w[cur] != NUL {
      SegLenNoNul(w, cur + 1);
    }
  }

  /** The first terminator after `cur` is where the string at `cur` ends. */
  lemma {:induction false} SegLenAt(w: seq<char>, cur: nat, n: nat)
    requires Terminated(w) && cur + n < |w| && w[cur + n] == NUL
    requires forall j :: cur <= j < cur + n ==> w[j] != NUL
    ensures SegLen(w, cur) == n
    decreases n
  {
    if n > 0 {
      SegLenAt(w, cur + 1, n - 1);
    }
  }

  /** Writing a terminator inside the string at `cur` shortens it to that point. */
  lemma {:induction false} SegLenCut(w: seq<char>, cur: nat, n: nat)
    requires Terminated(w) && cur < |w| && n <= SegLen(w, cur)
    ensures Terminated(w[cur + n := NUL]) && SegLen(w[cur + n := NUL], cur) == n
    decreases n
  {
    if n > 0 {
      SegLenCut(w, cur + 1, n - 1);
      assert w[cur + n := NUL][cur] == w[cur];
    }
  }

  /** The working copy after the first pass: every '\n' replaced by a terminator. */
  function Separated(str: string): (w: seq<char>)
    ensures Terminated(w) && |w| == |str| + 1
    ensures forall j :: 0 <= j < |w| ==> w[j] != '\n'
  {
    seq(|str| + 1, j requires 0 <= j <= |str| => if j < |str| && str[j] != '\n' then str[j] else NUL)
  }

  /** The search of the second pass: the last break character in w[cur..t], scanning down from t. */
  function LastBreak(w: seq<char>, cur: nat, t: int): (r: Option<nat>)
    requires t < |w|
    ensures r.Some? ==> cur <= r.value <= t && IsBreak(w[r.value])
    ensures r.Some? ==> forall j :: r.value < j <= t ==> !IsBreak(w[j])
    ensures r.None? ==> forall j :: cur <= j <= t ==> !IsBreak(w[j])
    decreases t - cur + 1
  {
    if t < cur then None
    else if IsBreak(w[t]) then Some(t)
    else LastBreak(w, cur, t - 1)
  }

  /**
   * One step of the second pass on the string at `cur`: when it is longer
   * than `max`, its last break character at an offset of at most `max`
   * becomes a terminator, so that the string ends there and the rest of the
   * segment becomes the next string.
   */
  function BreakAtWord(w: seq<char>, cur: nat, max: nat): (r: seq<char>)
    requires Terminated(w) && cur < |w|
    ensures Terminated(r) && |r| == |w|
    ensures SegLen(w, cur) <= max ==> r == w
    ensures SegLen(w, cur) > max ==> match LastBreak(w, cur, cur + max)
      case Some(k) => r == w[k := NUL] && SegLen(r, cur) == k - cur
      case None => r == w
  {
    var len := SegLen(w, cur);
    if len > max then
      match LastBreak(w, cur, cur + max)
      case Some(k) =>
        SegLenCut(w, cur, k - cur);
        w[k := NUL]
      case None => w
    else w
  }

  /** The second pass from `cur` on: every over-long string is broken at a word boundary where it has one. */
  function BrokenFrom(w: seq<char>, cur: nat, max: nat): (r: seq<char>)
    requires Terminated(w)
    ensures Terminated(r) && |r| == |w|
    decreases |w| - cur
  {
    if cur >= |w| then w
    else
      var w' := BreakAtWord(w, cur, max);
      BrokenFrom(w', cur + SegLen(w', cur) + 1, max)
  }

  /** The second pass only writes terminators: every other character stays where it was. */
  lemma {:induction false} BrokenOnlyTerminates(w: seq<char>, cur: nat, max: nat)
    requires Terminated(w)
    ensures forall j :: 0 <= j < |w| ==> BrokenFrom(w, cur, max)[j] == w[j] || BrokenFrom(w, cur, max)[j] == NUL
    decreases |w| - cur
  {
    if cur < |w| {
      var w' := BreakAtWord(w, cur, max);
      BrokenOnlyTerminates(w', cur + SegLen(w', cur) + 1, max);
    }
  }

  /**
   * The third pass from `cur` on, as written: each string is output with at
   * most `max` characters; a longer one is cut by a terminator at offset
   * `max` and scanning resumes one past the cut, so the character at the cut
   * is not output.
   */
  function EmittedFrom(w: seq<char>, cur: nat, max: nat): seq<string>
    requires Terminated(w)
    decreases |w| - cur
  {
    if cur >= |w| then []
    else
      var n := CutLength(w, cur, max);
      [w[cur..cur + n]] + EmittedFrom(w[cur + n := NUL], cur + n + 1, max)
  }

  /** The length of the string at `cur` once cut to `max`. */
  function CutLength(w: seq<char>, cur: nat, max: nat): (n: nat)
    requires Terminated(w) && cur < |w|
    ensures n <= max && n <= SegLen(w, cur)
  {
    var len := SegLen(w, cur);
    if len >= max then max else len
  }

  lemma EmittedFromStep(w: seq<char>, cur: nat, max: nat)
    requires Terminated(w) && cur < |w|
    ensures var n := CutLength(w, cur, max);
      EmittedFrom(w, cur, max) == [w[cur..cur + n]] + EmittedFrom(w[cur + n := NUL], cur + n + 1, max)
  {
  }

  lemma AppendAssoc(a: seq<string>, b: seq<string>, c: seq<string>)
    ensures (a + b) + c == a + (b + c)
  {
  }

  /** The third pass's loop step: the string at `cur` moves from the pending lines to the output. */
  lemma EmittedFromAppend(lines: seq<string>, w: seq<char>, cur: nat, max: nat, total: seq<string>,
                          line: string, next: nat, w': seq<char>)
    requires Terminated(w) && cur < |w|
    requires lines + EmittedFrom(w, cur, max) == total
    requires next == cur + CutLength(w, cur, max) + 1
    requires line == w[cur..next - 1] && w' == w[next - 1 := NUL]
    ensures Terminated(w') && (lines + [line]) + EmittedFrom(w', next, max) == total
  {
    EmittedFromStep(w, cur, max);
    AppendAssoc(lines, [line], EmittedFrom(w', next, max));
  }

  /** Every line the third pass outputs fits in `max`, and holds no '\n' when the working copy holds none. */
  lemma {:induction false} EmittedLinesFit(w: seq<char>, cur: nat, max: nat)
    requires Terminated(w)
    ensures forall k :: 0 <= k < |EmittedFrom(w, cur, max)| ==> |EmittedFrom(w, cur, max)[k]| <= max
    ensures (forall j :: 0 <= j < |w| ==> w[j] != '\n') ==>
      forall k, j :: 0 <= k < |EmittedFrom(w, cur, max)| && 0 <= j < |EmittedFrom(w, cur, max)[k]| ==>
        EmittedFrom(w, cur, max)[k][j] != '\n'
    decreases |w| - cur
  {
    if cur < |w| {
      var n := CutLength(w, cur, max);
      EmittedFromStep(w, cur, max);
      EmittedLinesFit(w[cur + n := NUL], cur + n + 1, max);
    }
  }

  /** `wordwrap(str, max_line_length, &count)` as written, when no allocation fails. */
  function WordwrapAsWritten(str: string, max: nat): seq<string>
  {
    EmittedFrom(BrokenFrom(Separated(str), 0, max), 0, max)
  }

  /** Every output line fits in `max` and holds no '\n'. */
  lemma WordwrapLinesFit(str: string, max: nat)
    ensures forall k :: 0 <= k < |WordwrapAsWritten(str, max)| ==> |WordwrapAsWritten(str, max)[k]| <= max
    ensures forall k, j :: 0 <= k < |WordwrapAsWritten(str, max)| && 0 <= j < |WordwrapAsWritten(str, max)[k]| ==>
              WordwrapAsWritten(str, max)[k][j] != '\n'
  {
    var w := BrokenFrom(Separated(str), 0, max);
    BrokenOnlyTerminates(Separated(str), 0, max);
    assert forall j :: 0 <= j < |w| ==> w[j] != '\n';
    EmittedLinesFit(w, 0, max);
  }

  /** A line that already fits and holds no '\n' is returned on its own. */
  lemma LineThatFitsIsKept(str: string, max: nat)
    requires |str| <= max
    requires forall j :: 0 <= j < |str| ==> str[j] != '\n' && str[j] != NUL
    ensures WordwrapAsWritten(str, max) == [str]
  {
    var w := Separated(str);
    assert w == str + [NUL];
    SegLenAt(w, 0, |str|);
    assert BreakAtWord(w, 0, max) == w;
    assert BrokenFrom(w, 0, max) == BrokenFrom(w, |str| + 1, max) == w;
    var w3 := w[|str| := NUL];
    assert w3 == w;
    assert EmittedFrom(w3, |str| + 1, max) == [];
    assert w[0..|str|] == str;
  }

  /**
   * The third pass as evidently intended: an over-long string is split at
   * offset `max` and scanning resumes AT the cut, so that no character is
   * lost ("it splits the line mid-word").
   */
  function EmittedFromCorrected(w: seq<char>, cur: nat, max: nat): (lines: seq<string>)
    requires Terminated(w) && max > 0
    decreases |w| - cur
  {
    if cur >= |w| then []
    else
      var len := SegLen(w, cur);
      if len > max then [w[cur..cur + max]] + EmittedFromCorrected(w, cur + max, max)
      else [w[cur..cur + len]] + EmittedFromCorrected(w, cur + len + 1, max)
  }

  function WordwrapCorrected(str: string, max: nat): seq<string>
    requires max > 0
  {
    EmittedFromCorrected(BrokenFrom(Separated(str), 0, max), 0, max)
  }

  /** The characters of the working copy from `cur` on, terminators dropped. */
  function TextFrom(w: seq<char>, cur: nat): string
    decreases |w| - cur
  {
    if cur >= |w| then [] else (if w[cur] == NUL then [] else [w[cur]]) + TextFrom(w, cur + 1)
  }

  function Concat(lines: seq<string>): string
  {
    if lines == [] then [] else lines[0] + Concat(lines[1..])
  }

  lemma ConcatCons(line: string, rest: seq<string>)
    ensures Concat([line] + rest) == line + Concat(rest)
  {
    assert ([line] + rest)[1..] == rest;
  }

  /** A run of characters without terminator is kept as it is. */
  lemma {:induction false} TextFromPiece(w: seq<char>, a: nat, b: nat)
    requires a <= b <= |w|
    requires forall j :: a <= j < b ==> w[j] != NUL
    ensures TextFrom(w, a) == w[a..b] + TextFrom(w, b)
    decreases b - a
  {
    if a < b {
      TextFromPiece(w, a + 1, b);
      var rest := TextFrom(w, b);
      assert TextFrom(w, a) == [w[a]] + (w[a + 1..b] + rest);
      assert w[a..b] == [w[a]] + w[a + 1..b];
      assert [w[a]] + (w[a + 1..b] + rest) == ([w[a]] + w[a + 1..b]) + rest;
    } else {
      assert w[a..b] == [];
    }
  }

  /** The first `n` characters of the string at `cur` are kept as they are. */
  lemma TextFromSegment(w: seq<char>, cur: nat, n: nat)
    requires Terminated(w) && cur < |w| && n <= SegLen(w, cur)
    ensures TextFrom(w, cur) == w[cur..cur + n] + TextFrom(w, cur + n)
  {
    SegLenNoNul(w, cur);
    TextFromPiece(w, cur, cur + n);
  }

  lemma CorrectedLongUnfold(w: seq<char>, cur: nat, max: nat)
    requires Terminated(w) && max > 0 && cur < |w| && SegLen(w, cur) > max
    ensures EmittedFromCorrected(w, cur, max) == [w[cur..cur + max]] + EmittedFromCorrected(w, cur + max, max)
  {
  }

  lemma CorrectedShortUnfold(w: seq<char>, cur: nat, max: nat)
    requires Terminated(w) && max > 0 && cur < |w| && SegLen(w, cur) <= max
    ensures var len := SegLen(w, cur);
      EmittedFromCorrected(w, cur, max) == [w[cur..cur + len]] + EmittedFromCorrected(w, cur + len + 1, max)
  {
  }

  /** The corrected third pass outputs exactly the characters of the working copy, in order. */
  lemma {:induction false} EmittedCorrectedKeepsText(w: seq<char>, cur: nat, max: nat)
    requires Terminated(w) && max > 0
    ensures Concat(EmittedFromCorrected(w, cur, max)) == TextFrom(w, cur)
    decreases |w| - cur, 1
  {
    if cur < |w| {
      if SegLen(w, cur) > max {
        KeepsTextLong(w, cur, max);
      } else {
        KeepsTextShort(w, cur, max);
      }
    }
  }

  /** A string longer than `max`: its first `max` characters, then the rest of the working copy. */
  lemma {:induction false} KeepsTextLong(w: seq<char>, cur: nat, max: nat)
    requires Terminated(w) && max > 0 && cur < |w| && SegLen(w, cur) > max
    ensures Concat(EmittedFromCorrected(w, cur, max)) == TextFrom(w, cur)
    decreases |w| - cur, 0
  {
    var rest := EmittedFromCorrected(w, cur + max, max);
    EmittedCorrectedKeepsText(w, cur + max, max);
    CorrectedLongUnfold(w, cur, max);
    ConcatCons(w[cur..cur + max], rest);
    TextFromSegment(w, cur, max);
  }

  /** A string that fits: all of it, then the working copy after its terminator. */
  lemma {:induction false} KeepsTextShort(w: seq<char>, cur: nat, max: nat)
    requires Terminated(w) && max > 0 && cur < |w| && SegLen(w, cur) <= max
    ensures Concat(EmittedFromCorrected(w, cur, max)) == TextFrom(w, cur)
    decreases |w| - cur, 0
  {
    var len := SegLen(w, cur);
    var rest := EmittedFromCorrected(w, cur + len + 1, max);
    EmittedCorrectedKeepsText(w, cur + len + 1, max);
    CorrectedShortUnfold(w, cur, max);
    ConcatCons(w[cur..cur + len], rest);
    TextFromSegment(w, cur, len);
    assert TextFrom(w, cur + len) == TextFrom(w, cur + len + 1);
  }

  /** Corrected: every output line still fits in `max`. */
  lemma {:induction false} EmittedCorrectedLinesFit(w: seq<char>, cur: nat, max: nat)
    requires Terminated(w) && max > 0
    ensures forall k :: 0 <= k < |EmittedFromCorrected(w, cur, max)| ==> |EmittedFromCorrected(w, cur, max)[k]| <= max
    decreases |w| - cur
  {
    if cur < |w| {
      var len := SegLen(w, cur);
      if len > max {
        EmittedCorrectedLinesFit(w, cur + max, max);
      } else {
        EmittedCorrectedLinesFit(w, cur + len + 1, max);
      }
    }
  }

  /** Corrected: the output holds every character of the broken working copy, in order. */
  lemma WordwrapCorrectedKeepsText(str: string, max: nat)
    requires max > 0
    ensures Concat(WordwrapCorrected(str, max)) == TextFrom(BrokenFrom(Separated(str), 0, max), 0)
    ensures forall k :: 0 <= k < |WordwrapCorrected(str, max)| ==> |WordwrapCorrected(str, max)[k]| <= max
  {
    EmittedCorrectedKeepsText(BrokenFrom(Separated(str), 0, max), 0, max);
    EmittedCorrectedLinesFit(BrokenFrom(Separated(str), 0, max), 0, max);
  }

  /** "abc" has no break character and is left alone by the first two passes. */
  lemma AbcWorkingCopy()
    ensures BrokenFrom(Separated("abc"), 0, 2) == ['a', 'b', 'c', NUL]
  {
    var w := Separated("abc");
    assert w == ['a', 'b', 'c', NUL];
    SegLenAt(w, 0, 3);
    assert LastBreak(w, 0, 2) == None;
    assert BreakAtWord(w, 0, 2) == w;
    assert BrokenFrom(w, 0, 2) == BrokenFrom(w, 4, 2) == w;
  }

  /** After the cut of "abc", the scan resumes on the terminator the cut left behind. */
  lemma EmptyLineAfterCut()
    ensures EmittedFrom(['a', 'b', NUL, NUL], 3, 2) == [""]
  {
    var w1: seq<char> := ['a', 'b', NUL, NUL];
    assert SegLen(w1, 3) == 0;
    EmittedFromStep(w1, 3, 2);
    assert w1[3 := NUL] == w1;
    assert EmittedFrom(w1, 4, 2) == [];
    assert w1[3..3] == "";
  }

  /** The third pass cuts ['a', 'b', 'c', NUL] at 2, then resumes on the terminator of the cut. */
  lemma AbcThirdPass()
    ensures EmittedFrom(['a', 'b', 'c', NUL], 0, 2) == ["ab", ""]
  {
    var w: seq<char> := ['a', 'b', 'c', NUL];
    SegLenAt(w, 0, 3);
    EmittedFromStep(w, 0, 2);
    assert w[2 := NUL] == ['a', 'b', NUL, NUL];
    EmptyLineAfterCut();
    assert w[0..2] == "ab";
  }

  /** As written: "abc" wrapped at 2 loses the 'c' at the cut and gains an empty last line. */
  lemma WordwrapAsWrittenDropsCutCharacter()
    ensures WordwrapAsWritten("abc", 2) == ["ab", ""]
  {
    AbcWorkingCopy();
    AbcThirdPass();
  }

  /** The corrected third pass resumes at the cut of ['a', 'b', 'c', NUL] and outputs the "c". */
  lemma CorrectedAfterCut()
    ensures EmittedFromCorrected(['a', 'b', 'c', NUL], 2, 2) == ["c"]
  {
    var w: seq<char> := ['a', 'b', 'c', NUL];
    SegLenAt(w, 2, 1);
    CorrectedShortUnfold(w, 2, 2);
    assert EmittedFromCorrected(w, 4, 2) == [];
    assert w[2..3] == "c";
  }

  /** The corrected third pass splits ['a', 'b', 'c', NUL] into "ab" and "c". */
  lemma AbcCorrectedThirdPass()
    ensures EmittedFromCorrected(['a', 'b', 'c', NUL], 0, 2) == ["ab", "c"]
  {
    var w: seq<char> := ['a', 'b', 'c', NUL];
    SegLenAt(w, 0, 3);
    CorrectedLongUnfold(w, 0, 2);
    CorrectedAfterCut();
    assert w[0..2] == "ab";
  }

  /** Corrected: "abc" wrapped at 2 is split mid-word into "ab" and "c". */
  lemma WordwrapCorrectedSplitsMidWord()
    ensures WordwrapCorrected("abc", 2) == ["ab", "c"]
  {
    AbcWorkingCopy();
    AbcCorrectedThirdPass();
  }

  /** The backward scan of the second pass for a break character in w[cur..t]. */
  method FindBreak(work: array<char>, cur: nat, t: int) returns (r: Option<nat>)
    requires t < work.Length
    ensures r == LastBreak(work[..], cur, t)
  {
    var tmp := t;
    while tmp >= cur
      invariant tmp <= t
      invariant LastBreak(work[..], cur, tmp) == LastBreak(work[..], cur, t)
      decreases tmp - cur + 1
    {
      if work[tmp] == ' ' || work[tmp] == '\t' {
        return Some(tmp);
      }
      tmp := tmp - 1;
    }
    return None;
  }

  /** First pass: every '\n' of the working copy becomes a terminator. */
  method SeparateLines(work: array<char>, ghost str: string)
    requires work[..] == str + [NUL]
    modifies work
    ensures work[..] == Separated(str)
  {
    var i := 0;
    while i < work.Length
      invariant 0 <= i <= work.Length
      invariant forall j :: 0 <= j < i ==> work[j] == Separated(str)[j]
      invariant forall j :: i <= j < work.Length ==> work[j] == old(work[j])
    {
      if work[i] == '\n' {
        work[i] := NUL;
      }
      i := i + 1;
    }
  }

  lemma BrokenFromStep(w: seq<char>, cur: nat, max: nat)
    requires Terminated(w) && cur < |w|
    ensures var w' := BreakAtWord(w, cur, max);
      BrokenFrom(w, cur, max) == BrokenFrom(w', cur + SegLen(w', cur) + 1, max)
  {
  }

  /** One iteration of the second pass, on the string at `cur`; `next` is where the next string starts. */
  method BreakOne(work: array<char>, cur: nat, max: nat) returns (next: nat)
    requires Terminated(work[..]) && cur < work.Length
    modifies work
    ensures work[..] == BreakAtWord(old(work[..]), cur, max)
    ensures next == cur + SegLen(work[..], cur) + 1
  {
    var w := work[..];
    var len := SegLen(w, cur);
    if len > max {
      var k := FindBreak(work, cur, cur + max);
      if k.Some? {
        work[k.value] := NUL;
        assert work[..] == w[k.value := NUL];
      }
    }
    next := cur + SegLen(work[..], cur) + 1;
  }

  /** Second pass: over-long strings are broken at their last break character within reach. */
  method BreakLines(work: array<char>, max: nat)
    requires Terminated(work[..])
    modifies work
    ensures work[..] == BrokenFrom(old(work[..]), 0, max)
  {
    var cur := 0;
    while cur < work.Length
      invariant Terminated(work[..])
      invariant BrokenFrom(work[..], cur, max) == BrokenFrom(old(work[..]), 0, max)
      decreases work.Length - cur
    {
      BrokenFromStep(work[..], cur, max);
      cur := BreakOne(work, cur, max);
    }
  }

  /** One iteration of the third pass: the string at `cur`, cut to `max`, and where the next one starts. */
  method EmitOne(work: array<char>, cur: nat, max: nat) returns (line: string, next: nat)
    requires Terminated(work[..]) && cur < work.Length
    modifies work
    ensures var n := CutLength(old(work[..]), cur, max);
      line == old(work[..])[cur..cur + n] && work[..] == old(work[..])[cur + n := NUL] && next == cur + n + 1
  {
    var w := work[..];
    var len := SegLen(w, cur);
    if len >= max {
      len := max;
    }
    line := w[cur..cur + len];
    work[cur + len] := NUL;
    assert work[..] == w[cur + len := NUL];
    SegLenCut(w, cur, len);
    next := cur + SegLen(work[..], cur) + 1;
  }

  /** Third pass: every string is output, cut to `max` characters. */
  method EmitLines(work: array<char>, max: nat) returns (lines: seq<string>)
    requires Terminated(work[..])
    modifies work
    ensures lines == EmittedFrom(old(work[..]), 0, max)
  {
    ghost var total := EmittedFrom(work[..], 0, max);
    lines := [];
    var cur := 0;
    while cur < work.Length
      invariant Terminated(work[..])
      invariant lines + EmittedFrom(work[..], cur, max) == total
      decreases work.Length - cur
    {
      ghost var before := work[..];
      var line, next := EmitOne(work, cur, max);
      EmittedFromAppend(lines, before, cur, max, total, line, next, work[..]);
      lines := lines + [line];
      cur := next;
    }
  }

  /**
   * `wordwrap`: the caller's string is copied, '\n' become terminators, the
   * second pass breaks over-long strings at word boundaries and the third
   * pass outputs every string, cut to `max`. The caller's string is a value
   * and is not changed; `count` is `*string_count`.
   */
  method Wordwrap(str: string, max: nat) returns (lines: seq<string>, count: nat)
    requires forall j :: 0 <= j < |str| ==> str[j] != NUL
    ensures lines == WordwrapAsWritten(str, max) && count == |lines|
    ensures forall k :: 0 <= k < |lines| ==> |lines[k]| <= max
    ensures forall k, j :: 0 <= k < |lines| && 0 <= j < |lines[k]| ==> lines[k][j] != '\n'
  {
    var work := new char[|str| + 1](j requires 0 <= j <= |str| => if j < |str| then str[j] else NUL);
    assert work[..] == str + [NUL];
    SeparateLines(work, str);
    BreakLines(work, max);
    lines := EmitLines(work, max);
    count := |lines|;
    WordwrapLinesFit(str, max);
  }

  // ---------------------------------------------------------------------------
  // Sector map geometry (redraw_sector_map, draw_sector)
  // ---------------------------------------------------------------------------

  /** The fields of the sector display that `redraw_sector_map` sets. */
  datatype Geometry = Geometry(
    blocksPerLine: int,
    numLines: int,
    numBlocks: int,
    sectorsPerBlock: int,
    sectorsInLastBlock: int)

  /** The blocks tile the device: all blocks but the last hold sectorsPerBlock sectors, the last the rest. */
  predicate Covers(g: Geometry, n: nat)
  {
    g.blocksPerLine > 0 && g.numLines > 0 && g.numBlocks == g.numLines * g.blocksPerLine &&
    0 <= g.sectorsPerBlock <= g.sectorsInLastBlock &&
    (g.numBlocks - 1) * g.sectorsPerBlock + g.sectorsInLastBlock == n
  }

  /**
   * `redraw_sector_map` on a screen of `cols` x `lines` for n sectors: the
   * map leaves 41 columns and 8 lines for the rest of the screen; it needs
   * at least one block, since it divides by the number of blocks.
   */
  function Layout(cols: int, lines: int, n: nat): (g: Geometry)
    requires cols > 41 && lines > 8
    ensures g.blocksPerLine == cols - 41 && g.numLines == lines - 8
    ensures Covers(g, n)
    ensures g.sectorsInLastBlock < g.sectorsPerBlock + g.numBlocks
  {
    var bpl := cols - 41;
    var nl := lines - 8;
    MulMonotone(bpl, 1, nl);
    var nb := nl * bpl;
    var spb := n / nb;
    var last := n % nb + spb;
    assert (nb - 1) * spb + last == nb * spb + n % nb == n;
    Geometry(bpl, nl, nb, spb, last)
  }

  /** A screen cell of the sector map. */
  datatype Cell = Cell(row: int, col: int)

  /** Quotient and remainder are determined by the defining equation. */
  lemma DivModUnique(a: int, d: int, q: int, r: int)
    requires d > 0 && 0 <= r < d && a == q * d + r
    ensures a / d == q && a % d == r
  {
    var q' := a / d;
    var r' := a % d;
    assert (q - q') * d == r' - r;
    if q > q' {
      MulMonotone(d, 1, q - q');
    } else if q < q' {
      MulMonotone(d, 1, q' - q);
    }
  }

  /**
   * `draw_sector`: the cell of the block holding `sector`, read in rows of
   * blocksPerLine; a block past the last one is drawn in the bottom-right
   * cell.
   */
  function CellOf(g: Geometry, sector: nat): (c: Cell)
    requires g.sectorsPerBlock > 0 && g.blocksPerLine > 0 && g.numLines > 0
    requires g.numBlocks == g.numLines * g.blocksPerLine
    ensures 0 <= c.row < g.numLines && 0 <= c.col < g.blocksPerLine
    ensures sector / g.sectorsPerBlock < g.numBlocks ==> c.row * g.blocksPerLine + c.col == sector / g.sectorsPerBlock
    ensures sector / g.sectorsPerBlock >= g.numBlocks ==> c == Cell(g.numLines - 1, g.blocksPerLine - 1)
  {
    var b := sector / g.sectorsPerBlock;
    if b >= g.numBlocks then Cell(g.numLines - 1, g.blocksPerLine - 1)
    else
      var row := b / g.blocksPerLine;
      assert row < g.numLines by {
        if row >= g.numLines {
          MulMonotone(g.blocksPerLine, g.numLines, row);
        }
      }
      Cell(row, b - row * g.blocksPerLine)
  }

  function BlockStart(g: Geometry, i: nat): int { i * g.sectorsPerBlock }

  /** The number of sectors `draw_sectors` summarises for block i. */
  function BlockLength(g: Geometry, i: nat): int
  {
    if i == g.numBlocks - 1 then g.sectorsInLastBlock else g.sectorsPerBlock
  }

  /** Every block lies inside the device. */
  lemma BlockInsideDevice(g: Geometry, n: nat, i: nat)
    requires Covers(g, n) && i < g.numBlocks
    ensures 0 <= BlockStart(g, i) && BlockStart(g, i) + BlockLength(g, i) <= n
  {
    MulMonotone(g.sectorsPerBlock, 0, i);
    if i < g.numBlocks - 1 {
      MulMonotone(g.sectorsPerBlock, i + 1, g.numBlocks - 1);
    }
  }

  /**
   * The clamp of `draw_sector` agrees with the block extents of
   * `draw_sectors`: every sector of the device lies in the extent of exactly
   * the block whose cell it is drawn in, the sectors past the last full
   * block included.
   */
  lemma SectorDrawnInItsBlock(g: Geometry, n: nat, j: nat)
    requires Covers(g, n) && g.sectorsPerBlock > 0 && j < n
    ensures var i := if j / g.sectorsPerBlock < g.numBlocks then j / g.sectorsPerBlock else g.numBlocks - 1;
      BlockStart(g, i) <= j < BlockStart(g, i) + BlockLength(g, i) &&
      CellOf(g, j) == CellOf(g, BlockStart(g, i))
  {
    var spb := g.sectorsPerBlock;
    var nb := g.numBlocks;
    var b := j / spb;
    if b < nb {
      DivModUnique(b * spb, spb, b, 0);
      assert BlockStart(g, b) <= j < BlockStart(g, b) + spb;
    } else {
      var i := nb - 1;
      MulMonotone(spb, i, b);
      assert BlockStart(g, i) <= j;
      DivModUnique(i * spb, spb, i, 0);
      DivModUnique(i, g.blocksPerLine, g.numLines - 1, g.blocksPerLine - 1);
    }
  }

  // ---------------------------------------------------------------------------
  // Block colours (draw_sectors)
  // ---------------------------------------------------------------------------

  /** The colour pairs set up by `screen_setup`. */
  datatype ColorPair =
    | BlackOnWhite | BlackOnBlue | BlackOnGreen | BlackOnRed
    | GreenOnBlack | RedOnBlack | BlackOnMagenta | BlackOnYellow

  /** What `draw_sectors` accumulates over a block. */
  datatype BlockCounters = BlockCounters(hasBad: bool, written: nat, read: nat, thisRound: bool, unwritable: bool)

  /** 1 when `flag` is set in `f`: `(f & flag) >> k` for the single bit `flag` = 1 << k. */
  function Bit(f: bv8, flag: bv8): nat { if f & flag != 0 then 1 else 0 }

  /** The counters over the sectors of a block, one sector at a time. */
  function Counters(b: seq<bv8>): BlockCounters
  {
    if b == [] then BlockCounters(false, 0, 0, false, false)
    else
      var c := Counters(b[..|b| - 1]);
      var f := b[|b| - 1];
      BlockCounters(
        c.hasBad || f & FAILED != 0,
        c.written + Bit(f, WRITTEN_THIS_ROUND),
        c.read + Bit(f, READ_THIS_ROUND),
        c.thisRound || f & FAILED_THIS_ROUND != 0,
        c.unwritable || f & DO_NOT_USE != 0)
  }

  predicate AnyHas(b: seq<bv8>, flag: bv8)
  {
    exists j :: 0 <= j < |b| && b[j] & flag != 0
  }

  predicate AllHave(b: seq<bv8>, flag: bv8)
  {
    forall j :: 0 <= j < |b| ==> b[j] & flag != 0
  }

  lemma AnyHasSnoc(b: seq<bv8>, flag: bv8)
    requires b != []
    ensures AnyHas(b, flag) <==> AnyHas(b[..|b| - 1], flag) || b[|b| - 1] & flag != 0
  {
    if AnyHas(b, flag) && b[|b| - 1] & flag == 0 {
      var j :| 0 <= j < |b| && b[j] & flag != 0;
      assert b[..|b| - 1][j] == b[j];
    }
  }

  lemma AllHaveSnoc(b: seq<bv8>, flag: bv8)
    requires b != []
    ensures AllHave(b, flag) <==> AllHave(b[..|b| - 1], flag) && b[|b| - 1] & flag != 0
  {
  }

  /** The counters mean what the colour tests use them for. */
  lemma {:induction false} CountersMeaning(b: seq<bv8>)
    ensures Counters(b).hasBad <==> AnyHas(b, FAILED)
    ensures Counters(b).thisRound <==> AnyHas(b, FAILED_THIS_ROUND)
    ensures Counters(b).unwritable <==> AnyHas(b, DO_NOT_USE)
    ensures Counters(b).written <= |b| && Counters(b).read <= |b|
    ensures Counters(b).written == |b| <==> AllHave(b, WRITTEN_THIS_ROUND)
    ensures Counters(b).read == |b| <==> AllHave(b, READ_THIS_ROUND)
  {
    if b != [] {
      CountersMeaning(b[..|b| - 1]);
      AnyHasSnoc(b, FAILED);
      AnyHasSnoc(b, FAILED_THIS_ROUND);
      AnyHasSnoc(b, DO_NOT_USE);
      AllHaveSnoc(b, WRITTEN_THIS_ROUND);
      AllHaveSnoc(b, READ_THIS_ROUND);
    }
  }

  /** The colour test of `draw_sectors`: the "all read" test comes before the "all written" test. */
  function BlockColour(c: BlockCounters, count: nat): ColorPair
  {
    if c.hasBad then
      if c.read == count then BlackOnYellow
      else if c.written == count then BlackOnMagenta
      else BlackOnRed
    else if c.read == count then BlackOnGreen
    else if c.written == count then BlackOnBlue
    else BlackOnWhite
  }

  /** The colour of a block in terms of its sectors' flags. */
  lemma BlockColourByFlags(b: seq<bv8>)
    ensures BlockColour(Counters(b), |b|) ==
      if AnyHas(b, FAILED) then
        if AllHave(b, READ_THIS_ROUND) then BlackOnYellow
        else if AllHave(b, WRITTEN_THIS_ROUND) then BlackOnMagenta
        else BlackOnRed
      else if AllHave(b, READ_THIS_ROUND) then BlackOnGreen
      else if AllHave(b, WRITTEN_THIS_ROUND) then BlackOnBlue
      else BlackOnWhite
  {
    CountersMeaning(b);
  }

  /** The character `draw_sector` puts in the cell. */
  datatype Glyph = Diamond | Cross | Blank

  function GlyphOf(c: BlockCounters): Glyph
  {
    if c.thisRound then Diamond else if c.unwritable then Cross else Blank
  }

  /** One `draw_sector` call: a cell, its colour and its character. */
  datatype Draw = Draw(cell: Cell, colour: ColorPair, glyph: Glyph)

  /** The sectors `draw_sectors` summarises for block i. */
  function BlockSectors(g: Geometry, n: nat, s: seq<bv8>, i: nat): (b: seq<bv8>)
    requires Covers(g, n) && n <= |s| && i < g.numBlocks
    ensures |b| == BlockLength(g, i)
  {
    BlockInsideDevice(g, n, i);
    s[BlockStart(g, i)..BlockStart(g, i) + BlockLength(g, i)]
  }

  /** What `draw_sectors` draws for block i. */
  function BlockDraw(g: Geometry, n: nat, s: seq<bv8>, i: nat): Draw
    requires Covers(g, n) && g.sectorsPerBlock > 0 && n <= |s| && i < g.numBlocks
  {
    var c := Counters(BlockSectors(g, n, s, i));
    Draw(CellOf(g, BlockStart(g, i)), BlockColour(c, BlockLength(g, i)), GlyphOf(c))
  }

  /**
   * Block i is drawn in row i / blocksPerLine, column i % blocksPerLine,
   * with a diamond when one of its sectors failed this round and otherwise a
   * cross when one is unusable.
   */
  lemma BlockDrawnInPlace(g: Geometry, n: nat, s: seq<bv8>, i: nat)
    requires Covers(g, n) && g.sectorsPerBlock > 0 && n <= |s| && i < g.numBlocks
    ensures BlockDraw(g, n, s, i).cell == Cell(i / g.blocksPerLine, i % g.blocksPerLine)
    ensures BlockDraw(g, n, s, i).glyph ==
      if AnyHas(BlockSectors(g, n, s, i), FAILED_THIS_ROUND) then Diamond
      else if AnyHas(BlockSectors(g, n, s, i), DO_NOT_USE) then Cross
      else Blank
  {
    DivModUnique(BlockStart(g, i), g.sectorsPerBlock, i, 0);
    var c := CellOf(g, BlockStart(g, i));
    DivModUnique(i, g.blocksPerLine, c.row, c.col);
    CountersMeaning(BlockSectors(g, n, s, i));
  }

  /** The blocks `draw_sectors(start, end)` visits: lo..hi, both clamped to the map. */
  function BlockRange(g: Geometry, start: nat, end: nat): (r: (int, int))
    requires g.sectorsPerBlock > 0 && g.numBlocks > 0
    ensures 0 <= r.0 < g.numBlocks && r.1 <= g.numBlocks
  {
    var spb := g.sectorsPerBlock;
    var lo := start / spb;
    var hi := end / spb + (if end % spb != 0 then 1 else 0);
    (if lo >= g.numBlocks then g.numBlocks - 1 else lo, if hi > g.numBlocks then g.numBlocks else hi)
  }

  /** The inner loop of `draw_sectors` over sectors lo..hi. */
  method AccumulateBlock(s: seq<bv8>, lo: nat, hi: nat) returns (c: BlockCounters)
    requires lo <= hi <= |s|
    ensures c == Counters(s[lo..hi])
  {
    var hasBad, thisRound, unwritable := false, false, false;
    var written: nat, read: nat := 0, 0;
    var j := lo;
    while j < hi
      invariant lo <= j <= hi
      invariant BlockCounters(hasBad, written, read, thisRound, unwritable) == Counters(s[lo..j])
    {
      var f := s[j];
      assert s[lo..j + 1][..j - lo] == s[lo..j];
      hasBad := hasBad || f & FAILED != 0;
      written := written + ((f & WRITTEN_THIS_ROUND) >> 1) as nat;
      read := read + ((f & READ_THIS_ROUND) >> 2) as nat;
      thisRound := thisRound || f & FAILED_THIS_ROUND != 0;
      unwritable := unwritable || f & DO_NOT_USE != 0;
      assert ((f & WRITTEN_THIS_ROUND) >> 1) as nat == Bit(f, WRITTEN_THIS_ROUND);
      assert ((f & READ_THIS_ROUND) >> 2) as nat == Bit(f, READ_THIS_ROUND);
      j := j + 1;
    }
    c := BlockCounters(hasBad, written, read, thisRound, unwritable);
  }

  /** One iteration of `draw_sectors`: the summary and the `draw_sector` call for block i. */
  method DrawBlock(g: Geometry, n: nat, s: seq<bv8>, i: nat) returns (d: Draw)
    requires Covers(g, n) && g.sectorsPerBlock > 0 && n <= |s| && i < g.numBlocks
    ensures d == BlockDraw(g, n, s, i)
  {
    var count := if i == g.numBlocks - 1 then g.sectorsInLastBlock else g.sectorsPerBlock;
    var first := i * g.sectorsPerBlock;
    BlockInsideDevice(g, n, i);
    var c := AccumulateBlock(s, first, first + count);
    d := Draw(CellOf(g, first), BlockColour(c, count), GlyphOf(c));
  }

  /** `draw_sectors(start, end)`: one draw per block of the clamped range, in order. */
  method DrawSectors(g: Geometry, n: nat, s: seq<bv8>, start: nat, end: nat) returns (draws: seq<Draw>)
    requires Covers(g, n) && g.sectorsPerBlock > 0 && n <= |s|
    ensures var r := BlockRange(g, start, end);
      |draws| == (if r.0 < r.1 then r.1 - r.0 else 0) &&
      forall k :: 0 <= k < |draws| ==> draws[k] == BlockDraw(g, n, s, r.0 + k)
  {
    var spb := g.sectorsPerBlock;
    var lo := start / spb;
    var hi := end / spb + (if end % spb != 0 then 1 else 0);
    if lo >= g.numBlocks {
      lo := g.numBlocks - 1;
    }
    if hi > g.numBlocks {
      hi := g.numBlocks;
    }
    assert (lo, hi) == BlockRange(g, start, end);
    draws := [];
    var i := lo;
    while i < hi
      invariant lo <= i && (i <= hi || i == lo)
      invariant |draws| == i - lo
      invariant forall k :: 0 <= k < |draws| ==> draws[k] == BlockDraw(g, n, s, lo + k)
    {
      var d := DrawBlock(g, n, s, i);
      draws := draws + [d];
      i := i + 1;
    }
  }
}
