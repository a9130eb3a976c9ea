/**
 Lines of a log: splitting, tailing, filtering by target and by pattern, and
 what `offckb logs` prints of a file that is already there.
 */
module LogFilter {
  import opened Options
  import opened Utf8

  const NEWLINE: Scalar := 0x0A

  /** The pieces between newlines; the last one is what follows the last newline. */
  function Split(text: Text): (pieces: seq<Text>)
    ensures pieces != []
  {
    if text == [] then [[]]
    else if text[0] == NEWLINE then [[]] + Split(text[1..])
    else Prepend(text[0], Split(text[1..]))
  }

  function Prepend(c: Scalar, pieces: seq<Text>): (r: seq<Text>)
    requires pieces != []
    ensures |r| == |pieces|
  {
    [[c] + pieces[0]] + pieces[1..]
  }

  /** The newline-terminated lines. */
  function Complete(text: Text): seq<Text> {
    Split(text)[..|Split(text)| - 1]
  }

  /** The unfinished line at the end. */
  function Unfinished(text: Text): Text {
    Split(text)[|Split(text)| - 1]
  }

  lemma PrependAppend(c: Scalar, a: seq<Text>, b: seq<Text>)
    requires a != []
    ensures Prepend(c, a + b) == Prepend(c, a) + b
  {
  }

  lemma SplitCons(c: Scalar, text: Text)
    ensures Split([c] + text) == if c == NEWLINE then [[]] + Split(text) else Prepend(c, Split(text))
  {
    assert ([c] + text)[1..] == text;
  }

  lemma LinesCons(c: Scalar, text: Text)
    ensures c == NEWLINE ==> Complete([c] + text) == [[]] + Complete(text) && Unfinished([c] + text) == Unfinished(text)
    ensures c != NEWLINE && Complete(text) == [] ==>
              Complete([c] + text) == [] && Unfinished([c] + text) == [c] + Unfinished(text)
    ensures c != NEWLINE && Complete(text) != [] ==>
              Complete([c] + text) == Prepend(c, Complete(text)) && Unfinished([c] + text) == Unfinished(text)
  {
    SplitCons(c, text);
    hide Split;
    var pieces := Split(text);
    assert pieces == Complete(text) + [Unfinished(text)];
  }

  lemma SplitAppendStep(c: Scalar, rest: Text, b: Text)
    requires Split(rest + b) == Complete(rest) + Split(Unfinished(rest) + b)
    ensures Split([c] + (rest + b)) == Complete([c] + rest) + Split(Unfinished([c] + rest) + b)
  {
    hide *;
    var done, tail := Complete(rest), Split(Unfinished(rest) + b);
    SplitCons(c, rest + b);
    LinesCons(c, rest);
    if c == NEWLINE {
      assert [[]] + (done + tail) == ([[]] + done) + tail;
    } else if done == [] {
      assert done + tail == tail;
      assert ([c] + Unfinished(rest)) + b == [c] + (Unfinished(rest) + b);
      SplitCons(c, Unfinished(rest) + b);
      assert [] + Split([c] + (Unfinished(rest) + b)) == Split([c] + (Unfinished(rest) + b));
    } else {
      PrependAppend(c, done, tail);
    }
  }

  /** Text that arrives in pieces splits into the same lines, the unfinished line carried over. */
  lemma {:induction false} SplitAppend(a: Text, b: Text)
    ensures Split(a + b) == Complete(a) + Split(Unfinished(a) + b)
  {
    if a == [] {
      assert a + b == b;
      assert Complete(a) == [] && Unfinished(a) + b == b;
    } else {
      hide *;
      assert a == [a[0]] + a[1..];
      assert a + b == [a[0]] + (a[1..] + b);
      SplitAppend(a[1..], b);
      SplitAppendStep(a[0], a[1..], b);
    }
  }

  // ---- what splitting means ----

  /** The pieces with a newline between each two. */
  function WithNewlines(pieces: seq<Text>): Text
    requires pieces != []
  {
    if |pieces| == 1 then pieces[0] else pieces[0] + [NEWLINE] + WithNewlines(pieces[1..])
  }

  lemma PrependedNewlines(c: Scalar, pieces: seq<Text>)
    requires pieces != []
    ensures WithNewlines(Prepend(c, pieces)) == [c] + WithNewlines(pieces)
  {
    if |pieces| > 1 { assert Prepend(c, pieces)[1..] == pieces[1..]; }
  }

  /** Pieces without newlines that make up the text with newlines between them. */
  lemma {:induction false} SplitExactly(text: Text)
    ensures WithNewlines(Split(text)) == text
    ensures forall i :: 0 <= i < |Split(text)| ==> NEWLINE !in Split(text)[i]
  {
    if text != [] {
      var rest := Split(text[1..]);
      SplitExactly(text[1..]);
      if text[0] == NEWLINE {
        assert ([[]] + rest)[1..] == rest;
      } else {
        PrependedNewlines(text[0], rest);
        assert NEWLINE !in rest[0];
      }
    }
  }

  // ---- lines picked from others ----

  /** `ps` are rising positions of `lines`, and `picked` is what stands there. */
  predicate Picks(ps: seq<nat>, lines: seq<Text>, picked: seq<Text>) {
    && |ps| == |picked|
    && (forall k :: 0 <= k < |ps| ==> ps[k] < |lines| && picked[k] == lines[ps[k]])
    && (forall j, k :: 0 <= j < k < |ps| ==> ps[j] < ps[k])
  }

  /** One line more, picked or not. */
  lemma PicksNext(ps: seq<nat>, lines: seq<Text>, picked: seq<Text>, line: Text, also: bool) returns (next: seq<nat>)
    requires Picks(ps, lines, picked)
    ensures Picks(next, lines + [line], picked + if also then [line] else [])
    ensures forall i: nat :: i in next <==> i in ps || (also && i == |lines|)
  {
    next := ps + if also then [|lines|] else [];
    var all := picked + if also then [line] else [];
    forall k | 0 <= k < |next| ensures next[k] < |lines + [line]| && all[k] == (lines + [line])[next[k]] {
      if k < |ps| { assert picked[k] == lines[ps[k]]; }
    }
  }

  lemma PicksInside(ps: seq<nat>, lines: seq<Text>, picked: seq<Text>, i: nat)
    requires Picks(ps, lines, picked) && i in ps
    ensures i < |lines|
  {
  }

  /** Picking from what was picked. */
  lemma PicksWithin(ps: seq<nat>, lines: seq<Text>, a: seq<Text>, qs: seq<nat>, b: seq<Text>) returns (rs: seq<nat>)
    requires Picks(ps, lines, a) && Picks(qs, a, b)
    ensures Picks(rs, lines, b)
    ensures forall i: nat :: i in rs <==> exists k :: 0 <= k < |ps| && ps[k] == i && k in qs
  {
    rs := seq(|qs|, k requires 0 <= k < |qs| => ps[qs[k]]);
    forall j, k | 0 <= j < k < |rs| ensures rs[j] < rs[k] {
      assert qs[j] < qs[k];
    }
    forall i: nat | i in rs ensures exists k :: 0 <= k < |ps| && ps[k] == i && k in qs {
      var k :| 0 <= k < |rs| && rs[k] == i;
      assert qs[k] in qs;
    }
    forall i: nat, k | 0 <= k < |ps| && ps[k] == i && k in qs ensures i in rs {
      var l :| 0 <= l < |qs| && qs[l] == k;
      assert rs[l] == i;
    }
  }

  // ---- tail ----

  function LastOf(lines: seq<Text>, count: nat): (r: seq<Text>)
    ensures |r| == if count >= |lines| then |lines| else count
    ensures forall k :: 0 <= k < |r| ==> r[k] == lines[|lines| - |r| + k]
  {
    if count >= |lines| then lines else lines[|lines| - count..]
  }

  /** All lines of a file; a trailing newline does not start another. */
  function FileLines(content: Text): seq<Text> {
    if Unfinished(content) == [] then Complete(content) else Split(content)
  }

  method TailLines(content: Text, count: nat) returns (r: seq<Text>)
    ensures r == LastOf(FileLines(content), count)
  {
    var lines := Split(content);
    if lines[|lines| - 1] == [] {
      lines := lines[..|lines| - 1];
    }
    if count >= |lines| { return lines; }
    return lines[|lines| - count..];
  }

  // ---- filters ----

  predicate Contains(line: Text, pattern: Text) {
    pattern <= line || (line != [] && Contains(line[1..], pattern))
  }

  /** The pattern occurs somewhere in the line. */
  lemma {:induction false} ContainsExactly(line: Text, pattern: Text)
    ensures Contains(line, pattern) <==> exists k :: 0 <= k <= |line| && pattern <= line[k..]
  {
    assert line[0..] == line;
    if line != [] {
      ContainsExactly(line[1..], pattern);
      if Contains(line[1..], pattern) {
        var k :| 0 <= k <= |line[1..]| && pattern <= line[1..][k..];
        assert line[1..][k..] == line[k + 1..];
      }
      forall k | 0 < k <= |line| && pattern <= line[k..] ensures Contains(line[1..], pattern) {
        assert line[1..][k - 1..] == line[k..];
      }
    }
  }

  function Grep(lines: seq<Text>, pattern: Text): (r: seq<Text>)
    ensures |r| <= |lines| && forall line :: line in r <==> line in lines && Contains(line, pattern)
  {
    if lines == [] then [] else (if Contains(lines[0], pattern) then [lines[0]] else []) + Grep(lines[1..], pattern)
  }

  /**
   `targetOf` is the target of a line that parses as a log entry. A line that
   does not parse goes with the entry above it; `kept` is whether that one was.
   */
  function FilterFrom(kept: bool, lines: seq<Text>, target: Text, targetOf: Text -> Option<Text>): seq<Text>
    decreases |lines|
  {
    if lines == [] then [] else
    var now := Kept(kept, lines[0], target, targetOf);
    (if now then [lines[0]] else []) + FilterFrom(now, lines[1..], target, targetOf)
  }

  predicate Kept(kept: bool, line: Text, target: Text, targetOf: Text -> Option<Text>) {
    match targetOf(line)
    case Some(t) => t == target
    case None => kept
  }

  predicate KeptAfter(kept: bool, lines: seq<Text>, target: Text, targetOf: Text -> Option<Text>)
    decreases |lines|
  {
    if lines == [] then kept else KeptAfter(Kept(kept, lines[0], target, targetOf), lines[1..], target, targetOf)
  }

  lemma FilterCons(kept: bool, line: Text, rest: seq<Text>, target: Text, targetOf: Text -> Option<Text>)
    ensures var now := Kept(kept, line, target, targetOf);
            && FilterFrom(kept, [line] + rest, target, targetOf)
            == (if now then [line] else []) + FilterFrom(now, rest, target, targetOf)
            && KeptAfter(kept, [line] + rest, target, targetOf) == KeptAfter(now, rest, target, targetOf)
  {
    assert ([line] + rest)[1..] == rest;
  }

  lemma {:induction false} FilterAppend(kept: bool, a: seq<Text>, b: seq<Text>, target: Text, targetOf: Text -> Option<Text>)
    ensures FilterFrom(kept, a + b, target, targetOf) ==
            FilterFrom(kept, a, target, targetOf) + FilterFrom(KeptAfter(kept, a, target, targetOf), b, target, targetOf)
    ensures KeptAfter(kept, a + b, target, targetOf) == KeptAfter(KeptAfter(kept, a, target, targetOf), b, target, targetOf)
    decreases |a|
  {
    if a == [] {
      assert a + b == b;
    } else {
      assert (a + b)[1..] == a[1..] + b;
      FilterAppend(Kept(kept, a[0], target, targetOf), a[1..], b, target, targetOf);
    }
  }

  lemma {:induction false} GrepAppend(a: seq<Text>, b: seq<Text>, pattern: Text)
    ensures Grep(a + b, pattern) == Grep(a, pattern) + Grep(b, pattern)
  {
    if a == [] {
      assert a + b == b;
    } else {
      assert (a + b)[1..] == a[1..] + b;
      GrepAppend(a[1..], b, pattern);
    }
  }

  /** Every line with the pattern, and no other, in its place. */
  lemma {:induction false} GrepPositions(lines: seq<Text>, pattern: Text) returns (ps: seq<nat>)
    ensures Picks(ps, lines, Grep(lines, pattern))
    ensures forall i: nat :: i in ps <==> i < |lines| && Contains(lines[i], pattern)
    decreases |lines|
  {
    if lines == [] {
      ps := [];
    } else {
      var last := |lines| - 1;
      var init := lines[..last];
      ps := GrepPositions(init, pattern);
      assert lines == init + [lines[last]];
      GrepAppend(init, [lines[last]], pattern);
      ps := PicksNext(ps, init, Grep(init, pattern), lines[last], Contains(lines[last], pattern));
    }
  }

  predicate NoneParses(lines: seq<Text>, from: nat, to: nat, targetOf: Text -> Option<Text>) {
    forall k :: from <= k < to && k < |lines| ==> targetOf(lines[k]).None?
  }

  /** The last entry at or above line `i` is line `j`, and it is of the target. */
  predicate EntryAt(lines: seq<Text>, j: nat, i: nat, target: Text, targetOf: Text -> Option<Text>) {
    j <= i < |lines| && targetOf(lines[j]) == Some(target) && NoneParses(lines, j + 1, i + 1, targetOf)
  }

  /** Line `i` is an entry of the target, or follows one with no other entry between. */
  predicate InEntry(lines: seq<Text>, i: nat, target: Text, targetOf: Text -> Option<Text>) {
    exists j: nat :: j <= i && EntryAt(lines, j, i, target, targetOf)
  }

  /** The same when the lines go on from an entry that was shown. */
  predicate KeptAt(kept: bool, lines: seq<Text>, i: nat, target: Text, targetOf: Text -> Option<Text>) {
    InEntry(lines, i, target, targetOf) || (kept && i < |lines| && NoneParses(lines, 0, i + 1, targetOf))
  }

  lemma SameBefore(init: seq<Text>, line: Text, from: nat, to: nat, targetOf: Text -> Option<Text>)
    requires to <= |init|
    ensures NoneParses(init + [line], from, to, targetOf) == NoneParses(init, from, to, targetOf)
  {
    assert forall k :: 0 <= k < to ==> (init + [line])[k] == init[k];
  }

  lemma KeptAtBefore(kept: bool, init: seq<Text>, line: Text, i: nat, target: Text, targetOf: Text -> Option<Text>)
    requires i < |init|
    ensures KeptAt(kept, init + [line], i, target, targetOf) == KeptAt(kept, init, i, target, targetOf)
  {
    var lines := init + [line];
    SameBefore(init, line, 0, i + 1, targetOf);
    forall j: nat | j <= i ensures EntryAt(lines, j, i, target, targetOf) == EntryAt(init, j, i, target, targetOf) {
      SameBefore(init, line, j + 1, i + 1, targetOf);
      assert lines[j] == init[j];
    }
  }

  lemma KeptAtLast(kept: bool, init: seq<Text>, line: Text, target: Text, targetOf: Text -> Option<Text>)
    ensures KeptAt(kept, init + [line], |init|, target, targetOf) <==>
            match targetOf(line)
            case Some(t) => t == target
            case None => if init == [] then kept else KeptAt(kept, init, |init| - 1, target, targetOf)
  {
    var lines, n := init + [line], |init|;
    assert lines[n] == line;
    if targetOf(line).None? {
      LastGoesOn(init, line, targetOf);
      assert !EntryAt(lines, n, n, target, targetOf);
      if n > 0 {
        forall j: nat | j < n ensures EntryAt(lines, j, n, target, targetOf) == EntryAt(init, j, n - 1, target, targetOf) {
          assert lines[j] == init[j];
        }
        hide EntryAt, NoneParses;
        assert InEntry(lines, n, target, targetOf) <==> InEntry(init, n - 1, target, targetOf) by {
          if InEntry(lines, n, target, targetOf) {
            var j: nat :| j <= n && EntryAt(lines, j, n, target, targetOf);
            assert EntryAt(init, j, n - 1, target, targetOf);
          }
          if InEntry(init, n - 1, target, targetOf) {
            var j: nat :| j <= n - 1 && EntryAt(init, j, n - 1, target, targetOf);
            assert EntryAt(lines, j, n, target, targetOf);
          }
        }
        assert NoneParses(lines, 0, n + 1, targetOf) == NoneParses(init, 0, n, targetOf);
      }
    } else if targetOf(line) == Some(target) {
      assert EntryAt(lines, n, n, target, targetOf);
    } else {
      forall j: nat | j <= n ensures !EntryAt(lines, j, n, target, targetOf) {
        if j < n { assert lines[n] == line; }
      }
    }
  }

  lemma LastGoesOn(init: seq<Text>, line: Text, targetOf: Text -> Option<Text>)
    requires targetOf(line).None?
    ensures forall from: nat :: NoneParses(init + [line], from, |init| + 1, targetOf) == NoneParses(init, from, |init|, targetOf)
  {
    forall from: nat ensures NoneParses(init + [line], from, |init| + 1, targetOf) == NoneParses(init, from, |init|, targetOf) {
      assert forall k :: from <= k < |init| ==> (init + [line])[k] == init[k];
    }
  }

  lemma {:induction false} KeptAfterIs(kept: bool, lines: seq<Text>, target: Text, targetOf: Text -> Option<Text>)
    ensures KeptAfter(kept, lines, target, targetOf) == if lines == [] then kept else KeptAt(kept, lines, |lines| - 1, target, targetOf)
    decreases |lines|
  {
    if lines != [] {
      var last := |lines| - 1;
      var init := lines[..last];
      assert lines == init + [lines[last]];
      KeptAfterIs(kept, init, target, targetOf);
      FilterAppend(kept, init, [lines[last]], target, targetOf);
      KeptAtLast(kept, init, lines[last], target, targetOf);
      hide KeptAt;
      FilterCons(KeptAfter(kept, init, target, targetOf), lines[last], [], target, targetOf);
      assert [lines[last]] + [] == [lines[last]];
    }
  }

  lemma FilterOne(kept: bool, line: Text, target: Text, targetOf: Text -> Option<Text>)
    ensures FilterFrom(kept, [line], target, targetOf) ==
            if (match targetOf(line) case Some(t) => t == target case None => kept) then [line] else []
  {
    FilterCons(kept, line, [], target, targetOf);
    assert [line] + [] == [line];
  }

  /** What is kept are the lines in entries of the target, each once and in its place. */
  lemma {:induction false} FilterPositions(kept: bool, lines: seq<Text>, target: Text, targetOf: Text -> Option<Text>) returns (ps: seq<nat>)
    ensures Picks(ps, lines, FilterFrom(kept, lines, target, targetOf))
    ensures forall i: nat :: i in ps <==> i < |lines| && KeptAt(kept, lines, i, target, targetOf)
    decreases |lines|
  {
    hide KeptAt, FilterFrom, KeptAfter;
    if lines == [] {
      NothingFiltered(kept, lines, target, targetOf);
      ps := [];
    } else {
      var last := |lines| - 1;
      var init := lines[..last];
      assert lines == init + [lines[last]];
      ps := FilterPositions(kept, init, target, targetOf);
      FilterAppend(kept, init, [lines[last]], target, targetOf);
      FilterOne(KeptAfter(kept, init, target, targetOf), lines[last], target, targetOf);
      KeptAfterIs(kept, init, target, targetOf);
      KeptAtLast(kept, init, lines[last], target, targetOf);
      forall i: nat | i < |init| ensures KeptAt(kept, lines, i, target, targetOf) == KeptAt(kept, init, i, target, targetOf) {
        KeptAtBefore(kept, init, lines[last], i, target, targetOf);
      }
      ps := PicksNext(ps, init, FilterFrom(kept, init, target, targetOf), lines[last], KeptAt(kept, lines, last, target, targetOf));
    }
  }

  /** `kept` is the lines that are in entries of the target, each once and in order. */
  ghost predicate IsTargetPart(kept: seq<Text>, lines: seq<Text>, target: Text, targetOf: Text -> Option<Text>) {
    exists ps :: Picks(ps, lines, kept) && forall i: nat :: i in ps <==> i < |lines| && InEntry(lines, i, target, targetOf)
  }

  lemma TargetPart(lines: seq<Text>, target: Text, targetOf: Text -> Option<Text>)
    ensures IsTargetPart(FilterFrom(false, lines, target, targetOf), lines, target, targetOf)
  {
    var ps := FilterPositions(false, lines, target, targetOf);
    hide InEntry, FilterFrom;
    assert forall i: nat :: i in ps <==> i < |lines| && InEntry(lines, i, target, targetOf);
  }

  method FilterLinesByTarget(lines: seq<Text>, target: Text, targetOf: Text -> Option<Text>) returns (kept: seq<Text>)
    ensures kept == FilterFrom(false, lines, target, targetOf)
    ensures IsTargetPart(kept, lines, target, targetOf)
  {
    TargetPart(lines, target, targetOf);
    hide FilterFrom, IsTargetPart;
    kept := [];
    var previousKept := false;
    var i := 0;
    assert lines[i..] == lines;
    while i < |lines|
      invariant 0 <= i <= |lines|
      invariant FilterFrom(false, lines, target, targetOf) == kept + FilterFrom(previousKept, lines[i..], target, targetOf)
    {
      var line := lines[i];
      assert lines[i..] == [line] + lines[i + 1..];
      FilterCons(previousKept, line, lines[i + 1..], target, targetOf);
      var parsed := targetOf(line);
      if parsed.Some? {
        previousKept := parsed.value == target;
        if previousKept { kept := kept + [line]; }
      } else if previousKept {
        kept := kept + [line];
      }
      i := i + 1;
    }
    NothingFiltered(previousKept, lines[i..], target, targetOf);
  }

  lemma NothingFiltered(kept: bool, lines: seq<Text>, target: Text, targetOf: Text -> Option<Text>)
    requires lines == []
    ensures FilterFrom(kept, lines, target, targetOf) == []
  {
  }

  // ---- what is printed of an existing file ----

  datatype LogOptions = LogOptions(scriptOnly: bool, pattern: Option<Text>)

  /** Script entries are sparse, so a hundred times the tail is scanned for them. */
  function ScanWindow(tail: nat): nat {
    100 * tail
  }

  /** An absent or empty pattern filters nothing. */
  function GrepIfAny(lines: seq<Text>, pattern: Option<Text>): seq<Text> {
    if pattern.None? || pattern.value == [] then lines else Grep(lines, pattern.value)
  }

  predicate IsSuffix(a: seq<Text>, b: seq<Text>) {
    |a| <= |b| && b[|b| - |a|..] == a
  }

  lemma SuffixTrans(a: seq<Text>, b: seq<Text>, c: seq<Text>)
    requires IsSuffix(a, b) && IsSuffix(b, c)
    ensures IsSuffix(a, c)
  {
    assert c[|c| - |a|..] == c[|c| - |b|..][|b| - |a|..];
  }

  /** Starting in the middle of an entry only loses the rest of that entry. */
  lemma {:induction false} FilterStartsLater(lines: seq<Text>, target: Text, targetOf: Text -> Option<Text>)
    ensures IsSuffix(FilterFrom(false, lines, target, targetOf), FilterFrom(true, lines, target, targetOf))
  {
    if lines != [] && targetOf(lines[0]).None? {
      FilterStartsLater(lines[1..], target, targetOf);
      SuffixTrans(FilterFrom(false, lines, target, targetOf), FilterFrom(true, lines[1..], target, targetOf),
                  FilterFrom(true, lines, target, targetOf));
    }
  }

  lemma FilterOfWindow(lines: seq<Text>, from: nat, target: Text, targetOf: Text -> Option<Text>)
    requires from <= |lines|
    ensures IsSuffix(FilterFrom(false, lines[from..], target, targetOf), FilterFrom(false, lines, target, targetOf))
  {
    var kept := KeptAfter(false, lines[..from], target, targetOf);
    assert lines == lines[..from] + lines[from..];
    FilterAppend(false, lines[..from], lines[from..], target, targetOf);
    FilterStartsLater(lines[from..], target, targetOf);
    SuffixTrans(FilterFrom(false, lines[from..], target, targetOf), FilterFrom(kept, lines[from..], target, targetOf),
                FilterFrom(false, lines, target, targetOf));
  }

  function LastFiltered(content: Text, tail: nat, target: Text, targetOf: Text -> Option<Text>): seq<Text> {
    LastOf(FilterFrom(false, LastOf(FileLines(content), ScanWindow(tail)), target, targetOf), tail)
  }

  lemma LastOfSuffix(window: seq<Text>, all: seq<Text>, tail: nat)
    requires IsSuffix(window, all)
    ensures IsSuffix(LastOf(window, tail), all)
    ensures |window| >= tail || window == all ==> LastOf(window, tail) == LastOf(all, tail)
  {
    if |window| > tail {
      assert all[|all| - |window|..][|window| - tail..] == all[|all| - tail..];
    }
  }

  /**
   The script tail is a run of lines at the end of the filtered file, and it
   is the last `tail` of them when the window holds that many or holds the
   whole file.
   */
  lemma ScriptTailIsSuffix(content: Text, tail: nat, target: Text, targetOf: Text -> Option<Text>)
    requires tail > 0
    ensures var all := FilterFrom(false, FileLines(content), target, targetOf);
            var window := FilterFrom(false, LastOf(FileLines(content), 100 * tail), target, targetOf);
            && IsSuffix(LastFiltered(content, tail, target, targetOf), all)
            && (|window| >= tail || |FileLines(content)| <= 100 * tail ==>
                  LastFiltered(content, tail, target, targetOf) == LastOf(all, tail))
  {
    hide Split, FileLines, FilterFrom, IsSuffix;
    var lines := FileLines(content);
    var n := ScanWindow(tail);
    if n < |lines| {
      FilterOfWindow(lines, |lines| - n, target, targetOf);
    } else {
      WholeIsSuffix(FilterFrom(false, lines, target, targetOf));
    }
    LastOfSuffix(FilterFrom(false, LastOf(lines, n), target, targetOf), FilterFrom(false, lines, target, targetOf), tail);
  }

  lemma WholeIsSuffix(lines: seq<Text>)
    ensures IsSuffix(lines, lines)
  {
  }

  method ScriptTail(content: Text, tail: nat, target: Text, targetOf: Text -> Option<Text>) returns (lines: seq<Text>, ghost part: seq<Text>)
    requires tail > 0
    ensures lines == LastFiltered(content, tail, target, targetOf) == LastOf(part, tail)
    ensures IsTargetPart(part, LastOf(FileLines(content), 100 * tail), target, targetOf)
  {
    hide FileLines, FilterFrom, IsTargetPart;
    lines := TailLines(content, ScanWindow(tail));
    lines := FilterLinesByTarget(lines, target, targetOf);
    part := lines;
    if |lines| > tail { lines := lines[|lines| - tail..]; }
  }

  datatype Listing = Lines(lines: seq<Text>) | BadTail

  method ShowExisting(content: Text, tail: int, options: LogOptions, target: Text, targetOf: Text -> Option<Text>)
    returns (r: Listing)
    ensures r == BadTail <==> tail <= 0
    ensures r.Lines? ==>
              r.lines == GrepIfAny(if options.scriptOnly then LastFiltered(content, tail, target, targetOf)
                                   else LastOf(FileLines(content), tail), options.pattern)
    ensures r.Lines? && options.scriptOnly ==>
              exists part :: IsTargetPart(part, LastOf(FileLines(content), 100 * tail), target, targetOf)
                             && r.lines == GrepIfAny(LastOf(part, tail), options.pattern)
  {
    hide LastFiltered, LastOf, FileLines, Grep, Contains, IsTargetPart;
    if tail <= 0 { return BadTail; }
    var lines;
    if options.scriptOnly {
      ghost var part;
      lines, part := ScriptTail(content, tail, target, targetOf);
    } else {
      lines := TailLines(content, tail);
    }
    if options.pattern.Some? && options.pattern.value != [] {
      lines := Grep(lines, options.pattern.value);
    }
    return Lines(lines);
  }
}
