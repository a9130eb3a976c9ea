/**
 Following a log file: appended bytes arrive in ticks of any size, are decoded
 as they come and printed line by line, and come out as a batch run over the
 same bytes would print them.
 */
module LogFollow {
  import opened Options
  import opened Octet
  import opened Utf8
  import opened LogFilter

  datatype Stat = Stat(size: nat, ino: nat)

  /** One change notification; `chunk` is what the read returned, or nothing when the file could not be opened. */
  datatype Tick = Tick(curr: Stat, prev: Stat, chunk: Option<seq<byte>>)

  datatype Tail = Tail(offset: nat, partial: Text, decoder: Decoder)

  const FRESH := Tail(0, [], NEW_DECODER)

  /** The file was truncated or replaced. */
  predicate Restarts(t: Tail, tick: Tick) {
    tick.curr.size < tick.prev.size || tick.curr.size < t.offset || tick.curr.ino != tick.prev.ino
  }

  function Started(t: Tail, tick: Tick): Tail {
    if Restarts(t, tick) then FRESH else t
  }

  function NonEmpty(lines: seq<Text>): seq<Text> {
    if lines == [] then [] else (if lines[0] != [] then [lines[0]] else []) + NonEmpty(lines[1..])
  }

  function Read(t: Tail, chunk: seq<byte>): (r: (Tail, seq<Text>)) {
    var decoded := Decode(t.decoder, chunk);
    var text := t.partial + decoded.text;
    (Tail(t.offset + |chunk|, Unfinished(text), decoded.decoder), NonEmpty(Complete(text)))
  }

  /** The state after a tick and the lines it delivers. */
  function Ticked(t: Tail, tick: Tick): (Tail, seq<Text>) {
    var s := Started(t, tick);
    if tick.curr.size == s.offset || tick.chunk.None? then (s, []) else Read(s, tick.chunk.value)
  }

  function Delivered(t: Tail, ticks: seq<Tick>): (r: (Tail, seq<Text>))
    decreases |ticks|
  {
    if ticks == [] then (t, []) else
    var first := Ticked(t, ticks[0]);
    var rest := Delivered(first.0, ticks[1..]);
    (rest.0, first.1 + rest.1)
  }

  lemma DeliveredFirst(t: Tail, ticks: seq<Tick>)
    requires ticks != []
    ensures Delivered(t, ticks).0 == Delivered(Ticked(t, ticks[0]).0, ticks[1..]).0
    ensures Delivered(t, ticks).1 == Ticked(t, ticks[0]).1 + Delivered(Ticked(t, ticks[0]).0, ticks[1..]).1
  {
  }

  lemma DeliveredNone(t: Tail, ticks: seq<Tick>)
    requires ticks == []
    ensures Delivered(t, ticks) == (t, [])
  {
  }

  // ---- batch meaning ----

  /** The lines of bytes decoded from the start of a stream. */
  function BatchLines(bytes: seq<byte>): seq<Text> {
    NonEmpty(Complete(Decode(NEW_DECODER, bytes).text))
  }

  /** The follower has taken in exactly these bytes since it last started. */
  predicate HasRead(t: Tail, start: nat, bytes: seq<byte>) {
    && t.offset == start + |bytes|
    && t.partial == Unfinished(Decode(NEW_DECODER, bytes).text)
    && t.decoder == Decode(NEW_DECODER, bytes).decoder
  }

  lemma {:induction false} NonEmptyAppend(a: seq<Text>, b: seq<Text>)
    ensures NonEmpty(a + b) == NonEmpty(a) + NonEmpty(b)
  {
    if a == [] {
      assert a + b == b;
    } else {
      assert (a + b)[1..] == a[1..] + b;
      NonEmptyAppend(a[1..], b);
    }
  }

  lemma LinesAppend(a: Text, b: Text)
    ensures Complete(a + b) == Complete(a) + Complete(Unfinished(a) + b)
    ensures Unfinished(a + b) == Unfinished(Unfinished(a) + b)
  {
    SplitAppend(a, b);
    hide Split;
    var done, tail := Complete(a), Split(Unfinished(a) + b);
    assert (done + tail)[..|done + tail| - 1] == done + tail[..|tail| - 1];
  }

  /** Reading one more chunk adds exactly the lines it completes. */
  lemma ReadMore(t: Tail, start: nat, bytes: seq<byte>, chunk: seq<byte>)
    requires HasRead(t, start, bytes)
    ensures HasRead(Read(t, chunk).0, start, bytes + chunk)
    ensures BatchLines(bytes + chunk) == BatchLines(bytes) + Read(t, chunk).1
  {
    hide Decode, Complete, Unfinished, NonEmpty;
    DecodeInChunks(NEW_DECODER, bytes, chunk);
    var before := Decode(NEW_DECODER, bytes).text;
    var more := Decode(t.decoder, chunk).text;
    LinesAppend(before, more);
    NonEmptyAppend(Complete(before), Complete(t.partial + more));
  }

  /** The lines that are not empty, each once and in order. */
  lemma {:induction false} NonEmptyPositions(lines: seq<Text>) returns (ps: seq<nat>)
    ensures Picks(ps, lines, NonEmpty(lines))
    ensures forall i: nat :: i in ps <==> i < |lines| && lines[i] != []
    decreases |lines|
  {
    if lines == [] {
      ps := [];
    } else {
      var last := |lines| - 1;
      var init := lines[..last];
      assert lines == init + [lines[last]];
      ps := NonEmptyPositions(init);
      NonEmptyAppend(init, [lines[last]]);
      NonEmptyOne(lines[last]);
      ps := PicksNext(ps, init, NonEmpty(init), lines[last], lines[last] != []);
    }
  }

  lemma NonEmptyOne(line: Text)
    ensures NonEmpty([line]) == if line != [] then [line] else []
  {
    assert [line][1..] == [];
  }

  // ---- files that are replaced ----

  /** Another file is at the path, or this one has been cut. */
  predicate Replaced(before: seq<byte>, after: seq<byte>, tick: Tick) {
    tick.curr.ino != tick.prev.ino || |after| < |before|
  }

  /** A look at a file that was `before` and is `after`: what is not replaced has only grown. */
  predicate LooksAt(before: seq<byte>, after: seq<byte>, t: Tail, tick: Tick) {
    && tick.prev.size == |before| && tick.curr.size == |after|
    && (!Replaced(before, after, tick) ==> before <= after)
    && (tick.chunk.Some? ==>
          var at := Started(t, tick).offset;
          at + |tick.chunk.value| <= |after| && tick.chunk.value == after[at..at + |tick.chunk.value|])
  }

  /** The follower has read the file from `start` on. */
  predicate InFile(start: nat, t: Tail, file: seq<byte>) {
    start <= t.offset <= |file| && HasRead(t, start, file[start..t.offset])
  }

  /** The lines of what it has read of the file. */
  function LinesRead(start: nat, t: Tail, file: seq<byte>): seq<Text> {
    if start <= t.offset <= |file| then BatchLines(file[start..t.offset]) else []
  }

  /** Reading more of the same file. */
  lemma ReadOn(from: nat, s: Tail, file: seq<byte>, chunk: seq<byte>)
    requires InFile(from, s, file) && s.offset + |chunk| <= |file| && chunk == file[s.offset..s.offset + |chunk|]
    ensures InFile(from, Read(s, chunk).0, file)
    ensures LinesRead(from, Read(s, chunk).0, file) == LinesRead(from, s, file) + Read(s, chunk).1
  {
    hide BatchLines, HasRead, Read;
    assert file[from..s.offset] + chunk == file[from..s.offset + |chunk|];
    ReadMore(s, from, file[from..s.offset], chunk);
    ReadOffset(s, chunk);
  }

  lemma StartedIn(before: seq<byte>, after: seq<byte>, start: nat, t: Tail, tick: Tick)
    requires InFile(start, t, before) && LooksAt(before, after, t, tick)
    ensures var replaced := Replaced(before, after, tick);
            var from := if replaced then 0 else start;
            && InFile(from, Started(t, tick), after)
            && LinesRead(from, Started(t, tick), after) == if replaced then [] else LinesRead(start, t, before)
  {
    hide HasRead, BatchLines;
    if Replaced(before, after, tick) {
      JustBegun();
      assert after[0..0] == [];
      assert Started(t, tick) == FRESH;
    } else {
      assert Started(t, tick) == t && after[start..t.offset] == before[start..t.offset];
    }
  }

  /** One look: the follower goes on in the same file, or begins the new one at its first byte. */
  lemma OneLook(before: seq<byte>, after: seq<byte>, start: nat, t: Tail, tick: Tick)
    requires InFile(start, t, before) && LooksAt(before, after, t, tick)
    ensures var replaced := Replaced(before, after, tick);
            var from := if replaced then 0 else start;
            var next := Ticked(t, tick).0;
            && InFile(from, next, after)
            && LinesRead(from, next, after) == (if replaced then [] else LinesRead(start, t, before)) + Ticked(t, tick).1
  {
    StartedIn(before, after, start, t, tick);
    hide InFile, LinesRead, Read, Replaced, Started;
    if tick.curr.size != Started(t, tick).offset && tick.chunk.Some? {
      ReadOn(if Replaced(before, after, tick) then 0 else start, Started(t, tick), after, tick.chunk.value);
    }
  }

  lemma JustBegun()
    ensures HasRead(FRESH, 0, []) && BatchLines([]) == []
  {
  }

  /** The file before the first look and after each, as the follower meets it. */
  predicate Watches(t: Tail, files: seq<seq<byte>>, ticks: seq<Tick>)
    decreases |ticks|
  {
    && |files| == |ticks| + 1
    && (ticks != [] ==> LooksAt(files[0], files[1], t, ticks[0]) && Watches(Ticked(t, ticks[0]).0, files[1..], ticks[1..]))
  }

  /** Where the follower began the file it is in. */
  function BeginOf(start: nat, files: seq<seq<byte>>, ticks: seq<Tick>): nat
    requires |files| == |ticks| + 1
    decreases |ticks|
  {
    if ticks == [] then start
    else BeginOf(if Replaced(files[0], files[1], ticks[0]) then 0 else start, files[1..], ticks[1..])
  }

  lemma WatchedFirst(start: nat, t: Tail, files: seq<seq<byte>>, ticks: seq<Tick>)
    requires Watches(t, files, ticks) && ticks != []
    ensures |files| == |ticks| + 1 && LooksAt(files[0], files[1], t, ticks[0])
    ensures Watches(Ticked(t, ticks[0]).0, files[1..], ticks[1..]) && files[1..][|ticks[1..]|] == files[|ticks|]
    ensures BeginOf(start, files, ticks) == BeginOf(if Replaced(files[0], files[1], ticks[0]) then 0 else start, files[1..], ticks[1..])
  {
  }

  lemma LinesOnTop(a: seq<Text>, b: seq<Text>, c: seq<Text>)
    ensures a + (b + c) == (a + b) + c
  {
  }

  lemma WatchedNone(start: nat, t: Tail, files: seq<seq<byte>>, ticks: seq<Tick>)
    requires Watches(t, files, ticks) && ticks == []
    ensures |files| == 1 && BeginOf(start, files, ticks) == start && Delivered(t, ticks) == (t, [])
  {
  }

  /**
   Through rotations and truncations: what is delivered ends in the lines of the
   present file, read from its first byte, or from where the follower was
   started if it is still the same.
   */
  lemma {:induction false} FollowsPresentFile(start: nat, t: Tail, files: seq<seq<byte>>, ticks: seq<Tick>) returns (earlier: seq<Text>)
    requires Watches(t, files, ticks) && InFile(start, t, files[0])
    ensures var end, last := Delivered(t, ticks).0, files[|ticks|];
            var from := BeginOf(start, files, ticks);
            && InFile(from, end, last)
            && LinesRead(start, t, files[0]) + Delivered(t, ticks).1 == earlier + LinesRead(from, end, last)
    decreases |ticks|
  {
    hide *;
    if ticks == [] {
      WatchedNone(start, t, files, ticks);
      earlier := [];
      assert LinesRead(start, t, files[0]) + [] == [] + LinesRead(start, t, files[0]);
    } else {
      WatchedFirst(start, t, files, ticks);
      var replaced := Replaced(files[0], files[1], ticks[0]);
      OneLook(files[0], files[1], start, t, ticks[0]);
      DeliveredFirst(t, ticks);
      var next, now := Ticked(t, ticks[0]).0, Ticked(t, ticks[0]).1;
      var inner := FollowsPresentFile(if replaced then 0 else start, next, files[1..], ticks[1..]);
      var a, rest := LinesRead(start, t, files[0]), Delivered(next, ticks[1..]).1;
      assert a + (now + rest) == (a + now) + rest;
      if replaced {
        earlier := a + inner;
        assert ([] + now) + rest == now + rest;
        LinesOnTop(a, inner, LinesRead(BeginOf(start, files, ticks), Delivered(t, ticks).0, files[|ticks|]));
      } else {
        earlier := inner;
      }
    }
  }

  // ---- append-only files ----

  /** No tick restarts, and every chunk is the part of the file at the reading position. */
  predicate Appending(file: seq<byte>, t: Tail, ticks: seq<Tick>)
    decreases |ticks|
  {
    ticks == [] ||
    (Continues(file, t, ticks[0]) && Appending(file, Ticked(t, ticks[0]).0, ticks[1..]))
  }

  /** The tick continues the file at the reading position. */
  predicate Continues(file: seq<byte>, t: Tail, tick: Tick) {
    && !Restarts(t, tick)
    && (tick.chunk.Some? ==>
          && t.offset + |tick.chunk.value| <= |file|
          && tick.chunk.value == file[t.offset..t.offset + |tick.chunk.value|])
  }

  lemma TickIsBatch(file: seq<byte>, start: nat, t: Tail, tick: Tick)
    requires start <= t.offset <= |file| && HasRead(t, start, file[start..t.offset]) && Continues(file, t, tick)
    ensures var next := Ticked(t, tick).0;
            && t.offset <= next.offset <= |file| && HasRead(next, start, file[start..next.offset])
            && BatchLines(file[start..next.offset]) == BatchLines(file[start..t.offset]) + Ticked(t, tick).1
  {
    hide BatchLines, HasRead, Read;
    if tick.curr.size != t.offset && tick.chunk.Some? {
      var chunk := tick.chunk.value;
      assert file[start..t.offset] + chunk == file[start..t.offset + |chunk|];
      ReadMore(t, start, file[start..t.offset], chunk);
      ReadOffset(t, chunk);
    }
  }

  lemma {:induction false} DeliveredIsBatch(file: seq<byte>, start: nat, t: Tail, ticks: seq<Tick>)
    requires start <= t.offset <= |file| && HasRead(t, start, file[start..t.offset]) && Appending(file, t, ticks)
    ensures var end := Delivered(t, ticks).0;
            && t.offset <= end.offset <= |file| && HasRead(end, start, file[start..end.offset])
            && BatchLines(file[start..end.offset]) == BatchLines(file[start..t.offset]) + Delivered(t, ticks).1
    decreases |ticks|
  {
    hide BatchLines, HasRead, Ticked, Continues;
    if ticks != [] {
      TickIsBatch(file, start, t, ticks[0]);
      DeliveredIsBatch(file, start, Ticked(t, ticks[0]).0, ticks[1..]);
    }
  }

  lemma ReadOffset(t: Tail, chunk: seq<byte>)
    ensures Read(t, chunk).0.offset == t.offset + |chunk|
  {
  }

  /**
   From any starting point, however the appended bytes are split into ticks and
   short reads: the lines delivered are the non-empty newline-terminated lines
   of the bytes consumed.
   */
  lemma FollowRefinesBatch(file: seq<byte>, start: nat, ticks: seq<Tick>)
    requires start <= |file| && Appending(file, Tail(start, [], NEW_DECODER), ticks)
    ensures var r := Delivered(Tail(start, [], NEW_DECODER), ticks);
            start <= r.0.offset <= |file| && r.1 == BatchLines(file[start..r.0.offset])
  {
    assert file[start..start] == [];
    DeliveredIsBatch(file, start, Tail(start, [], NEW_DECODER), ticks);
  }

  /** A restart forgets the old file: from there on it is a new follower at position 0. */
  lemma {:induction false} RestartBeginsAnew(t: Tail, before: seq<Tick>, after: seq<Tick>)
    requires after != [] && Restarts(Delivered(t, before).0, after[0])
    ensures Delivered(t, before + after).1 == Delivered(t, before).1 + Delivered(FRESH, after).1
    decreases |before|
  {
    if before == [] {
      assert before + after == after;
      assert Ticked(t, after[0]) == Ticked(FRESH, after[0]);
    } else {
      assert (before + after)[1..] == before[1..] + after;
      RestartBeginsAnew(Ticked(t, before[0]).0, before[1..], after);
    }
  }

  // ---- the streaming filter ----

  /** The lines shown of those delivered, and whether the last one was inside a shown entry. */
  function Shown(inEntry: bool, lines: seq<Text>, options: LogOptions,
                 target: Text, targetOf: Text -> Option<Text>): seq<Text>
  {
    GrepIfAny(if options.scriptOnly then FilterFrom(inEntry, lines, target, targetOf) else lines, options.pattern)
  }

  lemma ShownFromStart(lines: seq<Text>, options: LogOptions, target: Text, targetOf: Text -> Option<Text>)
    ensures Shown(false, lines, options, target, targetOf) ==
            GrepIfAny(if options.scriptOnly then FilterFrom(false, lines, target, targetOf) else lines, options.pattern)
  {
  }

  lemma ShownAppend(inEntry: bool, a: seq<Text>, b: seq<Text>, options: LogOptions,
                    target: Text, targetOf: Text -> Option<Text>)
    ensures Shown(inEntry, a + b, options, target, targetOf) ==
            Shown(inEntry, a, options, target, targetOf)
            + Shown(KeptAfter(inEntry, a, target, targetOf), b, options, target, targetOf)
  {
    FilterAppend(inEntry, a, b, target, targetOf);
    if options.pattern.Some? {
      GrepAppend(a, b, options.pattern.value);
      GrepAppend(FilterFrom(inEntry, a, target, targetOf),
                 FilterFrom(KeptAfter(inEntry, a, target, targetOf), b, target, targetOf), options.pattern.value);
    }
  }

  /** Whether line `i` of those delivered is shown. */
  predicate ShownAt(lines: seq<Text>, i: nat, options: LogOptions, target: Text, targetOf: Text -> Option<Text>) {
    && i < |lines|
    && (options.scriptOnly ==> InEntry(lines, i, target, targetOf))
    && (options.pattern.Some? && options.pattern.value != [] ==> Contains(lines[i], options.pattern.value))
  }

  /** `printed` is the lines to be shown of those delivered, each once and in order. */
  ghost predicate IsShown(printed: seq<Text>, lines: seq<Text>, options: LogOptions, target: Text, targetOf: Text -> Option<Text>) {
    exists ps :: Picks(ps, lines, printed) && forall i: nat :: i in ps <==> ShownAt(lines, i, options, target, targetOf)
  }

  lemma AllPicked(lines: seq<Text>) returns (ps: seq<nat>)
    ensures Picks(ps, lines, lines) && forall i: nat :: i in ps <==> i < |lines|
  {
    ps := seq(|lines|, k requires 0 <= k < |lines| => k);
    forall i: nat | i < |lines| ensures i in ps {
      assert ps[i] == i;
    }
  }

  lemma ShownPositions(lines: seq<Text>, options: LogOptions, target: Text, targetOf: Text -> Option<Text>)
    ensures IsShown(Shown(false, lines, options, target, targetOf), lines, options, target, targetOf)
  {
    var part := if options.scriptOnly then FilterFrom(false, lines, target, targetOf) else lines;
    var ps;
    if options.scriptOnly {
      TargetPart(lines, target, targetOf);
      ps :| Picks(ps, lines, part) && forall i: nat :: i in ps <==> i < |lines| && InEntry(lines, i, target, targetOf);
    } else {
      ps := AllPicked(lines);
    }
    hide InEntry, Contains, FilterFrom, Grep;
    if options.pattern.Some? && options.pattern.value != [] {
      var pattern := options.pattern.value;
      var qs := GrepPositions(part, pattern);
      var rs := PicksWithin(ps, lines, part, qs, Grep(part, pattern));
      forall i: nat ensures i in rs <==> ShownAt(lines, i, options, target, targetOf) {
        if i in rs {
          var k :| 0 <= k < |ps| && ps[k] == i && k in qs;
          assert part[k] == lines[i] && i in ps;
        }
        if ShownAt(lines, i, options, target, targetOf) {
          assert i in ps;
          var k :| 0 <= k < |ps| && ps[k] == i;
          assert part[k] == lines[i];
        }
      }
      assert IsShown(Grep(part, pattern), lines, options, target, targetOf);
    } else {
      assert forall i: nat :: i in ps <==> ShownAt(lines, i, options, target, targetOf);
    }
  }

  /** One line at a time, as the callback of the follower decides it. */
  lemma ShownOne(inEntry: bool, line: Text, options: LogOptions, target: Text, targetOf: Text -> Option<Text>)
    ensures Shown(inEntry, [line], options, target, targetOf) ==
            if (options.scriptOnly ==> Kept(inEntry, line, target, targetOf))
               && (options.pattern.Some? && options.pattern.value != [] ==> Contains(line, options.pattern.value))
            then [line] else []
    ensures KeptAfter(inEntry, [line], target, targetOf) == Kept(inEntry, line, target, targetOf)
  {
    FilterCons(inEntry, line, [], target, targetOf);
    assert [line] + [] == [line];
    assert FilterFrom(inEntry, [line], target, targetOf) == if Kept(inEntry, line, target, targetOf) then [line] else [];
    if options.pattern.Some? {
      assert Grep([line], options.pattern.value) == if Contains(line, options.pattern.value) then [line] else [];
    }
  }

  class LogFollower {
    const options: LogOptions
    const target: Text
    const targetOf: Text -> Option<Text>
    var offset: nat
    var partial: Text
    var decoder: Decoder
    var inScriptEntry: bool
    var printed: seq<Text>
    /** Every line delivered so far. */
    ghost var delivered: seq<Text>

    function State(): Tail
      reads this
    {
      Tail(offset, partial, decoder)
    }

    /** What is printed is the filter over all that was delivered. */
    ghost predicate Valid()
      reads this
    {
      && printed == Shown(false, delivered, options, target, targetOf)
      && inScriptEntry == (options.scriptOnly && KeptAfter(false, delivered, target, targetOf))
    }

    constructor (size: nat, options: LogOptions, target: Text, targetOf: Text -> Option<Text>)
      ensures Valid() && State() == Tail(size, [], NEW_DECODER) && delivered == []
      ensures this.options == options && this.target == target && this.targetOf == targetOf
    {
      this.options, this.target, this.targetOf := options, target, targetOf;
      offset, partial, decoder := size, [], NEW_DECODER;
      inScriptEntry, printed, delivered := false, [], [];
    }

    method OnLine(line: Text)
      requires Valid()
      modifies `inScriptEntry, `printed, `delivered
      ensures Valid() && delivered == old(delivered) + [line]
      ensures IsShown(printed, delivered, options, target, targetOf)
    {
      ShownPositions(delivered + [line], options, target, targetOf);
      hide IsShown;
      ghost var before := KeptAfter(false, delivered, target, targetOf);
      ShownAppend(false, delivered, [line], options, target, targetOf);
      FilterAppend(false, delivered, [line], target, targetOf);
      ShownOne(before, line, options, target, targetOf);
      delivered := delivered + [line];
      var show := true;
      if options.scriptOnly {
        var parsed := targetOf(line);
        if parsed.Some? { inScriptEntry := parsed.value == target; }
        show := inScriptEntry;
      }
      if show && options.pattern.Some? && options.pattern.value != [] && !Contains(line, options.pattern.value) {
        show := false;
      }
      if show { printed := printed + [line]; }
    }

    method OnChange(tick: Tick)
      requires Valid()
      modifies this
      ensures Valid()
      ensures State() == Ticked(old(State()), tick).0
      ensures delivered == old(delivered) + Ticked(old(State()), tick).1
    {
      hide Shown, KeptAfter, Decode, Complete, Unfinished, NonEmpty;
      if tick.curr.size < tick.prev.size || tick.curr.size < offset || tick.curr.ino != tick.prev.ino {
        offset, partial, decoder := 0, [], NEW_DECODER;
      }
      if tick.curr.size == offset { return; }
      if tick.chunk.None? { return; }
      var chunk := tick.chunk.value;
      offset := offset + |chunk|;
      var decoded := Decode(decoder, chunk);
      var text := partial + decoded.text;
      decoder := decoded.decoder;
      partial := Unfinished(text);
      Deliver(Complete(text));
    }

    method Deliver(lines: seq<Text>)
      requires Valid()
      modifies `inScriptEntry, `printed, `delivered
      ensures Valid() && delivered == old(delivered) + NonEmpty(lines)
    {
      hide Shown, KeptAfter;
      var i := 0;
      while i < |lines|
        invariant 0 <= i <= |lines| && Valid()
        invariant old(delivered) + NonEmpty(lines) == delivered + NonEmpty(lines[i..])
      {
        assert lines[i..][1..] == lines[i + 1..];
        if |lines[i]| > 0 { OnLine(lines[i]); }
        i := i + 1;
      }
      assert NonEmpty(lines[i..]) == [];
    }
  }

  /**
   A whole `logs -f`: one follower, started at the size the file then had, and
   its notifications in order. What it has printed is the filter over all lines
   delivered; over a file that only grows, it is what a batch run over the bytes
   consumed prints.
   */
  method Follow(ghost file: seq<byte>, start: nat, ticks: seq<Tick>, options: LogOptions,
                target: Text, targetOf: Text -> Option<Text>)
    returns (printed: seq<Text>, offset: nat)
    ensures offset == Delivered(Tail(start, [], NEW_DECODER), ticks).0.offset
    ensures printed == Shown(false, Delivered(Tail(start, [], NEW_DECODER), ticks).1, options, target, targetOf)
    ensures IsShown(printed, Delivered(Tail(start, [], NEW_DECODER), ticks).1, options, target, targetOf)
    ensures start <= |file| && Appending(file, Tail(start, [], NEW_DECODER), ticks) ==>
              && start <= offset <= |file|
              && var batch := BatchLines(file[start..offset]);
                 printed == GrepIfAny(if options.scriptOnly then FilterFrom(false, batch, target, targetOf) else batch, options.pattern)
  {
    hide Ticked, Delivered, BatchLines, KeptAfter, Appending, Shown, IsShown, FilterFrom, GrepIfAny;
    var f := new LogFollower(start, options, target, targetOf);
    ghost var first := f.State();
    var i := 0;
    while i < |ticks|
      invariant 0 <= i <= |ticks| && f.Valid() && f.options == options && f.target == target && f.targetOf == targetOf
      invariant Delivered(first, ticks).0 == Delivered(f.State(), ticks[i..]).0
      invariant Delivered(first, ticks).1 == f.delivered + Delivered(f.State(), ticks[i..]).1
    {
      assert ticks[i..][0] == ticks[i] && ticks[i..][1..] == ticks[i + 1..];
      DeliveredFirst(f.State(), ticks[i..]);
      f.OnChange(ticks[i]);
      i := i + 1;
    }
    DeliveredNone(f.State(), ticks[i..]);
    assert f.delivered == Delivered(first, ticks).1;
    ShownPositions(f.delivered, options, target, targetOf);
    if start <= |file| && Appending(file, first, ticks) {
      FollowRefinesBatch(file, start, ticks);
      ShownFromStart(f.delivered, options, target, targetOf);
    }
    return f.printed, f.offset;
  }
}
