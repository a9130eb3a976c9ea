/**
 What the line edits do to a laid-out file: one `[rpc]` section with a
 non-empty modules array, on one line or on several.
 */
module MigrationLaws {
  import opened Options
  import opened ConfigMigration

  /**
   A longer array: its lines up to the last one with names, that one, and the
   blank lines below it.
   */
  datatype Array =
    | OneLine(lead: string, pieces: seq<Piece>, tail: string)
    | ManyLines(opening: string, init: seq<Line>, last: seq<Piece>, comma: bool, blanks: seq<Line>, closing: string)

  datatype File = File(before: seq<Line>, header: Line, head: seq<Line>, modules: Array, rest: seq<Line>, after: seq<Line>)

  function ArrayLines(a: Array): (r: seq<Line>)
    ensures r != []
  {
    match a
    case OneLine(lead, pieces, tail) => [Modules(lead, pieces, tail)]
    case ManyLines(opening, init, last, comma, blanks, closing) =>
      [ModulesOpen(opening)] + init + [Names(last, comma)] + blanks + [Close(closing)]
  }

  /** Everything above the array, and everything below it. */
  function Above(f: File): seq<Line> {
    f.before + [f.header] + f.head
  }

  function Below(f: File): seq<Line> {
    f.rest + f.after
  }

  function Lines(f: File): seq<Line> {
    Above(f) + ArrayLines(f.modules) + Below(f)
  }

  // ---- layout ----

  predicate Plain(l: Line) {
    l.TcpComment? || (l.Tcp? && !AllBlank(l.value)) || l.Blank? || l.Other?
  }

  predicate InnerLine(l: Line) {
    l.Blank? || (l.Names? && l.names != [] && l.comma)
  }

  predicate ArrayOk(a: Array) {
    match a
    case OneLine(_, pieces, _) => pieces != []
    case ManyLines(_, init, last, _, blanks, _) =>
      && last != []
      && (forall i :: 0 <= i < |init| ==> InnerLine(init[i]))
      && (forall i :: 0 <= i < |blanks| ==> blanks[i].Blank?)
  }

  predicate LaidOut(f: File) {
    && (forall i :: 0 <= i < |f.before| ==> !IsRpcHeader(f.before[i]))
    && IsRpcHeader(f.header)
    && (forall i :: 0 <= i < |f.head| ==> Plain(f.head[i]))
    && (forall i :: 0 <= i < |f.rest| ==> Plain(f.rest[i]))
    && (f.after == [] || f.after[0].Header?)
    && ArrayOk(f.modules)
  }

  // ---- what the file says ----

  function PieceNames(pieces: seq<Piece>): seq<string> {
    if pieces == [] then [] else [pieces[0].name] + PieceNames(pieces[1..])
  }

  function LineNames(lines: seq<Line>): seq<string> {
    if lines == [] then [] else (if lines[0].Names? then PieceNames(lines[0].names) else []) + LineNames(lines[1..])
  }

  function NamesOf(a: Array): seq<string> {
    match a
    case OneLine(_, pieces, _) => PieceNames(pieces)
    case ManyLines(_, init, last, _, _, _) => LineNames(init) + PieceNames(last)
  }

  /** The address of the first active line. */
  function TcpOf(lines: seq<Line>): Option<string> {
    if lines == [] then None else if lines[0].Tcp? then Some(lines[0].value) else TcpOf(lines[1..])
  }

  function RpcOf(f: File): Rpc {
    Rpc(Some(NamesOf(f.modules)), TcpOf(f.head + f.rest))
  }

  // ---- what migrating should make of it ----

  const TERMINAL_PIECE := Piece("  ", TERMINAL, "")

  function Appended(a: Array): Array {
    match a
    case OneLine(lead, pieces, tail) => OneLine(lead, pieces + [Piece(" ", TERMINAL, "")], tail)
    case ManyLines(opening, init, last, _, blanks, closing) =>
      ManyLines(opening, init + [Names(last, true)] + blanks, [TERMINAL_PIECE], true, [], closing)
  }

  function DefaultAt(lines: seq<Line>): (k: nat)
    ensures k <= |lines| && (k < |lines| ==> DefaultTcpComment(lines[k]))
  {
    Seek(lines, DefaultTcpComment, 0, |lines|)
  }

  /** The first default comment made active. */
  function Activated(lines: seq<Line>): Option<seq<Line>> {
    var k := DefaultAt(lines);
    if k < |lines| then Some(lines[k := Uncommented(lines[k])]) else None
  }

  function WithTcp(f: File): File {
    if Activated(f.head).Some? then f.(head := Activated(f.head).value)
    else if Activated(f.rest).Some? then f.(rest := Activated(f.rest).value)
    else f.(rest := [Tcp("", DEFAULT_TCP, "")] + f.rest)
  }

  function Migrated(f: File, version: Option<Version>): File {
    var added := if NeedsTerminal(RpcOf(f), version) then f.(modules := Appended(f.modules)) else f;
    if NeedsTcp(RpcOf(f)) then WithTcp(added) else added
  }

  // ---- where things are ----

  function ArrayAt(f: File): nat {
    |f.before| + 1 + |f.head|
  }

  function EndAt(f: File): nat {
    ArrayAt(f) + |ArrayLines(f.modules)| + |f.rest|
  }

  lemma Places(f: File)
    ensures |Lines(f)| == EndAt(f) + |f.after| && ArrayAt(f) < EndAt(f)
    ensures forall i :: 0 <= i < |f.before| ==> Lines(f)[i] == f.before[i]
    ensures Lines(f)[|f.before|] == f.header
    ensures forall i :: 0 <= i < |f.head| ==> Lines(f)[|f.before| + 1 + i] == f.head[i]
    ensures forall i :: 0 <= i < |ArrayLines(f.modules)| ==> Lines(f)[ArrayAt(f) + i] == ArrayLines(f.modules)[i]
    ensures forall i :: 0 <= i < |f.rest| ==> Lines(f)[ArrayAt(f) + |ArrayLines(f.modules)| + i] == f.rest[i]
    ensures forall i :: 0 <= i < |f.after| ==> Lines(f)[EndAt(f) + i] == f.after[i]
  {
    hide ArrayLines;
  }

  lemma ArrayHasNoHeader(a: Array)
    requires ArrayOk(a)
    ensures forall i :: 0 <= i < |ArrayLines(a)| ==> !ArrayLines(a)[i].Header?
    ensures IsModules(ArrayLines(a)[0])
    ensures forall i :: 0 <= i < |ArrayLines(a)| ==> !ArrayLines(a)[i].TcpComment?
  {
  }

  lemma SectionFound(f: File)
    requires LaidOut(f)
    ensures RpcStart(Lines(f)) == |f.before| && |f.before| < |Lines(f)|
    ensures SectionEnd(Lines(f), |f.before|) == EndAt(f)
  {
    var lines := Lines(f);
    Places(f);
    ArrayHasNoHeader(f.modules);
    hide Lines, ArrayLines;
    forall j | |f.before| + 1 <= j < EndAt(f) ensures !IsHeader(lines[j]) {
      if j < ArrayAt(f) {
        assert lines[j] == f.head[j - |f.before| - 1];
      } else if j < ArrayAt(f) + |ArrayLines(f.modules)| {
        assert lines[j] == ArrayLines(f.modules)[j - ArrayAt(f)];
      } else {
        assert lines[j] == f.rest[j - ArrayAt(f) - |ArrayLines(f.modules)|];
      }
    }
    if f.after != [] { assert lines[EndAt(f)] == f.after[0]; }
  }

  lemma ArrayFound(f: File)
    requires LaidOut(f)
    ensures EndAt(f) <= |Lines(f)|
    ensures Seek(Lines(f), IsModules, |f.before| + 1, EndAt(f)) == ArrayAt(f)
  {
    var lines := Lines(f);
    Places(f);
    ArrayHasNoHeader(f.modules);
    hide Lines, ArrayLines;
    forall j | |f.before| + 1 <= j < ArrayAt(f) ensures !IsModules(lines[j]) {
      assert lines[j] == f.head[j - |f.before| - 1];
    }
    assert lines[ArrayAt(f)] == ArrayLines(f.modules)[0];
  }

  lemma InnerDoesNotClose(a: Array, i: nat)
    requires ArrayOk(a) && a.ManyLines? && i < |ArrayLines(a)| - 1
    ensures !Closes(ArrayLines(a)[i])
  {
  }

  lemma ClosingFound(f: File, from: nat)
    requires LaidOut(f) && f.modules.ManyLines? && ArrayAt(f) <= from < ArrayAt(f) + |ArrayLines(f.modules)|
    ensures EndAt(f) <= |Lines(f)|
    ensures Seek(Lines(f), Closes, from, EndAt(f)) == ArrayAt(f) + |ArrayLines(f.modules)| - 1
  {
    var lines := Lines(f);
    var n := |ArrayLines(f.modules)| - 1;
    Places(f);
    assert ArrayLines(f.modules)[n] == Close(f.modules.closing);
    hide Lines, ArrayLines, LaidOut;
    forall j | from <= j < ArrayAt(f) + n ensures !Closes(lines[j]) {
      assert lines[j] == ArrayLines(f.modules)[j - ArrayAt(f)];
      InnerOfLaidOut(f, j - ArrayAt(f));
    }
    assert lines[ArrayAt(f) + n] == ArrayLines(f.modules)[n];
  }

  lemma InnerOfLaidOut(f: File, i: nat)
    requires LaidOut(f) && f.modules.ManyLines? && i < |ArrayLines(f.modules)| - 1
    ensures !Closes(ArrayLines(f.modules)[i])
  {
    InnerDoesNotClose(f.modules, i);
  }

  // ---- adding the module ----

  lemma {:induction false} LastFullIs(lines: seq<Line>, from: nat, end: nat, k: nat)
    requires from < k < end <= |lines| && !lines[k].Blank?
    requires forall j :: k < j < end ==> lines[j].Blank?
    ensures LastFull(lines, from, end) == k
    decreases end
  {
    if end - 1 > k { LastFullIs(lines, from, end - 1, k); }
  }

  lemma UpdateBetween(u: seq<Line>, x: Line, v: seq<Line>, y: Line)
    ensures (u + [x] + v)[|u|] == x && (u + [x] + v)[|u| := y] == u + [y] + v
  {
  }

  /** The lines above and with the last line of names, and those below it. */
  lemma ManyLinesCut(above: seq<Line>, a: Array, below: seq<Line>)
    requires a.ManyLines?
    ensures above + ArrayLines(a) + below ==
            (above + [ModulesOpen(a.opening)] + a.init) + [Names(a.last, a.comma)] + (a.blanks + ([Close(a.closing)] + below))
    ensures |above| + |ArrayLines(a)| - 1 == |above| + 2 + |a.init| + |a.blanks|
  {
  }

  lemma ManyLinesExtended(above: seq<Line>, a: Array, below: seq<Line>)
    requires a.ManyLines?
    ensures above + ArrayLines(Appended(a)) + below ==
            ((above + [ModulesOpen(a.opening)] + a.init) + [Names(a.last, true)] + a.blanks)
            + [TERMINAL_LINE] + ([Close(a.closing)] + below)
  {
    ManyLinesCut(above, Appended(a), below);
  }

  lemma LastNames(above: seq<Line>, a: Array, below: seq<Line>)
    requires a.ManyLines? && ArrayOk(a)
    ensures LastFull(above + ArrayLines(a) + below, |above|, |above| + |ArrayLines(a)| - 1) == |above| + 1 + |a.init|
    ensures (above + ArrayLines(a) + below)[|above| + 1 + |a.init|] == Names(a.last, a.comma)
  {
    ManyLinesCut(above, a, below);
    var upper := above + [ModulesOpen(a.opening)] + a.init;
    var lower := a.blanks + ([Close(a.closing)] + below);
    var lines := above + ArrayLines(a) + below;
    var k := |above| + 1 + |a.init|;
    var close := |above| + |ArrayLines(a)| - 1;
    hide ArrayLines, LastFull;
    UpdateBetween(upper, Names(a.last, a.comma), lower, Names(a.last, a.comma));
    forall j | k < j < close ensures lines[j].Blank? {
      assert lines[j] == lower[j - k - 1] == a.blanks[j - k - 1];
    }
    LastFullIs(lines, |above|, close, k);
  }

  function Fixed(lines: seq<Line>, k: nat): seq<Line>
    requires k < |lines|
  {
    if !EndsWithComma(lines[k]) then lines[k := WithComma(lines[k])] else lines
  }

  lemma FixedLast(upper: seq<Line>, names: seq<Piece>, comma: bool, lower: seq<Line>)
    ensures Fixed(upper + [Names(names, comma)] + lower, |upper|) == upper + [Names(names, true)] + lower
  {
    UpdateBetween(upper, Names(names, comma), lower, Names(names, true));
  }

  lemma InsertDeeper(u: seq<Line>, blanks: seq<Line>, tail: seq<Line>, x: Line)
    ensures InsertedAt(u + (blanks + tail), |u| + |blanks|, x) == (u + blanks) + [x] + tail
  {
    assert u + (blanks + tail) == (u + blanks) + tail;
  }

  lemma EditLast(lines: seq<Line>, edited: seq<Line>, u: seq<Line>, blanks: seq<Line>, tail: seq<Line>,
                 names: seq<Piece>, comma: bool, k: nat, close: nat)
    requires lines == u + [Names(names, comma)] + (blanks + tail) && k == |u| && close == |u| + 1 + |blanks|
    requires edited == ((u + [Names(names, true)]) + blanks) + [TERMINAL_LINE] + tail
    ensures k < |lines| && close <= |lines|
    ensures InsertedAt(Fixed(lines, k), close, TERMINAL_LINE) == edited
  {
    hide *;
    var fixed := u + [Names(names, true)];
    FixedLast(u, names, comma, blanks + tail);
    InsertDeeper(fixed, blanks, tail, TERMINAL_LINE);
    assert |fixed| == |u| + 1;
  }

  /** The longer form: a comma after the last name if it had none, and the new line before the bracket. */
  lemma ManyLinesAppended(f: File)
    requires f.modules.ManyLines?
    ensures var k := ArrayAt(f) + 1 + |f.modules.init|;
            var close := ArrayAt(f) + |ArrayLines(f.modules)| - 1;
            && k < |Lines(f)| && close <= |Lines(f)|
            && InsertedAt(Fixed(Lines(f), k), close, TERMINAL_LINE) == Lines(f.(modules := Appended(f.modules)))
  {
    var a := f.modules;
    var g := f.(modules := Appended(a));
    assert |Above(f)| == ArrayAt(f);
    assert Lines(g) == Above(f) + ArrayLines(Appended(a)) + Below(f);
    ManyLinesCut(Above(f), a, Below(f));
    ManyLinesExtended(Above(f), a, Below(f));
    var k := ArrayAt(f) + 1 + |a.init|;
    var close := ArrayAt(f) + |ArrayLines(a)| - 1;
    assert close == k + 1 + |a.blanks|;
    var u := Above(f) + [ModulesOpen(a.opening)] + a.init;
    assert |u| == k;
    hide Fixed, InsertedAt, ArrayLines, Appended, ArrayAt, Above, Below;
    EditLast(Lines(f), Lines(g), u, a.blanks, [Close(a.closing)] + Below(f), a.last, a.comma, k, close);
  }

  lemma AddedToOneLine(f: File)
    requires LaidOut(f) && f.modules.OneLine?
    ensures |f.before| < EndAt(f) <= |Lines(f)|
    ensures AddTerminal(Lines(f), |f.before|, EndAt(f)) == Some(Lines(f.(modules := Appended(f.modules))))
  {
    Places(f);
    ArrayFound(f);
    assert |Above(f)| == ArrayAt(f);
    var l := Modules(f.modules.lead, f.modules.pieces, f.modules.tail);
    UpdateBetween(Above(f), l, Below(f), WithTerminal(l));
  }

  lemma AddByEdit(lines: seq<Line>, start: nat, end: nat, m: nat, close: nat, last: nat)
    requires start < end <= |lines| && Seek(lines, IsModules, start + 1, end) == m < end && lines[m].ModulesOpen?
    requires m + 1 <= end && Seek(lines, Closes, m + 1, end) == close && m + 1 < close < end
    requires LastFull(lines, m, close) == last > m
    ensures AddTerminal(lines, start, end) == Some(InsertedAt(Fixed(lines, last), close, TERMINAL_LINE))
  {
  }

  lemma LastNamesOf(f: File)
    requires LaidOut(f) && f.modules.ManyLines?
    ensures ArrayAt(f) + |ArrayLines(f.modules)| - 1 <= |Lines(f)| && |ArrayLines(f.modules)| >= 3
    ensures LastFull(Lines(f), ArrayAt(f), ArrayAt(f) + |ArrayLines(f.modules)| - 1) == ArrayAt(f) + 1 + |f.modules.init|
  {
    ArrayFoundOpen(f);
    LastNames(Above(f), f.modules, Below(f));
  }

  /** Adding the module to the file is appending it to the array. */
  lemma AddedTo(f: File)
    requires LaidOut(f)
    ensures |f.before| < EndAt(f) <= |Lines(f)|
    ensures AddTerminal(Lines(f), |f.before|, EndAt(f)) == Some(Lines(f.(modules := Appended(f.modules))))
  {
    hide *;
    if f.modules.OneLine? {
      AddedToOneLine(f);
    } else {
      ArrayFoundOpen(f);
      ClosingFound(f, ArrayAt(f) + 1);
      LastNamesOf(f);
      ManyLinesAppended(f);
      AddByEdit(Lines(f), |f.before|, EndAt(f), ArrayAt(f),
                ArrayAt(f) + |ArrayLines(f.modules)| - 1, ArrayAt(f) + 1 + |f.modules.init|);
    }
  }

  lemma ArrayFoundOpen(f: File)
    requires LaidOut(f) && f.modules.ManyLines?
    ensures |Above(f)| == ArrayAt(f) < EndAt(f) <= |Lines(f)|
    ensures |f.before| < ArrayAt(f) && ArrayAt(f) + |ArrayLines(f.modules)| <= EndAt(f) && |ArrayLines(f.modules)| >= 3
    ensures Seek(Lines(f), IsModules, |f.before| + 1, EndAt(f)) == ArrayAt(f)
    ensures Lines(f)[ArrayAt(f)].ModulesOpen?
    ensures ArrayOk(f.modules) && Lines(f) == Above(f) + ArrayLines(f.modules) + Below(f)
  {
    Places(f);
    ArrayFound(f);
    assert Lines(f)[ArrayAt(f) + 0] == ArrayLines(f.modules)[0] == ModulesOpen(f.modules.opening);
  }

  // ---- enabling the address ----

  lemma NoCommentInArray(a: Array, i: nat)
    requires ArrayOk(a) && i < |ArrayLines(a)|
    ensures !DefaultTcpComment(ArrayLines(a)[i])
  {
  }

  function CommentAt(f: File): nat {
    if DefaultAt(f.head) < |f.head| then |f.before| + 1 + DefaultAt(f.head)
    else if DefaultAt(f.rest) < |f.rest| then ArrayAt(f) + |ArrayLines(f.modules)| + DefaultAt(f.rest)
    else EndAt(f)
  }

  lemma CommentFound(f: File)
    requires LaidOut(f)
    ensures |f.before| + 1 <= EndAt(f) <= |Lines(f)|
    ensures Seek(Lines(f), DefaultTcpComment, |f.before| + 1, EndAt(f)) == CommentAt(f)
  {
    var lines := Lines(f);
    Places(f);
    hide Lines, ArrayLines, DefaultTcpComment;
    forall j | |f.before| + 1 <= j < CommentAt(f) ensures !DefaultTcpComment(lines[j]) {
      if j < ArrayAt(f) {
        assert lines[j] == f.head[j - |f.before| - 1];
      } else if j < ArrayAt(f) + |ArrayLines(f.modules)| {
        assert lines[j] == ArrayLines(f.modules)[j - ArrayAt(f)];
        NoCommentInArray(f.modules, j - ArrayAt(f));
      } else {
        assert lines[j] == f.rest[j - ArrayAt(f) - |ArrayLines(f.modules)|];
      }
    }
    if DefaultAt(f.head) < |f.head| {
      assert lines[CommentAt(f)] == f.head[DefaultAt(f.head)];
    } else if DefaultAt(f.rest) < |f.rest| {
      assert lines[CommentAt(f)] == f.rest[DefaultAt(f.rest)];
    }
  }

  lemma UpdateHead(f: File, k: nat, x: Line)
    requires k < |f.head|
    ensures |f.before| + 1 + k < |Lines(f)|
    ensures Lines(f)[|f.before| + 1 + k := x] == Lines(f.(head := f.head[k := x]))
  {
    hide ArrayLines;
    assert Lines(f) == f.before + [f.header] + f.head + (ArrayLines(f.modules) + Below(f));
    var g := f.(head := f.head[k := x]);
    assert Lines(g) == f.before + [f.header] + f.head[k := x] + (ArrayLines(f.modules) + Below(f));
  }

  lemma UpdateRest(f: File, k: nat, x: Line)
    requires k < |f.rest|
    ensures ArrayAt(f) + |ArrayLines(f.modules)| + k < |Lines(f)|
    ensures Lines(f)[ArrayAt(f) + |ArrayLines(f.modules)| + k := x] == Lines(f.(rest := f.rest[k := x]))
  {
    var upper := Above(f) + ArrayLines(f.modules);
    assert |upper| == ArrayAt(f) + |ArrayLines(f.modules)|;
    hide ArrayLines, Above;
    assert Lines(f) == upper + (f.rest + f.after);
    assert Lines(f.(rest := f.rest[k := x])) == upper + (f.rest[k := x] + f.after);
  }

  lemma InsertBelowArray(f: File, x: Line)
    ensures ArrayAt(f) + |ArrayLines(f.modules)| <= |Lines(f)|
    ensures InsertedAt(Lines(f), ArrayAt(f) + |ArrayLines(f.modules)|, x) == Lines(f.(rest := [x] + f.rest))
  {
    var upper := Above(f) + ArrayLines(f.modules);
    assert |upper| == ArrayAt(f) + |ArrayLines(f.modules)|;
    hide ArrayLines, Above;
    assert upper + [x] + Below(f) == upper + (([x] + f.rest) + f.after);
  }

  lemma PlaceFound(f: File)
    requires LaidOut(f)
    ensures |f.before| < EndAt(f) <= |Lines(f)|
    ensures TcpPlace(Lines(f), |f.before|, EndAt(f)) == ArrayAt(f) + |ArrayLines(f.modules)|
  {
    Places(f);
    ArrayFound(f);
    if f.modules.OneLine? {
      assert Lines(f)[ArrayAt(f) + 0] == ArrayLines(f.modules)[0];
    } else {
      ClosingFound(f, ArrayAt(f));
    }
  }

  lemma UncommentAt(lines: seq<Line>, start: nat, end: nat, c: nat)
    requires start < end <= |lines| && Seek(lines, DefaultTcpComment, start + 1, end) == c < end
    ensures DefaultTcpComment(lines[c])
    ensures EnableTcp(lines, start, end) == lines[c := Uncommented(lines[c])]
  {
  }

  lemma CommentInHead(f: File)
    requires LaidOut(f) && DefaultAt(f.head) < |f.head|
    ensures |f.before| + 1 + DefaultAt(f.head) < EndAt(f) <= |Lines(f)|
    ensures Seek(Lines(f), DefaultTcpComment, |f.before| + 1, EndAt(f)) == |f.before| + 1 + DefaultAt(f.head)
    ensures Lines(f)[|f.before| + 1 + DefaultAt(f.head)] == f.head[DefaultAt(f.head)]
  {
    CommentFound(f);
    Places(f);
  }

  lemma CommentInRest(f: File)
    requires LaidOut(f) && DefaultAt(f.head) == |f.head| && DefaultAt(f.rest) < |f.rest|
    ensures |f.before| < ArrayAt(f) + |ArrayLines(f.modules)| + DefaultAt(f.rest) < EndAt(f) <= |Lines(f)|
    ensures Seek(Lines(f), DefaultTcpComment, |f.before| + 1, EndAt(f)) == ArrayAt(f) + |ArrayLines(f.modules)| + DefaultAt(f.rest)
    ensures Lines(f)[ArrayAt(f) + |ArrayLines(f.modules)| + DefaultAt(f.rest)] == f.rest[DefaultAt(f.rest)]
  {
    CommentFound(f);
    Places(f);
  }

  lemma WithTcpCases(f: File)
    ensures DefaultAt(f.head) < |f.head| ==>
              WithTcp(f) == f.(head := f.head[DefaultAt(f.head) := Uncommented(f.head[DefaultAt(f.head)])])
    ensures DefaultAt(f.head) == |f.head| && DefaultAt(f.rest) < |f.rest| ==>
              WithTcp(f) == f.(rest := f.rest[DefaultAt(f.rest) := Uncommented(f.rest[DefaultAt(f.rest)])])
  {
  }

  lemma EnabledInHead(f: File)
    requires LaidOut(f) && DefaultAt(f.head) < |f.head|
    ensures |f.before| < EndAt(f) <= |Lines(f)|
    ensures EnableTcp(Lines(f), |f.before|, EndAt(f)) == Lines(WithTcp(f))
  {
    hide *;
    var k := DefaultAt(f.head);
    CommentInHead(f);
    WithTcpCases(f);
    UncommentAt(Lines(f), |f.before|, EndAt(f), |f.before| + 1 + k);
    UpdateHead(f, k, Uncommented(f.head[k]));
  }

  lemma EnabledInRest(f: File)
    requires LaidOut(f) && DefaultAt(f.head) == |f.head| && DefaultAt(f.rest) < |f.rest|
    ensures |f.before| < EndAt(f) <= |Lines(f)|
    ensures EnableTcp(Lines(f), |f.before|, EndAt(f)) == Lines(WithTcp(f))
  {
    hide *;
    var k := DefaultAt(f.rest);
    CommentInRest(f);
    WithTcpCases(f);
    UncommentAt(Lines(f), |f.before|, EndAt(f), ArrayAt(f) + |ArrayLines(f.modules)| + k);
    UpdateRest(f, k, Uncommented(f.rest[k]));
  }

  lemma EnabledAnew(f: File)
    requires LaidOut(f) && DefaultAt(f.head) == |f.head| && DefaultAt(f.rest) == |f.rest|
    ensures |f.before| < EndAt(f) <= |Lines(f)|
    ensures EnableTcp(Lines(f), |f.before|, EndAt(f)) == Lines(WithTcp(f))
  {
    CommentFound(f);
    PlaceFound(f);
    hide Seek, EnableTcp, Lines, LaidOut, DefaultTcpComment, ArrayLines, TcpPlace, InsertedAt;
    InsertBelowArray(f, Tcp("", DEFAULT_TCP, ""));
  }

  /** Enabling the address changes the head or the rest of the section and nothing else. */
  lemma TcpEnabled(f: File)
    requires LaidOut(f)
    ensures |f.before| < EndAt(f) <= |Lines(f)|
    ensures EnableTcp(Lines(f), |f.before|, EndAt(f)) == Lines(WithTcp(f))
  {
    hide *;
    if DefaultAt(f.head) < |f.head| {
      EnabledInHead(f);
    } else if DefaultAt(f.rest) < |f.rest| {
      EnabledInRest(f);
    } else {
      EnabledAnew(f);
    }
  }

  // ---- the migration ----

  lemma AppendedOk(a: Array)
    requires ArrayOk(a)
    ensures ArrayOk(Appended(a))
  {
  }

  lemma TcpKeepsLayout(f: File)
    requires LaidOut(f)
    ensures LaidOut(WithTcp(f))
  {
    assert !AllBlank(DEFAULT_TCP) by { assert DEFAULT_TCP[0] == '1'; }
  }

  /** On a laid-out file the migration makes the intended file, and leaves alone what needs nothing. */
  lemma MigrateIsIntended(f: File, version: Option<Version>)
    requires LaidOut(f)
    ensures Migrate(Lines(f), Some(RpcOf(f)), version) ==
            if NeedsTerminal(RpcOf(f), version) || NeedsTcp(RpcOf(f)) then Some(Lines(Migrated(f, version))) else None
    ensures LaidOut(Migrated(f, version))
  {
    hide NeedsTerminal, NeedsTcp, RpcOf, AddTerminal, EnableTcp, Lines, SectionEnd, RpcStart, WithTcp, Appended;
    SectionFound(f);
    AddedTo(f);
    AppendedOk(f.modules);
    var added := f.(modules := Appended(f.modules));
    SectionFound(added);
    TcpEnabled(f);
    TcpEnabled(added);
    TcpKeepsLayout(f);
    TcpKeepsLayout(added);
  }

  lemma {:induction false} PieceNamesAppend(a: seq<Piece>, b: seq<Piece>)
    ensures PieceNames(a + b) == PieceNames(a) + PieceNames(b)
  {
    if a == [] {
      assert a + b == b;
    } else {
      assert (a + b)[1..] == a[1..] + b;
      PieceNamesAppend(a[1..], b);
    }
  }

  lemma {:induction false} LineNamesAppend(a: seq<Line>, b: seq<Line>)
    ensures LineNames(a + b) == LineNames(a) + LineNames(b)
  {
    if a == [] {
      assert a + b == b;
    } else {
      assert (a + b)[1..] == a[1..] + b;
      LineNamesAppend(a[1..], b);
    }
  }

  lemma {:induction false} BlanksHaveNoNames(lines: seq<Line>)
    requires forall i :: 0 <= i < |lines| ==> lines[i].Blank?
    ensures LineNames(lines) == []
  {
    if lines != [] { BlanksHaveNoNames(lines[1..]); }
  }

  /** The module comes after the old ones, which stay as they were. */
  lemma AppendedNames(a: Array)
    requires ArrayOk(a)
    ensures NamesOf(Appended(a)) == NamesOf(a) + [TERMINAL]
  {
    match a
    case OneLine(_, pieces, _) =>
      PieceNamesAppend(pieces, [Piece(" ", TERMINAL, "")]);
      OnePieceName(Piece(" ", TERMINAL, ""));
    case ManyLines(_, init, last, _, blanks, _) =>
      LineNamesAppend(init + [Names(last, true)], blanks);
      LineNamesAppend(init, [Names(last, true)]);
      BlanksHaveNoNames(blanks);
      OnePieceName(TERMINAL_PIECE);
  }

  lemma OnePieceName(p: Piece)
    ensures PieceNames([p]) == [p.name]
  {
    assert PieceNames([p][1..]) == [];
  }

  // ---- migrating twice ----

  lemma {:induction false} TcpOfAppend(a: seq<Line>, b: seq<Line>)
    ensures TcpOf(a + b) == if TcpOf(a).Some? then TcpOf(a) else TcpOf(b)
  {
    if a == [] {
      assert a + b == b;
    } else {
      assert (a + b)[1..] == a[1..] + b;
      TcpOfAppend(a[1..], b);
    }
  }

  lemma {:induction false} ActiveValue(lines: seq<Line>)
    requires forall i :: 0 <= i < |lines| ==> Plain(lines[i])
    ensures TcpOf(lines).Some? ==> !AllBlank(TcpOf(lines).value)
    ensures (exists i :: 0 <= i < |lines| && lines[i].Tcp?) ==> TcpOf(lines).Some?
  {
    if lines != [] {
      ActiveValue(lines[1..]);
      if i :| 0 <= i < |lines| && lines[i].Tcp? {
        if i > 0 { assert lines[1..][i - 1].Tcp?; }
      }
    }
  }

  /** Where the address was missing, the intended file has an active line for it. */
  lemma TcpActive(f: File)
    requires LaidOut(f)
    ensures !NeedsTcp(RpcOf(WithTcp(f)))
  {
    TcpKeepsLayout(f);
    var g := WithTcp(f);
    var lines := g.head + g.rest;
    hide LaidOut, AllBlank;
    if DefaultAt(f.head) < |f.head| {
      assert lines[DefaultAt(f.head)].Tcp?;
    } else if DefaultAt(f.rest) < |f.rest| {
      assert lines[|g.head| + DefaultAt(f.rest)].Tcp?;
    } else {
      assert lines[|g.head|].Tcp?;
    }
    ActiveValue(lines);
  }

  /** Migrating a migrated file changes nothing. */
  lemma MigrateIdempotent(f: File, version: Option<Version>)
    requires LaidOut(f)
    ensures var g := Migrated(f, version); LaidOut(g) && Migrate(Lines(g), Some(RpcOf(g)), version) == None
  {
    var g := Migrated(f, version);
    MigrateIsIntended(f, version);
    MigrateIsIntended(g, version);
    MigratedNeedsNothing(f, version);
  }

  lemma MigratedNeedsNothing(f: File, version: Option<Version>)
    requires LaidOut(f)
    ensures !NeedsTerminal(RpcOf(Migrated(f, version)), version) && !NeedsTcp(RpcOf(Migrated(f, version)))
  {
    var added := if NeedsTerminal(RpcOf(f), version) then f.(modules := Appended(f.modules)) else f;
    AppendedNames(f.modules);
    AppendedOk(f.modules);
    TcpActive(added);
    var old', new' := NamesOf(f.modules), NamesOf(Appended(f.modules));
    assert new'[|old'|] == TERMINAL;
    hide WithTcp, NamesOf, Appended, LaidOut, AllBlank, TcpOf;
  }

  /** Line `k`, a comment with the default address, loses its comment sign and nothing else. */
  predicate MadeActive(lines: seq<Line>, k: int, active: seq<Line>) {
    && 0 <= k < |lines| && lines[k].TcpComment? && lines[k].value == "127.0.0.1:18114"
    && active == lines[k := Tcp(lines[k].indent, "127.0.0.1:18114", lines[k].rest)]
  }

  lemma CommentActivated(lines: seq<Line>)
    ensures Activated(lines).Some? ==> exists k :: MadeActive(lines, k, Activated(lines).value)
  {
    if Activated(lines).Some? {
      assert MadeActive(lines, DefaultAt(lines), Activated(lines).value);
    }
  }

  /**
   What the migration changes: nothing outside the section; in it the module
   list, which grows by the module at its end or not at all, and one line for
   the address at most.
   */
  lemma MigrationIsLocal(f: File, version: Option<Version>)
    requires LaidOut(f)
    ensures var g := Migrated(f, version);
            && g.before == f.before && g.header == f.header && g.after == f.after
            && NamesOf(g.modules) ==
                 (if SupportsTerminal(version) && TERMINAL !in NamesOf(f.modules)
                  then NamesOf(f.modules) + [TERMINAL]
                  else NamesOf(f.modules))
            && (!(SupportsTerminal(version) && TERMINAL !in NamesOf(f.modules)) ==> g.modules == f.modules)
            && (TcpOf(f.head + f.rest).Some? ==> g.head == f.head && g.rest == f.rest)
            && (TcpOf(f.head + f.rest).None? ==>
                  || (exists k :: MadeActive(f.head, k, g.head) && g.rest == f.rest)
                  || (exists k :: MadeActive(f.rest, k, g.rest) && g.head == f.head)
                  || (g.head == f.head && g.rest == [Tcp("", "127.0.0.1:18114", "")] + f.rest))
  {
    CommentActivated(f.head);
    CommentActivated(f.rest);
    hide Activated, MadeActive;
    AppendedNames(f.modules);
    ActiveValue(f.head + f.rest);
  }

  // ---- removing the module ----

  lemma {:induction false} PieceAtAppend(pieces: seq<Piece>, p: Piece)
    requires p.name !in PieceNames(pieces)
    ensures PieceAt(pieces + [p], p.name) == |pieces|
  {
    if pieces == [] {
    } else {
      assert (pieces + [p])[1..] == pieces[1..] + [p];
      PieceAtAppend(pieces[1..], p);
    }
  }

  /** On one line, removing the module that was added restores the very line. */
  lemma CutRestores(pieces: seq<Piece>)
    requires pieces != [] && TERMINAL !in PieceNames(pieces)
    ensures CutPiece(pieces + [Piece(" ", TERMINAL, "")], TERMINAL) == Some(pieces)
  {
    var p := Piece(" ", TERMINAL, "");
    var all := pieces + [p];
    assert all[1..] == pieces[1..] + [p];
    PieceAtAppend(pieces[1..], p);
    CutLast(pieces, p);
  }

  lemma CutLast(pieces: seq<Piece>, p: Piece)
    requires pieces != [] && p.after == "" && PieceAt((pieces + [p])[1..], p.name) == |pieces| - 1
    ensures CutPiece(pieces + [p], p.name) == Some(pieces)
  {
    var all := pieces + [p];
    var n := |pieces|;
    var prev := pieces[n - 1];
    assert all[n - 1] == prev && all[n] == p;
    assert prev.after + p.after == prev.after;
    assert prev.(after := prev.after + p.after) == prev;
    assert all[..n - 1] == pieces[..n - 1] && all[n + 1..] == [];
    assert pieces[..n - 1] + [prev] + [] == pieces;
  }

  lemma {:induction false} NameInLines(lines: seq<Line>, i: nat, name: string)
    requires i < |lines| && lines[i].Names? && name in PieceNames(lines[i].names)
    ensures name in LineNames(lines)
  {
    if i > 0 { NameInLines(lines[1..], i - 1, name); }
  }

  function InnerAfter(a: Array): seq<Line>
    requires a.ManyLines?
  {
    a.init + [Names(a.last, true)] + a.blanks
  }

  lemma InnerNames(a: Array)
    requires ArrayOk(a) && a.ManyLines?
    ensures LineNames(InnerAfter(a)) == NamesOf(a)
  {
    LineNamesAppend(a.init + [Names(a.last, true)], a.blanks);
    LineNamesAppend(a.init, [Names(a.last, true)]);
    BlanksHaveNoNames(a.blanks);
  }

  lemma NotTheModule(a: Array, i: nat)
    requires ArrayOk(a) && a.ManyLines? && TERMINAL !in NamesOf(a) && i < |InnerAfter(a)|
    ensures !TerminalOrClose(InnerAfter(a)[i])
  {
    InnerNames(a);
    var l := InnerAfter(a)[i];
    if OnlyTerminal(l) {
      OnePieceName(l.names[0]);
      assert l.names == [l.names[0]];
      NameInLines(InnerAfter(a), i, TERMINAL);
    }
  }

  /** What the array is after the module was added and removed again: a longer array may have gained a comma. */
  function Restored(a: Array): Array {
    match a
    case OneLine(_, _, _) => a
    case ManyLines(opening, init, last, _, blanks, closing) => ManyLines(opening, init, last, true, blanks, closing)
  }

  lemma AppendedInner(a: Array)
    requires a.ManyLines?
    ensures |ArrayLines(Appended(a))| == |InnerAfter(a)| + 3
    ensures forall i :: 0 <= i < |InnerAfter(a)| ==> ArrayLines(Appended(a))[1 + i] == InnerAfter(a)[i]
    ensures ArrayLines(Appended(a))[1 + |InnerAfter(a)|] == TERMINAL_LINE
  {
    assert ArrayLines(Appended(a)) == [ModulesOpen(a.opening)] + InnerAfter(a) + [TERMINAL_LINE] + [] + [Close(a.closing)];
  }

  lemma ModuleFound(f: File)
    requires LaidOut(f) && f.modules.ManyLines? && TERMINAL !in NamesOf(f.modules)
    ensures var g := f.(modules := Appended(f.modules)); var k := ArrayAt(f) + 1 + |InnerAfter(f.modules)|;
            && EndAt(g) <= |Lines(g)| && ArrayAt(f) + 1 <= k < EndAt(g)
            && Seek(Lines(g), TerminalOrClose, ArrayAt(f) + 1, EndAt(g)) == k && Lines(g)[k] == TERMINAL_LINE
  {
    hide *;
    var g := f.(modules := Appended(f.modules));
    SamePlace(f);
    ArrayInPlace(g);
    AppendedInner(f.modules);
    var inner := InnerAfter(f.modules);
    forall i | 0 <= i < |inner| ensures !TerminalOrClose(inner[i]) {
      InnerOfFile(f, i);
    }
    SeekModule(Lines(g), ArrayAt(g), ArrayLines(g.modules), inner, EndAt(g));
  }

  lemma SamePlace(f: File)
    ensures ArrayAt(f.(modules := Appended(f.modules))) == ArrayAt(f)
  {
  }

  lemma ArrayInPlace(f: File)
    ensures ArrayAt(f) + |ArrayLines(f.modules)| <= EndAt(f) <= |Lines(f)|
    ensures forall i :: 0 <= i < |ArrayLines(f.modules)| ==> Lines(f)[ArrayAt(f) + i] == ArrayLines(f.modules)[i]
  {
    assert |Above(f)| == ArrayAt(f);
    hide ArrayLines, Above;
  }

  lemma SeekModule(lines: seq<Line>, at: nat, a: seq<Line>, inner: seq<Line>, end: nat)
    requires at + |a| <= end <= |lines| && |a| == |inner| + 3
    requires forall i :: 0 <= i < |a| ==> lines[at + i] == a[i]
    requires forall i :: 0 <= i < |inner| ==> a[1 + i] == inner[i]
    requires forall i :: 0 <= i < |inner| ==> !TerminalOrClose(inner[i])
    requires a[1 + |inner|] == TERMINAL_LINE
    ensures Seek(lines, TerminalOrClose, at + 1, end) == at + 1 + |inner| && lines[at + 1 + |inner|] == TERMINAL_LINE
  {
    ModuleLine();
    hide *;
    forall j | at + 1 <= j < at + 1 + |inner| ensures !TerminalOrClose(lines[j]) {
      var i := j - at - 1;
      assert lines[at + (1 + i)] == a[1 + i] == inner[i];
    }
    assert lines[at + (1 + |inner|)] == a[1 + |inner|];
  }

  lemma ModuleLine()
    ensures TerminalOrClose(TERMINAL_LINE) && OnlyTerminal(TERMINAL_LINE)
  {
  }

  lemma InnerOfFile(f: File, i: nat)
    requires LaidOut(f) && f.modules.ManyLines? && TERMINAL !in NamesOf(f.modules) && i < |InnerAfter(f.modules)|
    ensures !TerminalOrClose(InnerAfter(f.modules)[i])
  {
    NotTheModule(f.modules, i);
  }

  lemma LineRemoved(f: File)
    requires f.modules.ManyLines?
    ensures var g := f.(modules := Appended(f.modules)); var k := ArrayAt(f) + 1 + |InnerAfter(f.modules)|;
            && k < |Lines(g)|
            && Lines(g)[..k] + Lines(g)[k + 1..] == Lines(f.(modules := Restored(f.modules)))
  {
    hide *;
    var o, c, inner := ModulesOpen(f.modules.opening), Close(f.modules.closing), InnerAfter(f.modules);
    UnfoldedLines(f);
  }

  lemma UnfoldedLines(f: File)
    requires f.modules.ManyLines?
    ensures |Above(f)| == ArrayAt(f)
    ensures var o, c, inner := ModulesOpen(f.modules.opening), Close(f.modules.closing), InnerAfter(f.modules);
            && Lines(f.(modules := Appended(f.modules))) == Above(f) + ([o] + inner + [TERMINAL_LINE] + [c]) + Below(f)
            && Lines(f.(modules := Restored(f.modules))) == Above(f) + ([o] + inner + [c]) + Below(f)
  {
    var o, c, inner := ModulesOpen(f.modules.opening), Close(f.modules.closing), InnerAfter(f.modules);
    assert ArrayLines(Appended(f.modules)) == [o] + inner + [TERMINAL_LINE] + [c];
    assert ArrayLines(Restored(f.modules)) == [o] + inner + [c];
  }

  lemma RemoveOneLine(f: File)
    requires LaidOut(f) && f.modules.OneLine? && TERMINAL !in NamesOf(f.modules)
    ensures var g := f.(modules := Appended(f.modules));
            && |g.before| < EndAt(g) <= |Lines(g)|
            && RemoveTerminal(Lines(g), |f.before|, EndAt(g)) == Some(Lines(f))
  {
    var g := f.(modules := Appended(f.modules));
    AppendedOk(f.modules);
    Places(g);
    ArrayFound(g);
    CutRestores(f.modules.pieces);
    var l := Modules(g.modules.lead, g.modules.pieces, g.modules.tail);
    UpdateBetween(Above(g), l, Below(g), Modules(f.modules.lead, f.modules.pieces, f.modules.tail));
  }

  lemma RemoveByLine(lines: seq<Line>, start: nat, end: nat, m: nat, k: nat)
    requires start < end <= |lines| && Seek(lines, IsModules, start + 1, end) == m < end && lines[m].ModulesOpen?
    requires m + 1 <= k < end && Seek(lines, TerminalOrClose, m + 1, end) == k && OnlyTerminal(lines[k])
    ensures RemoveTerminal(lines, start, end) == Some(lines[..k] + lines[k + 1..])
  {
  }

  lemma RemoveManyLines(f: File)
    requires LaidOut(f) && f.modules.ManyLines? && TERMINAL !in NamesOf(f.modules)
    ensures var g := f.(modules := Appended(f.modules));
            && |g.before| < EndAt(g) <= |Lines(g)|
            && RemoveTerminal(Lines(g), |f.before|, EndAt(g)) == Some(Lines(f.(modules := Restored(f.modules))))
  {
    hide *;
    var g := f.(modules := Appended(f.modules));
    SameShape(f);
    ArrayFoundOpen(g);
    ModuleFound(f);
    ModuleLine();
    LineRemoved(f);
    RemoveByLine(Lines(g), |f.before|, EndAt(g), ArrayAt(f), ArrayAt(f) + 1 + |InnerAfter(f.modules)|);
  }

  /** Removing the module that was added restores the module list, and on one line the very line. */
  lemma RemoveUndoesAdd(f: File)
    requires LaidOut(f) && TERMINAL !in NamesOf(f.modules)
    ensures var g := f.(modules := Appended(f.modules));
            && |g.before| < EndAt(g) <= |Lines(g)|
            && AddTerminal(Lines(f), |f.before|, EndAt(f)) == Some(Lines(g))
            && RemoveTerminal(Lines(g), |f.before|, EndAt(g)) == Some(Lines(f.(modules := Restored(f.modules))))
    ensures NamesOf(Restored(f.modules)) == NamesOf(f.modules)
    ensures f.modules.OneLine? ==> Restored(f.modules) == f.modules
  {
    AddedTo(f);
    hide *;
    if f.modules.OneLine? { RemoveOneLine(f); } else { RemoveManyLines(f); }
  }

  lemma SameShape(f: File)
    requires LaidOut(f) && f.modules.ManyLines?
    ensures var g := f.(modules := Appended(f.modules)); LaidOut(g) && g.modules.ManyLines? && ArrayAt(g) == ArrayAt(f)
  {
    AppendedOk(f.modules);
  }

  // ---- a module cut out of any place ----

  function Quoted(name: string): string {
    "\"" + name + "\""
  }

  function Shown(p: Piece): string {
    p.before + Quoted(p.name) + p.after
  }

  /** The text between the brackets of a single-line array. */
  function TextOf(pieces: seq<Piece>): string
    decreases |pieces|, 0
  {
    if pieces == [] then "" else Shown(pieces[0]) + Following(pieces[1..])
  }

  function Following(pieces: seq<Piece>): string
    decreases |pieces|, 1
  {
    if pieces == [] then "" else "," + TextOf(pieces)
  }

  lemma {:induction false} TextJoin(a: seq<Piece>, b: seq<Piece>)
    requires a != []
    ensures TextOf(a + b) == TextOf(a) + Following(b)
  {
    TextCons(a);
    TextCons(a + b);
    if |a| == 1 {
      assert (a + b)[1..] == b;
      TextOne(a[0]);
      assert a == [a[0]];
    } else {
      TextJoin(a[1..], b);
      assert (a + b)[1..] == a[1..] + b;
      FollowingCons(a[1..]);
      FollowingCons(a[1..] + b);
      hide TextOf, Following, Shown;
    }
  }

  lemma TextCons(pieces: seq<Piece>)
    requires pieces != []
    ensures TextOf(pieces) == Shown(pieces[0]) + Following(pieces[1..])
  {
    hide Shown;
  }

  lemma FollowingCons(pieces: seq<Piece>)
    requires pieces != []
    ensures Following(pieces) == "," + TextOf(pieces)
  {
    hide TextOf;
  }

  lemma TextOne(p: Piece)
    ensures TextOf([p]) == Shown(p)
  {
  }

  lemma TextExtended(a: seq<Piece>, p: Piece, more: string)
    ensures TextOf(a + [p.(after := p.after + more)]) == TextOf(a + [p]) + more
  {
    hide TextOf;
    var q := p.(after := p.after + more);
    assert Shown(q) == Shown(p) + more;
    TextOne(p);
    TextOne(q);
    if a == [] {
      assert a + [q] == [q] && a + [p] == [p];
    } else {
      TextJoin(a, [p]);
      TextJoin(a, [q]);
    }
  }

  /** The occurrence that a removal takes: the first that has a comma before it, else the array's first name. */
  predicate CutAt(pieces: seq<Piece>, name: string, i: nat) {
    && i < |pieces| && pieces[i].name == name
    && forall j :: 1 <= j < (if i == 0 then |pieces| else i) ==> pieces[j].name != name
  }

  /** The text that goes with the name: the comma and blanks before it, or with the first name the blanks and comma after it. */
  predicate CutText(pieces: seq<Piece>, i: nat, left: string, cut: string, right: string)
    requires i < |pieces|
  {
    var p := pieces[i];
    if i > 0 then
      left == TextOf(pieces[..i]) && cut == "," + p.before + Quoted(p.name) && right == p.after + Following(pieces[i + 1..])
    else if |pieces| > 1 then
      && left == p.before && cut == Quoted(p.name) + p.after + "," + pieces[1].before
      && right == Quoted(pieces[1].name) + pieces[1].after + Following(pieces[2..])
    else
      left == "" && cut == TextOf(pieces) && right == ""
  }

  function WithoutMiddle(pieces: seq<Piece>, i: nat): seq<Piece>
    requires 0 < i < |pieces|
  {
    pieces[..i - 1] + [pieces[i - 1].(after := pieces[i - 1].after + pieces[i].after)] + pieces[i + 1..]
  }

  function WithoutFirst(pieces: seq<Piece>): seq<Piece>
    requires pieces != []
  {
    if |pieces| == 1 then [] else [pieces[1].(before := pieces[0].before)] + pieces[2..]
  }

  lemma CutIndex(pieces: seq<Piece>, name: string) returns (i: nat)
    ensures CutPiece(pieces, name).Some? <==> CutAt(pieces, name, i)
    ensures CutPiece(pieces, name).None? ==> forall p :: p in pieces ==> p.name != name
    ensures CutPiece(pieces, name).Some? && i > 0 ==>
              CutPiece(pieces, name).value == WithoutMiddle(pieces, i)
    ensures CutPiece(pieces, name).Some? && i == 0 ==>
              CutPiece(pieces, name).value == WithoutFirst(pieces)
  {
    i := 0;
    if pieces != [] {
      var k := PieceAt(pieces[1..], name);
      assert forall j :: 1 <= j < 1 + k ==> pieces[j] == pieces[1..][j - 1];
      if k < |pieces[1..]| { i := k + 1; }
    }
  }

  /**
   A removal finds the name exactly when it is listed, takes one occurrence and
   leaves the other names in their order, and cuts one stretch out of the text.
   */
  lemma CutExactly(pieces: seq<Piece>, name: string) returns (i: nat, left: string, cut: string, right: string)
    ensures CutPiece(pieces, name).Some? <==> exists p :: p in pieces && p.name == name
    ensures CutPiece(pieces, name).Some? ==>
              var rest := CutPiece(pieces, name).value;
              && CutAt(pieces, name, i) && NamesWithout(pieces, i, rest)
              && CutText(pieces, i, left, cut, right)
              && TextOf(pieces) == left + cut + right && TextOf(rest) == left + right
  {
    hide CutPiece, TextOf, CutText, WithoutMiddle, WithoutFirst, NamesWithout;
    left, cut, right := "", "", "";
    i := CutIndex(pieces, name);
    var r := CutPiece(pieces, name);
    if r.Some? {
      left, cut, right := CutParts(pieces, name, i, r.value);
      if i > 0 { MiddleNames(pieces, i); } else { FirstNames(pieces); }
      assert pieces[i] in pieces;
    }
  }

  predicate NamesWithout(pieces: seq<Piece>, i: nat, rest: seq<Piece>) {
    |rest| == |pieces| - 1 && forall j :: 0 <= j < |rest| ==> rest[j].name == pieces[if j < i then j else j + 1].name
  }

  lemma MiddleNames(pieces: seq<Piece>, i: nat)
    requires 0 < i < |pieces|
    ensures NamesWithout(pieces, i, WithoutMiddle(pieces, i))
  {
    var rest := WithoutMiddle(pieces, i);
    assert forall j :: 0 <= j < i - 1 ==> rest[j] == pieces[j];
    assert forall j :: i <= j < |rest| ==> rest[j] == pieces[j + 1];
  }

  lemma FirstNames(pieces: seq<Piece>)
    requires pieces != []
    ensures NamesWithout(pieces, 0, WithoutFirst(pieces))
  {
    var rest := WithoutFirst(pieces);
    assert forall j :: 1 <= j < |rest| ==> rest[j] == pieces[j + 1];
  }

  lemma CutParts(pieces: seq<Piece>, name: string, i: nat, rest: seq<Piece>) returns (left: string, cut: string, right: string)
    requires CutAt(pieces, name, i)
    requires rest == if i > 0 then WithoutMiddle(pieces, i) else WithoutFirst(pieces)
    ensures CutText(pieces, i, left, cut, right)
    ensures TextOf(pieces) == left + cut + right && TextOf(rest) == left + right
  {
    if i > 0 {
      left, cut, right := MiddleParts(pieces, i);
    } else if |pieces| > 1 {
      left, cut, right := FirstParts(pieces);
    } else {
      cut, left, right := TextOf(pieces), "", "";
    }
  }

  lemma MiddleParts(pieces: seq<Piece>, i: nat) returns (left: string, cut: string, right: string)
    requires 0 < i < |pieces|
    ensures CutText(pieces, i, left, cut, right)
    ensures TextOf(pieces) == left + cut + right && TextOf(WithoutMiddle(pieces, i)) == left + right
  {
    hide TextOf, Following, Quoted, WithoutMiddle, WithoutFirst;
    var p, rest := pieces[i], Following(pieces[i + 1..]);
    left, cut, right := TextOf(pieces[..i]), "," + p.before + Quoted(p.name), p.after + rest;
    MiddleText(pieces, i);
    CutMiddle(pieces, i);
    RegroupMiddle(left, p.before, Quoted(p.name), p.after, rest);
  }

  lemma FirstParts(pieces: seq<Piece>) returns (left: string, cut: string, right: string)
    requires |pieces| > 1
    ensures CutText(pieces, 0, left, cut, right)
    ensures TextOf(pieces) == left + cut + right && TextOf(WithoutFirst(pieces)) == left + right
  {
    hide TextOf, Following, Quoted, WithoutMiddle, WithoutFirst;
    var p, q, rest := pieces[0], pieces[1], Following(pieces[2..]);
    left, cut, right := p.before, Quoted(p.name) + p.after + "," + q.before, Quoted(q.name) + q.after + rest;
    FirstText(pieces);
    RegroupFirst(p.before, Quoted(p.name), p.after, q.before, Quoted(q.name), q.after, rest);
  }

  lemma RegroupMiddle(left: string, before: string, name: string, after: string, rest: string)
    ensures left + ("," + (before + name + after) + rest) == left + ("," + before + name) + (after + rest)
  {
  }

  lemma RegroupFirst(before: string, name: string, after: string, before': string, name': string, after': string, rest: string)
    ensures before + name + after + ("," + (before' + name' + after') + rest)
         == before + (name + after + "," + before') + (name' + after' + rest)
    ensures before + name' + after' + rest == before + (name' + after' + rest)
  {
  }

  lemma MiddleText(pieces: seq<Piece>, i: nat)
    requires 0 < i < |pieces|
    ensures TextOf(pieces) == TextOf(pieces[..i]) + ("," + Shown(pieces[i]) + Following(pieces[i + 1..]))
  {
    assert pieces == pieces[..i] + pieces[i..] && pieces[i..][1..] == pieces[i + 1..];
    TextJoin(pieces[..i], pieces[i..]);
    FollowingText(pieces[i..]);
  }

  lemma FollowingText(pieces: seq<Piece>)
    requires pieces != []
    ensures Following(pieces) == "," + Shown(pieces[0]) + Following(pieces[1..])
  {
    hide Shown;
  }

  lemma FirstText(pieces: seq<Piece>)
    requires |pieces| > 1
    ensures TextOf(pieces) == Shown(pieces[0]) + ("," + Shown(pieces[1]) + Following(pieces[2..]))
    ensures TextOf(WithoutFirst(pieces)) == Shown(pieces[1].(before := pieces[0].before)) + Following(pieces[2..])
  {
    hide Shown;
    assert pieces[1..][1..] == pieces[2..] && WithoutFirst(pieces)[1..] == pieces[2..];
    FollowingText(pieces[1..]);
  }

  lemma CutMiddle(pieces: seq<Piece>, i: nat)
    requires 0 < i < |pieces|
    ensures TextOf(WithoutMiddle(pieces, i)) == TextOf(pieces[..i]) + (pieces[i].after + Following(pieces[i + 1..]))
  {
    hide TextOf;
    var prev := pieces[i - 1];
    assert pieces[..i] == pieces[..i - 1] + [prev];
    TextExtended(pieces[..i - 1], prev, pieces[i].after);
    TextJoin(pieces[..i - 1] + [prev.(after := prev.after + pieces[i].after)], pieces[i + 1..]);
  }
}
