/**
 The text migration of an existing `ckb.toml`: adding the Terminal RPC module
 and an active TCP address by editing lines, leaving the rest of the file alone.
 */
module ConfigMigration {
  import opened Options

  const TERMINAL := "Terminal"
  const DEFAULT_TCP := "127.0.0.1:18114"

  // ---- versions ----

  datatype Version = Version(major: nat, minor: nat, patch: nat, prerelease: bool)

  /** An unknown version is taken to support the module; so is any prerelease of the first that does. */
  predicate SupportsTerminal(version: Option<Version>) {
    match version
    case None => true
    case Some(v) => v.major > 0 || v.minor >= 205
  }

  /** The order of semantic versions; the prereleases of one release are not told apart. */
  predicate Older(v: Version, w: Version) {
    if v.major != w.major then v.major < w.major
    else if v.minor != w.minor then v.minor < w.minor
    else if v.patch != w.patch then v.patch < w.patch
    else v.prerelease && !w.prerelease
  }

  /** The module is supported from the prereleases of 0.205.0 on, and where the version is not known. */
  lemma SupportedFrom(version: Option<Version>)
    ensures SupportsTerminal(version) <==> version == None || !Older(version.value, Version(0, 205, 0, true))
  {
  }

  // ---- lines ----

  /** One name in an array, with the blanks before and after it. */
  datatype Piece = Piece(before: string, name: string, after: string)

  datatype Line =
    | Header(name: string, text: string)
    // an array of names on one line, `lead` being `modules =` with its blanks
    | Modules(lead: string, pieces: seq<Piece>, tail: string)
    // the opening line, the lines of names and the closing line of a longer array
    | ModulesOpen(text: string)
    | Names(names: seq<Piece>, comma: bool)
    | Close(text: string)
    | TcpComment(indent: string, value: string, rest: string)
    | Tcp(indent: string, value: string, rest: string)
    | Blank(text: string)
    | Other(text: string)

  predicate IsHeader(l: Line) {
    l.Header?
  }

  predicate IsRpcHeader(l: Line) {
    l.Header? && l.name == "rpc"
  }

  predicate IsModules(l: Line) {
    l.Modules? || l.ModulesOpen?
  }

  /** The line has a closing bracket. */
  predicate Closes(l: Line) {
    match l
    case Modules(_, _, _) | Close(_) | Header(_, _) => true
    case Other(text) => ']' in text
    case _ => false
  }

  // ---- searching ----

  /** The first line from `i` on with the property, or `end`. */
  function Seek(lines: seq<Line>, p: Line -> bool, i: nat, end: nat): (k: nat)
    requires i <= end <= |lines|
    ensures i <= k <= end && (k < end ==> p(lines[k]))
    ensures forall j :: i <= j < k ==> !p(lines[j])
    decreases end - i
  {
    if i == end || p(lines[i]) then i else Seek(lines, p, i + 1, end)
  }

  method SeekLine(lines: seq<Line>, p: Line -> bool, from: nat, end: nat) returns (k: nat)
    requires from <= end <= |lines|
    ensures k == Seek(lines, p, from, end)
  {
    k := from;
    while k < end
      invariant from <= k <= end
      invariant Seek(lines, p, from, end) == Seek(lines, p, k, end)
    {
      if p(lines[k]) { return; }
      k := k + 1;
    }
  }

  function RpcStart(lines: seq<Line>): nat {
    Seek(lines, IsRpcHeader, 0, |lines|)
  }

  function SectionEnd(lines: seq<Line>, start: nat): (end: nat)
    requires start < |lines|
    ensures start < end <= |lines|
  {
    Seek(lines, IsHeader, start + 1, |lines|)
  }

  // ---- edits ----

  function InsertedAt(lines: seq<Line>, at: nat, l: Line): seq<Line>
    requires at <= |lines|
  {
    lines[..at] + [l] + lines[at..]
  }

  function WithComma(l: Line): Line {
    match l
    case Names(pieces, _) => Names(pieces, true)
    case Other(text) => Other(text + ",")
    case _ => l
  }

  predicate EndsWithComma(l: Line) {
    match l
    case Names(_, comma) => comma
    case Other(text) => text != "" && text[|text| - 1] == ','
    case _ => false
  }

  /** The last line after `from` and before `end` that is not blank, or `from`. */
  function LastFull(lines: seq<Line>, from: nat, end: nat): (k: nat)
    requires from < end <= |lines|
    ensures from <= k < end
    decreases end
  {
    if end - 1 == from || !lines[end - 1].Blank? then end - 1 else LastFull(lines, from, end - 1)
  }

  function WithTerminal(l: Line): Line
    requires l.Modules?
  {
    Modules(l.lead, l.pieces + [Piece(" ", TERMINAL, "")], l.tail)
  }

  const TERMINAL_LINE := Names([Piece("  ", TERMINAL, "")], true)

  /** The section's lines with the module added, or nothing when no array is found. */
  function AddTerminal(lines: seq<Line>, start: nat, end: nat): Option<seq<Line>>
    requires start < end <= |lines|
  {
    var m := Seek(lines, IsModules, start + 1, end);
    if m == end then None
    else if lines[m].Modules? then
      Some(lines[m := WithTerminal(lines[m])])
    else
      var close := Seek(lines, Closes, m + 1, end);
      if close == end then None else
      var last := LastFull(lines, m, close);
      var fixed := if last > m && !EndsWithComma(lines[last]) then lines[last := WithComma(lines[last])] else lines;
      Some(InsertedAt(fixed, close, TERMINAL_LINE))
  }

  method AddTerminalModule(lines: seq<Line>, start: nat, end: nat) returns (r: Option<seq<Line>>)
    requires start < end <= |lines|
    ensures r == AddTerminal(lines, start, end)
  {
    var m := SeekLine(lines, IsModules, start + 1, end);
    if m == end { return None; }
    if lines[m].Modules? {
      return Some(lines[m := WithTerminal(lines[m])]);
    }
    var close := SeekLine(lines, Closes, m + 1, end);
    if close == end { return None; }
    var edited := lines;
    var i := close - 1;
    while i > m && lines[i].Blank?
      invariant m <= i < close
      invariant LastFull(lines, m, close) == LastFull(lines, m, i + 1)
    {
      i := i - 1;
    }
    if i > m && !EndsWithComma(lines[i]) {
      edited := edited[i := WithComma(edited[i])];
    }
    return Some(InsertedAt(edited, close, TERMINAL_LINE));
  }

  /** Where a name first occurs in an array. */
  function PieceAt(pieces: seq<Piece>, name: string): (k: nat)
    ensures k <= |pieces| && (k < |pieces| ==> pieces[k].name == name)
    ensures forall j :: 0 <= j < k ==> pieces[j].name != name
  {
    if pieces == [] || pieces[0].name == name then 0 else 1 + PieceAt(pieces[1..], name)
  }

  /**
   One name cut out of the text of a single-line array: with the comma before
   it when there is one, else with the comma after it, else alone.
   */
  function CutPiece(pieces: seq<Piece>, name: string): Option<seq<Piece>> {
    var k := if pieces == [] then 0 else 1 + PieceAt(pieces[1..], name);
    if pieces != [] && k < |pieces| then
      var prev := pieces[k - 1];
      Some(pieces[..k - 1] + [prev.(after := prev.after + pieces[k].after)] + pieces[k + 1..])
    else if pieces != [] && pieces[0].name == name then
      if |pieces| == 1 then Some([])
      else Some([pieces[1].(before := pieces[0].before)] + pieces[2..])
    else None
  }

  predicate OnlyTerminal(l: Line) {
    l.Names? && |l.names| == 1 && l.names[0].name == TERMINAL
  }

  predicate TerminalOrClose(l: Line) {
    OnlyTerminal(l) || Closes(l)
  }

  function RemoveTerminal(lines: seq<Line>, start: nat, end: nat): Option<seq<Line>>
    requires start < end <= |lines|
  {
    var m := Seek(lines, IsModules, start + 1, end);
    if m == end then None
    else if lines[m].Modules? then
      var cut := CutPiece(lines[m].pieces, TERMINAL);
      if cut.None? then None else Some(lines[m := Modules(lines[m].lead, cut.value, lines[m].tail)])
    else
      var k := Seek(lines, TerminalOrClose, m + 1, end);
      if k == end || !OnlyTerminal(lines[k]) then None else Some(lines[..k] + lines[k + 1..])
  }

  method RemoveTerminalModule(lines: seq<Line>, start: nat, end: nat) returns (r: Option<seq<Line>>)
    requires start < end <= |lines|
    ensures r == RemoveTerminal(lines, start, end)
  {
    var m := SeekLine(lines, IsModules, start + 1, end);
    if m == end { return None; }
    if lines[m].Modules? {
      var cut := CutPiece(lines[m].pieces, TERMINAL);
      if cut.None? { return None; }
      return Some(lines[m := Modules(lines[m].lead, cut.value, lines[m].tail)]);
    }
    var i := m + 1;
    while i < end
      invariant m < i <= end
      invariant Seek(lines, TerminalOrClose, m + 1, end) == Seek(lines, TerminalOrClose, i, end)
    {
      if OnlyTerminal(lines[i]) { return Some(lines[..i] + lines[i + 1..]); }
      if Closes(lines[i]) { break; }
      i := i + 1;
    }
    return None;
  }

  predicate DefaultTcpComment(l: Line) {
    l.TcpComment? && l.value == DEFAULT_TCP
  }

  function Uncommented(l: Line): Line
    requires DefaultTcpComment(l)
  {
    Tcp(l.indent, l.value, l.rest)
  }

  /** After the modules array when there is one, else right below the header. */
  function TcpPlace(lines: seq<Line>, start: nat, end: nat): (at: nat)
    requires start < end <= |lines|
    ensures start < at <= end
  {
    var m := Seek(lines, IsModules, start + 1, end);
    if m == end then start + 1
    else
      var close := Seek(lines, Closes, m, end);
      if close == end then end else close + 1
  }

  function EnableTcp(lines: seq<Line>, start: nat, end: nat): seq<Line>
    requires start < end <= |lines|
  {
    var c := Seek(lines, DefaultTcpComment, start + 1, end);
    if c < end then lines[c := Uncommented(lines[c])]
    else InsertedAt(lines, TcpPlace(lines, start, end), Tcp("", DEFAULT_TCP, ""))
  }

  /** Walks past the line that closes the array opened at `m`. */
  method AfterArray(lines: seq<Line>, m: nat, end: nat) returns (at: nat)
    requires m < end <= |lines|
    ensures at == if Seek(lines, Closes, m, end) == end then end else Seek(lines, Closes, m, end) + 1
  {
    hide Closes;
    at := m + 1;
    while at < end && !Closes(lines[at - 1])
      invariant m < at <= end
      invariant Seek(lines, Closes, m, end) == Seek(lines, Closes, at - 1, end)
    {
      at := at + 1;
    }
  }

  method PlaceForTcp(lines: seq<Line>, start: nat, end: nat) returns (insertAt: nat)
    requires start < end <= |lines|
    ensures insertAt == TcpPlace(lines, start, end)
  {
    hide Closes, IsModules, Seek;
    insertAt := start + 1;
    var m := SeekLine(lines, IsModules, start + 1, end);
    if m < end { insertAt := AfterArray(lines, m, end); }
  }

  method EnableTcpListenAddress(lines: seq<Line>, start: nat, end: nat) returns (r: seq<Line>)
    requires start < end <= |lines|
    ensures r == EnableTcp(lines, start, end)
  {
    hide Seek, TcpPlace, InsertedAt;
    var i := SeekLine(lines, DefaultTcpComment, start + 1, end);
    if i < end { return lines[i := Uncommented(lines[i])]; }
    var insertAt := PlaceForTcp(lines, start, end);
    return InsertedAt(lines, insertAt, Tcp("", DEFAULT_TCP, ""));
  }

  // ---- the migration ----

  /** What the parsed file has under `rpc`: the modules when they are an array of names, and the address. */
  datatype Rpc = Rpc(modules: Option<seq<string>>, tcp: Option<string>)

  predicate NeedsTerminal(rpc: Rpc, version: Option<Version>) {
    SupportsTerminal(version) && rpc.modules.Some? && TERMINAL !in rpc.modules.value
  }

  predicate AllBlank(s: string) {
    forall i :: 0 <= i < |s| ==> s[i] == ' ' || s[i] == '\t'
  }

  predicate NeedsTcp(rpc: Rpc) {
    rpc.tcp.None? || AllBlank(rpc.tcp.value)
  }

  /** The edit happens below the header, which stays where it was. */
  lemma HeaderStays(lines: seq<Line>, start: nat, end: nat)
    requires start == RpcStart(lines) < end <= |lines| && AddTerminal(lines, start, end).Some?
    ensures RpcStart(AddTerminal(lines, start, end).value) == start < |AddTerminal(lines, start, end).value|
  {
    var r := AddTerminal(lines, start, end).value;
    assert r[..start + 1] == lines[..start + 1];
    assert forall j :: 0 <= j <= start ==> r[j] == r[..start + 1][j] == lines[j];
  }

  /** The new lines, or nothing when the file is left alone. */
  function Migrate(lines: seq<Line>, rpc: Option<Rpc>, version: Option<Version>): Option<seq<Line>> {
    if rpc.None? || (!NeedsTerminal(rpc.value, version) && !NeedsTcp(rpc.value)) then None else
    var start := RpcStart(lines);
    if start == |lines| then None else
    var end := SectionEnd(lines, start);
    var added := if NeedsTerminal(rpc.value, version) then AddTerminal(lines, start, end) else None;
    if !NeedsTcp(rpc.value) then added
    else if added.None? then Some(EnableTcp(lines, start, end))
    else
      HeaderStays(lines, start, end);
      Some(EnableTcp(added.value, start, SectionEnd(added.value, start)))
  }

  lemma BlankText(s: string)
    ensures AllBlank(s) <==> forall c :: c in s ==> c == ' ' || c == '\t'
  {
    if forall c :: c in s ==> c == ' ' || c == '\t' {
      forall i | 0 <= i < |s| ensures s[i] == ' ' || s[i] == '\t' { assert s[i] in s; }
    }
  }

  /**
   The file is left alone exactly when there is nothing under `rpc`, nothing to
   do for its address and its modules, no section to do it in, or no array to
   add the module to.
   */
  lemma LeftAlone(lines: seq<Line>, rpc: Option<Rpc>, version: Option<Version>)
    ensures var address := rpc.Some? && (rpc.value.tcp.None? || forall c :: c in rpc.value.tcp.value ==> c == ' ' || c == '\t');
            var missing := rpc.Some? && rpc.value.modules.Some? && "Terminal" !in rpc.value.modules.value
                           && (version == None || !Older(version.value, Version(0, 205, 0, true)));
            var start := RpcStart(lines);
            Migrate(lines, rpc, version).None? <==>
              || (!address && !missing)
              || start == |lines|
              || (!address && AddTerminal(lines, start, SectionEnd(lines, start)).None?)
  {
    hide AddTerminal, EnableTcp, Seek, Older;
    if rpc.Some? {
      SupportedFrom(version);
      if rpc.value.tcp.Some? { BlankText(rpc.value.tcp.value); }
    }
  }

  method MigrateLegacyDevnetRpcConfig(lines: seq<Line>, rpc: Option<Rpc>, version: Option<Version>)
    returns (r: Option<seq<Line>>)
    ensures r == Migrate(lines, rpc, version)
  {
    hide AddTerminal, EnableTcp, Seek, NeedsTerminal, NeedsTcp;
    if rpc.None? { return None; }
    var needsTerminal := NeedsTerminal(rpc.value, version);
    var needsTcp := NeedsTcp(rpc.value);
    if !needsTerminal && !needsTcp { return None; }
    var start := SeekLine(lines, IsRpcHeader, 0, |lines|);
    if start == |lines| { return None; }
    var end := SeekLine(lines, IsHeader, start + 1, |lines|);
    var edited, changed := lines, false;
    if needsTerminal {
      var added := AddTerminalModule(lines, start, end);
      if added.Some? {
        HeaderStays(lines, start, end);
        edited, changed := added.value, true;
      }
    }
    if needsTcp {
      var again := SeekLine(edited, IsRpcHeader, 0, |edited|);
      var end' := SeekLine(edited, IsHeader, again + 1, |edited|);
      edited := EnableTcpListenAddress(edited, again, end');
      changed := true;
    }
    return if changed then Some(edited) else None;
  }
}
