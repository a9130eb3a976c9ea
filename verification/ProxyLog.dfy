/** The proxy's rolling event log, under file operations that may fail. */
module ProxyLog {
  import opened Options
  import opened Octet
  import opened Seqs
  import opened Utf8
  import opened LogFilter

  /** The C0 and C1 control characters and DEL. */
  predicate Control(c: Scalar) {
    c < 0x20 || 0x7F <= c < 0xA0
  }

  function Sanitize(text: Text): (r: Text)
    ensures |r| == |text| && forall i :: 0 <= i < |r| ==> !Control(r[i]) && r[i] == if Control(text[i]) then 0x20 else text[i]
  {
    if text == [] then [] else [if Control(text[0]) then 0x20 else text[0]] + Sanitize(text[1..])
  }

  /** The record of one event, without its newline; the time stamp has no control characters. */
  function Record(stamp: Text, text: Text): Text {
    stamp + [0x20] + Sanitize(text)
  }

  function Line(stamp: Text, text: Text): (r: Text)
    ensures r != []
  {
    Record(stamp, text) + [NEWLINE]
  }

  predicate NoNewline(text: Text) {
    forall i :: 0 <= i < |text| ==> text[i] != NEWLINE
  }

  lemma {:induction false} SplitOneLine(text: Text, rest: Text)
    requires NoNewline(text)
    ensures Split(text + [NEWLINE] + rest) == [text] + Split(rest)
  {
    if text == [] {
      assert text + [NEWLINE] + rest == [NEWLINE] + rest;
      SplitCons(NEWLINE, rest);
    } else {
      var tail := text[1..] + [NEWLINE] + rest;
      assert text + [NEWLINE] + rest == [text[0]] + tail;
      SplitOneLine(text[1..], rest);
      SplitCons(text[0], tail);
      assert [text[0]] + text[1..] == text;
      assert Prepend(text[0], [text[1..]] + Split(rest)) == [[text[0]] + text[1..]] + Split(rest);
    }
  }

  /** The file holds one line per event, whatever the events' texts: splitting it gives the records back. */
  lemma {:induction false} OneLinePerEvent(stamps: seq<Text>, texts: seq<Text>)
    requires |stamps| == |texts| && forall i :: 0 <= i < |stamps| ==> NoNewline(stamps[i])
    ensures Complete(Flatten(seq(|texts|, i requires 0 <= i < |texts| => Line(stamps[i], texts[i])))) ==
            seq(|texts|, i requires 0 <= i < |texts| => stamps[i] + [0x20] + Sanitize(texts[i]))
    ensures Unfinished(Flatten(seq(|texts|, i requires 0 <= i < |texts| => Line(stamps[i], texts[i])))) == []
    decreases |texts|
  {
    if texts != [] {
      var lines := seq(|texts|, i requires 0 <= i < |texts| => Line(stamps[i], texts[i]));
      var rest := seq(|texts| - 1, i requires 0 <= i < |texts| - 1 => Line(stamps[1..][i], texts[1..][i]));
      assert lines[1..] == rest;
      OneLinePerEvent(stamps[1..], texts[1..]);
      var record := Record(stamps[0], texts[0]);
      assert NoNewline(record);
      SplitOneLine(record, Flatten(rest));
      assert Flatten(lines) == record + [NEWLINE] + Flatten(rest);
      hide Split, Flatten, Record;
      CutRecords(record, Flatten(lines), Flatten(rest));
    }
  }

  lemma CutRecords(record: Text, whole: Text, rest: Text)
    requires Split(whole) == [record] + Split(rest)
    ensures Complete(whole) == [record] + Complete(rest) && Unfinished(whole) == Unfinished(rest)
  {
  }

  // ---- the rolling file ----

  /** The size of a line in the file. */
  function ByteLength(line: Text): nat {
    |Encode(line)|
  }

  function Size(lines: seq<Text>): nat {
    if lines == [] then 0 else Size(lines[..|lines| - 1]) + ByteLength(lines[|lines| - 1])
  }

  lemma LineHasBytes(line: Text)
    requires line != []
    ensures ByteLength(line) > 0
  {
  }

  lemma SizeAppend(lines: seq<Text>, line: Text)
    ensures Size(lines + [line]) == Size(lines) + ByteLength(line)
  {
    assert (lines + [line])[..|lines|] == lines;
  }

  function Content(file: Option<seq<Text>>): seq<Text> {
    if file.Some? then file.value else []
  }

  /** Which file operations of one event fail. */
  datatype Faults = Faults(
    mkdir: bool, stat: bool, dropBackup: bool, saveArchive: bool, roll: bool, restore: bool, cleanBackup: bool, append: bool)

  const NO_FAULTS := Faults(false, false, false, false, false, false, false, false)

  function Max(a: nat, b: nat): nat {
    if a >= b then a else b
  }

  class ProxyEventLog {
    const maxBytes: nat
    var active: Option<seq<Text>>
    var archive: Option<seq<Text>>
    var backup: Option<seq<Text>>
    var size: int
    var dirReady: bool
    /** What the two files held at first, then every line that was appended. */
    ghost var appended: seq<Text>

    /** Archive and active file, one after the other, are the latest lines appended, with no gap. */
    ghost predicate Valid()
      reads this
    {
      && IsSuffix(Content(archive) + Content(active), appended)
      && forall line :: line in Content(active) ==> line != []
    }

    /** The size estimate, when there is one, is the real size. */
    ghost predicate Measured()
      reads this
    {
      size >= 0 ==> size == Size(Content(active))
    }

    constructor (maxBytes: nat, active: Option<seq<Text>>, archive: Option<seq<Text>>, backup: Option<seq<Text>>)
      requires forall line :: line in Content(active) ==> line != []
      ensures Valid() && Measured() && this.maxBytes == maxBytes
      ensures appended == Content(archive) + Content(active)
    {
      this.maxBytes, this.active, this.archive, this.backup := maxBytes, active, archive, backup;
      size, dirReady := -1, false;
      appended := Content(archive) + Content(active);
    }

    /** Moves the active file to the archive, putting the previous archive back if that fails. */
    method Rollover(faults: Faults) returns (failed: bool)
      requires Valid()
      modifies `active, `archive, `backup
      ensures Valid()
      ensures !failed ==> active == None && (old(active).Some? ==> archive == old(active))
      ensures Content(active) == Content(old(active)) || (Content(active) == [] && Content(archive) == Content(old(active)))
      ensures failed && !faults.restore && active.Some? ==> active == old(active) && archive == old(archive)
      ensures faults == NO_FAULTS ==> !failed || old(active).None?
    {
      if faults.dropBackup { return true; }
      backup := None;
      var hadArchive := archive.Some?;
      if hadArchive {
        if faults.saveArchive { return true; }
        backup, archive := archive, None;
        assert IsSuffix(Content(active), Content(backup) + Content(active));
        SuffixTrans(Content(active), Content(backup) + Content(active), appended);
      }
      assert [] + Content(active) == Content(active);
      if faults.roll || active.None? {
        if hadArchive && !faults.restore {
          archive, backup := backup, None;
        }
        return true;
      }
      archive, active := active, None;
      assert Content(archive) + [] == Content(archive);
      if faults.cleanBackup { return true; }
      backup := None;
      return false;
    }

    /** Appends the line to the active file, whatever the estimate. */
    method Append(line: Text)
      requires Valid() && line != []
      modifies `active, `appended, `size
      ensures Valid() && appended == old(appended) + [line]
      ensures active == Some(Content(old(active)) + [line]) && size == old(size) + ByteLength(line)
      ensures old(size) == Size(Content(old(active))) ==> size == Size(Content(active))
    {
      hide Size, IsSuffix, ByteLength;
      Extended(Content(archive), Content(active), appended, line);
      SizeAppend(Content(active), line);
      active := Some(Content(active) + [line]);
      appended := appended + [line];
      size := size + ByteLength(line);
    }

    /** The directory and the size estimate; both are forgotten when something fails. */
    method Prepare(faults: Faults) returns (ok: bool)
      modifies `size, `dirReady
      ensures ok <==> !(old(!dirReady) && faults.mkdir) && !(old(size) < 0 && faults.stat)
      ensures !ok ==> size == -1 && !dirReady
      ensures ok ==> dirReady && size == if old(size) < 0 then Size(Content(active)) else old(size)
    {
      if !dirReady {
        if faults.mkdir {
          dirReady, size := false, -1;
          return false;
        }
        dirReady := true;
      }
      if size < 0 {
        if faults.stat {
          dirReady, size := false, -1;
          return false;
        }
        size := Size(Content(active));
      }
      return true;
    }

    /**
     One event. `appended` grows by its line exactly when neither the
     directory, the measuring nor the appending fails, whatever becomes of the
     rollover.
     */
    method Event(line: Text, faults: Faults)
      requires Valid() && line != []
      modifies this
      ensures Valid()
      ensures var lost := (old(!dirReady) && faults.mkdir) || (old(size) < 0 && faults.stat) || faults.append;
              appended == if lost then old(appended) else old(appended) + [line]
      ensures old(Measured()) && faults == NO_FAULTS ==>
                && size == Size(Content(active)) <= Max(maxBytes, ByteLength(line))
                && if old(Size(Content(active))) > 0 && old(Size(Content(active))) + ByteLength(line) > maxBytes
                   then active == Some([line]) && archive == old(active)
                   else active == Some(old(Content(active)) + [line]) && archive == old(archive)
    {
      hide Size, IsSuffix, ByteLength;
      var ready := Prepare(faults);
      if !ready { return; }
      if size > 0 && size + ByteLength(line) > maxBytes {
        NothingHasNoSize();
        var failed := Rollover(faults);
        size := if failed then maxBytes else 0;
      } else if faults == NO_FAULTS && old(Measured()) && size == 0 {
        NoSizeHasNothing(Content(active));
      }
      if faults.append {
        dirReady, size := false, -1;
        return;
      }
      Append(line);
      assert [] + [line] == [line];
    }
  }

  lemma NothingHasNoSize()
    ensures Size([]) == 0
  {
  }

  lemma NoSizeHasNothing(lines: seq<Text>)
    requires Size(lines) == 0 && forall line :: line in lines ==> line != []
    ensures lines == []
  {
    if lines != [] {
      assert lines[|lines| - 1] in lines;
      LineHasBytes(lines[|lines| - 1]);
    }
  }

  lemma Extended(archive: seq<Text>, active: seq<Text>, appended: seq<Text>, line: Text)
    requires IsSuffix(archive + active, appended)
    ensures IsSuffix(archive + (active + [line]), appended + [line])
  {
    var both := archive + active;
    assert archive + (active + [line]) == both + [line];
    assert (appended + [line])[|appended| - |both|..] == appended[|appended| - |both|..] + [line];
  }
}
