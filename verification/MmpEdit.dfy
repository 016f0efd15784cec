/** AnalyzeTool's changes to an mmp file: appended to its text, and taken out again line by line. */
module MmpEdit {
  import opened Wrappers

  /** The longest line that can be read whole. */
  const LIMIT := 16383

  function StartMark(): string {
    "//*** AnalyzeTool changes start ***"
  }

  function EndMark(): string {
    "//*** AnalyzeTool changes end ***"
  }

  predicate StandsAt(line: string, i: int, marker: string) {
    0 <= i <= |line| - |marker| && line[i..i + |marker|] == marker
  }

  predicate Has(line: string, marker: string) {
    exists i | 0 <= i <= |line| - |marker| :: StandsAt(line, i, marker)
  }

  // ---------------------------------------------------------------- lines of a stream

  /** What is left to read, and whether the last read went well. */
  datatype Stream = Stream(rest: string, good: bool)

  predicate OneLine(line: string) {
    forall k :: 0 <= k < |line| ==> line[k] != '\n'
  }

  /** The first newline from index i on, or the end. */
  function NewlineFrom(text: string, i: nat): (at: nat)
    requires i <= |text|
    ensures i <= at <= |text| && (forall k :: i <= k < at ==> text[k] != '\n')
    ensures at < |text| ==> text[at] == '\n'
    decreases |text| - i
  {
    if i == |text| || text[i] == '\n' then i else NewlineFrom(text, i + 1)
  }

  function Newline(text: string): (at: nat)
    ensures at <= |text| && OneLine(text[..at]) && (forall k :: 0 <= k < at ==> text[k] != '\n')
    ensures at < |text| ==> text[at] == '\n'
  {
    NewlineFrom(text, 0)
  }

  /** Reads one line. Reading past the end, or a line over the limit, leaves the stream no longer good. */
  function GetLine(s: Stream): (r: (string, Stream))
    ensures |r.1.rest| <= |s.rest|
    ensures s.good && r.1.good ==> |r.1.rest| < |s.rest|
    ensures !s.good ==> !r.1.good
  {
    var at := Newline(s.rest);
    if !s.good then ("", s)
    else if at > LIMIT then (s.rest[..LIMIT], Stream(s.rest[LIMIT..], false))
    else if at == |s.rest| then (s.rest, Stream("", false))
    else (s.rest[..at], Stream(s.rest[at + 1..], true))
  }

  /** The lines between newlines, the last one possibly empty. */
  function Lines(text: string): (lines: seq<string>)
    ensures |lines| > 0
    decreases |text|
  {
    var at := Newline(text);
    if at == |text| then [text] else [text[..at]] + Lines(text[at + 1..])
  }

  /** Every line followed by a newline. */
  function Output(lines: seq<string>): string
    decreases |lines|
  {
    if lines == [] then "" else Output(lines[..|lines| - 1]) + lines[|lines| - 1] + "\n"
  }

  // ---------------------------------------------------------------- editing

  /** A target of one of the two library types. */
  predicate IsLibrary(targetType: string) {
    targetType == "dll" || targetType == "lib"
  }

  function PathLine(): string {
    "SOURCEPATH        atool_temp"
  }

  function SourceLine(id: string): string {
    "SOURCE            0a1b2c3d_atool_temp_" + id + ".cpp"
  }

  function HookLine(): string {
    "LIBRARY           AToolMemoryHook.lib"
  }

  function StaticLine(): string {
    "STATICLIBRARY     AToolStaticLib.lib"
  }

  function OptionLine(): string {
    "OPTION ARMCC --interleave"
  }

  /** The fixed lines added, for a library and for any other target. */
  function FixedChanges(library: bool): seq<string> {
    if library then [StartMark(), OptionLine(), EndMark()]
    else [StartMark(), PathLine(), HookLine(), StaticLine(), OptionLine(), EndMark()]
  }

  /** All lines added: for a target that is no library the source comes after the second line. */
  function Changes(library: bool, id: string): seq<string> {
    if library then FixedChanges(true)
    else FixedChanges(false)[..2] + [SourceLine(id)] + FixedChanges(false)[2..]
  }

  /** Every line preceded by a newline. */
  function Preceded(lines: seq<string>): string
    decreases |lines|
  {
    if lines == [] then "" else Preceded(lines[..|lines| - 1]) + "\n" + lines[|lines| - 1]
  }

  function Edit(text: string, library: bool, id: string): string {
    text + "\n" + Output(Changes(library, id))
  }

  // ---------------------------------------------------------------- scanning

  datatype Scan = Scan(lines: seq<string>, reading: bool, balance: int)

  const FRESH := Scan([], true, 0)

  /** Without the last line, if that is empty. */
  function Pop(lines: seq<string>): seq<string> {
    if lines != [] && lines[|lines| - 1] == "" then lines[..|lines| - 1] else lines
  }

  function AtStart(scan: Scan): Scan {
    Scan(Pop(scan.lines), false, scan.balance + 3)
  }

  function Keep(scan: Scan, line: string): Scan {
    if scan.reading then scan.(lines := scan.lines + [line]) else scan
  }

  /** The rest of the file outside the changes. Undefined when a start line is reached before any other
      line was collected. */
  function Scanned(s: Stream, scan: Scan): Option<Scan>
    decreases |s.rest|, s.good
  {
    if !s.good then Some(scan)
    else
      var (line, next) := GetLine(s);
      if Has(line, StartMark()) && scan.lines == [] then None
      else
        var kept := Keep(if Has(line, StartMark()) then AtStart(scan) else scan, line);
        if Has(line, EndMark()) then Scanned(GetLine(next).1, kept.(reading := true, balance := kept.balance - 1))
        else Scanned(next, kept)
  }

  function ScanFile(text: string): Option<Scan> {
    Scanned(Stream(text, true), FRESH)
  }

  predicate Failed(scan: Scan) {
    scan.balance % 2 != 0 && scan.balance >= 2
  }

  /** The file after removal, and whether it succeeded. */
  function Remove(text: string): Option<(string, bool)> {
    match ScanFile(text)
    case None => None
    case Some(scan) => if Failed(scan) then Some((text, false)) else Some((Output(scan.lines), true))
  }

  /** Some line the search reads is a start line. */
  function Searched(s: Stream): bool
    decreases |s.rest|, s.good
  {
    s.good && (Has(GetLine(s).0, StartMark()) || Searched(GetLine(s).1))
  }

  function IsEdited(text: string): bool {
    Searched(Stream(text, true))
  }

  // ---------------------------------------------------------------- the file and its backup

  class Mmp {
    var text: string
    var backup: Option<string>

    constructor (text: string, backup: Option<string>)
      ensures this.text == text && this.backup == backup
    {
      this.text := text;
      this.backup := backup;
    }

    /** Appends a newline before each line and one after the last. */
    method EditMmpFile(targetType: string, id: string)
      modifies `text
      ensures text == Edit(old(text), IsLibrary(targetType), id)
      ensures ValidId(id) ==> IsEditOf(old(text), text, targetType == "dll" || targetType == "lib", id)
    {
      ghost var before := text;
      if targetType == "dll" || targetType == "lib" {
        AppendChanges(FixedChanges(true));
      } else {
        AppendChanges(FixedChanges(false)[..2]);
        text := text + "\n" + SourceLine(id);
        AppendChanges(FixedChanges(false)[2..]);
      }
      text := text + "\n";
      EditAppends(before, IsLibrary(targetType), id);
      if ValidId(id) {
        EditWrites(before, IsLibrary(targetType), id);
      }
    }

    method AppendChanges(changes: seq<string>)
      modifies `text
      ensures text == old(text) + Preceded(changes)
    {
      var i := 0;
      assert old(text) + "" == old(text);
      while i < |changes|
        invariant 0 <= i <= |changes| && text == old(text) + Preceded(changes[..i])
      {
        assert changes[..i + 1][..i] == changes[..i];
        text := text + "\n" + changes[i];
        Associate(old(text), Preceded(changes[..i]), "\n");
        Associate(old(text), Preceded(changes[..i]) + "\n", changes[i]);
        i := i + 1;
      }
      assert changes[..i] == changes;
    }

    method SearchStart(content: string) returns (edited: bool)
      ensures edited == IsEdited(content)
    {
      var s := Stream(content, true);
      edited := false;
      while s.good && !edited
        invariant IsEdited(content) == (edited || Searched(s))
        decreases |s.rest|, s.good, !edited
      {
        var (line, next) := GetLine(s);
        if Has(line, StartMark()) {
          edited := true;
        } else {
          s := next;
        }
      }
    }

    method WriteLines(lines: seq<string>) returns (result: string)
      ensures result == Output(lines)
    {
      result := "";
      var i := 0;
      while i < |lines|
        invariant 0 <= i <= |lines| && result == Output(lines[..i])
      {
        assert lines[..i + 1][..i] == lines[..i];
        result := result + lines[i] + "\n";
        i := i + 1;
      }
      assert lines[..i] == lines;
    }

    method RemoveFrom(content: string) returns (result: string, ok: bool)
      requires ScanFile(content).Some?
      ensures Remove(content) == Some((result, ok))
    {
      hide StartMark;
      hide EndMark;
      hide Has;
      hide Output;
      hide GetLine;
      var s := Stream(content, true);
      var lines: seq<string> := [];
      var reading := true;
      var successful := 0;
      while s.good
        invariant Scanned(s, Scan(lines, reading, successful)) == ScanFile(content)
        decreases |s.rest|, s.good
      {
        var (line, next) := GetLine(s);
        if Has(line, StartMark()) {
          if |lines[|lines| - 1]| == 0 {
            lines := lines[..|lines| - 1];
          }
          reading := false;
          successful := successful + 3;
        }
        if reading {
          lines := lines + [line];
        }
        if Has(line, EndMark()) {
          next := GetLine(next).1;
          reading := true;
          successful := successful - 1;
        }
        s := next;
      }
      if successful % 2 != 0 && successful >= 2 {
        return content, false;
      }
      result := WriteLines(lines);
      ok := true;
    }

    /** The backup becomes the file's text without the changes. */
    method BackupMmpFile() returns (ok: bool)
      requires IsEdited(text) ==> ScanFile(text).Some?
      modifies `backup
      ensures ok <==> !IsEdited(text) || Remove(text).value.1
      ensures ok ==> backup == Some(if IsEdited(text) then Remove(text).value.0 else text)
    {
      backup := Some(text);
      var edited := SearchStart(text);
      ok := true;
      if edited {
        var result;
        result, ok := RemoveFrom(text);
        backup := Some(result);
      }
    }

    method VerifyAndRecover() returns (ok: bool)
      requires CanRecover(text, backup)
      modifies `text
      ensures text == Recovered(old(text), backup).0 && ok == Recovered(old(text), backup).1
    {
      var edited := SearchStart(text);
      if edited {
        if backup.Some? {
          edited := SearchStart(backup.value);
          if !edited {
            text := backup.value;
            return true;
          }
        }
        text, ok := RemoveFrom(text);
        return;
      }
      ok := true;
    }
  }

  /** Where a removal has to run, it is defined. */
  predicate CanRecover(text: string, backup: Option<string>) {
    IsEdited(text) && (backup.None? || IsEdited(backup.value)) ==> ScanFile(text).Some?
  }

  function Recovered(text: string, backup: Option<string>): (string, bool)
    requires CanRecover(text, backup)
  {
    if !IsEdited(text) then (text, true)
    else if backup.Some? && !IsEdited(backup.value) then (backup.value, true)
    else Remove(text).value
  }

  // ---------------------------------------------------------------- reading line by line

  lemma NewlineAfter(line: string, rest: string)
    ensures OneLine(line) ==> Newline(line + "\n" + rest) == |line|
    ensures OneLine(line) ==> (line + "\n" + rest)[..|line|] == line && (line + "\n" + rest)[|line| + 1..] == rest
  {
    if OneLine(line) {
      var text := line + "\n" + rest;
      assert text[|line|] == '\n' && forall k :: 0 <= k < |line| ==> text[k] == line[k];
    }
  }

  lemma GetWholeLine(line: string, rest: string)
    ensures OneLine(line) && |line| <= LIMIT ==> GetLine(Stream(line + "\n" + rest, true)) == (line, Stream(rest, true))
  {
    if OneLine(line) && |line| <= LIMIT {
      NewlineAfter(line, rest);
    }
  }

  lemma LinesOnce(text: string)
    ensures var at := Newline(text);
      Lines(text) == if at == |text| then [text] else [text[..at]] + Lines(text[at + 1..])
  {
  }

  lemma LinesOfLine(line: string, rest: string)
    ensures OneLine(line) ==> Lines(line + "\n" + rest) == [line] + Lines(rest)
  {
    if OneLine(line) {
      NewlineAfter(line, rest);
    }
  }

  /** A line the scan passes over without noticing anything. */
  predicate Plain(line: string) {
    |line| <= LIMIT && !Has(line, StartMark()) && !Has(line, EndMark())
  }

  ghost predicate Clean(text: string) {
    forall line :: line in Lines(text) ==> Plain(line)
  }

  lemma ScanPlain(line: string, rest: string, scan: Scan)
    ensures OneLine(line) && Plain(line) ==>
      Scanned(Stream(line + "\n" + rest, true), scan) == Scanned(Stream(rest, true), Keep(scan, line))
  {
    if OneLine(line) && Plain(line) {
      GetWholeLine(line, rest);
    }
  }

  lemma OutputLast(lines: seq<string>)
    ensures lines != [] ==> Output(lines) == Output(lines[..|lines| - 1]) + lines[|lines| - 1] + "\n"
  {
  }

  lemma OutputOne(line: string)
    ensures Output([line]) == line + "\n" + Output([])
  {
    OutputLast([line]);
    assert [line][..0] == [] && "" + line + "\n" == line + "\n" + "";
  }

  lemma {:induction false} OutputFirst(lines: seq<string>)
    ensures lines != [] ==> Output(lines) == lines[0] + "\n" + Output(lines[1..])
    decreases |lines|
  {
    hide Output;
    if lines != [] {
      if |lines| == 1 {
        OutputOne(lines[0]);
        assert lines == [lines[0]] && lines[1..] == [];
      } else {
        var front, last := lines[..|lines| - 1], lines[|lines| - 1];
        OutputFirst(front);
        OutputLast(lines);
        OutputLast(lines[1..]);
        assert lines[1..][..|lines| - 2] == front[1..];
        Associate(lines[0] + "\n", Output(front[1..]), last);
        Associate(lines[0] + "\n", Output(front[1..]) + last, "\n");
      }
    }
  }

  lemma OutputNothing(lines: seq<string>)
    ensures lines == [] ==> Output(lines) == ""
  {
  }

  lemma {:induction false} OutputOfLines(text: string)
    ensures Output(Lines(text)) == text + "\n"
    decreases |text|
  {
    var at := Newline(text);
    LinesOnce(text);
    OutputFirst(Lines(text));
    hide Lines;
    hide Newline;
    if at == |text| {
      OutputNothing([text][1..]);
      hide Output;
      assert text + "\n" + "" == text + "\n";
    } else {
      var more := text[at + 1..];
      OutputOfLines(more);
      assert Lines(text)[1..] == Lines(more);
      hide Output;
      assert text == text[..at] + "\n" + more;
      Associate(text[..at] + "\n", more, "\n");
    }
  }

  lemma {:induction false} LinesAreOneLine(text: string)
    ensures forall line :: line in Lines(text) ==> OneLine(line)
    decreases |text|
  {
    var at := Newline(text);
    LinesOnce(text);
    hide Lines;
    if at < |text| {
      LinesAreOneLine(text[at + 1..]);
    } else {
      assert text[..at] == text;
    }
  }

  /** Lines a scan passes over are collected whole. */
  lemma {:induction false} ScanLines(lines: seq<string>, rest: string, scan: Scan)
    requires scan.reading && forall i :: 0 <= i < |lines| ==> Plain(lines[i]) && OneLine(lines[i])
    ensures Scanned(Stream(Output(lines) + rest, true), scan) ==
      Scanned(Stream(rest, true), scan.(lines := scan.lines + lines))
    decreases |lines|
  {
    hide Plain;
    hide OneLine;
    hide Scanned;
    if lines == [] {
      OutputNothing(lines);
      hide Output;
      assert "" + rest == rest && scan.lines + lines == scan.lines;
    } else {
      OutputFirst(lines);
      hide Output;
      var tail := Output(lines[1..]) + rest;
      assert Output(lines) + rest == lines[0] + "\n" + tail;
      ScanPlain(lines[0], tail, scan);
      ScanLines(lines[1..], rest, Keep(scan, lines[0]));
      assert Keep(scan, lines[0]).lines + lines[1..] == scan.lines + lines;
    }
  }

  /** Clean text before a newline is collected whole. */
  lemma ScanClean(text: string, rest: string, scan: Scan)
    requires Clean(text) && scan.reading
    ensures Scanned(Stream(text + "\n" + rest, true), scan) ==
      Scanned(Stream(rest, true), scan.(lines := scan.lines + Lines(text)))
  {
    LinesAreOneLine(text);
    OutputOfLines(text);
    ScanLines(Lines(text), rest, scan);
  }

  // ---------------------------------------------------------------- scanning the changes

  lemma HasItself(marker: string)
    ensures Has(marker, marker)
  {
    assert StandsAt(marker, 0, marker);
  }

  lemma MarksDiffer()
    ensures !Has(StartMark(), EndMark()) && !Has(EndMark(), StartMark())
  {
    var start, end := StartMark(), EndMark();
    assert start[26] == 's' && end[26] == 'e' && start[1] == '/' && start[2] == '*' && start[3] == '*' && end[1] == '/';
    forall i | 0 <= i <= |start| - |end| ensures !StandsAt(start, i, end) {
      assert start[i..i + |end|][1] == start[i + 1] && start[i..i + |end|][26] == start[i + 26];
    }
  }

  lemma MarkerFacts()
    ensures Has(StartMark(), StartMark()) && !Has(StartMark(), EndMark())
    ensures Has(EndMark(), EndMark()) && !Has(EndMark(), StartMark())
    ensures OneLine(StartMark()) && OneLine(EndMark()) && |StartMark()| <= LIMIT && |EndMark()| <= LIMIT
  {
    HasItself(StartMark());
    HasItself(EndMark());
    MarksDiffer();
  }

  /** Neither an asterisk nor a newline. */
  predicate Bare(line: string) {
    forall k :: 0 <= k < |line| ==> line[k] != '*' && line[k] != '\n'
  }

  lemma BareHasNoMark(line: string, marker: string)
    ensures Bare(line) && '*' in marker ==> !Has(line, marker)
  {
    if Bare(line) && '*' in marker {
      var k :| 0 <= k < |marker| && marker[k] == '*';
      forall i | 0 <= i <= |line| - |marker| ensures !StandsAt(line, i, marker) {
        assert line[i..i + |marker|][k] == line[i + k];
      }
    }
  }

  lemma BareIsPlain(line: string)
    ensures Bare(line) && |line| <= LIMIT ==> Plain(line) && OneLine(line)
  {
    if Bare(line) && |line| <= LIMIT {
      assert StartMark()[2] == '*' && EndMark()[2] == '*';
      BareHasNoMark(line, StartMark());
      BareHasNoMark(line, EndMark());
    }
  }

  /** A target's identifier: short, on one line, and without an asterisk. */
  predicate ValidId(id: string) {
    |id| <= 1024 && Bare(id)
  }

  lemma BareConcat(a: string, b: string)
    ensures Bare(a) && Bare(b) ==> Bare(a + b)
  {
  }

  lemma SourceIsPlain(id: string)
    ensures ValidId(id) ==> Plain(SourceLine(id)) && OneLine(SourceLine(id))
  {
    if ValidId(id) {
      BareConcat("SOURCE            0a1b2c3d_atool_temp_", id);
      BareConcat("SOURCE            0a1b2c3d_atool_temp_" + id, ".cpp");
      BareIsPlain("SOURCE            0a1b2c3d_atool_temp_" + id + ".cpp");
    }
  }

  lemma StaticLibraryIsPlain()
    ensures Plain(StaticLine()) && OneLine(StaticLine())
  {
    hide Plain;
    assert Bare(StaticLine());
    BareIsPlain(StaticLine());
  }

  /** The changes begin and end with the marks, and nothing between is noticed by a scan. */
  ghost predicate Framed(lines: seq<string>) {
    && |lines| >= 2 && lines[0] == StartMark() && lines[|lines| - 1] == EndMark()
    && (forall i :: 0 < i < |lines| - 1 ==> Plain(lines[i]) && OneLine(lines[i]))
  }

  lemma FramedTail(lines: seq<string>)
    ensures Framed(lines) ==> lines[1..] != [] && lines[1..][|lines[1..]| - 1] == EndMark()
    ensures Framed(lines) ==> forall i :: 0 <= i < |lines[1..]| - 1 ==> Plain(lines[1..][i]) && OneLine(lines[1..][i])
  {
    hide Plain;
    hide OneLine;
  }

  lemma ChangesAreFramed(library: bool, id: string)
    requires ValidId(id)
    ensures Framed(Changes(library, id))
  {
    hide Plain;
    hide StartMark;
    hide EndMark;
    SourceIsPlain(id);
    assert Plain(PathLine()) && OneLine(PathLine()) by {
      hide Plain;
      assert Bare(PathLine());
      BareIsPlain(PathLine());
    }
    assert Plain(HookLine()) && OneLine(HookLine()) by {
      hide Plain;
      assert Bare(HookLine());
      BareIsPlain(HookLine());
    }
    StaticLibraryIsPlain();
    assert Plain(OptionLine()) && OneLine(OptionLine()) by {
      hide Plain;
      assert Bare(OptionLine());
      BareIsPlain(OptionLine());
    }
    var changes := Changes(library, id);
    forall i | 0 < i < |changes| - 1 ensures Plain(changes[i]) && OneLine(changes[i]) {
      assert library || i == 1 || i == 2 || i == 3 || i == 4 || i == 5;
    }
  }

  // ---------------------------------------------------------------- what an edit writes

  lemma {:induction false} PrecededIsOutput(lines: seq<string>)
    ensures Preceded(lines) + "\n" == "\n" + Output(lines)
    decreases |lines|
  {
    if lines == [] {
      assert "" + "\n" == "\n" + "";
    } else {
      var front, last := lines[..|lines| - 1], lines[|lines| - 1];
      PrecededIsOutput(front);
      OutputLast(lines);
      PrecededLast(lines);
      hide Output;
      hide Preceded;
      Associate("\n", Output(front), last);
      Associate("\n", Output(front) + last, "\n");
    }
  }

  lemma PrecededLast(lines: seq<string>)
    ensures lines != [] ==> Preceded(lines) == Preceded(lines[..|lines| - 1]) + "\n" + lines[|lines| - 1]
  {
  }

  lemma {:induction false} PrecededAppend(lines: seq<string>, more: seq<string>)
    ensures Preceded(lines + more) == Preceded(lines) + Preceded(more)
    decreases |more|
  {
    if more == [] {
      assert lines + more == lines && Preceded(lines) + "" == Preceded(lines);
    } else {
      var front, last := more[..|more| - 1], more[|more| - 1];
      PrecededAppend(lines, front);
      PrecededLast(lines + more);
      PrecededLast(more);
      assert (lines + more)[..|lines + more| - 1] == lines + front;
      hide Preceded;
      Associate(Preceded(lines), Preceded(front), "\n");
      Associate(Preceded(lines), Preceded(front) + "\n", last);
    }
  }

  /** An edit as it is written, line by line. */
  lemma EditAppends(text: string, library: bool, id: string)
    ensures Edit(text, library, id) ==
      if library then text + Preceded(FixedChanges(true)) + "\n"
      else text + Preceded(FixedChanges(false)[..2]) + "\n" + SourceLine(id) + Preceded(FixedChanges(false)[2..]) + "\n"
  {
    var changes := Changes(library, id);
    PrecededIsOutput(changes);
    Associate(text, Preceded(changes), "\n");
    Associate(text, "\n", Output(changes));
    if !library {
      var first, second := FixedChanges(false)[..2], FixedChanges(false)[2..];
      PrecededAppend(first + [SourceLine(id)], second);
      PrecededLast(first + [SourceLine(id)]);
      assert (first + [SourceLine(id)])[..2] == first;
      hide Preceded;
      hide Output;
      hide FixedChanges;
      Associate(text, Preceded(first) + "\n" + SourceLine(id), Preceded(second));
      Associate(text, Preceded(first) + "\n", SourceLine(id));
      Associate(text, Preceded(first), "\n");
    }
  }

  lemma {:induction false} LinesConcat(text: string, rest: string)
    ensures Lines(text + "\n" + rest) == Lines(text) + Lines(rest)
    decreases |text|
  {
    var at := Newline(text);
    LinesOnce(text);
    hide Lines;
    if at == |text| {
      assert text[..at] == text;
      LinesOfLine(text, rest);
    } else {
      var more := text[at + 1..];
      LinesConcat(more, rest);
      LinesOfLine(text[..at], more + "\n" + rest);
      assert text == text[..at] + "\n" + more;
      hide Newline;
      Associate(text[..at] + "\n", more, "\n");
      Associate(text[..at] + "\n", more + "\n", rest);
      Associate([text[..at]], Lines(more), Lines(rest));
    }
  }

  lemma {:induction false} LinesOfOutput(lines: seq<string>)
    requires forall i :: 0 <= i < |lines| ==> OneLine(lines[i])
    ensures Lines(Output(lines)) == lines + [""]
    decreases |lines|
  {
    hide Output;
    hide OneLine;
    hide Lines;
    if lines == [] {
      LinesOnce("");
      OutputNothing(lines);
    } else {
      LinesOfOutput(lines[1..]);
      LinesOfFirst(lines);
      assert [lines[0]] + (lines[1..] + [""]) == lines + [""];
    }
  }

  lemma LinesOfFirst(lines: seq<string>)
    ensures lines != [] && OneLine(lines[0]) ==> Lines(Output(lines)) == [lines[0]] + Lines(Output(lines[1..]))
  {
    hide Output;
    hide Lines;
    hide OneLine;
    if lines != [] && OneLine(lines[0]) {
      OutputFirst(lines);
      LinesOfLine(lines[0], Output(lines[1..]));
    }
  }

  /** The lines for a target that is no library. */
  function Needed(id: string): seq<string> {
    [PathLine(), SourceLine(id), HookLine(), StaticLine()]
  }

  /** The second text is the first with one run of changes after it, between the marks: the compiler option in any
      case, and before it, exactly when the target is no library, the source with the id and the two libraries. */
  ghost predicate IsEditOf(before: string, after: string, library: bool, id: string) {
    var lines, n := Lines(after), |Lines(before)|;
    && |lines| >= n + 3 && lines[..n] == Lines(before)
    && lines[n] == StartMark() && lines[|lines| - 2] == EndMark() && lines[|lines| - 1] == ""
    && lines[n + 1..|lines| - 2] == (if library then [] else Needed(id)) + [OptionLine()]
  }

  lemma ChangesAreOneLine(library: bool, id: string)
    ensures ValidId(id) ==> forall i :: 0 <= i < |Changes(library, id)| ==> OneLine(Changes(library, id)[i])
  {
    if ValidId(id) {
      ChangesAreFramed(library, id);
      MarkerFacts();
      hide Changes;
      hide Plain;
      hide OneLine;
    }
  }

  lemma LinesOfEdit(text: string, library: bool, id: string)
    ensures ValidId(id) ==> Lines(Edit(text, library, id)) == Lines(text) + (Changes(library, id) + [""])
  {
    hide Lines;
    hide Output;
    hide Changes;
    hide OneLine;
    if ValidId(id) {
      LinesConcat(text, Output(Changes(library, id)));
      ChangesAreOneLine(library, id);
      LinesOfOutput(Changes(library, id));
    }
  }

  /** The lines between the marks. */
  lemma ChangesBetween(library: bool, id: string)
    ensures var changes := Changes(library, id);
      && |changes| >= 3 && changes[0] == StartMark() && changes[|changes| - 1] == EndMark()
      && changes[1..|changes| - 1] == (if library then [] else Needed(id)) + [OptionLine()]
  {
    hide OptionLine;
    hide PathLine;
    hide SourceLine;
    hide HookLine;
    hide StaticLine;
    hide StartMark;
    hide EndMark;
    if library {
      assert FixedChanges(true)[1..2] == [OptionLine()] == [] + [OptionLine()];
    } else {
      var fixed := FixedChanges(false);
      assert fixed[..2] == [StartMark(), PathLine()];
      assert fixed[2..] == [HookLine(), StaticLine(), OptionLine(), EndMark()];
    }
  }

  /** An edit writes what the target needs. */
  lemma EditWrites(text: string, library: bool, id: string)
    requires ValidId(id)
    ensures IsEditOf(text, Edit(text, library, id), library, id)
  {
    hide Lines;
    hide Edit;
    hide Changes;
    hide Needed;
    hide OptionLine;
    hide StartMark;
    hide EndMark;
    LinesOfEdit(text, library, id);
    ChangesBetween(library, id);
    EditBetween(Lines(text), Changes(library, id), Lines(Edit(text, library, id)));
  }

  lemma EditBetween(before: seq<string>, changes: seq<string>, lines: seq<string>)
    ensures |changes| >= 2 && lines == before + (changes + [""]) ==>
      |lines| >= |before| + 3 && lines[..|before|] == before
    ensures |changes| >= 2 && lines == before + (changes + [""]) ==>
      lines[|before|] == changes[0] && lines[|lines| - 2] == changes[|changes| - 1] && lines[|lines| - 1] == ""
    ensures |changes| >= 2 && lines == before + (changes + [""]) ==>
      lines[|before| + 1..|lines| - 2] == changes[1..|changes| - 1]
  {
  }

  /** While not reading, plain lines up to the end line leave no trace; the line after it is dropped. */
  lemma {:induction false} SkipToEnd(lines: seq<string>, rest: string, scan: Scan)
    requires lines != [] && lines[|lines| - 1] == EndMark() && !scan.reading
    requires forall i :: 0 <= i < |lines| - 1 ==> Plain(lines[i]) && OneLine(lines[i])
    ensures Scanned(Stream(Output(lines) + rest, true), scan) ==
      Scanned(GetLine(Stream(rest, true)).1, scan.(reading := true, balance := scan.balance - 1))
    decreases |lines|
  {
    hide StartMark;
    hide EndMark;
    hide Has;
    MarkerFacts();
    OutputFirst(lines);
    var tail := Output(lines[1..]) + rest;
    assert Output(lines) + rest == lines[0] + "\n" + tail;
    hide Output;
    if |lines| == 1 {
      assert tail == rest by {
        OutputNothing(lines[1..]);
      }
      EndOfChanges(rest, scan);
    } else {
      ScanPlain(lines[0], tail, scan);
      hide Scanned;
      hide Plain;
      SkipToEnd(lines[1..], rest, scan);
    }
  }

  lemma EndOfChanges(rest: string, scan: Scan)
    requires !scan.reading
    ensures Scanned(Stream(EndMark() + "\n" + rest, true), scan) ==
      Scanned(GetLine(Stream(rest, true)).1, scan.(reading := true, balance := scan.balance - 1))
  {
    hide StartMark;
    hide EndMark;
    hide Has;
    hide OneLine;
    MarkerFacts();
    GetWholeLine(EndMark(), rest);
    hide GetLine;
  }

  lemma StartOfChanges(rest: string, scan: Scan)
    ensures Scanned(Stream(StartMark() + "\n" + rest, true), scan) ==
      if scan.lines == [] then None else Scanned(Stream(rest, true), AtStart(scan))
  {
    hide StartMark;
    hide EndMark;
    hide Has;
    hide OneLine;
    MarkerFacts();
    GetWholeLine(StartMark(), rest);
    hide GetLine;
  }

  lemma ScanFramed(lines: seq<string>, rest: string, scan: Scan)
    requires Framed(lines) && scan.reading && scan.lines != []
    ensures Scanned(Stream(Output(lines) + rest, true), scan) ==
      Scanned(GetLine(Stream(rest, true)).1, AtStart(scan).(reading := true, balance := scan.balance + 2))
  {
    hide StartMark;
    hide EndMark;
    hide Scanned;
    hide GetLine;
    hide Plain;
    hide OneLine;
    hide Pop;
    OutputFirst(lines);
    hide Output;
    FramedTail(lines);
    assert lines[0] == StartMark();
    hide Framed;
    Associate(StartMark() + "\n", Output(lines[1..]), rest);
    StartOfChanges(Output(lines[1..]) + rest, scan);
    SkipToEnd(lines[1..], rest, AtStart(scan));
  }

  lemma ScanFramedAtFront(lines: seq<string>, rest: string, scan: Scan)
    ensures Framed(lines) && scan.lines == [] ==> Scanned(Stream(Output(lines) + rest, true), scan) == None
  {
    hide StartMark;
    hide Scanned;
    if Framed(lines) && scan.lines == [] {
      OutputFirst(lines);
      hide Output;
      assert lines[0] == StartMark();
      hide Framed;
      Associate(StartMark() + "\n", Output(lines[1..]), rest);
      StartOfChanges(Output(lines[1..]) + rest, scan);
    }
  }

  /** The changes as a whole: an empty last line goes, and so does the line after the changes. */
  lemma ScanChanges(library: bool, id: string, rest: string, scan: Scan)
    requires ValidId(id) && scan.reading
    ensures Scanned(Stream(Output(Changes(library, id)) + rest, true), scan) ==
      if scan.lines == [] then None
      else Scanned(GetLine(Stream(rest, true)).1, Scan(Pop(scan.lines), true, scan.balance + 2))
  {
    ChangesAreFramed(library, id);
    hide Changes;
    hide Scanned;
    hide Framed;
    if scan.lines == [] {
      ScanFramedAtFront(Changes(library, id), rest, scan);
    } else {
      ScanFramed(Changes(library, id), rest, scan);
    }
  }

  // ---------------------------------------------------------------- removing undoes editing

  function EditTimes(text: string, library: bool, id: string, k: nat): string
    decreases k
  {
    if k == 0 then text else Edit(EditTimes(text, library, id, k - 1), library, id)
  }

  /** A block k times. */
  function Repeated(block: string, k: nat): string
    decreases k
  {
    if k == 0 then "" else block + Repeated(block, k - 1)
  }

  /** The changes k times, each after a newline. */
  function Blocks(library: bool, id: string, k: nat): string {
    Repeated("\n" + Output(Changes(library, id)), k)
  }

  lemma {:induction false} RepeatedCommutes(block: string, k: nat)
    ensures Repeated(block, k) + block == Repeated(block, k + 1)
    decreases k
  {
    if k > 0 {
      RepeatedCommutes(block, k - 1);
      Associate(block, Repeated(block, k - 1), block);
    } else {
      assert "" + block == block == block + "";
    }
  }

  lemma BlocksFirst(library: bool, id: string, k: nat)
    ensures k > 0 ==> Blocks(library, id, k) == "" + "\n" + (Output(Changes(library, id)) + Blocks(library, id, k - 1))
  {
    hide Output;
    hide Changes;
    if k > 0 {
      Associate("\n", Output(Changes(library, id)), Blocks(library, id, k - 1));
      assert "" + "\n" == "\n";
    }
  }

  lemma {:induction false} EditTimesIsBlocks(text: string, library: bool, id: string, k: nat)
    ensures EditTimes(text, library, id, k) == text + Blocks(library, id, k)
    decreases k
  {
    if k > 0 {
      EditTimesIsBlocks(text, library, id, k - 1);
      hide Changes;
      hide Output;
      RepeatedCommutes("\n" + Output(Changes(library, id)), k - 1);
      Associate(text, Blocks(library, id, k - 1), "\n" + Output(Changes(library, id)));
      Associate(text + Blocks(library, id, k - 1), "\n", Output(Changes(library, id)));
    } else {
      assert text + "" == text;
    }
  }

  /** Up to k empty lines off the end; undefined when no line is left to look at. */
  function PopTimes(lines: seq<string>, k: nat): Option<seq<string>>
    decreases k
  {
    if k == 0 then Some(lines) else if lines == [] then None else PopTimes(Pop(lines), k - 1)
  }

  lemma NoBlocks(library: bool, id: string)
    ensures Blocks(library, id, 0) == ""
  {
  }

  lemma EndOfFile(scan: Scan)
    ensures Scanned(GetLine(Stream("", true)).1, scan) == Some(scan)
  {
  }

  /** What follows the first newline of k blocks. */
  lemma {:induction false} ScanBlocks(library: bool, id: string, k: nat, lines: seq<string>, balance: int)
    requires ValidId(id) && k > 0
    ensures Scanned(Stream(Output(Changes(library, id)) + Blocks(library, id, k - 1), true), Scan(lines, true, balance)) ==
      match PopTimes(lines, k)
      case None => None
      case Some(left) => Some(Scan(left, true, balance + 2 * k))
    decreases k
  {
    hide Changes;
    hide Output;
    hide Scanned;
    hide GetLine;
    hide Blocks;
    hide Pop;
    hide ValidId;
    ScanChanges(library, id, Blocks(library, id, k - 1), Scan(lines, true, balance));
    if k == 1 {
      NoBlocks(library, id);
      EndOfFile(Scan(Pop(lines), true, balance + 2));
    } else {
      var more := Output(Changes(library, id)) + Blocks(library, id, k - 2);
      BlocksFirst(library, id, k - 1);
      GetWholeLine("", more);
      ScanBlocks(library, id, k - 1, Pop(lines), balance + 2);
    }
  }

  /** Removing after k edits takes exactly the changes out, and with them up to k empty lines at the end. */
  lemma RemoveAfterEdits(text: string, library: bool, id: string, k: nat)
    requires Clean(text) && ValidId(id) && k > 0
    ensures Remove(EditTimes(text, library, id, k)) ==
      match PopTimes(Lines(text), k)
      case None => None
      case Some(left) => Some((Output(left), true))
  {
    EditTimesIsBlocks(text, library, id, k);
    hide Changes;
    hide Output;
    hide Scanned;
    hide Lines;
    hide Clean;
    var more := Output(Changes(library, id)) + Blocks(library, id, k - 1);
    BlocksFirst(library, id, k);
    hide Blocks;
    assert text + ("" + "\n" + more) == text + "\n" + more;
    ScanClean(text, more, FRESH);
    assert FRESH.lines + Lines(text) == Lines(text);
    ScanBlocks(library, id, k, Lines(text), 0);
  }

  lemma {:induction false} LinesAfterNewline(text: string)
    ensures Lines(text + "\n") == Lines(text) + [""]
    decreases |text|
  {
    var at := Newline(text);
    LinesOnce(text);
    LinesOnce("");
    hide Lines;
    if at == |text| {
      assert text[..at] == text;
      LinesOfLine(text, "");
      assert text + "\n" + "" == text + "\n";
    } else {
      hide Newline;
      var more := text[at + 1..];
      LinesAfterNewline(more);
      LinesOfLine(text[..at], more + "\n");
      assert text == text[..at] + "\n" + more;
      Associate(text[..at] + "\n", more, "\n");
    }
  }

  predicate EndsInNewline(text: string) {
    |text| > 0 && text[|text| - 1] == '\n'
  }

  lemma {:induction false} LastLineEmpty(text: string)
    ensures Lines(text)[|Lines(text)| - 1] == "" <==> text == "" || EndsInNewline(text)
    decreases |text|
  {
    var at := Newline(text);
    if at < |text| {
      LastLineEmpty(text[at + 1..]);
    } else if text != "" {
      assert text[|text| - 1] in text[..at];
    }
  }

  /** The lines without an empty last one make up the text, completed by a newline where one is missing. */
  lemma OutputOfPopped(text: string)
    ensures Output(Pop(Lines(text))) == if text == "" || EndsInNewline(text) then text else text + "\n"
  {
    hide Lines;
    hide Output;
    hide EndsInNewline;
    LastLineEmpty(text);
    OutputOfLines(text);
    var lines := Lines(text);
    OutputLast(lines);
    if lines[|lines| - 1] == "" {
      SameBeforeNewline(Output(lines[..|lines| - 1]), text);
    }
  }

  lemma SameBeforeNewline(a: string, b: string)
    ensures a + "" + "\n" == b + "\n" ==> a == b
  {
    if a + "" + "\n" == b + "\n" {
      assert (a + "" + "\n")[..|a|] == a && (b + "\n")[..|b|] == b;
    }
  }

  /** Round trip: removing undoes one edit, up to completing an unfinished last line. */
  lemma RemoveUndoesEdit(text: string, library: bool, id: string)
    requires Clean(text) && ValidId(id)
    ensures Remove(Edit(text, library, id)) ==
      Some((if text == "" || EndsInNewline(text) then text else text + "\n", true))
  {
    RemoveAfterEdits(text, library, id, 1);
    assert EditTimes(text, library, id, 0) == text;
    OutputOfPopped(text);
    assert PopTimes(Lines(text), 1) == Some(Pop(Lines(text)));
  }

  lemma {:induction false} PopTimesStable(lines: seq<string>, k: nat)
    ensures lines != [] && lines[|lines| - 1] != "" ==> PopTimes(lines, k) == Some(lines)
    decreases k
  {
    if lines != [] && lines[|lines| - 1] != "" {
      if k == 0 {
      } else {
        PopTimesStable(lines, k - 1);
      }
    }
  }

  lemma {:induction false} PopTimesPrefix(lines: seq<string>, k: nat)
    ensures match PopTimes(lines, k) case None => true case Some(left) => left <= lines
    decreases k
  {
    if k == 0 || lines == [] {
    } else {
      PopTimesPrefix(Pop(lines), k - 1);
    }
  }

  lemma {:induction false} OutputOfPrefix(lines: seq<string>, n: nat)
    ensures n <= |lines| ==> |Output(lines[..n])| + (|lines| - n) <= |Output(lines)|
    decreases |lines|
  {
    if n <= |lines| {
      if n < |lines| {
        OutputOfPrefix(lines[..|lines| - 1], n);
        assert lines[..|lines| - 1][..n] == lines[..n];
      } else {
        assert lines[..n] == lines;
      }
    }
  }

  /** Edits made more than once come back exactly when the text ends in a newline after a line that is not
      empty: every further edit costs an empty line at the end, and on a text of empty lines only, the
      removal runs out of lines. */
  lemma RemoveUndoesManyEdits(text: string, library: bool, id: string, k: nat)
    requires Clean(text) && ValidId(id) && k >= 2
    ensures Remove(EditTimes(text, library, id, k)) == Some((text, true)) <==>
      |text| >= 2 && EndsInNewline(text) && text[|text| - 2] != '\n'
  {
    hide Remove;
    hide EditTimes;
    hide Clean;
    hide ValidId;
    hide Lines;
    hide Output;
    hide PopTimes;
    RemoveAfterEdits(text, library, id, k);
    if text == "" {
      NothingLeft(k);
    } else if !EndsInNewline(text) {
      DropsNone(text, k);
    } else {
      var front := text[..|text| - 1];
      assert text == front + "\n";
      if front == "" || EndsInNewline(front) {
        DropsTwo(text, front, k);
      } else {
        DropsOne(text, front, k);
      }
    }
  }

  lemma DropsNone(text: string, k: nat)
    ensures text != "" && !EndsInNewline(text) ==>
      match PopTimes(Lines(text), k) case None => true case Some(left) => Output(left) != text
  {
    if text != "" && !EndsInNewline(text) {
      LastLineEmpty(text);
      PopTimesStable(Lines(text), k);
      OutputOfLines(text);
      hide Lines;
      hide Output;
      assert |text + "\n"| != |text|;
    }
  }

  lemma NothingLeft(k: nat)
    ensures k >= 2 ==> PopTimes(Lines(""), k) == None
  {
    if k >= 2 {
      LinesOnce("");
    }
  }

  /** With one empty line at the end, all further edits find the line before it. */
  lemma DropsOne(text: string, front: string, k: nat)
    requires k >= 2 && text == front + "\n" && front != "" && !EndsInNewline(front)
    ensures PopTimes(Lines(text), k) == Some(Lines(front)) && Output(Lines(front)) == text
  {
    LinesAfterNewline(front);
    LastLineEmpty(front);
    OutputOfLines(front);
    hide Lines;
    assert Pop(Lines(text)) == Lines(front);
    PopTimesStable(Lines(front), k - 1);
  }

  /** With two empty lines at the end, two edits cost part of the text. */
  lemma DropsTwo(text: string, front: string, k: nat)
    requires k >= 2 && text == front + "\n" && (front == "" || EndsInNewline(front))
    ensures match PopTimes(Lines(text), k) case None => true case Some(left) => Output(left) != text
  {
    LinesAfterNewline(front);
    LastLineEmpty(front);
    hide Lines;
    var lines := Lines(text);
    var less := Pop(Lines(front));
    assert Pop(lines) == Lines(front) && |less| == |lines| - 2;
    assert PopTimes(lines, k) == PopTimes(less, k - 2);
    PopTimesPrefix(less, k - 2);
    OutputOfLines(text);
    match PopTimes(less, k - 2)
    case None =>
    case Some(left) =>
      assert left == lines[..|left|];
      OutputOfPrefix(lines, |left|);
  }

  // ---------------------------------------------------------------- what a removal keeps

  /** Lines with a newline between each two. */
  function Joined(lines: seq<string>): string
    requires lines != []
    decreases |lines|
  {
    if |lines| == 1 then lines[0] else lines[0] + "\n" + Joined(lines[1..])
  }

  /** Lines as they are read whole. */
  ghost predicate Readable(lines: seq<string>) {
    forall i :: 0 <= i < |lines| ==> OneLine(lines[i]) && |lines[i]| <= LIMIT
  }

  /** Every text is its lines joined. */
  lemma {:induction false} LinesJoin(text: string)
    ensures Joined(Lines(text)) == text
    decreases |text|
  {
    var at := Newline(text);
    LinesOnce(text);
    if at == |text| {
    } else {
      LinesJoin(text[at + 1..]);
      assert Lines(text)[1..] == Lines(text[at + 1..]);
      hide Lines;
      assert text == text[..at] + "\n" + text[at + 1..];
    }
  }

  lemma GetJoined(lines: seq<string>)
    requires lines != [] && Readable(lines)
    ensures GetLine(Stream(Joined(lines), true)) ==
      (lines[0], if |lines| == 1 then Stream("", false) else Stream(Joined(lines[1..]), true))
  {
    if |lines| == 1 {
      assert Newline(lines[0]) == |lines[0]|;
    } else {
      GetWholeLine(lines[0], Joined(lines[1..]));
    }
  }

  /** A line that holds the text, with more before and after it. */
  predicate Around(line: string, before: string, text: string, after: string) {
    line == before + text + after
  }

  lemma HasAnywhere(line: string, marker: string)
    ensures Has(line, marker) <==> exists before, after :: Around(line, before, marker, after)
  {
    if Has(line, marker) {
      var i :| 0 <= i <= |line| - |marker| && StandsAt(line, i, marker);
      assert line == line[..i] + marker + line[i + |marker|..];
      assert Around(line, line[..i], marker, line[i + |marker|..]);
    }
    forall before, after | Around(line, before, marker, after) ensures Has(line, marker) {
      assert StandsAt(line, |before|, marker);
    }
  }

  lemma {:induction false} SearchedJoined(lines: seq<string>)
    ensures lines != [] && Readable(lines) ==>
      (Searched(Stream(Joined(lines), true)) <==> exists i :: 0 <= i < |lines| && Has(lines[i], StartMark()))
    decreases |lines|
  {
    hide Has;
    hide StartMark;
    hide GetLine;
    hide Joined;
    if lines != [] && Readable(lines) {
      GetJoined(lines);
      if |lines| > 1 {
        SearchedJoined(lines[1..]);
        assert forall i :: 0 < i < |lines| ==> lines[i] == lines[1..][i - 1];
      }
    }
  }

  /** A file of readable lines counts as edited exactly when the start marker stands somewhere in one of them. */
  lemma EditedIff(lines: seq<string>)
    requires lines != [] && Readable(lines)
    ensures IsEdited(Joined(lines)) <==>
      exists i, before, after :: 0 <= i < |lines| && Around(lines[i], before, "//*** AnalyzeTool changes start ***", after)
  {
    hide Has;
    hide Joined;
    hide Around;
    hide Searched;
    SearchedJoined(lines);
    forall i | 0 <= i < |lines|
      ensures Has(lines[i], StartMark()) <==> exists before, after :: Around(lines[i], before, StartMark(), after)
    {
      HasAnywhere(lines[i], StartMark());
    }
  }

  /** A line is read whole up to 16383 characters; a longer one is cut there, and nothing after it is read. */
  lemma LongLineEndsReading(line: string, rest: string)
    requires OneLine(line)
    ensures GetLine(Stream(line + "\n" + rest, true)).1.good <==> |line| <= 16383
    ensures GetLine(Stream(line + "\n" + rest, true)).0 == if |line| <= 16383 then line else line[..16383]
  {
    NewlineAfter(line, rest);
    if |line| > 16383 {
      assert (line + "\n" + rest)[..16383] == line[..16383];
    }
  }

  /** The scan, line by line: the line after an end line is skipped unread. */
  function ScanList(lines: seq<string>, scan: Scan): Option<Scan>
    decreases |lines|
  {
    if lines == [] then Some(scan)
    else if Has(lines[0], StartMark()) && scan.lines == [] then None
    else
      var kept := Keep(if Has(lines[0], StartMark()) then AtStart(scan) else scan, lines[0]);
      if !Has(lines[0], EndMark()) then ScanList(lines[1..], kept)
      else ScanList(if |lines| == 1 then [] else lines[2..], kept.(reading := true, balance := kept.balance - 1))
  }

  function StreamOf(lines: seq<string>): Stream {
    if lines == [] then Stream("", false) else Stream(Joined(lines), true)
  }

  lemma AfterFirst(lines: seq<string>)
    ensures lines != [] && Readable(lines) ==> GetLine(StreamOf(lines)) == (lines[0], StreamOf(lines[1..]))
  {
    if lines != [] && Readable(lines) {
      GetJoined(lines);
    }
  }

  lemma ScannedOnce(lines: seq<string>, scan: Scan)
    requires lines != [] && Readable(lines)
    ensures Scanned(StreamOf(lines), scan) ==
      if Has(lines[0], StartMark()) && scan.lines == [] then None
      else
        var kept := Keep(if Has(lines[0], StartMark()) then AtStart(scan) else scan, lines[0]);
        if Has(lines[0], EndMark())
        then Scanned(StreamOf(if |lines| == 1 then [] else lines[2..]), kept.(reading := true, balance := kept.balance - 1))
        else Scanned(StreamOf(lines[1..]), kept)
  {
    hide StartMark;
    hide EndMark;
    hide Has;
    hide Joined;
    hide GetLine;
    hide AtStart;
    AfterFirst(lines);
    assert GetLine(StreamOf(lines[1..])).1 == StreamOf(if |lines| == 1 then [] else lines[2..]) by {
      if |lines| > 1 {
        AfterFirst(lines[1..]);
        assert lines[1..][1..] == lines[2..];
      }
    }
  }

  lemma NothingScanned(scan: Scan)
    ensures Scanned(StreamOf([]), scan) == Some(scan)
  {
  }

  lemma {:induction false} ScanIsList(lines: seq<string>, scan: Scan)
    ensures Readable(lines) ==> Scanned(StreamOf(lines), scan) == ScanList(lines, scan)
    decreases |lines|
  {
    hide StartMark;
    hide EndMark;
    hide Has;
    hide AtStart;
    hide Keep;
    hide Scanned;
    hide StreamOf;
    if Readable(lines) {
      if lines == [] {
        NothingScanned(scan);
      } else {
        ScannedOnce(lines, scan);
        assert Readable(lines[1..]) && Readable(if |lines| == 1 then [] else lines[2..]) by {
          hide OneLine;
        }
        hide Readable;
        var kept := Keep(if Has(lines[0], StartMark()) then AtStart(scan) else scan, lines[0]);
        if Has(lines[0], EndMark()) {
          ScanIsList(if |lines| == 1 then [] else lines[2..], kept.(reading := true, balance := kept.balance - 1));
        } else {
          ScanIsList(lines[1..], kept);
        }
      }
    }
  }

  /** A file of readable lines is scanned line by line. */
  lemma ScanFileIsList(lines: seq<string>)
    ensures lines != [] && Readable(lines) ==> ScanFile(Joined(lines)) == ScanList(lines, FRESH)
  {
    if lines != [] && Readable(lines) {
      ScanIsList(lines, FRESH);
    }
  }

  predicate IsStart(line: string) {
    Has(line, StartMark()) && !Has(line, EndMark())
  }

  predicate IsEnd(line: string) {
    Has(line, EndMark()) && !Has(line, StartMark())
  }

  predicate Unmarked(lines: seq<string>) {
    forall i :: 0 <= i < |lines| ==> !Has(lines[i], StartMark()) && !Has(lines[i], EndMark())
  }

  /** One run of changes, from its start line to its end line, and the lines between that and the next one. */
  datatype Section = Section(start: string, inside: seq<string>, end: string, after: seq<string>)

  /** Every section is marked at both ends only, and something follows it before the next start line. */
  ghost predicate Sections(sections: seq<Section>, rest: seq<string>) {
    && (forall i :: 0 <= i < |sections| ==>
          && IsStart(sections[i].start) && IsEnd(sections[i].end)
          && Unmarked(sections[i].inside) && Unmarked(sections[i].after))
    && (forall i :: 0 <= i < |sections| && (i < |sections| - 1 || rest != []) ==> sections[i].after != [])
  }

  /** The lines of the sections, and the rest after them. */
  function SectionLines(sections: seq<Section>, rest: seq<string>): seq<string>
    decreases |sections|
  {
    if sections == [] then rest
    else [sections[0].start] +
         (sections[0].inside + ([sections[0].end] + (sections[0].after + SectionLines(sections[1..], rest))))
  }

  function Tail(lines: seq<string>): seq<string> {
    if lines == [] then [] else lines[1..]
  }

  /** Each section costs the lines before it an empty last one, and the lines after it their first. Undefined
      when no line is left before a section. */
  function Kept(lines: seq<string>, sections: seq<Section>): Option<seq<string>>
    decreases |sections|
  {
    if sections == [] then Some(lines)
    else if lines == [] then None
    else Kept(Pop(lines) + Tail(sections[0].after), sections[1..])
  }

  lemma {:induction false} ScanUnmarked(lines: seq<string>, rest: seq<string>, scan: Scan)
    ensures Unmarked(lines) ==>
      ScanList(lines + rest, scan) == ScanList(rest, if scan.reading then scan.(lines := scan.lines + lines) else scan)
    decreases |lines|
  {
    hide StartMark;
    hide EndMark;
    hide Has;
    if Unmarked(lines) {
      if lines == [] {
        assert lines + rest == rest && scan.lines + lines == scan.lines;
      } else {
        assert (lines + rest)[0] == lines[0] && (lines + rest)[1..] == lines[1..] + rest;
        ScanUnmarked(lines[1..], rest, Keep(scan, lines[0]));
        assert scan.lines + [lines[0]] + lines[1..] == scan.lines + lines;
      }
    }
  }

  lemma ScanStart(start: string, rest: seq<string>, scan: Scan)
    ensures IsStart(start) ==>
      ScanList([start] + rest, scan) == if scan.lines == [] then None else ScanList(rest, AtStart(scan))
  {
    hide StartMark;
    hide EndMark;
    hide Has;
    if IsStart(start) {
      assert ([start] + rest)[0] == start && ([start] + rest)[1..] == rest;
    }
  }

  lemma ScanEnd(end: string, rest: seq<string>, scan: Scan)
    ensures IsEnd(end) && !scan.reading ==>
      ScanList([end] + rest, scan) == ScanList(Tail(rest), scan.(reading := true, balance := scan.balance - 1))
  {
    hide StartMark;
    hide EndMark;
    hide Has;
    if IsEnd(end) && !scan.reading {
      var lines := [end] + rest;
      assert lines[0] == end;
      assert rest != [] ==> lines[2..] == rest[1..];
    }
  }

  lemma ScanSection(section: Section, rest: seq<string>, scan: Scan)
    requires IsStart(section.start) && IsEnd(section.end) && Unmarked(section.inside) && Unmarked(section.after)
    requires scan.reading && (section.after != [] || rest == [])
    ensures ScanList([section.start] + (section.inside + ([section.end] + (section.after + rest))), scan) ==
      if scan.lines == [] then None
      else ScanList(rest, Scan(Pop(scan.lines) + Tail(section.after), true, scan.balance + 2))
  {
    hide ScanList;
    hide IsStart;
    hide IsEnd;
    hide Pop;
    var tail := section.after + rest;
    ScanStart(section.start, section.inside + ([section.end] + tail), scan);
    ScanUnmarked(section.inside, [section.end] + tail, AtStart(scan));
    ScanEnd(section.end, tail, AtStart(scan));
    assert Tail(section.after + rest) == Tail(section.after) + rest;
    assert Unmarked(Tail(section.after)) by {
      hide StartMark;
      hide EndMark;
      hide Has;
    }
    ScanUnmarked(Tail(section.after), rest, AtStart(scan).(reading := true, balance := scan.balance + 2));
  }

  lemma SectionsTail(sections: seq<Section>, rest: seq<string>)
    ensures Sections(sections, rest) && sections != [] ==>
      Sections(sections[1..], rest) && (sections[0].after != [] || SectionLines(sections[1..], rest) == [])
    ensures Sections(sections, rest) && sections != [] ==> IsStart(sections[0].start) && IsEnd(sections[0].end)
    ensures Sections(sections, rest) && sections != [] ==> Unmarked(sections[0].inside) && Unmarked(sections[0].after)
  {
    hide IsStart;
    hide IsEnd;
    hide Unmarked;
    if Sections(sections, rest) && sections != [] {
      if |sections| > 1 {
        assert sections[0].after != [];
      }
    }
  }

  lemma {:induction false} ScanSections(sections: seq<Section>, rest: seq<string>, lines: seq<string>, balance: int)
    requires Sections(sections, rest)
    ensures ScanList(SectionLines(sections, rest), Scan(lines, true, balance)) ==
      match Kept(lines, sections)
      case None => None
      case Some(kept) => ScanList(rest, Scan(kept, true, balance + 2 * |sections|))
    decreases |sections|
  {
    hide Sections;
    hide Pop;
    hide IsStart;
    hide IsEnd;
    hide Unmarked;
    hide ScanList;
    if sections == [] {
    } else {
      SectionsTail(sections, rest);
      ScanSection(sections[0], SectionLines(sections[1..], rest), Scan(lines, true, balance));
      ScanSections(sections[1..], rest, Pop(lines) + Tail(sections[0].after), balance + 2);
    }
  }

  /** A file's scan once it has passed its sections. */
  lemma ScanFileSections(front: seq<string>, sections: seq<Section>, rest: seq<string>)
    requires Unmarked(front) && Sections(sections, rest) && front + SectionLines(sections, rest) != []
    requires Readable(front + SectionLines(sections, rest))
    ensures ScanFile(Joined(front + SectionLines(sections, rest))) ==
      match Kept(front, sections)
      case None => None
      case Some(kept) => ScanList(rest, Scan(kept, true, 2 * |sections|))
  {
    hide Sections;
    hide Unmarked;
    hide Readable;
    hide Joined;
    hide ScanList;
    hide ScanFile;
    hide SectionLines;
    hide Kept;
    ScanFileIsList(front + SectionLines(sections, rest));
    ScanUnmarked(front, SectionLines(sections, rest), FRESH);
    assert FRESH.lines + front == front;
    ScanSections(sections, rest, front, 0);
  }

  lemma OddFails(scan: Scan, closed: nat, n: nat)
    ensures scan.balance == 2 * closed + 3 * n ==> (Failed(scan) <==> n % 2 != 0)
  {
  }

  /** Where every start line has its end line, a removal keeps the lines outside the changes, short of an empty
      line before each section and the line after it. */
  lemma RemoveKeeps(front: seq<string>, sections: seq<Section>)
    requires Unmarked(front) && Sections(sections, []) && front + SectionLines(sections, []) != []
    requires Readable(front + SectionLines(sections, []))
    ensures Remove(Joined(front + SectionLines(sections, []))) ==
      match Kept(front, sections)
      case None => None
      case Some(kept) => Some((Output(kept), true))
  {
    hide Sections;
    hide Unmarked;
    hide Readable;
    hide Joined;
    hide ScanFile;
    hide SectionLines;
    hide Kept;
    hide Output;
    hide Failed;
    ScanFileSections(front, sections, []);
    match Kept(front, sections)
    case None =>
    case Some(kept) =>
      var scan := Scan(kept, true, 2 * |sections|);
      assert ScanList([], scan) == Some(scan);
      OddFails(scan, |sections|, 0);
  }

  /** The lines outside the changes. */
  function Outside(lines: seq<string>, sections: seq<Section>): seq<string>
    decreases |sections|
  {
    if sections == [] then lines else Outside(lines + sections[0].after, sections[1..])
  }

  lemma {:induction false} KeptIsShorter(lines: seq<string>, more: seq<string>, sections: seq<Section>)
    ensures |lines| <= |more| && Kept(lines, sections).Some? ==>
      |Kept(lines, sections).value| <= |Outside(more, sections)|
    ensures |lines| <= |more| && Kept(lines, sections).Some? ==>
      |lines| < |more| ==> |Kept(lines, sections).value| < |Outside(more, sections)|
    decreases |sections|
  {
    if |lines| <= |more| && Kept(lines, sections).Some? {
      if sections == [] {
      } else {
        KeptIsShorter(Pop(lines) + Tail(sections[0].after), more + sections[0].after, sections[1..]);
      }
    }
  }

  /** A removal keeps every line outside the changes exactly when there is at most one section, directly after a
      line that is not empty and with no line, not even an unfinished empty one, after it. */
  lemma KeepsEveryLineIff(front: seq<string>, sections: seq<Section>)
    requires Sections(sections, [])
    ensures Kept(front, sections) == Some(Outside(front, sections)) <==>
      sections == [] || (|sections| == 1 && sections[0].after == [] && front != [] && front[|front| - 1] != "")
  {
    hide IsStart;
    hide IsEnd;
    hide Unmarked;
    if sections == [] || front == [] {
    } else {
      var next := Pop(front) + Tail(sections[0].after);
      if |next| < |front + sections[0].after| {
        if Kept(front, sections).Some? {
          KeptIsShorter(next, front + sections[0].after, sections[1..]);
        }
      } else {
        assert sections[0].after == [] && next == front == front + sections[0].after;
        assert |sections| == 1 && sections[1..] == [];
      }
    }
  }

  /** The lines that are not empty. */
  function Solid(lines: seq<string>): seq<string>
    decreases |lines|
  {
    if lines == [] then []
    else Solid(lines[..|lines| - 1]) + if lines[|lines| - 1] == "" then [] else [lines[|lines| - 1]]
  }

  lemma {:induction false} SolidAppend(lines: seq<string>, more: seq<string>)
    ensures Solid(lines + more) == Solid(lines) + Solid(more)
    decreases |more|
  {
    if more == [] {
      assert lines + more == lines;
    } else {
      SolidAppend(lines, more[..|more| - 1]);
      assert (lines + more)[..|lines + more| - 1] == lines + more[..|more| - 1];
    }
  }

  lemma SolidTail(lines: seq<string>)
    ensures Solid(lines) == (if lines == [] || lines[0] == "" then [] else [lines[0]]) + Solid(Tail(lines))
  {
    if lines != [] {
      SolidAppend([lines[0]], lines[1..]);
      assert [lines[0]] + lines[1..] == lines;
      assert [lines[0]][..0] == [];
    }
  }

  ghost predicate EmptyAfterEach(sections: seq<Section>) {
    forall i :: 0 <= i < |sections| ==> sections[i].after == [] || sections[i].after[0] == ""
  }

  lemma SolidNext(lines: seq<string>, after: seq<string>)
    ensures Solid(Pop(lines) + Tail(after)) == Solid(lines) + Solid(Tail(after))
    ensures Solid(lines + after) == Solid(lines) + Solid(after)
  {
    SolidAppend(Pop(lines), Tail(after));
    assert Solid(Pop(lines)) == Solid(lines);
    SolidAppend(lines, after);
  }

  lemma {:induction false} SolidIsShorter(lines: seq<string>, more: seq<string>, sections: seq<Section>)
    requires Kept(lines, sections).Some? && |Solid(lines)| <= |Solid(more)|
    ensures |Solid(Kept(lines, sections).value)| <= |Solid(Outside(more, sections))|
    ensures |Solid(lines)| < |Solid(more)| || !EmptyAfterEach(sections) ==>
      |Solid(Kept(lines, sections).value)| < |Solid(Outside(more, sections))|
    decreases |sections|
  {
    hide Solid;
    hide Pop;
    if sections == [] {
    } else {
      var after := sections[0].after;
      SolidNext(lines, after);
      SolidNext(more, after);
      SolidTail(after);
      SolidIsShorter(Pop(lines) + Tail(after), more + after, sections[1..]);
      if after == [] || after[0] == "" {
        assert EmptyAfterEach(sections[1..]) ==> EmptyAfterEach(sections) by {
          assert sections == [sections[0]] + sections[1..];
        }
      }
    }
  }

  lemma {:induction false} SolidStays(lines: seq<string>, more: seq<string>, sections: seq<Section>)
    requires Kept(lines, sections).Some? && Solid(lines) == Solid(more) && EmptyAfterEach(sections)
    ensures Solid(Kept(lines, sections).value) == Solid(Outside(more, sections))
    decreases |sections|
  {
    hide Solid;
    hide Pop;
    if sections == [] {
    } else {
      var after := sections[0].after;
      SolidNext(lines, after);
      SolidNext(more, after);
      SolidTail(after);
      assert EmptyAfterEach(sections[1..]) by {
        assert sections == [sections[0]] + sections[1..];
      }
      SolidStays(Pop(lines) + Tail(after), more + after, sections[1..]);
    }
  }

  /** A removal keeps every line outside the changes that is not empty, exactly when the first line after each
      end line is empty, or there is none. */
  lemma KeepsSolidLinesIff(front: seq<string>, sections: seq<Section>)
    requires Kept(front, sections).Some?
    ensures Solid(Kept(front, sections).value) == Solid(Outside(front, sections)) <==> EmptyAfterEach(sections)
  {
    hide Solid;
    if EmptyAfterEach(sections) {
      SolidStays(front, front, sections);
    } else {
      SolidIsShorter(front, front, sections);
    }
  }

  // ---------------------------------------------------------------- start lines without an end line

  function Starts(lines: seq<string>): nat
    decreases |lines|
  {
    if lines == [] then 0 else (if Has(lines[0], StartMark()) then 1 else 0) + Starts(lines[1..])
  }

  ghost predicate NoEnds(lines: seq<string>) {
    forall i :: 0 <= i < |lines| ==> !Has(lines[i], EndMark())
  }

  /** While not reading, each further start line takes an empty line off what was collected. */
  lemma {:induction false} ScanUnclosed(lines: seq<string>, scan: Scan)
    requires NoEnds(lines) && !scan.reading
    ensures ScanList(lines, scan) ==
      match PopTimes(scan.lines, Starts(lines))
      case None => None
      case Some(left) => Some(Scan(left, false, scan.balance + 3 * Starts(lines)))
    decreases |lines|
  {
    hide StartMark;
    hide EndMark;
    hide Has;
    if lines == [] {
    } else if Has(lines[0], StartMark()) {
      if scan.lines != [] {
        ScanUnclosed(lines[1..], AtStart(scan));
      }
    } else {
      ScanUnclosed(lines[1..], scan);
    }
  }

  lemma ScanFromUnclosed(start: string, more: seq<string>, scan: Scan)
    requires IsStart(start) && NoEnds(more) && scan.reading
    ensures ScanList([start] + more, scan) ==
      match PopTimes(scan.lines, 1 + Starts(more))
      case None => None
      case Some(left) => Some(Scan(left, false, scan.balance + 3 * (1 + Starts(more))))
  {
    hide IsStart;
    hide NoEnds;
    hide ScanList;
    hide Starts;
    hide Pop;
    ScanStart(start, more, scan);
    if scan.lines != [] {
      ScanUnclosed(more, AtStart(scan));
    }
  }

  /** Start lines with no end line after them: the removal takes out the rest of the file, and reports success,
      exactly when their number is even. */
  lemma UnclosedIsDroppedIff(front: seq<string>, sections: seq<Section>, start: string, more: seq<string>)
    requires Unmarked(front) && Sections(sections, [start] + more) && IsStart(start) && NoEnds(more)
    requires Readable(front + SectionLines(sections, [start] + more))
    requires front + SectionLines(sections, [start] + more) != []
    ensures var text, n := Joined(front + SectionLines(sections, [start] + more)), 1 + Starts(more);
      Remove(text) ==
        match Kept(front, sections)
        case None => None
        case Some(kept) =>
          match PopTimes(kept, n)
          case None => None
          case Some(left) => Some(if n % 2 == 0 then (Output(left), true) else (text, false))
  {
    hide Unmarked;
    hide Sections;
    hide IsStart;
    hide NoEnds;
    hide Readable;
    hide Joined;
    hide ScanList;
    hide ScanFile;
    hide SectionLines;
    hide Starts;
    hide Kept;
    hide PopTimes;
    hide Failed;
    hide Output;
    ScanFileSections(front, sections, [start] + more);
    match Kept(front, sections)
    case None =>
    case Some(kept) =>
      var n := 1 + Starts(more);
      ScanFromUnclosed(start, more, Scan(kept, true, 2 * |sections|));
      match PopTimes(kept, n)
      case None =>
      case Some(left) =>
        OddFails(Scan(left, false, 2 * |sections| + 3 * n), |sections|, n);
  }

  // ---------------------------------------------------------------- recovery

  /** Lines as they are collected: read whole, and no start line. */
  predicate Collected(lines: seq<string>) {
    forall i :: 0 <= i < |lines| ==> |lines[i]| <= LIMIT && OneLine(lines[i]) && !Has(lines[i], StartMark())
  }

  lemma {:induction false} ScanCollects(s: Stream, scan: Scan)
    ensures Collected(scan.lines) ==> Scanned(s, scan).Some? ==> Collected(Scanned(s, scan).value.lines)
    decreases |s.rest|, s.good
  {
    if Collected(scan.lines) {
      if !s.good {
      } else {
        var (line, next) := GetLine(s);
        assert |GetLine(s).0| <= LIMIT && OneLine(GetLine(s).0);
        if !(Has(line, StartMark()) && scan.lines == []) {
          var kept := Keep(if Has(line, StartMark()) then AtStart(scan) else scan, line);
          assert Collected(kept.lines);
          if Has(line, EndMark()) {
            ScanCollects(GetLine(next).1, kept.(reading := true, balance := kept.balance - 1));
          } else {
            ScanCollects(next, kept);
          }
        }
      }
    }
  }

  lemma {:induction false} CollectedIsNotEdited(lines: seq<string>)
    ensures Collected(lines) ==> !IsEdited(Output(lines))
    decreases |lines|
  {
    if Collected(lines) {
      if lines == [] {
        assert !Has("", StartMark());
      } else {
        OutputFirst(lines);
        GetWholeLine(lines[0], Output(lines[1..]));
        CollectedIsNotEdited(lines[1..]);
      }
    }
  }

  /** A removal that succeeds leaves no start line, whatever the text was. */
  lemma RemoveLeavesNoStart(text: string)
    requires ScanFile(text).Some?
    ensures Remove(text).value.1 ==> !IsEdited(Remove(text).value.0)
  {
    ScanCollects(Stream(text, true), FRESH);
    CollectedIsNotEdited(ScanFile(text).value.lines);
  }

  /** After a recovery that succeeds, no start line is left; a file without one is not touched; and a backup without one
      takes the place of a file that has one. A recovery fails only where it has to remove, and that fails. */
  lemma RecoveryLeavesNoStart(text: string, backup: Option<string>)
    requires CanRecover(text, backup)
    ensures var (recovered, ok) := Recovered(text, backup);
      && (ok ==> !IsEdited(recovered)) && (!IsEdited(text) ==> recovered == text)
      && (IsEdited(text) && backup.Some? && !IsEdited(backup.value) ==> recovered == backup.value)
      && (!ok <==> IsEdited(text) && (backup.None? || IsEdited(backup.value)) && Failed(ScanFile(text).value))
  {
    if IsEdited(text) && (backup.None? || IsEdited(backup.value)) {
      RemoveLeavesNoStart(text);
    }
  }
}
