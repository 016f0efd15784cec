/** Which module a memory leak is charged to, told from the lines of the data file alone. */
module LeakHistory {
  import opened Wrappers
  import opened LeakAttribution

  // ---------------------------------------------------------------- what the lines say

  /** The line after the last process start. */
  function Start(commands: seq<Command>): (start: nat)
    ensures start <= |commands|
    decreases |commands|
  {
    if commands == [] then 0
    else if commands[|commands| - 1].ProcessStart? then |commands|
    else Start(commands[..|commands| - 1])
  }

  /** The data version: the last one a process start gave, 1 before that. */
  function Version(commands: seq<Command>): nat
    decreases |commands|
  {
    if commands == [] then 1
    else
      var last := commands[|commands| - 1];
      if last.ProcessStart? && last.version != 0 then last.version else Version(commands[..|commands| - 1])
  }

  /** The last start or end of a subtest was a start. */
  function Ongoing(commands: seq<Command>): bool
    decreases |commands|
  {
    commands != [] &&
    var last := commands[|commands| - 1];
    last.TestStart? || (!last.TestEnd? && Ongoing(commands[..|commands| - 1]))
  }

  predicate Loads(c: Command, name: string) {
    c.DllLoad? && c.name == name
  }

  predicate Unloads(c: Command, name: string) {
    c.DllUnload? && c.name == name && c.time.Some?
  }

  /** Line i loads a module, and none since the process start loaded one of that name before it. */
  ghost predicate IsLoading(commands: seq<Command>, i: nat) {
    && Start(commands) <= i < |commands| && commands[i].DllLoad?
    && (forall k :: Start(commands) <= k < i ==> !Loads(commands[k], commands[i].name))
  }

  /** The time line i gives for the load; 0 when there is none, or the version has none. */
  function LoadTime(commands: seq<Command>, i: nat): nat
    requires i < |commands| && commands[i].DllLoad?
  {
    if Version(commands) >= TIMESTAMP_VERSION && commands[i].time.Some? then commands[i].time.value else 0
  }

  /** The time of the last unloading of the name after line i, or 0. */
  function LastUnload(commands: seq<Command>, i: nat, name: string): nat
    decreases |commands|
  {
    if |commands| <= i + 1 then 0
    else if Unloads(commands[|commands| - 1], name) then commands[|commands| - 1].time.value
    else LastUnload(commands[..|commands| - 1], i, name)
  }

  /** The module loaded by line i held the address at that time: within its bounds, and if its load time is known,
      loaded by then and not last unloaded before. */
  predicate Covers(commands: seq<Command>, i: nat, address: nat, at: nat)
    requires i < |commands| && commands[i].DllLoad?
  {
    var loaded, unloaded := LoadTime(commands, i), LastUnload(commands, i, commands[i].name);
    && commands[i].start <= address < commands[i].end
    && (loaded > 0 ==> loaded <= at && (unloaded == 0 || at <= unloaded))
  }

  ghost predicate CoveredBy(commands: seq<Command>, i: nat, address: nat, at: nat) {
    IsLoading(commands, i) && Covers(commands, i, address, at)
  }

  /** Line i is the first that covers the address. */
  ghost predicate FirstToCover(commands: seq<Command>, i: nat, address: nat, at: nat) {
    CoveredBy(commands, i, address, at) && forall k :: 0 <= k < i ==> !CoveredBy(commands, k, address, at)
  }

  ghost predicate Uncovered(commands: seq<Command>, address: nat, at: nat) {
    forall k :: 0 <= k < |commands| ==> !CoveredBy(commands, k, address, at)
  }

  /** Line i is the first to cover address a of the stack, and no address before it is covered. */
  ghost predicate BlamedAt(commands: seq<Command>, i: nat, at: nat, stack: seq<nat>, a: nat) {
    a < |stack| && FirstToCover(commands, i, stack[a], at) && forall b :: 0 <= b < a ==> Uncovered(commands, stack[b], at)
  }

  /** A leak after these lines is the fault of the module of that name. */
  ghost predicate Blamed(commands: seq<Command>, name: string, at: nat, stack: seq<nat>) {
    exists i: nat, a: nat :: BlamedAt(commands, i, at, stack, a) && commands[i].name == name
  }

  /** The leaks outside subtests since the process start that are the fault of the module of that name. */
  ghost function RunLeaks(commands: seq<Command>, name: string): nat
    decreases |commands|
  {
    if commands == [] then 0
    else
      var before, c := commands[..|commands| - 1], commands[|commands| - 1];
      if c.ProcessStart? then 0
      else RunLeaks(before, name) + if c.MemLeak? && !Ongoing(before) && Blamed(before, name, c.at, c.stack) then 1 else 0
  }

  /** The leaks inside subtests since the last start of a subtest or process, likewise. */
  ghost function SubtestLeaks(commands: seq<Command>, name: string): nat
    decreases |commands|
  {
    if commands == [] then 0
    else
      var before, c := commands[..|commands| - 1], commands[|commands| - 1];
      if c.ProcessStart? || c.TestStart? then 0
      else SubtestLeaks(before, name) + if c.MemLeak? && Ongoing(before) && Blamed(before, name, c.at, c.stack) then 1 else 0
  }

  // ---------------------------------------------------------------- one unload

  /** The first module of the name has the unload time, and nothing else differs. */
  ghost predicate RecordedIn(before: seq<Module>, after: seq<Module>, name: string, time: nat) {
    && |after| == |before|
    && (forall i :: 0 <= i < |before| ==>
      after[i] == if before[i].name == name && (forall k :: 0 <= k < i ==> before[k].name != name)
        then before[i].(unloadTime := time) else before[i])
  }

  /** An unload with a time, from version 2 on, is recorded in both lists, and changes nothing else; any other
      unload changes nothing at all. */
  lemma UnloadIsRecorded(p: Parser, name: string, time: Option<nat>)
    ensures var after := Parse(p, DllUnload(name, time));
      && after == p.(run := after.run, subtest := after.subtest)
      && (if p.version >= 2 && time.Some?
        then RecordedIn(p.run, after.run, name, time.value) && RecordedIn(p.subtest, after.subtest, name, time.value)
        else after == p)
  {
    if p.version >= TIMESTAMP_VERSION && time.Some? {
      UnloadedIsRecorded(p.run, name, time.value);
      UnloadedIsRecorded(p.subtest, name, time.value);
    }
  }

  lemma UnloadedIsRecorded(modules: seq<Module>, name: string, time: nat)
    ensures RecordedIn(modules, Unloaded(modules, name, time), name, time)
  {
    var index := FindName(modules, name, 0);
    forall i | 0 <= i < |modules|
      ensures (modules[i].name == name && (forall k :: 0 <= k < i ==> modules[k].name != name)) <==> i == index
    {
      if i == index {
      } else if i < index {
        assert modules[i].name != name;
      } else {
        assert modules[index].name == name;
      }
    }
  }

  // ---------------------------------------------------------------- the lists follow the lines

  /** The module is what the lines say about the one loaded by line i. */
  ghost predicate IsEntry(m: Module, commands: seq<Command>, i: nat) {
    && i < |commands| && commands[i].DllLoad?
    && m.name == commands[i].name && m.start == commands[i].start && m.end == commands[i].end
    && m.loadTime == LoadTime(commands, i)
    && m.unloadTime == if Version(commands) < TIMESTAMP_VERSION then 0 else LastUnload(commands, i, commands[i].name)
  }

  ghost predicate Ascending(lines: seq<nat>) {
    forall j, k :: 0 <= j < k < |lines| ==> lines[j] < lines[k]
  }

  /** The modules are those the lines load, in the order of these lines. */
  ghost predicate Follows(modules: seq<Module>, commands: seq<Command>, lines: seq<nat>) {
    && |modules| == |lines| && Ascending(lines)
    && (forall k :: 0 <= k < |lines| ==> IsLoading(commands, lines[k]) && IsEntry(modules[k], commands, lines[k]))
    && (forall i: nat :: IsLoading(commands, i) ==> i in lines)
  }

  lemma Appended(commands: seq<Command>, c: Command)
    ensures (commands + [c])[..|commands|] == commands && (commands + [c])[|commands|] == c
  {
  }

  lemma StartAfter(commands: seq<Command>, c: Command)
    ensures Start(commands + [c]) == if c.ProcessStart? then |commands| + 1 else Start(commands)
    ensures Version(commands + [c]) == if c.ProcessStart? && c.version != 0 then c.version else Version(commands)
    ensures Ongoing(commands + [c]) == (c.TestStart? || (!c.TestEnd? && Ongoing(commands)))
    ensures ParseAll(commands + [c]) == Parse(ParseAll(commands), c)
  {
    hide Parse;
    Appended(commands, c);
  }

  lemma UnloadAfter(commands: seq<Command>, c: Command, i: nat, name: string)
    ensures i < |commands| ==>
      LastUnload(commands + [c], i, name) == if Unloads(c, name) then c.time.value else LastUnload(commands, i, name)
  {
    if i < |commands| {
      Appended(commands, c);
    }
  }

  lemma LoadingAfter(commands: seq<Command>, c: Command, i: nat)
    ensures i < |commands| && !c.ProcessStart? ==> (IsLoading(commands + [c], i) <==> IsLoading(commands, i))
  {
    hide Start;
    if i < |commands| && !c.ProcessStart? {
      StartAfter(commands, c);
    }
  }

  lemma EntryAfter(m: Module, commands: seq<Command>, c: Command, i: nat)
    requires i < |commands| && !c.ProcessStart? && IsEntry(m, commands, i)
    ensures IsEntry(
      if Version(commands) >= TIMESTAMP_VERSION && Unloads(c, m.name) then m.(unloadTime := c.time.value) else m,
      commands + [c], i)
  {
    StartAfter(commands, c);
    UnloadAfter(commands, c, i, m.name);
    hide Version;
    hide LastUnload;
  }

  /** The first line of that name since the process start. */
  lemma {:induction false} FirstLoad(commands: seq<Command>, k: nat) returns (i: nat)
    requires Start(commands) <= k < |commands| && commands[k].DllLoad?
    ensures i <= k && IsLoading(commands, i) && commands[i].name == commands[k].name
    decreases k
  {
    hide Start;
    if j: nat :| Start(commands) <= j < k && Loads(commands[j], commands[k].name) {
      i := FirstLoad(commands, j);
    } else {
      i := k;
    }
  }

  /** As far as the lines go that were there before. */
  ghost predicate FollowsSoFar(modules: seq<Module>, commands: seq<Command>, lines: seq<nat>) {
    && |modules| == |lines| && Ascending(lines)
    && (forall k :: 0 <= k < |lines| ==> IsLoading(commands, lines[k]) && IsEntry(modules[k], commands, lines[k]))
    && (forall i: nat :: i < |commands| - 1 && IsLoading(commands, i) ==> i in lines)
    && (forall k :: 0 <= k < |lines| ==> lines[k] < |commands| - 1)
  }

  /** Each unloaded module is given its time. */
  ghost predicate Timed(modules: seq<Module>, after: seq<Module>, commands: seq<Command>, c: Command) {
    && |after| == |modules|
    && (forall k :: 0 <= k < |modules| ==>
      after[k] == if Version(commands) >= TIMESTAMP_VERSION && Unloads(c, modules[k].name)
        then modules[k].(unloadTime := c.time.value) else modules[k])
  }

  lemma KeepsFollowing(
      modules: seq<Module>, after: seq<Module>, commands: seq<Command>, c: Command, lines: seq<nat>)
    requires Follows(modules, commands, lines) && !c.ProcessStart? && Timed(modules, after, commands, c)
    ensures FollowsSoFar(after, commands + [c], lines)
  {
    hide IsEntry;
    hide IsLoading;
    hide Version;
    forall i: nat | i < |commands| ensures IsLoading(commands + [c], i) <==> IsLoading(commands, i) {
      LoadingAfter(commands, c, i);
    }
    forall k | 0 <= k < |lines| ensures lines[k] < |commands| && IsEntry(after[k], commands + [c], lines[k]) {
      LoadingInRange(commands, lines[k]);
      EntryAfter(modules[k], commands, c, lines[k]);
    }
  }

  lemma LoadingInRange(commands: seq<Command>, i: nat)
    ensures IsLoading(commands, i) ==> i < |commands|
  {
  }

  lemma OtherFollows(modules: seq<Module>, commands: seq<Command>, c: Command, lines: seq<nat>)
    requires FollowsSoFar(modules, commands + [c], lines) && !IsLoading(commands + [c], |commands|)
    ensures Follows(modules, commands + [c], lines)
  {
    hide IsEntry;
    forall i: nat | IsLoading(commands + [c], i) ensures i in lines {
      LoadingInRange(commands + [c], i);
    }
    hide IsLoading;
  }

  lemma LoadFollows(modules: seq<Module>, m: Module, commands: seq<Command>, c: Command, lines: seq<nat>)
    requires FollowsSoFar(modules, commands + [c], lines)
    requires IsLoading(commands + [c], |commands|) && IsEntry(m, commands + [c], |commands|)
    ensures Follows(modules + [m], commands + [c], lines + [|commands|])
  {
    hide IsEntry;
    forall i: nat | IsLoading(commands + [c], i) ensures i in lines + [|commands|] {
      LoadingInRange(commands + [c], i);
      if i < |commands| {
        assert i in lines;
      } else {
        assert (lines + [|commands|])[|lines|] == i;
      }
    }
    hide IsLoading;
  }

  lemma EntryNames(modules: seq<Module>, commands: seq<Command>, lines: seq<nat>, k: nat)
    ensures Follows(modules, commands, lines) && k < |lines| ==>
      lines[k] < |commands| && commands[lines[k]].DllLoad? && commands[lines[k]].name == modules[k].name
    ensures Follows(modules, commands, lines) && k < |lines| ==> IsLoading(commands, lines[k])
  {
    hide Start;
    hide Version;
    hide LastUnload;
    hide Ascending;
  }

  lemma LoadedNameIsFound(modules: seq<Module>, commands: seq<Command>, lines: seq<nat>, k: nat)
    requires Follows(modules, commands, lines) && Start(commands) <= k < |commands| && commands[k].DllLoad?
    ensures FindName(modules, commands[k].name, 0) < |modules|
  {
    hide Follows;
    hide Start;
    hide IsLoading;
    var i := FirstLoad(commands, k);
    var j := EntryOf(modules, commands, lines, i);
    EntryNames(modules, commands, lines, j);
  }

  /** The new line is a loading one exactly when the name is not in the list. */
  lemma NewNames(modules: seq<Module>, commands: seq<Command>, c: Command, lines: seq<nat>)
    ensures Follows(modules, commands, lines) && c.DllLoad? ==>
      (IsLoading(commands + [c], |commands|) <==> FindName(modules, c.name, 0) == |modules|)
  {
    hide Follows;
    if Follows(modules, commands, lines) && c.DllLoad? {
      StartAfter(commands, c);
      hide Start;
      var index := FindName(modules, c.name, 0);
      if index < |modules| {
        FollowsLength(modules, commands, lines);
        EntryNames(modules, commands, lines, index);
        assert Loads((commands + [c])[lines[index]], c.name);
      } else {
        forall k | Start(commands) <= k < |commands| && commands[k].DllLoad?
          ensures FindName(modules, commands[k].name, 0) < |modules|
        {
          LoadedNameIsFound(modules, commands, lines, k);
        }
      }
    }
  }

  lemma FollowsLength(modules: seq<Module>, commands: seq<Command>, lines: seq<nat>)
    ensures Follows(modules, commands, lines) ==> |modules| == |lines|
  {
  }

  lemma EntryOf(modules: seq<Module>, commands: seq<Command>, lines: seq<nat>, i: nat) returns (k: nat)
    requires Follows(modules, commands, lines) && IsLoading(commands, i)
    ensures k < |lines| == |modules| && lines[k] == i
  {
    hide IsEntry;
    hide IsLoading;
    hide Ascending;
    assert i in lines;
    k :| 0 <= k < |lines| && lines[k] == i;
  }

  lemma FollowersDiffer(modules: seq<Module>, commands: seq<Command>, lines: seq<nat>)
    ensures Follows(modules, commands, lines) ==> NamesDiffer(modules)
  {
    if Follows(modules, commands, lines) {
      forall i, j | 0 <= i < j < |modules| ensures modules[i].name != modules[j].name {
        EntryNames(modules, commands, lines, i);
        EntryNames(modules, commands, lines, j);
        hide IsEntry;
        assert !Loads(commands[lines[i]], commands[lines[j]].name);
      }
    }
  }

  lemma UnloadedIsTimed(modules: seq<Module>, commands: seq<Command>, c: Command)
    requires NamesDiffer(modules) && c.DllUnload?
    ensures Timed(modules,
      if Version(commands) < TIMESTAMP_VERSION || c.time.None? then modules else Unloaded(modules, c.name, c.time.value),
      commands, c)
  {
    hide Version;
  }

  lemma FollowsParallel(a: seq<Module>, b: seq<Module>, commands: seq<Command>, lines: seq<nat>)
    ensures Follows(a, commands, lines) && Parallel(a, b) ==> Follows(b, commands, lines)
  {
    hide IsLoading;
    if Follows(a, commands, lines) && Parallel(a, b) {
      forall k | 0 <= k < |lines| ensures IsEntry(b[k], commands, lines[k]) {
        assert IsEntry(a[k], commands, lines[k]);
        assert a[k].(leaks := 0) == b[k].(leaks := 0);
        hide Version;
        hide LastUnload;
        hide LoadTime;
      }
    }
  }

  /** The run's list after a line that is no leak. */
  lemma NextFollows(p: Parser, commands: seq<Command>, c: Command, lines: seq<nat>) returns (next: seq<nat>)
    requires Follows(p.run, commands, lines) && p.version == Version(commands) && !c.ProcessStart? && !c.MemLeak?
    ensures Follows(Parse(p, c).run, commands + [c], next)
  {
    hide Follows;
    hide FollowsSoFar;
    hide Version;
    hide IsEntry;
    hide NamesDiffer;
    next := lines;
    FollowersDiffer(p.run, commands, lines);
    if c.DllLoad? {
      KeepsFollowing(p.run, p.run, commands, c, lines);
      NewNames(p.run, commands, c, lines);
      if FindName(p.run, c.name, 0) == |p.run| {
        NewEntry(p, commands, c);
        LoadFollows(p.run, ModuleOf(p, c), commands, c, lines);
        next := lines + [|commands|];
      } else {
        OtherFollows(p.run, commands, c, lines);
      }
    } else {
      if c.DllUnload? {
        UnloadedIsTimed(p.run, commands, c);
      }
      KeepsFollowing(p.run, Parse(p, c).run, commands, c, lines);
      OtherFollows(Parse(p, c).run, commands, c, lines);
    }
  }

  lemma NewEntry(p: Parser, commands: seq<Command>, c: Command)
    ensures p.version == Version(commands) && c.DllLoad? ==> IsEntry(ModuleOf(p, c), commands + [c], |commands|)
  {
    hide Version;
    if p.version == Version(commands) && c.DllLoad? {
      StartAfter(commands, c);
    }
  }

  lemma LeakFollows(p: Parser, commands: seq<Command>, c: Command, lines: seq<nat>)
    ensures Follows(p.run, commands, lines) && c.MemLeak? ==> Follows(Parse(p, c).run, commands + [c], lines)
  {
    hide Follows;
    hide FollowsSoFar;
    if Follows(p.run, commands, lines) && c.MemLeak? {
      KeepsFollowing(p.run, p.run, commands, c, lines);
      OtherFollows(p.run, commands, c, lines);
      var charges := Charges(p.run, c.at, c.stack, "", 0);
      ChargeAllShape(p.run, charges);
      hide ChargeAll;
      if !p.subtestOngoing {
        FollowsParallel(p.run, ChargeAll(p.run, charges), commands + [c], lines);
      }
    }
  }

  /** Over every data file, each list holds one entry for each name loaded since the process start, in the order of
      the first lines to load it: its bounds and load time are that line's, its unload time the last one given
      after it; and the version and the subtest going on are the last ones told. */
  lemma {:induction false} ListsFollowLines(commands: seq<Command>) returns (lines: seq<nat>)
    ensures var p := ParseAll(commands);
      && Follows(p.run, commands, lines) && Follows(p.subtest, commands, lines)
      && p.version == Version(commands) && p.subtestOngoing == Ongoing(commands)
    decreases |commands|
  {
    hide Follows;
    if commands == [] {
      lines := [];
      NothingFollows(commands);
    } else {
      var before, c := commands[..|commands| - 1], commands[|commands| - 1];
      assert commands == before + [c];
      lines := ListsFollowLines(before);
      StartAfter(before, c);
      if c.ProcessStart? {
        lines := [];
        NothingFollows(commands);
      } else if c.MemLeak? {
        LeakFollows(ParseAll(before), before, c, lines);
      } else {
        lines := NextFollows(ParseAll(before), before, c, lines);
      }
      ListsStayParallel(commands);
      hide Parallel;
      hide Version;
      hide Ongoing;
      FollowsParallel(ParseAll(commands).run, ParseAll(commands).subtest, commands, lines);
    }
  }

  lemma NothingFollows(commands: seq<Command>)
    ensures Start(commands) == |commands| ==> Follows([], commands, [])
  {
  }

  // ---------------------------------------------------------------- who is charged

  lemma EntryCovers(modules: seq<Module>, commands: seq<Command>, lines: seq<nat>, k: nat, address: nat, at: nat)
    ensures Follows(modules, commands, lines) && k < |modules| ==>
      (k < |lines| && (CoveredBy(commands, lines[k], address, at) <==> Holds(modules[k], address, at)))
  {
    if Follows(modules, commands, lines) && k < |modules| {
      assert IsEntry(modules[k], commands, lines[k]);
      hide Ascending;
      hide Start;
      hide Version;
      hide LastUnload;
    }
  }

  /** The module found for an address is that of the first line to cover it. */
  lemma FoundIsFirst(modules: seq<Module>, commands: seq<Command>, lines: seq<nat>, address: nat, at: nat)
    requires Follows(modules, commands, lines)
    ensures |lines| == |modules|
    ensures var index := FindModule(modules, address, at, 0);
      if index < |modules| then FirstToCover(commands, lines[index], address, at) else Uncovered(commands, address, at)
  {
    FollowsLength(modules, commands, lines);
    var index := FindModule(modules, address, at, 0);
    if index < |modules| {
      EntryCovers(modules, commands, lines, index, address, at);
    }
    forall i: nat | CoveredBy(commands, i, address, at) ensures index < |modules| && lines[index] <= i {
      CoveredIsFound(modules, commands, lines, address, at, i);
    }
  }

  lemma CoveredIsFound(modules: seq<Module>, commands: seq<Command>, lines: seq<nat>, address: nat, at: nat, i: nat)
    requires Follows(modules, commands, lines) && |lines| == |modules| && CoveredBy(commands, i, address, at)
    ensures var index := FindModule(modules, address, at, 0); index < |modules| && lines[index] <= i
  {
    hide Holds;
    hide Covers;
    hide IsEntry;
    hide IsLoading;
    var k := EntryOf(modules, commands, lines, i);
    EntryCovers(modules, commands, lines, k, address, at);
  }

  /** The first address of the stack that hits a module, from address i on. */
  lemma {:induction false} CulpritAt(modules: seq<Module>, at: nat, stack: seq<nat>, i: nat) returns (a: nat)
    requires i <= |stack|
    ensures i <= a <= |stack|
    ensures forall b :: i <= b < a ==> !Hits(modules, stack[b], at)
    ensures a < |stack| ==>
      Hits(modules, stack[a], at) && Culprit(modules, at, stack, i) == FindModule(modules, stack[a], at, 0)
    ensures a == |stack| ==> Culprit(modules, at, stack, i) == |modules|
    decreases |stack| - i
  {
    hide Holds;
    if i == |stack| || Hits(modules, stack[i], at) {
      a := i;
    } else {
      a := CulpritAt(modules, at, stack, i + 1);
    }
  }

  /** A line is blamed for at most one address, and at most one line is. */
  lemma BlameIsUnique(commands: seq<Command>, at: nat, stack: seq<nat>, i: nat, a: nat, j: nat, b: nat)
    requires BlamedAt(commands, i, at, stack, a) && BlamedAt(commands, j, at, stack, b)
    ensures i == j && a == b
  {
    hide CoveredBy;
    BlameIsEarliest(commands, at, stack, i, a, j, b);
    BlameIsEarliest(commands, at, stack, j, b, i, a);
  }

  lemma BlameIsEarliest(commands: seq<Command>, at: nat, stack: seq<nat>, i: nat, a: nat, j: nat, b: nat)
    requires a < |stack| && CoveredBy(commands, i, stack[a], at) && BlamedAt(commands, j, at, stack, b)
    ensures b <= a
  {
    CoveredInRange(commands, i, stack[a], at);
    hide CoveredBy;
  }

  lemma CoveredInRange(commands: seq<Command>, i: nat, address: nat, at: nat)
    ensures CoveredBy(commands, i, address, at) ==> i < |commands|
  {
  }

  /** The parser's culprit is the module blamed. */
  lemma CulpritIsBlamed(p: Parser, commands: seq<Command>, lines: seq<nat>, at: nat, stack: seq<nat>, name: string)
    requires Follows(p.run, commands, lines)
    ensures var culprit := Culprit(p.run, at, stack, 0);
      Blamed(commands, name, at, stack) <==> culprit < |p.run| && p.run[culprit].name == name
  {
    hide Follows;
    hide FirstToCover;
    hide Uncovered;
    var culprit := Culprit(p.run, at, stack, 0);
    var a := CulpritAt(p.run, at, stack, 0);
    forall b | 0 <= b < a ensures Uncovered(commands, stack[b], at) {
      FoundIsFirst(p.run, commands, lines, stack[b], at);
    }
    if a < |stack| {
      FoundIsFirst(p.run, commands, lines, stack[a], at);
      EntryNames(p.run, commands, lines, culprit);
      assert BlamedAt(commands, lines[culprit], at, stack, a);
      forall i: nat, b: nat | BlamedAt(commands, i, at, stack, b) ensures i == lines[culprit] {
        BlameIsUnique(commands, at, stack, i, b, lines[culprit], a);
      }
    } else {
      forall i: nat, b: nat ensures !BlamedAt(commands, i, at, stack, b) {
        NotBlamed(commands, i, at, stack, b);
      }
    }
  }

  lemma NotBlamed(commands: seq<Command>, i: nat, at: nat, stack: seq<nat>, b: nat)
    ensures (b < |stack| ==> Uncovered(commands, stack[b], at)) ==> !BlamedAt(commands, i, at, stack, b)
  {
    if (b < |stack| ==> Uncovered(commands, stack[b], at)) {
      if b < |stack| && CoveredBy(commands, i, stack[b], at) {
        CoveredInRange(commands, i, stack[b], at);
      }
    }
  }

  function One(yes: bool): nat {
    if yes then 1 else 0
  }

  lemma ChargedByName(modules: seq<Module>, run: seq<Module>, culprit: nat, name: string)
    requires Parallel(run, modules) && NamesDiffer(modules) && culprit <= |run|
    ensures LeaksOf(Charged(modules, culprit), name) ==
      LeaksOf(modules, name) + One(culprit < |run| && run[culprit].name == name)
  {
    if culprit < |run| {
      LeaksOfCharged(modules, culprit, name);
      SameNameAt(run, modules, culprit);
    }
  }

  lemma ChargeCulprit(modules: seq<Module>, p: Parser, at: nat, stack: seq<nat>)
    ensures Named(p.run) && |modules| == |p.run| ==>
      ChargeAll(modules, Charges(p.run, at, stack, "", 0)) == Charged(modules, Culprit(p.run, at, stack, 0))
  {
    if Named(p.run) && |modules| == |p.run| {
      ChargesByCulprit(p.run, at, stack, 0);
      var culprit := Culprit(p.run, at, stack, 0);
      OneCharge(modules, culprit);
    }
  }

  /** A leak is charged to a named module exactly when that module is to blame: in the subtest's list while one is
      going on, in the run's otherwise. */
  lemma LeakIsCharged(commands: seq<Command>, at: nat, stack: seq<nat>, name: string)
    requires NamedLoads(commands)
    ensures var before, after := ParseAll(commands), ParseAll(commands + [MemLeak(at, stack)]);
      && LeaksOf(after.run, name) ==
        LeaksOf(before.run, name) + One(!Ongoing(commands) && Blamed(commands, name, at, stack))
      && LeaksOf(after.subtest, name) ==
        LeaksOf(before.subtest, name) + One(Ongoing(commands) && Blamed(commands, name, at, stack))
  {
    var p := ParseAll(commands);
    var lines := ListsFollowLines(commands);
    FollowersDiffer(p.run, commands, lines);
    FollowersDiffer(p.subtest, commands, lines);
    CulpritIsBlamed(p, commands, lines, at, stack, name);
    hide Follows;
    hide Blamed;
    hide NamesDiffer;
    hide Named;
    hide LeaksOf;
    hide Ongoing;
    hide Parallel;
    ListsStayNamed(commands);
    ListsStayParallel(commands);
    StartAfter(commands, MemLeak(at, stack));
    hide ParseAll;
    assert |p.run| == |p.subtest| && Parallel(p.run, p.run);
    ChargeCulprit(p.run, p, at, stack);
    ChargeCulprit(p.subtest, p, at, stack);
    ChargedByName(p.run, p.run, Culprit(p.run, at, stack, 0), name);
    ChargedByName(p.subtest, p.run, Culprit(p.run, at, stack, 0), name);
  }

  lemma LeaksOfCleared(modules: seq<Module>, name: string)
    ensures LeaksOf(NoLeaks(modules), name) == 0
  {
  }

  lemma LeaksOfUnloaded(modules: seq<Module>, other: string, time: nat, name: string)
    ensures LeaksOf(Unloaded(modules, other, time), name) == LeaksOf(modules, name)
  {
    LeaksOfSameNames(Unloaded(modules, other, time), modules, name);
  }

  /** A line that is no leak changes no count, but a process start and, for the subtest, its start set them to 0. */
  lemma OtherLines(p: Parser, c: Command, name: string)
    ensures !c.MemLeak? ==> LeaksOf(Parse(p, c).run, name) == if c.ProcessStart? then 0 else LeaksOf(p.run, name)
    ensures !c.MemLeak? ==>
      LeaksOf(Parse(p, c).subtest, name) == if c.ProcessStart? || c.TestStart? then 0 else LeaksOf(p.subtest, name)
  {
    if !c.MemLeak? {
      match c
      case ProcessStart(_) =>
      case DllLoad(_, _, _, _) =>
        LeaksOfLoaded(p.run, ModuleOf(p, c), name);
        LeaksOfLoaded(p.subtest, ModuleOf(p, c), name);
      case DllUnload(other, time) =>
        if time.Some? {
          LeaksOfUnloaded(p.run, other, time.value, name);
          LeaksOfUnloaded(p.subtest, other, time.value, name);
        }
      case TestStart => LeaksOfCleared(p.subtest, name);
      case TestEnd =>
    }
  }

  /** Over every data file with named modules, each name's count in either list is the number of leaks it is to
      blame for, told from the lines alone. */
  lemma {:induction false} CountsFollowLines(commands: seq<Command>, name: string)
    requires NamedLoads(commands)
    ensures LeaksOf(ParseAll(commands).run, name) == RunLeaks(commands, name)
    ensures LeaksOf(ParseAll(commands).subtest, name) == SubtestLeaks(commands, name)
    decreases |commands|
  {
    hide LeaksOf;
    hide Blamed;
    hide Ongoing;
    if commands == [] {
      NoCounts(name);
    } else {
      var before, c := commands[..|commands| - 1], commands[|commands| - 1];
      assert commands == before + [c];
      CountsFollowLines(before, name);
      StartAfter(before, c);
      if c.MemLeak? {
        LeakIsCharged(before, c.at, c.stack, name);
      } else {
        hide ParseAll;
        OtherLines(ParseAll(before), c, name);
      }
    }
  }

  lemma NoCounts(name: string)
    ensures LeaksOf([], name) == 0
  {
  }

  /** The leaks outside subtests since the last process start, hit or not. */
  function RunTotal(commands: seq<Command>): nat
    decreases |commands|
  {
    if commands == [] || commands[|commands| - 1].ProcessStart? then 0
    else
      var before := commands[..|commands| - 1];
      RunTotal(before) + One(commands[|commands| - 1].MemLeak? && !Ongoing(before))
  }

  /** The leaks since the last start of a process or subtest, in a subtest or not. */
  function LeaksSinceStart(commands: seq<Command>): nat
    decreases |commands|
  {
    if commands == [] || commands[|commands| - 1].ProcessStart? || commands[|commands| - 1].TestStart? then 0
    else LeaksSinceStart(commands[..|commands| - 1]) + One(commands[|commands| - 1].MemLeak?)
  }

  /** The totals reported, told from the lines alone. */
  lemma {:induction false} TotalsFollowLines(commands: seq<Command>)
    ensures var p := ParseAll(commands);
      p.totalLeaks == RunTotal(commands) && p.leakNumber == LeaksSinceStart(commands) && p.subtestOngoing == Ongoing(commands)
    decreases |commands|
  {
    if commands == [] {
    } else {
      TotalsFollowLines(commands[..|commands| - 1]);
      hide ChargeAll;
      hide Charges;
      hide Loaded;
      hide Unloaded;
    }
  }

  /** The counts reported, one module after another. */
  lemma ReportsFollowLines(commands: seq<Command>)
    requires NamedLoads(commands)
    ensures var p := ParseAll(commands);
      && (forall i :: 0 <= i < |p.run| ==> p.run[i].leaks == RunLeaks(commands, p.run[i].name))
      && (forall i :: 0 <= i < |p.subtest| ==> p.subtest[i].leaks == SubtestLeaks(commands, p.subtest[i].name))
  {
    var p := ParseAll(commands);
    var lines := ListsFollowLines(commands);
    FollowersDiffer(p.run, commands, lines);
    FollowersDiffer(p.subtest, commands, lines);
    hide ParseAll;
    hide RunLeaks;
    hide SubtestLeaks;
    hide Follows;
    forall i | 0 <= i < |p.run| ensures p.run[i].leaks == RunLeaks(commands, p.run[i].name) {
      CountsFollowLines(commands, p.run[i].name);
      LeaksOfUnique(p.run, i);
    }
    forall i | 0 <= i < |p.subtest| ensures p.subtest[i].leaks == SubtestLeaks(commands, p.subtest[i].name) {
      CountsFollowLines(commands, p.subtest[i].name);
      LeaksOfUnique(p.subtest, i);
    }
  }
}
