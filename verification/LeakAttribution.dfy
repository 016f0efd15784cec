/** AnalyzeTool's reading of a data file: which loaded module each memory leak is charged to, for the
    run and for the subtest going on. */
module LeakAttribution {
  import opened Wrappers

  const TIMESTAMP_VERSION := 2

  /** A loaded code segment. A load time of zero is not known; an unload time of zero, not yet. */
  datatype Module = Module(name: string, start: nat, end: nat, leaks: nat, loadTime: nat, unloadTime: nat)

  datatype Parser = Parser(
    version: nat,
    run: seq<Module>,
    subtest: seq<Module>,
    subtestOngoing: bool,
    totalLeaks: nat,
    leakNumber: nat)

  const FRESH := Parser(1, [], [], false, 0, 0)

  /** One line of the data file, its fields read. */
  datatype Command =
    | ProcessStart(version: nat)
    | DllLoad(name: string, start: nat, end: nat, time: Option<nat>)
    | DllUnload(name: string, time: Option<nat>)
    | TestStart
    | TestEnd
    | MemLeak(at: nat, stack: seq<nat>)

  // ---------------------------------------------------------------- addresses and modules

  /** The module was loaded at that time and holds the address. */
  predicate Holds(m: Module, address: nat, time: nat) {
    && m.start <= address < m.end
    && (m.loadTime > 0 ==> time >= m.loadTime && (m.unloadTime == 0 || m.unloadTime >= time))
  }

  /** Index of the first module that holds the address, from index i on, or the length. */
  function FindModule(modules: seq<Module>, address: nat, time: nat, i: nat): (index: nat)
    requires i <= |modules|
    ensures i <= index <= |modules|
    ensures forall k :: i <= k < index ==> !Holds(modules[k], address, time)
    ensures index < |modules| ==> Holds(modules[index], address, time)
    decreases |modules| - i
  {
    if i == |modules| || Holds(modules[i], address, time) then i else FindModule(modules, address, time, i + 1)
  }

  predicate Hits(modules: seq<Module>, address: nat, time: nat) {
    FindModule(modules, address, time, 0) < |modules|
  }

  function FindName(modules: seq<Module>, name: string, i: nat): (index: nat)
    requires i <= |modules|
    ensures i <= index <= |modules|
    ensures forall k :: i <= k < index ==> modules[k].name != name
    ensures index < |modules| ==> modules[index].name == name
    decreases |modules| - i
  {
    if i == |modules| || modules[i].name == name then i else FindName(modules, name, i + 1)
  }

  // ---------------------------------------------------------------- commands

  function Loaded(modules: seq<Module>, m: Module): seq<Module> {
    if FindName(modules, m.name, 0) < |modules| then modules else modules + [m]
  }

  function Unloaded(modules: seq<Module>, name: string, time: nat): (result: seq<Module>)
    ensures |result| == |modules|
  {
    var index := FindName(modules, name, 0);
    if index < |modules| then modules[index := modules[index].(unloadTime := time)] else modules
  }

  function NoLeaks(modules: seq<Module>): (result: seq<Module>)
    ensures |result| == |modules|
    ensures forall i :: 0 <= i < |modules| ==> result[i] == modules[i].(leaks := 0)
  {
    seq(|modules|, i requires 0 <= i < |modules| => modules[i].(leaks := 0))
  }

  function Charged(modules: seq<Module>, index: nat): seq<Module> {
    if index < |modules| then modules[index := modules[index].(leaks := modules[index].leaks + 1)] else modules
  }

  /** The modules charged for a call stack, from address i on: one for each address that hits while the name
      of the leak's module is still empty. */
  function Charges(modules: seq<Module>, time: nat, stack: seq<nat>, name: string, i: nat): (indices: seq<nat>)
    requires i <= |stack|
    ensures forall k :: 0 <= k < |indices| ==> indices[k] < |modules|
    decreases |stack| - i
  {
    if i == |stack| then []
    else
      var index := FindModule(modules, stack[i], time, 0);
      if index < |modules| && name == "" then
        [index] + Charges(modules, time, stack, modules[index].name, i + 1)
      else Charges(modules, time, stack, name, i + 1)
  }

  function ChargeAll(modules: seq<Module>, indices: seq<nat>): (result: seq<Module>)
    ensures |result| == |modules|
    decreases |indices|
  {
    if indices == [] then modules
    else Charged(ChargeAll(modules, indices[..|indices| - 1]), indices[|indices| - 1])
  }

  function ModuleOf(p: Parser, c: Command): Module
    requires c.DllLoad?
  {
    Module(c.name, c.start, c.end, 0, if p.version >= TIMESTAMP_VERSION && c.time.Some? then c.time.value else 0, 0)
  }

  function Parse(p: Parser, c: Command): Parser {
    match c
    case ProcessStart(version) =>
      Parser(if version != 0 then version else p.version, [], [], p.subtestOngoing, 0, 0)
    case DllLoad(_, _, _, _) =>
      p.(run := Loaded(p.run, ModuleOf(p, c)), subtest := Loaded(p.subtest, ModuleOf(p, c)))
    case DllUnload(name, time) =>
      if p.version < TIMESTAMP_VERSION || time.None? then p
      else p.(run := Unloaded(p.run, name, time.value), subtest := Unloaded(p.subtest, name, time.value))
    case TestStart => p.(subtestOngoing := true, leakNumber := 0, subtest := NoLeaks(p.subtest))
    case TestEnd => p.(subtestOngoing := false)
    case MemLeak(time, stack) =>
      var charges := Charges(p.run, time, stack, "", 0);
      if p.subtestOngoing then
        p.(leakNumber := p.leakNumber + 1, subtest := ChargeAll(p.subtest, charges))
      else
        p.(leakNumber := p.leakNumber + 1, totalLeaks := p.totalLeaks + 1, run := ChargeAll(p.run, charges))
  }

  function ParseAll(commands: seq<Command>): Parser
    decreases |commands|
  {
    if commands == [] then FRESH else Parse(ParseAll(commands[..|commands| - 1]), commands[|commands| - 1])
  }

  // ---------------------------------------------------------------- the two lists

  /** The lists agree in everything but the leak counts. */
  ghost predicate Parallel(run: seq<Module>, subtest: seq<Module>) {
    && |run| == |subtest|
    && (forall i :: 0 <= i < |run| ==> run[i].(leaks := 0) == subtest[i].(leaks := 0))
  }

  lemma FindNameParallel(run: seq<Module>, subtest: seq<Module>, name: string)
    ensures Parallel(run, subtest) ==> FindName(run, name, 0) == FindName(subtest, name, 0)
  {
    if Parallel(run, subtest) {
      assert forall i :: 0 <= i < |run| ==> run[i].(leaks := 0).name == subtest[i].(leaks := 0).name;
    }
  }

  lemma ChargedShape(modules: seq<Module>, index: nat)
    ensures Parallel(modules, Charged(modules, index))
  {
  }

  lemma ParallelTrans(a: seq<Module>, b: seq<Module>, c: seq<Module>)
    ensures Parallel(a, b) && Parallel(b, c) ==> Parallel(a, c) && Parallel(c, a)
  {
  }

  lemma {:induction false} ChargeAllShape(modules: seq<Module>, indices: seq<nat>)
    ensures Parallel(modules, ChargeAll(modules, indices))
    decreases |indices|
  {
    if indices == [] {
    } else {
      ChargeAllShape(modules, indices[..|indices| - 1]);
      var before := ChargeAll(modules, indices[..|indices| - 1]);
      ChargedShape(before, indices[|indices| - 1]);
      ParallelTrans(modules, before, ChargeAll(modules, indices));
    }
  }

  lemma ParseKeepsParallel(p: Parser, c: Command)
    ensures Parallel(p.run, p.subtest) ==> Parallel(Parse(p, c).run, Parse(p, c).subtest)
  {
    if Parallel(p.run, p.subtest) {
      match c
      case DllLoad(name, _, _, _) => FindNameParallel(p.run, p.subtest, name);
      case DllUnload(name, _) => FindNameParallel(p.run, p.subtest, name);
      case MemLeak(time, stack) =>
        var charges := Charges(p.run, time, stack, "", 0);
        ChargeAllShape(p.run, charges);
        ChargeAllShape(p.subtest, charges);
        ParallelTrans(p.run, p.subtest, ChargeAll(p.subtest, charges));
        ParallelTrans(p.subtest, p.run, ChargeAll(p.run, charges)) by {
          assert Parallel(p.subtest, p.run);
        }
      case _ =>
    }
  }

  /** Over every sequence of commands an index found in the run's list is valid in the subtest's, and means
      the same module. */
  lemma {:induction false} ListsStayParallel(commands: seq<Command>)
    ensures Parallel(ParseAll(commands).run, ParseAll(commands).subtest)
    decreases |commands|
  {
    if commands == [] {
    } else {
      ListsStayParallel(commands[..|commands| - 1]);
      ParseKeepsParallel(ParseAll(commands[..|commands| - 1]), commands[|commands| - 1]);
    }
  }

  // ---------------------------------------------------------------- what one leak is charged to

  /** The addresses of the stack that hit a loaded module, from address i on. */
  function HitCount(modules: seq<Module>, time: nat, stack: seq<nat>, i: nat): nat
    requires i <= |stack|
    decreases |stack| - i
  {
    if i == |stack| then 0
    else (if Hits(modules, stack[i], time) then 1 else 0) + HitCount(modules, time, stack, i + 1)
  }

  /** The module of the first address that hits one, from address i on, or the number of modules. */
  function Culprit(modules: seq<Module>, time: nat, stack: seq<nat>, i: nat): (index: nat)
    requires i <= |stack|
    ensures index <= |modules|
    decreases |stack| - i
  {
    if i == |stack| then |modules|
    else if Hits(modules, stack[i], time) then FindModule(modules, stack[i], time, 0)
    else Culprit(modules, time, stack, i + 1)
  }

  ghost predicate Named(modules: seq<Module>) {
    forall i :: 0 <= i < |modules| ==> modules[i].name != ""
  }

  lemma {:induction false} NoMoreCharges(modules: seq<Module>, time: nat, stack: seq<nat>, name: string, i: nat)
    ensures i <= |stack| && name != "" ==> Charges(modules, time, stack, name, i) == []
    decreases |stack| - i
  {
    if i <= |stack| && name != "" {
      if i >= |stack| {
      } else {
        NoMoreCharges(modules, time, stack, name, i + 1);
      }
    }
  }

  /** The charges, by the first module hit: it alone when it has a name, and it and more when it has none
      and the stack hits again. */
  lemma {:induction false} ChargesByCulprit(modules: seq<Module>, time: nat, stack: seq<nat>, i: nat)
    requires i <= |stack|
    ensures var charges, culprit := Charges(modules, time, stack, "", i), Culprit(modules, time, stack, i);
      && (charges == [] <==> culprit == |modules|)
      && (culprit < |modules| ==> charges[0] == culprit)
      && (culprit < |modules| && modules[culprit].name != "" ==> charges == [culprit])
      && (culprit < |modules| && modules[culprit].name == "" ==> (|charges| == 1 <==> HitCount(modules, time, stack, i) == 1))
      && (HitCount(modules, time, stack, i) == 0 <==> culprit == |modules|)
    decreases |stack| - i
  {
    if i >= |stack| {
    } else {
      ChargesByCulprit(modules, time, stack, i + 1);
      var index := FindModule(modules, stack[i], time, 0);
      if index < |modules| && modules[index].name != "" {
        NoMoreCharges(modules, time, stack, modules[index].name, i + 1);
      }
    }
  }

  /** A leak that hits some module is charged exactly once, to the first module hit, unless that module has
      no name and the stack hits a module again: then it is charged more than once. */
  lemma ChargedOnceIff(modules: seq<Module>, time: nat, stack: seq<nat>)
    requires Culprit(modules, time, stack, 0) < |modules|
    ensures Charges(modules, time, stack, "", 0) == [Culprit(modules, time, stack, 0)] <==>
      modules[Culprit(modules, time, stack, 0)].name != "" || HitCount(modules, time, stack, 0) == 1
  {
    ChargesByCulprit(modules, time, stack, 0);
  }

  // ---------------------------------------------------------------- counts over a whole file

  function LeakSum(modules: seq<Module>): nat
    decreases |modules|
  {
    if modules == [] then 0 else LeakSum(modules[..|modules| - 1]) + modules[|modules| - 1].leaks
  }

  /** The command is a leak whose stack hits a loaded module. */
  predicate Attributed(p: Parser, c: Command) {
    c.MemLeak? && HitCount(p.run, c.at, c.stack, 0) > 0
  }

  /** The leaks outside subtests since the last process start whose stack hits a loaded module. */
  function RunHits(commands: seq<Command>): nat
    decreases |commands|
  {
    if commands == [] then 0
    else
      var before, c := commands[..|commands| - 1], commands[|commands| - 1];
      if c.ProcessStart? then 0
      else RunHits(before) + if Attributed(ParseAll(before), c) && !ParseAll(before).subtestOngoing then 1 else 0
  }

  /** The leaks inside subtests since the last start of a subtest or process whose stack hits a loaded module. */
  function SubtestHits(commands: seq<Command>): nat
    decreases |commands|
  {
    if commands == [] then 0
    else
      var before, c := commands[..|commands| - 1], commands[|commands| - 1];
      if c.ProcessStart? || c.TestStart? then 0
      else SubtestHits(before) + if Attributed(ParseAll(before), c) && ParseAll(before).subtestOngoing then 1 else 0
  }

  /** The leaks outside subtests since the last process start whose culprit has this name. */
  function RunHitsOf(commands: seq<Command>, name: string): nat
    decreases |commands|
  {
    if commands == [] then 0
    else
      var before, c := commands[..|commands| - 1], commands[|commands| - 1];
      if c.ProcessStart? then 0
      else
        var p := ParseAll(before);
        RunHitsOf(before, name) +
        if Attributed(p, c) && !p.subtestOngoing && CulpritName(p, c) == name then 1 else 0
  }

  function CulpritName(p: Parser, c: Command): string
    requires c.MemLeak?
  {
    var culprit := Culprit(p.run, c.at, c.stack, 0);
    if culprit < |p.run| then p.run[culprit].name else ""
  }

  predicate NamedLoads(commands: seq<Command>) {
    forall i :: 0 <= i < |commands| && commands[i].DllLoad? ==> commands[i].name != ""
  }

  lemma {:induction false} SumSame(a: seq<Module>, b: seq<Module>)
    requires |a| == |b| && forall i :: 0 <= i < |a| ==> a[i].leaks == b[i].leaks
    ensures LeakSum(a) == LeakSum(b)
    decreases |a|
  {
    if a == [] {
    } else {
      SumSame(a[..|a| - 1], b[..|b| - 1]);
    }
  }

  lemma {:induction false} SumZero(a: seq<Module>)
    ensures (forall i :: 0 <= i < |a| ==> a[i].leaks == 0) ==> LeakSum(a) == 0
    decreases |a|
  {
    if (forall i :: 0 <= i < |a| ==> a[i].leaks == 0) {
      if a == [] {
      } else {
        SumZero(a[..|a| - 1]);
      }
    }
  }

  lemma {:induction false} SumCharged(modules: seq<Module>, index: nat)
    ensures index < |modules| ==> LeakSum(Charged(modules, index)) == LeakSum(modules) + 1
    decreases |modules|
  {
    if index < |modules| {
      var front := modules[..|modules| - 1];
      var after := Charged(modules, index);
      if index < |front| {
        SumCharged(front, index);
        assert after[..|after| - 1] == Charged(front, index);
      } else {
        assert after[..|after| - 1] == front;
      }
    }
  }

  lemma SumLoaded(modules: seq<Module>, m: Module)
    ensures m.leaks == 0 ==> LeakSum(Loaded(modules, m)) == LeakSum(modules)
  {
    if m.leaks == 0 {
      assert (modules + [m])[..|modules|] == modules;
    }
  }

  lemma OneCharge(modules: seq<Module>, index: nat)
    ensures ChargeAll(modules, [index]) == Charged(modules, index)
    ensures ChargeAll(modules, []) == modules
  {
    assert [index][..0] == [];
  }

  /** A leak adds one to the sum of the list it is charged to if its stack hits a module, and nothing otherwise. */
  lemma LeakAddsOne(modules: seq<Module>, p: Parser, time: nat, stack: seq<nat>)
    requires Named(p.run) && |modules| == |p.run|
    ensures LeakSum(ChargeAll(modules, Charges(p.run, time, stack, "", 0))) ==
      LeakSum(modules) + if HitCount(p.run, time, stack, 0) > 0 then 1 else 0
  {
    ChargesByCulprit(p.run, time, stack, 0);
    var culprit := Culprit(p.run, time, stack, 0);
    OneCharge(modules, culprit);
    if culprit < |p.run| {
      SumCharged(modules, culprit);
    }
  }

  lemma ParseKeepsNamed(p: Parser, c: Command)
    ensures (Named(p.run) && (c.DllLoad? ==> c.name != "")) ==> Named(Parse(p, c).run)
  {
    if (Named(p.run) && (c.DllLoad? ==> c.name != "")) {
      if c.MemLeak? {
        ChargeAllShape(p.run, Charges(p.run, c.at, c.stack, "", 0));
        assert forall m: Module :: m.name == m.(leaks := 0).name;
      }
    }
  }

  lemma {:induction false} ListsStayNamed(commands: seq<Command>)
    ensures NamedLoads(commands) ==> Named(ParseAll(commands).run)
    decreases |commands|
  {
    if NamedLoads(commands) {
      if commands == [] {
      } else {
        ListsStayNamed(commands[..|commands| - 1]);
        ParseKeepsNamed(ParseAll(commands[..|commands| - 1]), commands[|commands| - 1]);
      }
    }
  }

  lemma SumUnloaded(modules: seq<Module>, name: string, time: nat)
    ensures LeakSum(Unloaded(modules, name, time)) == LeakSum(modules)
  {
    SumSame(Unloaded(modules, name, time), modules);
  }

  /** How one command changes the sums of the two lists. */
  lemma SumsAfter(p: Parser, c: Command)
    requires Named(p.run) && Parallel(p.run, p.subtest)
    ensures LeakSum(Parse(p, c).run) ==
      if c.ProcessStart? then 0
      else LeakSum(p.run) + if Attributed(p, c) && !p.subtestOngoing then 1 else 0
    ensures LeakSum(Parse(p, c).subtest) ==
      if c.ProcessStart? || c.TestStart? then 0
      else LeakSum(p.subtest) + if Attributed(p, c) && p.subtestOngoing then 1 else 0
  {
    match c
    case ProcessStart(_) =>
    case DllLoad(_, _, _, _) =>
      SumLoaded(p.run, ModuleOf(p, c));
      SumLoaded(p.subtest, ModuleOf(p, c));
    case DllUnload(name, time) =>
      if time.Some? {
        SumUnloaded(p.run, name, time.value);
        SumUnloaded(p.subtest, name, time.value);
      }
    case TestStart => SumZero(NoLeaks(p.subtest));
    case TestEnd =>
    case MemLeak(time, stack) =>
      LeakAddsOne(p.run, p, time, stack);
      LeakAddsOne(p.subtest, p, time, stack);
  }

  /** How one command changes the totals. */
  lemma TotalsAfter(p: Parser, c: Command)
    ensures Parse(p, c).totalLeaks >=
      if c.ProcessStart? then 0 else p.totalLeaks + if Attributed(p, c) && !p.subtestOngoing then 1 else 0
    ensures Parse(p, c).leakNumber >=
      if c.ProcessStart? || c.TestStart? then 0
      else p.leakNumber + if Attributed(p, c) && p.subtestOngoing then 1 else 0
  {
    hide HitCount;
    hide ChargeAll;
  }

  /** Over every data file with named modules, the counts per module add up to the number of leaks whose
      stack hits a loaded module, and never exceed the leaks reported in total. */
  lemma {:induction false} CountsAddUp(commands: seq<Command>)
    requires NamedLoads(commands)
    ensures var p := ParseAll(commands);
      && LeakSum(p.run) == RunHits(commands) <= p.totalLeaks
      && LeakSum(p.subtest) == SubtestHits(commands) <= p.leakNumber
    decreases |commands|
  {
    if commands == [] {
    } else {
      var before, c := commands[..|commands| - 1], commands[|commands| - 1];
      hide Attributed;
      hide LeakSum;
      hide Named;
      hide Parallel;
      CountsAddUp(before);
      ListsStayNamed(before);
      ListsStayParallel(before);
      hide Parse;
      SumsAfter(ParseAll(before), c);
      TotalsAfter(ParseAll(before), c);
    }
  }

  // ---------------------------------------------------------------- counts per module

  ghost predicate NamesDiffer(modules: seq<Module>) {
    forall i, j :: 0 <= i < j < |modules| ==> modules[i].name != modules[j].name
  }

  function LeaksOf(modules: seq<Module>, name: string): nat {
    var index := FindName(modules, name, 0);
    if index < |modules| then modules[index].leaks else 0
  }

  lemma LeaksOfUnique(modules: seq<Module>, i: nat)
    ensures NamesDiffer(modules) && i < |modules| ==> FindName(modules, modules[i].name, 0) == i
  {
  }

  lemma LeaksOfSameNames(a: seq<Module>, b: seq<Module>, name: string)
    requires |a| == |b| && forall i :: 0 <= i < |a| ==> a[i].name == b[i].name && a[i].leaks == b[i].leaks
    ensures LeaksOf(a, name) == LeaksOf(b, name)
  {
  }

  lemma LeaksOfLoaded(modules: seq<Module>, m: Module, name: string)
    ensures m.leaks == 0 ==> LeaksOf(Loaded(modules, m), name) == LeaksOf(modules, name)
  {
    if m.leaks == 0 {
      var after := Loaded(modules, m);
      assert forall i :: 0 <= i < |modules| ==> after[i] == modules[i];
    }
  }

  lemma LeaksOfCharged(modules: seq<Module>, index: nat, name: string)
    ensures NamesDiffer(modules) && index < |modules| ==>
      LeaksOf(Charged(modules, index), name) == LeaksOf(modules, name) + if modules[index].name == name then 1 else 0
  {
    if NamesDiffer(modules) && index < |modules| {
      var after := Charged(modules, index);
      assert forall i :: 0 <= i < |modules| ==> after[i].name == modules[i].name;
      assert FindName(after, name, 0) == FindName(modules, name, 0);
    }
  }

  lemma LeaksOfAfter(p: Parser, c: Command, name: string)
    requires Named(p.run) && NamesDiffer(p.run)
    ensures LeaksOf(Parse(p, c).run, name) ==
      if c.ProcessStart? then 0
      else LeaksOf(p.run, name) + if Attributed(p, c) && !p.subtestOngoing && CulpritName(p, c) == name then 1 else 0
  {
    match c
    case DllLoad(_, _, _, _) => LeaksOfLoaded(p.run, ModuleOf(p, c), name);
    case DllUnload(other, time) =>
      if time.Some? {
        LeaksOfSameNames(Unloaded(p.run, other, time.value), p.run, name);
      }
    case MemLeak(time, stack) =>
      ChargesByCulprit(p.run, time, stack, 0);
      var culprit := Culprit(p.run, time, stack, 0);
      OneCharge(p.run, culprit);
      if culprit < |p.run| {
        LeaksOfCharged(p.run, culprit, name);
      }
    case _ =>
  }

  /** Each module's count is the number of leaks whose first hit was that module. */
  lemma {:induction false} EachModuleCountsItsLeaks(commands: seq<Command>, name: string)
    requires NamedLoads(commands)
    ensures NamesDiffer(ParseAll(commands).run) && LeaksOf(ParseAll(commands).run, name) == RunHitsOf(commands, name)
    decreases |commands|
  {
    if commands == [] {
    } else {
      var before, c := commands[..|commands| - 1], commands[|commands| - 1];
      EachModuleCountsItsLeaks(before, name);
      ListsStayNamed(before);
      assert NamesDiffer(Parse(ParseAll(before), c).run) by {
        if c.MemLeak? {
          ChargeAllShape(ParseAll(before).run, Charges(ParseAll(before).run, c.at, c.stack, "", 0));
          assert forall m: Module :: m.name == m.(leaks := 0).name;
        }
      }
      LeaksOfAfter(ParseAll(before), c, name);
      hide Attributed;
      hide LeaksOf;
      hide NamesDiffer;
      hide CulpritName;
    }
  }

  /** The counts reported for the run, one module after another. */
  lemma ReportedCountsAreRight(commands: seq<Command>)
    requires NamedLoads(commands)
    ensures var run := ParseAll(commands).run;
      forall i :: 0 <= i < |run| ==> run[i].leaks == RunHitsOf(commands, run[i].name)
  {
    var run := ParseAll(commands).run;
    hide ParseAll;
    hide RunHitsOf;
    forall i | 0 <= i < |run| ensures run[i].leaks == RunHitsOf(commands, run[i].name) {
      EachModuleCountsItsLeaks(commands, run[i].name);
      LeaksOfUnique(run, i);
    }
  }

  // ---------------------------------------------------------------- the parser

  class DatParser {
    var version: nat
    var run: seq<Module>
    var subtest: seq<Module>
    var subtestOngoing: bool
    var totalLeaks: nat
    var leakNumber: nat

    ghost function View(): Parser
      reads this
    {
      Parser(version, run, subtest, subtestOngoing, totalLeaks, leakNumber)
    }

    constructor ()
      ensures View() == FRESH
    {
      version, run, subtest, subtestOngoing, totalLeaks, leakNumber := 1, [], [], false, 0, 0;
    }

    method ParseProcessStart(newVersion: nat)
      modifies this
      ensures View() == Parse(old(View()), ProcessStart(newVersion))
    {
      totalLeaks := 0;
      leakNumber := 0;
      run := [];
      subtest := [];
      if newVersion != 0 {
        version := newVersion;
      }
    }

    method AddIfNew(modules: seq<Module>, m: Module) returns (result: seq<Module>)
      ensures result == Loaded(modules, m)
    {
      var found := false;
      var i := 0;
      while i < |modules| && !found
        invariant 0 <= i <= |modules|
        invariant !found ==> FindName(modules, m.name, i) == FindName(modules, m.name, 0)
        invariant found ==> FindName(modules, m.name, 0) < |modules|
        decreases |modules| - i, !found
      {
        if modules[i].name == m.name {
          found := true;
        } else {
          i := i + 1;
        }
      }
      result := if found then modules else modules + [m];
    }

    method ParseDllLoad(name: string, start: nat, end: nat, time: Option<nat>)
      modifies `run, `subtest
      ensures View() == Parse(old(View()), DllLoad(name, start, end, time))
    {
      var m := Module(name, start, end, 0, 0, 0);
      if version >= TIMESTAMP_VERSION && time.Some? {
        m := m.(loadTime := time.value);
      }
      run := AddIfNew(run, m);
      subtest := AddIfNew(subtest, m);
    }

    method SetUnloadTime(modules: seq<Module>, name: string, time: nat) returns (result: seq<Module>)
      ensures result == Unloaded(modules, name, time)
    {
      var i := 0;
      while i < |modules|
        invariant 0 <= i <= |modules|
        invariant FindName(modules, name, i) == FindName(modules, name, 0)
      {
        if modules[i].name == name {
          return modules[i := modules[i].(unloadTime := time)];
        }
        i := i + 1;
      }
      result := modules;
    }

    method ParseDllUnload(name: string, time: Option<nat>)
      modifies `run, `subtest
      ensures View() == Parse(old(View()), DllUnload(name, time))
    {
      if version < TIMESTAMP_VERSION || time.None? {
        return;
      }
      run := SetUnloadTime(run, name, time.value);
      subtest := SetUnloadTime(subtest, name, time.value);
    }

    method ParseTestStart()
      modifies `subtestOngoing, `leakNumber, `subtest
      ensures View() == Parse(old(View()), TestStart)
    {
      subtestOngoing := true;
      leakNumber := 0;
      var i := 0;
      while i < |subtest|
        invariant 0 <= i <= |subtest| == |old(subtest)| && subtestOngoing && leakNumber == 0
        invariant forall k :: 0 <= k < i ==> subtest[k] == old(subtest)[k].(leaks := 0)
        invariant forall k :: i <= k < |subtest| ==> subtest[k] == old(subtest)[k]
      {
        subtest := subtest[i := subtest[i].(leaks := 0)];
        i := i + 1;
      }
      assert subtest == NoLeaks(old(subtest));
    }

    method ParseTestEnd()
      modifies `subtestOngoing
      ensures View() == Parse(old(View()), TestEnd)
    {
      subtestOngoing := false;
    }

    method FindSetModuleName(address: nat, time: nat) returns (index: nat)
      ensures index == FindModule(run, address, time, 0)
    {
      index := 0;
      while index < |run|
        invariant 0 <= index <= |run|
        invariant FindModule(run, address, time, index) == FindModule(run, address, time, 0)
      {
        if run[index].loadTime > 0 {
          if time >= run[index].loadTime && address >= run[index].start && address < run[index].end {
            if run[index].unloadTime == 0 {
              return;
            } else if run[index].unloadTime >= time {
              return;
            }
          }
        } else if address >= run[index].start && address < run[index].end {
          return;
        }
        index := index + 1;
      }
    }

    method Charge(index: nat)
      requires index < |run| == |subtest|
      modifies `run, `subtest
      ensures run == if subtestOngoing then old(run) else Charged(old(run), index)
      ensures subtest == if subtestOngoing then Charged(old(subtest), index) else old(subtest)
    {
      if subtestOngoing {
        subtest := subtest[index := subtest[index].(leaks := subtest[index].leaks + 1)];
      } else {
        run := run[index := run[index].(leaks := run[index].leaks + 1)];
      }
    }

    /** The lists are parallel, so the index found in the run's list is in range in the subtest's. */
    method ChargeStack(time: nat, stack: seq<nat>)
      requires Parallel(run, subtest)
      modifies `run, `subtest
      ensures run == if subtestOngoing then old(run) else ChargeAll(old(run), Charges(old(run), time, stack, "", 0))
      ensures subtest == if subtestOngoing then ChargeAll(old(subtest), Charges(old(run), time, stack, "", 0)) else old(subtest)
    {
      hide ChargeAll;
      hide FindModule;
      hide Charges;
      hide Holds;
      ghost var charged: seq<nat> := [];
      ghost var modules := run;
      NoCharge(run);
      NoCharge(subtest);
      var name := "";
      var i := 0;
      assert [] + Charges(modules, time, stack, "", 0) == Charges(modules, time, stack, "", 0);
      while i < |stack|
        invariant 0 <= i <= |stack| && |run| == |subtest|
        invariant Parallel(modules, run)
        invariant charged + Charges(modules, time, stack, name, i) == Charges(modules, time, stack, "", 0)
        invariant run == if subtestOngoing then old(run) else ChargeAll(old(run), charged)
        invariant subtest == if subtestOngoing then ChargeAll(old(subtest), charged) else old(subtest)
      {
        var index := FindSetModuleName(stack[i], time);
        FindModuleParallel(modules, run, stack[i], time);
        ChargesStep(modules, time, stack, name, i);
        if index < |run| && |name| == 0 {
          ChargeMore(if subtestOngoing then old(subtest) else old(run), charged, index);
          Associate(charged, [index], Charges(modules, time, stack, modules[index].name, i + 1));
          charged := charged + [index];
          name := run[index].name;
          SameNameAt(modules, run, index);
          ghost var before := run;
          Charge(index);
          ChargedShape(before, index);
          if !subtestOngoing {
            ParallelTrans(modules, before, run);
          }
        }
        i := i + 1;
      }
      ChargesEnd(modules, time, stack, name);
      assert charged + [] == charged;
    }

    method ParseMemLeak(time: nat, stack: seq<nat>)
      requires Parallel(run, subtest)
      modifies `run, `subtest, `totalLeaks, `leakNumber
      ensures View() == Parse(old(View()), MemLeak(time, stack))
    {
      hide Charges;
      hide ChargeAll;
      hide Parallel;
      if !subtestOngoing {
        totalLeaks := totalLeaks + 1;
      }
      leakNumber := leakNumber + 1;
      ChargeStack(time, stack);
    }
  }

  lemma NoCharge(modules: seq<Module>)
    ensures ChargeAll(modules, []) == modules
  {
  }

  lemma ChargeMore(modules: seq<Module>, indices: seq<nat>, index: nat)
    ensures ChargeAll(modules, indices + [index]) == Charged(ChargeAll(modules, indices), index)
  {
    assert (indices + [index])[..|indices|] == indices;
  }

  lemma ChargesStep(modules: seq<Module>, time: nat, stack: seq<nat>, name: string, i: nat)
    requires i < |stack|
    ensures var index := FindModule(modules, stack[i], time, 0);
      Charges(modules, time, stack, name, i) ==
        if index < |modules| && name == "" then [index] + Charges(modules, time, stack, modules[index].name, i + 1)
        else Charges(modules, time, stack, name, i + 1)
  {
  }

  lemma ChargesEnd(modules: seq<Module>, time: nat, stack: seq<nat>, name: string)
    ensures Charges(modules, time, stack, name, |stack|) == []
  {
  }

  lemma SameNameAt(a: seq<Module>, b: seq<Module>, i: nat)
    ensures Parallel(a, b) && i < |a| ==> a[i].name == b[i].name
  {
    if Parallel(a, b) && i < |a| {
      assert a[i].(leaks := 0).name == b[i].(leaks := 0).name;
    }
  }

  lemma FindModuleParallel(a: seq<Module>, b: seq<Module>, address: nat, time: nat)
    ensures Parallel(a, b) ==> FindModule(a, address, time, 0) == FindModule(b, address, time, 0)
  {
    if Parallel(a, b) {
      forall i | 0 <= i < |a| ensures Holds(a[i], address, time) <==> Holds(b[i], address, time) {
        assert a[i].(leaks := 0) == b[i].(leaks := 0);
      }
    }
  }
}
