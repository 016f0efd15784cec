/** Who debugs what, as the kernel keeps it: the tracked processes with their agents, and the agents
    attached to every process. */
module ProcessTracking {
  import opened Wrappers
  import opened AttachMaps

  const MAX_PATH := 256

  /** A debugged process and the agents debugging it. */
  datatype Tracked = Tracked(name: Name, agents: seq<nat>)

  datatype Tracker = Tracker(processes: seq<Tracked>, toAll: seq<nat>)

  predicate ValidName(name: Name) {
    1 <= |name| < MAX_PATH
  }

  /** Index of the first process of this name from index i on, or the length. */
  function FindProcess(processes: seq<Tracked>, name: Name, i: nat): (index: nat)
    requires i <= |processes|
    ensures i <= index <= |processes|
    ensures forall k :: i <= k < index ==> !SameName(processes[k].name, name)
    ensures index < |processes| ==> SameName(processes[index].name, name)
    decreases |processes| - i
  {
    if i == |processes| || SameName(processes[i].name, name) then i else FindProcess(processes, name, i + 1)
  }

  /** Index of the first occurrence of an agent from index i on, or the length. */
  function FindAgent(agents: seq<nat>, agent: nat, i: nat): (index: nat)
    requires i <= |agents|
    ensures i <= index <= |agents|
    ensures forall k :: i <= k < index ==> agents[k] != agent
    ensures index < |agents| ==> agents[index] == agent
    decreases |agents| - i
  {
    if i == |agents| || agents[i] == agent then i else FindAgent(agents, agent, i + 1)
  }

  function RemoveAgent(agents: seq<nat>, agent: nat): seq<nat> {
    var index := FindAgent(agents, agent, 0);
    if index < |agents| then agents[..index] + agents[index + 1..] else agents
  }

  function TrackerAttach(tracker: Tracker, name: Name, agent: nat): (Tracker, Error) {
    if !ValidName(name) then (tracker, ErrArgument)
    else if name == STAR then
      if agent in tracker.toAll then (tracker, ErrAlreadyExists)
      else (tracker.(toAll := tracker.toAll + [agent]), ErrNone)
    else
      var index := FindProcess(tracker.processes, name, 0);
      if index < |tracker.processes| then
        var tracked := tracker.processes[index];
        (tracker.(processes := tracker.processes[index := tracked.(agents := [agent] + tracked.agents)]), ErrNone)
      else (tracker.(processes := tracker.processes + [Tracked(name, [agent])]), ErrNone)
  }

  function TrackerDetach(tracker: Tracker, name: Name, agent: nat): (Tracker, Error) {
    if !ValidName(name) then (tracker, ErrArgument)
    else if name == STAR then
      if agent in tracker.toAll then (tracker.(toAll := RemoveAgent(tracker.toAll, agent)), ErrNone)
      else (tracker, ErrNotFound)
    else
      var index := FindProcess(tracker.processes, name, 0);
      if index < |tracker.processes| then
        var left := RemoveAgent(tracker.processes[index].agents, agent);
        if left == [] then
          (tracker.(processes := tracker.processes[..index] + tracker.processes[index + 1..]), ErrNone)
        else
          (tracker.(processes := tracker.processes[index := tracker.processes[index].(agents := left)]), ErrNone)
      else (tracker, ErrNotFound)
  }

  /** Every process without the agent. */
  function WithoutAgent(processes: seq<Tracked>, agent: nat): (result: seq<Tracked>)
    ensures |result| == |processes|
    ensures forall i :: 0 <= i < |processes| ==> result[i] == Tracked(processes[i].name, RemoveAgent(processes[i].agents, agent))
  {
    seq(|processes|, i requires 0 <= i < |processes| => processes[i].(agents := RemoveAgent(processes[i].agents, agent)))
  }

  /** The processes some agent still debugs, in their order. */
  function StillDebugged(processes: seq<Tracked>): seq<Tracked>
    decreases |processes|
  {
    if processes == [] then []
    else
      StillDebugged(processes[..|processes| - 1]) +
      if processes[|processes| - 1].agents == [] then [] else [processes[|processes| - 1]]
  }

  function TrackerDetachAgent(tracker: Tracker, agent: nat): Tracker {
    Tracker(StillDebugged(WithoutAgent(tracker.processes, agent)), RemoveAgent(tracker.toAll, agent))
  }

  lemma {:induction false} StillDebuggedConcat(left: seq<Tracked>, right: seq<Tracked>)
    ensures StillDebugged(left + right) == StillDebugged(left) + StillDebugged(right)
    decreases |right|
  {
    if right == [] {
      assert left + right == left;
    } else {
      StillDebuggedConcat(left, right[..|right| - 1]);
      assert (left + right)[..|left + right| - 1] == left + right[..|right| - 1];
    }
  }

  /** The process at this index is the first of the name; at the length, there is none. */
  ghost predicate IsFirst(processes: seq<Tracked>, name: Name, index: nat) {
    && index <= |processes|
    && (forall k :: 0 <= k < index ==> !SameName(processes[k].name, name))
    && (index < |processes| ==> SameName(processes[index].name, name))
  }

  /** An attach fails for a name of the wrong length and for a second attach to all, and else puts the agent before the
      others of the process, or begins to track it. */
  lemma TrackerAttachOutcome(tracker: Tracker, name: Name, agent: nat) returns (index: nat)
    ensures IsFirst(tracker.processes, name, index)
    ensures var (after, err) := TrackerAttach(tracker, name, agent);
      && err == (if name == "" || |name| >= 256 then ErrArgument
                 else if name == STAR && agent in tracker.toAll then ErrAlreadyExists
                 else ErrNone)
      && (err != ErrNone ==> after == tracker)
      && (err == ErrNone ==>
            && after.toAll == tracker.toAll + (if name == STAR then [agent] else [])
            && after.processes ==
                 if name == STAR then tracker.processes
                 else if index == |tracker.processes| then tracker.processes + [Tracked(name, [agent])]
                 else tracker.processes[index := Tracked(tracker.processes[index].name, [agent] + tracker.processes[index].agents)])
  {
    index := FindProcess(tracker.processes, name, 0);
    assert tracker.toAll + [] == tracker.toAll;
    hide SameName;
  }

  /** A detach fails for a name of the wrong length, for an agent not attached to all, and for a process not tracked; it
      does not fail for a tracked process of other agents. */
  lemma TrackerDetachOutcome(tracker: Tracker, name: Name, agent: nat) returns (index: nat)
    ensures IsFirst(tracker.processes, name, index)
    ensures var (after, err) := TrackerDetach(tracker, name, agent);
      && err == (if name == "" || |name| >= 256 then ErrArgument
                 else if name == STAR then if agent in tracker.toAll then ErrNone else ErrNotFound
                 else if index == |tracker.processes| then ErrNotFound
                 else ErrNone)
      && (err != ErrNone ==> after == tracker)
      && (err == ErrNone && name != STAR && agent !in tracker.processes[index].agents && tracker.processes[index].agents != [] ==>
            after == tracker)
  {
    index := FindProcess(tracker.processes, name, 0);
    hide SameName;
  }

  // ---------------------------------------------------------------- the sweep over agents attached to all

  /** The loop as written: it runs to the length the list had before the removal, and stays in range. */
  predicate SweepStaysInRange(agents: seq<nat>, agent: nat, i: nat, count: nat)
    decreases count - i
  {
    i < count ==>
      && i < |agents|
      && SweepStaysInRange(if agents[i] == agent then agents[..i] + agents[i + 1..] else agents, agent, i + 1, count)
  }

  ghost predicate Distinct(agents: seq<nat>) {
    forall i, j :: 0 <= i < j < |agents| ==> agents[i] != agents[j]
  }

  lemma {:induction false} SweepAfterRemoval(agents: seq<nat>, agent: nat, i: nat, count: nat)
    requires |agents| == count - 1 && i <= count && agent !in agents
    ensures SweepStaysInRange(agents, agent, i, count) <==> i == count
    decreases count - i
  {
    if i >= |agents| {
    } else {
      assert agents[i] in agents;
      SweepAfterRemoval(agents, agent, i + 1, count);
    }
  }

  lemma {:induction false} SweepFrom(agents: seq<nat>, agent: nat, i: nat)
    requires Distinct(agents) && i <= |agents|
    requires forall k :: 0 <= k < i ==> agents[k] != agent
    ensures SweepStaysInRange(agents, agent, i, |agents|) <==> agent !in agents || agents[|agents| - 1] == agent
    decreases |agents| - i
  {
    if i >= |agents| {
    } else {
      if agents[i] == agent {
        var left := agents[..i] + agents[i + 1..];
        forall k | 0 <= k < |left| ensures left[k] != agent {
          assert left[k] == if k < i then agents[k] else agents[k + 1];
        }
        SweepAfterRemoval(left, agent, i + 1, |agents|);
      } else {
        SweepFrom(agents, agent, i + 1);
      }
    }
  }

  /** The sweep reads past the end of the shortened list, unless the agent is not attached to all or is
      the last one that is. */
  lemma SweepInRangeIff(agents: seq<nat>, agent: nat)
    requires Distinct(agents)
    ensures SweepStaysInRange(agents, agent, 0, |agents|) <==> agent !in agents || agents[|agents| - 1] == agent
  {
    SweepFrom(agents, agent, 0);
  }

  // ---------------------------------------------------------------- the tracker

  class ProcessTracker {
    var processes: seq<Tracked>
    var toAll: seq<nat>

    ghost function View(): Tracker
      reads this
    {
      Tracker(processes, toAll)
    }

    constructor ()
      ensures View() == Tracker([], [])
    {
      processes, toAll := [], [];
    }

    method AttachProcess(name: Name, agent: nat) returns (err: Error)
      modifies this
      ensures (View(), err) == TrackerAttach(old(View()), name, agent)
    {
      if |name| < 1 || |name| >= MAX_PATH {
        return ErrArgument;
      }
      if name == STAR {
        if agent in toAll {
          return ErrAlreadyExists;
        }
        toAll := toAll + [agent];
        return ErrNone;
      }
      var found := -1;
      var i := 0;
      while i < |processes| && found < 0
        invariant 0 <= i <= |processes|
        invariant found < 0 ==> FindProcess(processes, name, i) == FindProcess(processes, name, 0)
        invariant found >= 0 ==> found == i < |processes| && FindProcess(processes, name, 0) == i
        decreases |processes| - i, -found
      {
        if SameName(processes[i].name, name) {
          found := i;
        } else {
          i := i + 1;
        }
      }
      if found >= 0 {
        processes := processes[found := processes[found].(agents := [agent] + processes[found].agents)];
      } else {
        processes := processes + [Tracked(name, [agent])];
      }
      err := ErrNone;
    }

    method DetachProcess(name: Name, agent: nat) returns (err: Error)
      modifies this
      ensures (View(), err) == TrackerDetach(old(View()), name, agent)
    {
      if |name| < 1 || |name| >= MAX_PATH {
        return ErrArgument;
      }
      var i := 0;
      if name == STAR {
        while i < |toAll|
          invariant 0 <= i <= |toAll| && View() == old(View())
          invariant FindAgent(toAll, agent, i) == FindAgent(toAll, agent, 0)
        {
          if toAll[i] == agent {
            toAll := toAll[..i] + toAll[i + 1..];
            return ErrNone;
          }
          i := i + 1;
        }
        return ErrNotFound;
      }
      while i < |processes|
        invariant 0 <= i <= |processes| && View() == old(View())
        invariant FindProcess(processes, name, i) == FindProcess(processes, name, 0)
      {
        if SameName(processes[i].name, name) {
          var left := RemoveAgentFrom(processes[i].agents, agent);
          processes := processes[i := processes[i].(agents := left)];
          if |left| == 0 {
            processes := processes[..i] + processes[i + 1..];
          }
          return ErrNone;
        }
        i := i + 1;
      }
      err := ErrNotFound;
    }

    method RemoveAgentFrom(agents: seq<nat>, agent: nat) returns (left: seq<nat>)
      ensures left == RemoveAgent(agents, agent)
    {
      var i := 0;
      while i < |agents|
        invariant 0 <= i <= |agents|
        invariant FindAgent(agents, agent, i) == FindAgent(agents, agent, 0)
      {
        if agents[i] == agent {
          return agents[..i] + agents[i + 1..];
        }
        i := i + 1;
      }
      left := agents;
    }

    method RemoveAgentEverywhere(agent: nat)
      modifies `processes
      ensures processes == WithoutAgent(old(processes), agent)
    {
      var i := 0;
      while i < |processes|
        invariant 0 <= i <= |processes| == |old(processes)|
        invariant forall k :: 0 <= k < i ==> processes[k] == WithoutAgent(old(processes), agent)[k]
        invariant forall k :: i <= k < |processes| ==> processes[k] == old(processes)[k]
      {
        var left := RemoveAgentFrom(processes[i].agents, agent);
        processes := processes[i := processes[i].(agents := left)];
        i := i + 1;
      }
    }

    method DropUndebugged()
      modifies `processes
      ensures processes == StillDebugged(old(processes))
    {
      ghost var all := processes;
      var i := |processes|;
      while i > 0
        invariant 0 <= i <= |processes| && i <= |all|
        invariant processes[..i] == all[..i]
        invariant processes[i..] == StillDebugged(all[i..])
      {
        i := i - 1;
        ghost var rest := processes[i + 1..];
        StillDebuggedConcat([all[i]], all[i + 1..]);
        assert all[i..] == [all[i]] + all[i + 1..];
        assert processes[i] == processes[..i + 1][i] == all[i];
        if |processes[i].agents| == 0 {
          processes := processes[..i] + processes[i + 1..];
          assert processes[i..] == rest;
        } else {
          assert processes[i..] == [processes[i]] + rest;
        }
      }
      assert processes == processes[0..] && all == all[0..];
    }

    /** The sweep is bounded by the current length of the list. */
    method SweepAttachedToAll(agent: nat)
      requires Distinct(toAll)
      modifies `toAll
      ensures toAll == RemoveAgent(old(toAll), agent)
    {
      var i := 0;
      var removed := false;
      while i < |toAll|
        invariant 0 <= i
        invariant !removed ==> toAll == old(toAll) && i <= |toAll| && FindAgent(toAll, agent, i) == FindAgent(toAll, agent, 0)
        invariant removed ==> toAll == RemoveAgent(old(toAll), agent) && agent !in toAll
      {
        if toAll[i] == agent {
          assert FindAgent(toAll, agent, 0) == i;
          toAll := toAll[..i] + toAll[i + 1..];
          removed := true;
        }
        i := i + 1;
      }
    }

    method DetachAgent(agent: nat)
      requires Distinct(toAll)
      modifies this
      ensures View() == TrackerDetachAgent(old(View()), agent)
    {
      RemoveAgentEverywhere(agent);
      DropUndebugged();
      SweepAttachedToAll(agent);
    }
  }
}
