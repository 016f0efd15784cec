/** The two layers of attach bookkeeping under the sessions' calls: over every run the kernel tracks
    exactly the pairs in the security server's maps. */
module AttachAgreement {
  import opened Wrappers
  import opened AttachMaps
  import opened ProcessTracking

  /** Both layers, and for each agent's session the names its event handlers answer for. */
  datatype World = World(maps: Maps, tracker: Tracker, handlers: map<nat, seq<Name>>)

  const NOBODY := World(Maps([], []), Tracker([], []), map[])

  function HandlersOf(w: World, agent: nat): seq<Name> {
    if agent in w.handlers then w.handlers[agent] else []
  }

  /** The server records the pair, then the kernel, then a handler is made; nothing is taken back when the
      kernel refuses. */
  function SessionAttach(w: World, agent: nat, name: Name, passive: bool): (World, Error) {
    var (maps, err) := Attach(w.maps, name, agent, passive);
    if err != ErrNone then (w, err)
    else
      var (tracker, err) := TrackerAttach(w.tracker, name, agent);
      if err != ErrNone then (w.(maps := maps), err)
      else (World(maps, tracker, w.handlers[agent := [name] + HandlersOf(w, agent)]), ErrNone)
  }

  /** Index of the first handler of exactly this name from index i on, or the length. */
  function FindHandler(handlers: seq<Name>, name: Name, i: nat): (index: nat)
    requires i <= |handlers|
    ensures i <= index <= |handlers|
    ensures forall k :: i <= k < index ==> handlers[k] != name
    ensures index < |handlers| ==> handlers[index] == name
    decreases |handlers| - i
  {
    if i == |handlers| || handlers[i] == name then i else FindHandler(handlers, name, i + 1)
  }

  function DropHandler(handlers: seq<Name>, name: Name): seq<Name> {
    var index := FindHandler(handlers, name, 0);
    if index < |handlers| then handlers[..index] + handlers[index + 1..] else handlers
  }

  function SessionDetach(w: World, agent: nat, name: Name): (World, Error) {
    var (maps, err) := Detach(w.maps, name, agent);
    if err != ErrNone then (w, err)
    else
      var (tracker, err) := TrackerDetach(w.tracker, name, agent);
      (World(maps, tracker, w.handlers[agent := DropHandler(HandlersOf(w, agent), name)]), err)
  }

  /** Detaching from all goes through to the kernel only when a handler for the star is found. */
  function SessionDetachAll(w: World, agent: nat): (World, Error) {
    var (maps, err) := Detach(w.maps, STAR, agent);
    if err != ErrNone then (w, err)
    else if STAR !in HandlersOf(w, agent) then (w.(maps := maps), ErrNotFound)
    else
      var (tracker, err) := TrackerDetach(w.tracker, STAR, agent);
      (World(maps, tracker, w.handlers[agent := DropHandler(HandlersOf(w, agent), STAR)]), err)
  }

  function SessionClose(w: World, agent: nat): World {
    World(DetachAll(w.maps, agent), TrackerDetachAgent(w.tracker, agent), w.handlers - {agent})
  }

  datatype Request =
    | AttachTo(agent: nat, name: Name, passive: bool)
    | AttachToAll(agent: nat)
    | DetachFrom(agent: nat, name: Name)
    | DetachFromAll(agent: nat)
    | Close(agent: nat)

  function Serve(w: World, request: Request): World {
    match request
    case AttachTo(agent, name, passive) => SessionAttach(w, agent, name, passive).0
    case AttachToAll(agent) => SessionAttach(w, agent, STAR, false).0
    case DetachFrom(agent, name) => SessionDetach(w, agent, name).0
    case DetachFromAll(agent) => SessionDetachAll(w, agent).0
    case Close(agent) => SessionClose(w, agent)
  }

  function Run(w: World, requests: seq<Request>): World
    decreases |requests|
  {
    if requests == [] then w else Run(Serve(w, requests[0]), requests[1..])
  }

  // ---------------------------------------------------------------- agreement

  /** The server records that the agent debugs a name, given folded. */
  ghost predicate ServerHas(maps: Maps, folded: Name, agent: nat) {
    || (exists i :: 0 <= i < |maps.active| && maps.active[i].agent == agent && Fold(maps.active[i].name) == folded)
    || (exists i :: 0 <= i < |maps.passive| && maps.passive[i].agent == agent && Fold(maps.passive[i].name) == folded)
  }

  ghost predicate KernelHas(tracker: Tracker, folded: Name, agent: nat) {
    if folded == STAR then agent in tracker.toAll
    else exists i :: 0 <= i < |tracker.processes| && Fold(tracker.processes[i].name) == folded && agent in tracker.processes[i].agents
  }

  predicate SamePair(p: Pair, q: Pair) {
    p.agent == q.agent && Fold(p.name) == Fold(q.name)
  }

  /** No pair twice, in one map or across both, and one active debugger for each name but the star. */
  ghost predicate MapsOk(maps: Maps) {
    && (forall i, j :: 0 <= i < j < |maps.active| ==> !SamePair(maps.active[i], maps.active[j]))
    && (forall i, j :: 0 <= i < j < |maps.passive| ==> !SamePair(maps.passive[i], maps.passive[j]))
    && (forall i, j :: 0 <= i < |maps.active| && 0 <= j < |maps.passive| ==> !SamePair(maps.active[i], maps.passive[j]))
    && (forall i, j :: 0 <= i < j < |maps.active| && SameName(maps.active[i].name, maps.active[j].name) ==>
          maps.active[i].name == STAR)
  }

  /** Process names differ, none is the star, and every tracked process has agents, each once. */
  ghost predicate TrackerOk(tracker: Tracker) {
    && (forall i, j :: 0 <= i < j < |tracker.processes| ==> !SameName(tracker.processes[i].name, tracker.processes[j].name))
    && (forall i :: 0 <= i < |tracker.processes| ==>
          tracker.processes[i].name != STAR && tracker.processes[i].agents != [] && Distinct(tracker.processes[i].agents))
    && Distinct(tracker.toAll)
  }

  ghost predicate Agree(maps: Maps, tracker: Tracker) {
    forall folded, agent: nat :: ServerHas(maps, folded, agent) <==> KernelHas(tracker, folded, agent)
  }

  ghost predicate NamesValid(maps: Maps) {
    && (forall i :: 0 <= i < |maps.active| ==> ValidName(maps.active[i].name))
    && (forall i :: 0 <= i < |maps.passive| ==> ValidName(maps.passive[i].name))
  }

  // ---------------------------------------------------------------- what each layer's calls do

  /** One pair more, one pair fewer, or one agent fewer. */
  ghost predicate ServerAdds(before: Maps, after: Maps, folded: Name, agent: nat) {
    forall f, a: nat :: ServerHas(after, f, a) <==> ServerHas(before, f, a) || (f == folded && a == agent)
  }

  ghost predicate ServerDrops(before: Maps, after: Maps, folded: Name, agent: nat) {
    forall f, a: nat :: ServerHas(after, f, a) <==> ServerHas(before, f, a) && !(f == folded && a == agent)
  }

  ghost predicate KernelAdds(before: Tracker, after: Tracker, folded: Name, agent: nat) {
    forall f, a: nat :: KernelHas(after, f, a) <==> KernelHas(before, f, a) || (f == folded && a == agent)
  }

  ghost predicate KernelDrops(before: Tracker, after: Tracker, folded: Name, agent: nat) {
    forall f, a: nat :: KernelHas(after, f, a) <==> KernelHas(before, f, a) && !(f == folded && a == agent)
  }

  /** Some pair of the agent has the name, whatever its case. */
  ghost predicate InMap(pairs: seq<Pair>, name: Name, agent: nat) {
    exists i :: 0 <= i < |pairs| && pairs[i].agent == agent && SameName(pairs[i].name, name)
  }

  /** An attach is refused when the agent debugs the name already, in either map, and an active one when any agent
      actively debugs a name other than the star; otherwise it adds its pair to the map asked for, and only there. */
  lemma AttachOutcome(maps: Maps, name: Name, agent: nat, passive: bool)
    ensures var (after, err) := Attach(maps, name, agent, passive);
      var known := InMap(maps.active, name, agent) || InMap(maps.passive, name, agent);
      var taken := name != STAR && exists other: nat :: InMap(maps.active, name, other);
      && (err == ErrAlreadyExists <==> known)
      && (err == ErrInUse <==> !known && !passive && taken)
      && (err == ErrNone <==> !known && (passive || !taken))
      && after.active == maps.active + (if err == ErrNone && !passive then [Pair(name, agent)] else [])
      && after.passive == maps.passive + (if err == ErrNone && passive then [Pair(name, agent)] else [])
  {
    HasPairIff(maps.active, name, agent);
    HasPairIff(maps.passive, name, agent);
    DebuggedIff(maps.active, name);
    hide HasPair;
    hide NameDebugged;
    hide SameName;
    hide InMap;
    assert maps.active + [] == maps.active && maps.passive + [] == maps.passive;
  }

  lemma HasPairIff(pairs: seq<Pair>, name: Name, agent: nat)
    ensures HasPair(pairs, name, agent) <==> InMap(pairs, name, agent)
  {
    hide SameName;
  }

  lemma DebuggedIff(pairs: seq<Pair>, name: Name)
    ensures NameDebugged(pairs, name) <==> exists other: nat :: InMap(pairs, name, other)
  {
    hide SameName;
    if NameDebugged(pairs, name) {
      var i :| 0 <= i < |pairs| && SameName(pairs[i].name, name);
      assert InMap(pairs, name, pairs[i].agent);
    }
  }

  /** A detach takes the first pair that matches out of the active map, or of the passive one when the active one has
      none, and fails exactly when neither has one. */
  lemma DetachOutcome(maps: Maps, name: Name, agent: nat)
    ensures var (after, err) := Detach(maps, name, agent);
      var active, passive := InMap(maps.active, name, agent), InMap(maps.passive, name, agent);
      && (err == ErrNone <==> active || passive)
      && (err == ErrNotFound <==> !active && !passive)
      && (if active then FirstIsGone(maps.active, after.active, name, agent) else after.active == maps.active)
      && (if passive && !active then FirstIsGone(maps.passive, after.passive, name, agent) else after.passive == maps.passive)
  {
    FirstPair(maps.active, name, agent);
    FirstPair(maps.passive, name, agent);
    hide FirstIsGone;
    hide InMap;
  }

  ghost predicate FirstIsGone(before: seq<Pair>, after: seq<Pair>, name: Name, agent: nat) {
    exists i {:trigger before[i]} :: 0 <= i < |before| && before[i].agent == agent && SameName(before[i].name, name) &&
      !InMap(before[..i], name, agent) && after == before[..i] + before[i + 1..]
  }

  lemma FirstPair(pairs: seq<Pair>, name: Name, agent: nat)
    ensures var index := FindPair(pairs, name, agent, 0);
      if index < |pairs| then InMap(pairs, name, agent) && FirstIsGone(pairs, RemovePair(pairs, index), name, agent)
      else !InMap(pairs, name, agent)
  {
    hide SameName;
    var index := FindPair(pairs, name, agent, 0);
    if index < |pairs| {
      assert forall k :: 0 <= k < index ==> !Matches(pairs[..index][k], name, agent);
      assert pairs[index].agent == agent && !InMap(pairs[..index], name, agent);
    }
  }

  lemma AttachKeepsOk(maps: Maps, name: Name, agent: nat, passive: bool)
    ensures MapsOk(maps) ==> MapsOk(Attach(maps, name, agent, passive).0)
  {
    if MapsOk(maps) {
      OnlyStarIsStar(name);
      assert forall p: Pair :: SamePair(p, Pair(name, agent)) <==> Matches(p, name, agent);
      hide Fold;
      hide SamePair;
      hide SameName;
      hide Matches;
    }
  }

  lemma HoldsAppend(pairs: seq<Pair>, pair: Pair, folded: Name, agent: nat)
    ensures Holds(pairs + [pair], folded, agent) <==>
      Holds(pairs, folded, agent) || (folded == Fold(pair.name) && agent == pair.agent)
  {
    var longer := pairs + [pair];
    assert longer[|pairs|] == pair && forall i :: 0 <= i < |pairs| ==> longer[i] == pairs[i];
  }

  lemma AttachAdds(maps: Maps, name: Name, agent: nat, passive: bool)
    ensures MapsOk(maps) && Attach(maps, name, agent, passive).1 == ErrNone ==>
      MapsOk(Attach(maps, name, agent, passive).0)
    ensures MapsOk(maps) && Attach(maps, name, agent, passive).1 == ErrNone ==>
      ServerAdds(maps, Attach(maps, name, agent, passive).0, Fold(name), agent)
    ensures MapsOk(maps) && Attach(maps, name, agent, passive).1 == ErrNone ==> !ServerHas(maps, Fold(name), agent)
  {
    if MapsOk(maps) && Attach(maps, name, agent, passive).1 == ErrNone {
      var after := Attach(maps, name, agent, passive).0;
      AttachKeepsOk(maps, name, agent, passive);
      hide MapsOk;
      forall f, a: nat ensures ServerHas(after, f, a) <==> ServerHas(maps, f, a) || (f == Fold(name) && a == agent) {
        HoldsAppend(if passive then maps.passive else maps.active, Pair(name, agent), f, a);
        assert ServerHas(maps, f, a) <==> Holds(maps.active, f, a) || Holds(maps.passive, f, a);
        assert ServerHas(after, f, a) <==> Holds(after.active, f, a) || Holds(after.passive, f, a);
      }
    }
  }

  /** Every pair but the one removed is still there, and in order. */
  lemma RemovePairKeeps(pairs: seq<Pair>, index: nat)
    requires index < |pairs|
    ensures |RemovePair(pairs, index)| == |pairs| - 1
    ensures forall k {:trigger RemovePair(pairs, index)[k]} :: 0 <= k < |pairs| - 1 ==>
      RemovePair(pairs, index)[k] == pairs[if k < index then k else k + 1]
    ensures forall p :: p in pairs && p != pairs[index] ==> p in RemovePair(pairs, index)
  {
    forall p | p in pairs && p != pairs[index] ensures p in RemovePair(pairs, index) {
      var k :| 0 <= k < |pairs| && pairs[k] == p;
      assert RemovePair(pairs, index)[if k < index then k else k - 1] == p;
    }
  }

  /** A list of pairs without doubles, seen as a set of folded names and agents. */
  ghost predicate Holds(pairs: seq<Pair>, folded: Name, agent: nat) {
    exists i :: 0 <= i < |pairs| && pairs[i].agent == agent && Fold(pairs[i].name) == folded
  }

  lemma RemovePairDrops(pairs: seq<Pair>, index: nat, folded: Name, agent: nat)
    requires index < |pairs|
    requires forall i, j :: 0 <= i < j < |pairs| ==> !SamePair(pairs[i], pairs[j])
    ensures Holds(RemovePair(pairs, index), folded, agent) <==>
      Holds(pairs, folded, agent) && !(folded == Fold(pairs[index].name) && agent == pairs[index].agent)
  {
    RemovePairKeeps(pairs, index);
    var left := RemovePair(pairs, index);
    if Holds(pairs, folded, agent) {
      var i :| 0 <= i < |pairs| && pairs[i].agent == agent && Fold(pairs[i].name) == folded;
      assert i != index ==> left[if i < index then i else i - 1] == pairs[i];
      assert i == index ==> forall k :: 0 <= k < |left| ==> !SamePair(left[k], pairs[index]);
    }
    if Holds(left, folded, agent) {
      var k :| 0 <= k < |left| && left[k].agent == agent && Fold(left[k].name) == folded;
      assert left[k] == pairs[if k < index then k else k + 1];
    }
  }

  lemma RemovePairKeepsOk(maps: Maps, index: nat)
    ensures MapsOk(maps) ==> index < |maps.active| ==> MapsOk(maps.(active := RemovePair(maps.active, index)))
    ensures MapsOk(maps) ==> index < |maps.passive| ==> MapsOk(maps.(passive := RemovePair(maps.passive, index)))
  {
    if MapsOk(maps) {
      if index < |maps.active| {
        RemovePairKeeps(maps.active, index);
      }
      if index < |maps.passive| {
        RemovePairKeeps(maps.passive, index);
      }
    }
  }

  lemma DetachDrops(maps: Maps, name: Name, agent: nat)
    requires MapsOk(maps) && Detach(maps, name, agent).1 == ErrNone
    ensures MapsOk(Detach(maps, name, agent).0)
    ensures ServerDrops(maps, Detach(maps, name, agent).0, Fold(name), agent)
    ensures ServerHas(maps, Fold(name), agent)
  {
    var after := Detach(maps, name, agent).0;
    var i := FindPair(maps.active, name, agent, 0);
    var j := FindPair(maps.passive, name, agent, 0);
    RemovePairKeepsOk(maps, if i < |maps.active| then i else j);
    forall f, a: nat ensures ServerHas(after, f, a) <==> ServerHas(maps, f, a) && !(f == Fold(name) && a == agent) {
      assert ServerHas(maps, f, a) <==> Holds(maps.active, f, a) || Holds(maps.passive, f, a);
      assert ServerHas(after, f, a) <==> Holds(after.active, f, a) || Holds(after.passive, f, a);
      if i < |maps.active| {
        RemovePairDrops(maps.active, i, f, a);
        assert f == Fold(name) && a == agent ==> !Holds(maps.passive, f, a) by {
          assert SamePair(maps.active[i], Pair(name, agent));
        }
      } else {
        RemovePairDrops(maps.passive, j, f, a);
        assert f == Fold(name) && a == agent ==> !Holds(maps.active, f, a);
      }
    }
  }

  lemma TrackerAttachAdds(tracker: Tracker, name: Name, agent: nat)
    requires TrackerOk(tracker) && ValidName(name) && !KernelHas(tracker, Fold(name), agent)
    ensures TrackerAttach(tracker, name, agent).1 == ErrNone
    ensures TrackerOk(TrackerAttach(tracker, name, agent).0)
    ensures KernelAdds(tracker, TrackerAttach(tracker, name, agent).0, Fold(name), agent)
  {
    OnlyStarIsStar(name);
    var after := TrackerAttach(tracker, name, agent).0;
    if name != STAR {
      var index := FindProcess(tracker.processes, name, 0);
      forall i | 0 <= i < |tracker.processes| && i != index ensures after.processes[i] == tracker.processes[i] {
      }
      if index < |tracker.processes| {
        assert agent !in tracker.processes[index].agents;
        assert forall a: nat :: a in after.processes[index].agents <==> a == agent || a in tracker.processes[index].agents;
      } else {
        assert after.processes[index] == Tracked(name, [agent]);
      }
    }
  }

  lemma RemoveAgentDrops(agents: seq<nat>, agent: nat)
    ensures Distinct(agents) ==> Distinct(RemoveAgent(agents, agent))
    ensures Distinct(agents) ==> (forall a: nat :: a in RemoveAgent(agents, agent) <==> a in agents && a != agent)
  {
    if Distinct(agents) {
      var index := FindAgent(agents, agent, 0);
      var left := RemoveAgent(agents, agent);
      if index < |agents| {
        assert forall k :: 0 <= k < |left| ==> left[k] == agents[if k < index then k else k + 1];
        forall a: nat | a in agents && a != agent ensures a in left {
          var k :| 0 <= k < |agents| && agents[k] == a;
          assert left[if k < index then k else k - 1] == a;
        }
      }
    }
  }

  lemma TrackerDetachDrops(tracker: Tracker, name: Name, agent: nat)
    requires TrackerOk(tracker) && ValidName(name) && KernelHas(tracker, Fold(name), agent)
    ensures TrackerDetach(tracker, name, agent).1 == ErrNone
    ensures TrackerOk(TrackerDetach(tracker, name, agent).0)
    ensures KernelDrops(tracker, TrackerDetach(tracker, name, agent).0, Fold(name), agent)
  {
    OnlyStarIsStar(name);
    if name == STAR {
      RemoveAgentDrops(tracker.toAll, agent);
    } else {
      var index := FindProcess(tracker.processes, name, 0);
      RemoveAgentDrops(tracker.processes[index].agents, agent);
      var after := TrackerDetach(tracker, name, agent).0;
      if RemoveAgent(tracker.processes[index].agents, agent) == [] {
        LastAgentDrops(tracker, after, index, agent);
      } else {
        SomeAgentDrops(tracker, after, index, agent);
      }
    }
  }

  /** The process leaves the list with its last agent. */
  lemma LastAgentDrops(tracker: Tracker, after: Tracker, index: nat, agent: nat)
    requires TrackerOk(tracker) && index < |tracker.processes|
    requires forall a: nat :: a in tracker.processes[index].agents <==> a == agent
    requires after == tracker.(processes := tracker.processes[..index] + tracker.processes[index + 1..])
    ensures TrackerOk(after) && KernelDrops(tracker, after, Fold(tracker.processes[index].name), agent)
  {
    var before := tracker.processes;
    assert forall k :: 0 <= k < |after.processes| ==> after.processes[k] == before[if k < index then k else k + 1];
    forall f, a: nat
      ensures KernelHas(after, f, a) <==> KernelHas(tracker, f, a) && !(f == Fold(before[index].name) && a == agent)
    {
      OnlyStarIsStar(before[index].name);
      if f != STAR && KernelHas(tracker, f, a) {
        var i :| 0 <= i < |before| && Fold(before[i].name) == f && a in before[i].agents;
        assert i != index ==> after.processes[if i < index then i else i - 1] == before[i];
      }
    }
  }

  lemma SomeAgentDrops(tracker: Tracker, after: Tracker, index: nat, agent: nat)
    requires TrackerOk(tracker) && index < |tracker.processes|
    requires after == tracker.(processes :=
      tracker.processes[index := tracker.processes[index].(agents := RemoveAgent(tracker.processes[index].agents, agent))])
    requires after.processes[index].agents != []
    ensures TrackerOk(after) && KernelDrops(tracker, after, Fold(tracker.processes[index].name), agent)
  {
    var before := tracker.processes;
    RemoveAgentDrops(before[index].agents, agent);
    hide RemoveAgent;
    forall f, a: nat
      ensures KernelHas(after, f, a) <==> KernelHas(tracker, f, a) && !(f == Fold(before[index].name) && a == agent)
    {
      OnlyStarIsStar(before[index].name);
      if f != STAR && KernelHas(tracker, f, a) {
        var i :| 0 <= i < |before| && Fold(before[i].name) == f && a in before[i].agents;
        assert i != index ==> after.processes[i] == before[i];
      }
      if f != STAR && KernelHas(after, f, a) {
        var i :| 0 <= i < |before| && Fold(after.processes[i].name) == f && a in after.processes[i].agents;
        assert i != index ==> after.processes[i] == before[i];
      }
    }
  }

  // ---------------------------------------------------------------- every run

  ghost predicate Inv(w: World) {
    MapsOk(w.maps) && TrackerOk(w.tracker) && Agree(w.maps, w.tracker) && NamesValid(w.maps)
  }

  lemma AttachKeepsAgreement(w: World, agent: nat, name: Name, passive: bool)
    requires Inv(w) && ValidName(name)
    ensures Inv(SessionAttach(w, agent, name, passive).0)
    ensures SessionAttach(w, agent, name, passive).1 == Attach(w.maps, name, agent, passive).1
  {
    if Attach(w.maps, name, agent, passive).1 == ErrNone {
      AttachAdds(w.maps, name, agent, passive);
      hide MapsOk;
      hide TrackerOk;
      assert !KernelHas(w.tracker, Fold(name), agent);
      TrackerAttachAdds(w.tracker, name, agent);
      hide ServerHas;
      hide KernelHas;
    }
  }

  lemma FoundIsValid(maps: Maps, name: Name, agent: nat)
    requires NamesValid(maps) && Detach(maps, name, agent).1 == ErrNone
    ensures ValidName(name) && NamesValid(Detach(maps, name, agent).0)
  {
    var i := FindPair(maps.active, name, agent, 0);
    var j := FindPair(maps.passive, name, agent, 0);
    if i < |maps.active| {
      assert |Fold(maps.active[i].name)| == |Fold(name)|;
      RemovePairKeeps(maps.active, i);
    } else {
      assert |Fold(maps.passive[j].name)| == |Fold(name)|;
      RemovePairKeeps(maps.passive, j);
    }
  }

  lemma DetachKeepsAgreement(w: World, agent: nat, name: Name)
    requires Inv(w)
    ensures Inv(SessionDetach(w, agent, name).0)
    ensures SessionDetach(w, agent, name).1 == ErrNone <==> ServerHas(w.maps, Fold(name), agent)
    ensures SessionDetach(w, agent, name).1 == Detach(w.maps, name, agent).1
  {
    if Detach(w.maps, name, agent).1 == ErrNone {
      DetachDrops(w.maps, name, agent);
      FoundIsValid(w.maps, name, agent);
      hide MapsOk;
      hide TrackerOk;
      hide NamesValid;
      hide ServerHas;
      assert KernelHas(w.tracker, Fold(name), agent);
      TrackerDetachDrops(w.tracker, name, agent);
      hide KernelHas;
    }
  }

  // ---------------------------------------------------------------- closing a session

  lemma {:induction false} WithoutMembers(pairs: seq<Pair>, agent: nat)
    ensures forall p :: p in Without(pairs, agent) <==> p in pairs && p.agent != agent
    decreases |pairs|
  {
    if pairs == [] {
    } else {
      WithoutMembers(pairs[..|pairs| - 1], agent);
      assert pairs == pairs[..|pairs| - 1] + [pairs[|pairs| - 1]];
    }
  }

  ghost predicate NoDoubles(pairs: seq<Pair>) {
    forall i, j :: 0 <= i < j < |pairs| ==> !SamePair(pairs[i], pairs[j])
  }

  ghost predicate OneDebugger(pairs: seq<Pair>) {
    forall i, j :: 0 <= i < j < |pairs| && SameName(pairs[i].name, pairs[j].name) ==> pairs[i].name == STAR
  }

  /** Closing keeps the other agents' pairs in their order, so no two come into conflict. */
  lemma {:induction false} WithoutKeepsNoDoubles(pairs: seq<Pair>, agent: nat)
    ensures NoDoubles(pairs) ==> NoDoubles(Without(pairs, agent))
    decreases |pairs|
  {
    if NoDoubles(pairs) {
      if pairs == [] {
      } else {
        var front, last := pairs[..|pairs| - 1], pairs[|pairs| - 1];
        WithoutKeepsNoDoubles(front, agent);
        WithoutMembers(front, agent);
        var kept := Without(front, agent);
        forall i | 0 <= i < |kept| ensures !SamePair(kept[i], last) {
          assert kept[i] in front;
        }
        hide SamePair;
      }
    }
  }

  lemma {:induction false} WithoutKeepsOneDebugger(pairs: seq<Pair>, agent: nat)
    ensures OneDebugger(pairs) ==> OneDebugger(Without(pairs, agent))
    decreases |pairs|
  {
    if OneDebugger(pairs) {
      if pairs == [] {
      } else {
        var front, last := pairs[..|pairs| - 1], pairs[|pairs| - 1];
        WithoutKeepsOneDebugger(front, agent);
        WithoutMembers(front, agent);
        var kept := Without(front, agent);
        forall i | 0 <= i < |kept| && SameName(kept[i].name, last.name) ensures kept[i].name == STAR {
          assert kept[i] in front;
        }
        hide SameName;
      }
    }
  }

  lemma DetachAllKeepsOk(maps: Maps, agent: nat)
    ensures MapsOk(maps) ==> MapsOk(DetachAll(maps, agent))
  {
    if MapsOk(maps) {
      assert NoDoubles(maps.active) && NoDoubles(maps.passive) && OneDebugger(maps.active);
      WithoutKeepsNoDoubles(maps.active, agent);
      WithoutKeepsNoDoubles(maps.passive, agent);
      WithoutKeepsOneDebugger(maps.active, agent);
      WithoutMembers(maps.active, agent);
      WithoutMembers(maps.passive, agent);
      var after := DetachAll(maps, agent);
      forall i, j | 0 <= i < |after.active| && 0 <= j < |after.passive| ensures !SamePair(after.active[i], after.passive[j]) {
        assert after.active[i] in maps.active && after.passive[j] in maps.passive;
      }
    }
  }

  lemma DetachAllDrops(maps: Maps, agent: nat)
    requires MapsOk(maps)
    ensures MapsOk(DetachAll(maps, agent))
    ensures NamesValid(maps) ==> NamesValid(DetachAll(maps, agent))
    ensures forall f, a: nat :: ServerHas(DetachAll(maps, agent), f, a) <==> ServerHas(maps, f, a) && a != agent
  {
    DetachAllKeepsOk(maps, agent);
    hide MapsOk;
    WithoutMembers(maps.active, agent);
    WithoutMembers(maps.passive, agent);
    var after := DetachAll(maps, agent);
    assert forall i :: 0 <= i < |after.active| ==> after.active[i] in maps.active;
    assert forall i :: 0 <= i < |after.passive| ==> after.passive[i] in maps.passive;
    forall f, a: nat ensures ServerHas(after, f, a) <==> ServerHas(maps, f, a) && a != agent {
      WithoutHolds(maps.active, agent, f, a);
      WithoutHolds(maps.passive, agent, f, a);
      assert ServerHas(maps, f, a) <==> Holds(maps.active, f, a) || Holds(maps.passive, f, a);
      assert ServerHas(after, f, a) <==> Holds(after.active, f, a) || Holds(after.passive, f, a);
    }
  }

  lemma WithoutHolds(pairs: seq<Pair>, agent: nat, f: Name, a: nat)
    ensures Holds(Without(pairs, agent), f, a) <==> Holds(pairs, f, a) && a != agent
  {
    WithoutMembers(pairs, agent);
    var left := Without(pairs, agent);
    if Holds(pairs, f, a) && a != agent {
      var i :| 0 <= i < |pairs| && pairs[i].agent == a && Fold(pairs[i].name) == f;
      assert pairs[i] in left;
      var j :| 0 <= j < |left| && left[j] == pairs[i];
    }
    if Holds(left, f, a) {
      var j :| 0 <= j < |left| && left[j].agent == a && Fold(left[j].name) == f;
      assert left[j] in pairs;
      var i :| 0 <= i < |pairs| && pairs[i] == left[j];
    }
  }

  lemma {:induction false} StillDebuggedMembers(processes: seq<Tracked>)
    ensures forall t :: t in StillDebugged(processes) <==> t in processes && t.agents != []
    decreases |processes|
  {
    if processes == [] {
    } else {
      StillDebuggedMembers(processes[..|processes| - 1]);
      assert processes == processes[..|processes| - 1] + [processes[|processes| - 1]];
    }
  }

  ghost predicate NamesDiffer(processes: seq<Tracked>) {
    forall i, j :: 0 <= i < j < |processes| ==> !SameName(processes[i].name, processes[j].name)
  }

  /** Dropping the processes nobody debugs keeps the others, in their order. */
  lemma {:induction false} StillDebuggedKeeps(processes: seq<Tracked>)
    ensures NamesDiffer(processes) ==> NamesDiffer(StillDebugged(processes))
    decreases |processes|
  {
    if NamesDiffer(processes) {
      if processes == [] {
      } else {
        var front, last := processes[..|processes| - 1], processes[|processes| - 1];
        StillDebuggedKeeps(front);
        StillDebuggedMembers(front);
        var kept := StillDebugged(front);
        forall i | 0 <= i < |kept| ensures !SameName(kept[i].name, last.name) {
          assert kept[i] in front;
        }
        hide SameName;
      }
    }
  }

  lemma AgentRemovedAt(processes: seq<Tracked>, agent: nat, i: nat)
    ensures i < |processes| && Distinct(processes[i].agents) ==>
      (forall a: nat :: a in WithoutAgent(processes, agent)[i].agents <==> a in processes[i].agents && a != agent)
  {
    if i < |processes| && Distinct(processes[i].agents) {
      RemoveAgentDrops(processes[i].agents, agent);
    }
  }

  ghost predicate Tracks(processes: seq<Tracked>, f: Name, a: nat) {
    exists i :: 0 <= i < |processes| && Fold(processes[i].name) == f && a in processes[i].agents
  }

  lemma StillDebuggedTracks(processes: seq<Tracked>, f: Name, a: nat)
    ensures Tracks(StillDebugged(processes), f, a) <==> Tracks(processes, f, a)
  {
    var left := StillDebugged(processes);
    StillDebuggedMembers(processes);
    if Tracks(processes, f, a) {
      var i :| 0 <= i < |processes| && Fold(processes[i].name) == f && a in processes[i].agents;
      assert processes[i] in left;
      var j :| 0 <= j < |left| && left[j] == processes[i];
    }
    if Tracks(left, f, a) {
      var j :| 0 <= j < |left| && Fold(left[j].name) == f && a in left[j].agents;
      assert left[j] in processes;
      var i :| 0 <= i < |processes| && processes[i] == left[j];
    }
  }

  lemma AgentRemovedEverywhere(processes: seq<Tracked>, agent: nat, f: Name, a: nat)
    requires forall i :: 0 <= i < |processes| ==> Distinct(processes[i].agents)
    ensures Tracks(WithoutAgent(processes, agent), f, a) <==> Tracks(processes, f, a) && a != agent
  {
    var all := WithoutAgent(processes, agent);
    forall i | 0 <= i < |processes| ensures a in all[i].agents <==> a in processes[i].agents && a != agent {
      AgentRemovedAt(processes, agent, i);
    }
    hide RemoveAgent;
    if Tracks(processes, f, a) && a != agent {
      var i :| 0 <= i < |processes| && Fold(processes[i].name) == f && a in processes[i].agents;
      assert all[i].name == processes[i].name;
    }
  }

  lemma TrackerDetachAgentOk(tracker: Tracker, agent: nat)
    ensures TrackerOk(tracker) ==> TrackerOk(TrackerDetachAgent(tracker, agent))
  {
    if TrackerOk(tracker) {
      var all := WithoutAgent(tracker.processes, agent);
      var left := StillDebugged(all);
      StillDebuggedMembers(all);
      assert NamesDiffer(all);
      StillDebuggedKeeps(all);
      RemoveAgentDrops(tracker.toAll, agent);
      forall i | 0 <= i < |left| ensures left[i].name != STAR && left[i].agents != [] && Distinct(left[i].agents) {
        assert left[i] in all;
        var k :| 0 <= k < |all| && all[k] == left[i];
        RemoveAgentDrops(tracker.processes[k].agents, agent);
      }
    }
  }

  lemma TrackerDetachAgentDrops(tracker: Tracker, agent: nat)
    requires TrackerOk(tracker)
    ensures TrackerOk(TrackerDetachAgent(tracker, agent))
    ensures forall f, a: nat :: KernelHas(TrackerDetachAgent(tracker, agent), f, a) <==> KernelHas(tracker, f, a) && a != agent
  {
    TrackerDetachAgentOk(tracker, agent);
    RemoveAgentDrops(tracker.toAll, agent);
    forall f, a: nat ensures KernelHas(TrackerDetachAgent(tracker, agent), f, a) <==> KernelHas(tracker, f, a) && a != agent {
      if f != STAR {
        AgentRemovedEverywhere(tracker.processes, agent, f, a);
        StillDebuggedTracks(WithoutAgent(tracker.processes, agent), f, a);
        assert Tracks(tracker.processes, f, a) <==> KernelHas(tracker, f, a);
        assert Tracks(TrackerDetachAgent(tracker, agent).processes, f, a) <==> KernelHas(TrackerDetachAgent(tracker, agent), f, a);
      }
    }
  }

  lemma CloseKeepsAgreement(w: World, agent: nat)
    requires Inv(w)
    ensures Inv(SessionClose(w, agent))
    ensures forall f: Name :: !ServerHas(SessionClose(w, agent).maps, f, agent)
  {
    DetachAllDrops(w.maps, agent);
    TrackerDetachAgentDrops(w.tracker, agent);
    hide MapsOk;
    hide TrackerOk;
    hide NamesValid;
    hide ServerHas;
    hide KernelHas;
  }

  // ---------------------------------------------------------------- handlers

  ghost predicate AtMostOnce(handlers: seq<Name>, name: Name) {
    forall i, j :: 0 <= i < j < |handlers| ==> handlers[i] != name || handlers[j] != name
  }

  /** An agent's session has one handler for each name it is attached to, spelled as it attached. */
  ghost predicate HandlersMatch(w: World, agent: nat) {
    var handlers := HandlersOf(w, agent);
    && (forall name :: AtMostOnce(handlers, name))
    && (forall name :: name in handlers <==> Pair(name, agent) in w.maps.active || Pair(name, agent) in w.maps.passive)
  }

  /** Only the handler for the star matters to detaching from all. */
  ghost predicate StarHandlers(w: World) {
    forall agent: nat ::
      && (STAR in HandlersOf(w, agent) <==> ServerHas(w.maps, STAR, agent))
      && AtMostOnce(HandlersOf(w, agent), STAR)
  }

  lemma DropHandlerKeeps(handlers: seq<Name>, name: Name, n: Name)
    ensures n in DropHandler(handlers, name) ==> n in handlers
    ensures n in handlers && n != name ==> n in DropHandler(handlers, name)
    ensures AtMostOnce(handlers, n) ==> AtMostOnce(DropHandler(handlers, name), n)
    ensures AtMostOnce(handlers, name) ==> name !in DropHandler(handlers, name)
  {
    var index := FindHandler(handlers, name, 0);
    var left := DropHandler(handlers, name);
    if index < |handlers| {
      assert forall k :: 0 <= k < |left| ==> left[k] == handlers[if k < index then k else k + 1];
      if n in handlers && n != name {
        var k :| 0 <= k < |handlers| && handlers[k] == n;
        assert left[if k < index then k else k - 1] == n;
      }
    }
  }

  lemma DetachKeepsStar(w: World, agent: nat, name: Name)
    ensures Inv(w) && StarHandlers(w) ==> StarHandlers(SessionDetach(w, agent, name).0)
  {
    if Inv(w) && StarHandlers(w) {
      if Detach(w.maps, name, agent).1 == ErrNone {
        var after := SessionDetach(w, agent, name).0;
        DetachDrops(w.maps, name, agent);
        OnlyStarIsStar(name);
        hide MapsOk;
        hide TrackerOk;
        hide Agree;
        hide NamesValid;
        hide ServerHas;
        forall a: nat
          ensures STAR in HandlersOf(after, a) <==> ServerHas(after.maps, STAR, a)
          ensures AtMostOnce(HandlersOf(after, a), STAR)
        {
          assert STAR in HandlersOf(w, a) <==> ServerHas(w.maps, STAR, a);
          DropHandlerKeeps(HandlersOf(w, a), name, STAR);
          assert HandlersOf(after, a) == if a == agent then DropHandler(HandlersOf(w, a), name) else HandlersOf(w, a);
        }
      }
    }
  }

  lemma AttachKeepsStar(w: World, agent: nat, name: Name, passive: bool)
    ensures Inv(w) && StarHandlers(w) && ValidName(name) ==> StarHandlers(SessionAttach(w, agent, name, passive).0)
  {
    if Inv(w) && StarHandlers(w) && ValidName(name) {
      if Attach(w.maps, name, agent, passive).1 == ErrNone {
        var after := SessionAttach(w, agent, name, passive).0;
        AttachKeepsAgreement(w, agent, name, passive);
        AttachAdds(w.maps, name, agent, passive);
        OnlyStarIsStar(name);
        hide MapsOk;
        hide TrackerOk;
        hide Agree;
        hide NamesValid;
        hide ServerHas;
        forall a: nat
          ensures STAR in HandlersOf(after, a) <==> ServerHas(after.maps, STAR, a)
          ensures AtMostOnce(HandlersOf(after, a), STAR)
        {
          assert STAR in HandlersOf(w, a) <==> ServerHas(w.maps, STAR, a);
          assert HandlersOf(after, a) == if a == agent then [name] + HandlersOf(w, a) else HandlersOf(w, a);
        }
      }
    }
  }

  /** With a handler for the star wherever an agent is attached to all, detaching from all is detaching the star. */
  lemma DetachAllIsDetach(w: World, agent: nat)
    ensures Inv(w) && StarHandlers(w) ==> SessionDetachAll(w, agent) == SessionDetach(w, agent, STAR)
  {
    if Inv(w) && StarHandlers(w) {
      OnlyStarIsStar(STAR);
      if Detach(w.maps, STAR, agent).1 == ErrNone {
        DetachDrops(w.maps, STAR, agent);
      }
    }
  }

  /** Without a handler for the star, detaching from all takes the pair out of the server's maps and leaves it in the
      kernel: both layers stay in agreement exactly when the handler is there, or nothing was attached to all. */
  lemma DetachAllAgreesIff(w: World, agent: nat)
    requires Inv(w)
    ensures var (after, err) := SessionDetachAll(w, agent);
      && (Agree(after.maps, after.tracker) <==> STAR in HandlersOf(w, agent) || !ServerHas(w.maps, STAR, agent))
      && (err == ErrNone <==> STAR in HandlersOf(w, agent) && ServerHas(w.maps, STAR, agent))
      && (err != ErrNone ==> err == ErrNotFound)
  {
    OnlyStarIsStar(STAR);
    DetachKeepsAgreement(w, agent, STAR);
    hide MapsOk;
    hide TrackerOk;
    hide NamesValid;
    hide TrackerDetach;
    if Detach(w.maps, STAR, agent).1 == ErrNone && STAR !in HandlersOf(w, agent) {
      DetachDrops(w.maps, STAR, agent);
      hide Detach;
      assert KernelHas(w.tracker, STAR, agent);
    }
  }

  lemma CloseKeepsStar(w: World, agent: nat)
    ensures Inv(w) && StarHandlers(w) ==> StarHandlers(SessionClose(w, agent))
  {
    if Inv(w) && StarHandlers(w) {
      DetachAllDrops(w.maps, agent);
      hide ServerHas;
      var after := SessionClose(w, agent);
      forall a: nat
        ensures STAR in HandlersOf(after, a) <==> ServerHas(after.maps, STAR, a)
        ensures AtMostOnce(HandlersOf(after, a), STAR)
      {
        assert STAR in HandlersOf(w, a) <==> ServerHas(w.maps, STAR, a);
        assert HandlersOf(after, a) == if a == agent then [] else HandlersOf(w, a);
      }
    }
  }

  // ---------------------------------------------------------------- the main results

  predicate NameOk(request: Request) {
    request.AttachTo? ==> ValidName(request.name)
  }

  lemma ServeKeeps(w: World, request: Request)
    ensures Inv(w) && StarHandlers(w) && NameOk(request) ==> Inv(Serve(w, request)) && StarHandlers(Serve(w, request))
  {
    hide Inv;
    hide StarHandlers;
    if Inv(w) && StarHandlers(w) && NameOk(request) {
      match request
      case AttachTo(agent, name, passive) =>
        AttachKeepsAgreement(w, agent, name, passive);
        AttachKeepsStar(w, agent, name, passive);
      case AttachToAll(agent) =>
        AttachKeepsAgreement(w, agent, STAR, false);
        AttachKeepsStar(w, agent, STAR, false);
      case DetachFrom(agent, name) =>
        DetachKeepsAgreement(w, agent, name);
        DetachKeepsStar(w, agent, name);
      case DetachFromAll(agent) =>
        DetachAllIsDetach(w, agent);
        DetachKeepsAgreement(w, agent, STAR);
        DetachKeepsStar(w, agent, STAR);
      case Close(agent) =>
        CloseKeepsAgreement(w, agent);
        CloseKeepsStar(w, agent);
    }
  }

  lemma {:induction false} RunKeeps(w: World, requests: seq<Request>)
    requires Inv(w) && StarHandlers(w)
    requires forall i :: 0 <= i < |requests| ==> NameOk(requests[i])
    ensures Inv(Run(w, requests)) && StarHandlers(Run(w, requests))
    decreases |requests|
  {
    hide Inv;
    hide StarHandlers;
    if requests == [] {
    } else {
      ServeKeeps(w, requests[0]);
      RunKeeps(Serve(w, requests[0]), requests[1..]);
    }
  }

  /** Over every run of attach, attach-all, detach, detach-all and close with names the kernel accepts, the
      kernel tracks exactly the pairs in the server's maps, each once; no tracked process is without agents;
      and every name but the star has at most one active debugger. */
  lemma LayersAgreeOverEveryRun(requests: seq<Request>)
    requires forall i :: 0 <= i < |requests| ==> NameOk(requests[i])
    ensures var w := Run(NOBODY, requests);
      MapsOk(w.maps) && TrackerOk(w.tracker) && Agree(w.maps, w.tracker)
  {
    hide StarHandlers;
    hide MapsOk;
    hide TrackerOk;
    hide Agree;
    hide NamesValid;
    hide Run;
    NobodyIsTracked();
    RunKeeps(NOBODY, requests);
  }

  lemma NobodyIsTracked()
    ensures Inv(NOBODY) && StarHandlers(NOBODY)
  {
    forall folded, agent: nat ensures !ServerHas(NOBODY.maps, folded, agent) && !KernelHas(NOBODY.tracker, folded, agent) {
    }
    hide ServerHas;
    hide KernelHas;
  }

  /** An attach the server accepts leaves the layers in agreement exactly when the kernel accepts the length
      of the name: the server keeps the pair when the kernel refuses it. */
  lemma AttachAgreesIff(w: World, agent: nat, name: Name, passive: bool)
    requires Inv(w) && Attach(w.maps, name, agent, passive).1 == ErrNone
    ensures var after := SessionAttach(w, agent, name, passive).0;
      Agree(after.maps, after.tracker) <==> 1 <= |name| < MAX_PATH
  {
    if ValidName(name) {
      AttachKeepsAgreement(w, agent, name, passive);
    } else {
      AttachAdds(w.maps, name, agent, passive);
      var after := SessionAttach(w, agent, name, passive).0;
      assert ServerHas(after.maps, Fold(name), agent) && !KernelHas(after.tracker, Fold(name), agent);
    }
  }

  /** A detach the server accepts leaves a stale handler exactly when the name is spelled in another case
      than it was attached with: both maps ignore case, the handlers do not. */
  lemma DetachLeavesNoHandlerIff(w: World, agent: nat, name: Name)
    requires Inv(w) && HandlersMatch(w, agent) && Detach(w.maps, name, agent).1 == ErrNone
    ensures HandlersMatch(SessionDetach(w, agent, name).0, agent) <==>
      Pair(name, agent) in w.maps.active || Pair(name, agent) in w.maps.passive
  {
    var after := SessionDetach(w, agent, name).0;
    var handlers := HandlersOf(w, agent);
    assert HandlersOf(after, agent) == DropHandler(handlers, name);
    forall n
      ensures n in DropHandler(handlers, name) <==> n in handlers && n != name
      ensures AtMostOnce(DropHandler(handlers, name), n)
    {
      DropHandlerKeeps(handlers, name, n);
    }
    hide DropHandler;
    hide AtMostOnce;
    var pair := RemovedPair(w.maps, name, agent);
    DetachRemovesPair(w.maps, name, agent);
    if pair.name != name {
      assert Pair(name, agent) !in w.maps.active && Pair(name, agent) !in w.maps.passive by {
        OnlyOneMatches(w.maps, name, agent);
      }
      assert pair.name in HandlersOf(after, agent);
    }
  }

  /** The pair a detach removes. */
  function RemovedPair(maps: Maps, name: Name, agent: nat): (pair: Pair)
    requires Detach(maps, name, agent).1 == ErrNone
    ensures pair.agent == agent && SameName(pair.name, name)
  {
    var i := FindPair(maps.active, name, agent, 0);
    if i < |maps.active| then maps.active[i] else maps.passive[FindPair(maps.passive, name, agent, 0)]
  }

  lemma OnlyOneMatches(maps: Maps, name: Name, agent: nat)
    requires MapsOk(maps) && Detach(maps, name, agent).1 == ErrNone
    ensures forall p :: (p in maps.active || p in maps.passive) && Matches(p, name, agent) ==> p == RemovedPair(maps, name, agent)
  {
    var q := RemovedPair(maps, name, agent);
    forall p | (p in maps.active || p in maps.passive) && Matches(p, name, agent) ensures p == q {
      assert SamePair(p, q);
    }
  }

  lemma DetachRemovesPair(maps: Maps, name: Name, agent: nat)
    requires MapsOk(maps) && Detach(maps, name, agent).1 == ErrNone
    ensures var after, pair := Detach(maps, name, agent).0, RemovedPair(maps, name, agent);
      && (pair in maps.active || pair in maps.passive)
      && (forall p :: p in after.active || p in after.passive <==> (p in maps.active || p in maps.passive) && p != pair)
  {
    var i := FindPair(maps.active, name, agent, 0);
    var j := FindPair(maps.passive, name, agent, 0);
    if i < |maps.active| {
      RemovePairKeeps(maps.active, i);
    } else {
      RemovePairKeeps(maps.passive, j);
    }
  }
}
