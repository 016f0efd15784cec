/** Who debugs what, as the security server keeps it: an active and a passive map of (name, agent) pairs. */
module AttachMaps {
  import opened Wrappers

  type Name = string

  /** The name that stands for every process. */
  const STAR: Name := "*"

  function FoldChar(c: char): char {
    if 'A' <= c <= 'Z' then c - 'A' + 'a' else c
  }

  /** Names are compared without regard to case. */
  function Fold(name: Name): (folded: Name)
    ensures |folded| == |name|
  {
    seq(|name|, i requires 0 <= i < |name| => FoldChar(name[i]))
  }

  predicate SameName(a: Name, b: Name) {
    Fold(a) == Fold(b)
  }

  /** Only the star compares equal to the star. */
  lemma OnlyStarIsStar(name: Name)
    ensures Fold(name) == Fold(STAR) <==> name == STAR
    ensures Fold(name) == STAR <==> name == STAR
  {
    assert Fold(STAR) == STAR;
    if Fold(name) == STAR {
      assert FoldChar(name[0]) == Fold(name)[0] == '*';
    }
  }

  predicate IsLetter(c: char) {
    'a' <= c <= 'z' || 'A' <= c <= 'Z'
  }

  /** The same character, or one letter in both cases. */
  predicate SameLetter(c: char, d: char) {
    c == d || (IsLetter(c) && IsLetter(d) && (c as int == d as int + 32 || d as int == c as int + 32))
  }

  /** Names compare equal exactly when they are as long and agree letter by letter. */
  lemma SameNameIff(a: Name, b: Name)
    ensures SameName(a, b) <==> |a| == |b| && forall i :: 0 <= i < |a| ==> SameLetter(a[i], b[i])
  {
    forall i | 0 <= i < |a| && |a| == |b| ensures Fold(a)[i] == Fold(b)[i] <==> SameLetter(a[i], b[i]) {
      assert FoldChar(a[i]) == FoldChar(b[i]) <==> SameLetter(a[i], b[i]);
    }
    hide FoldChar;
    hide SameLetter;
  }

  datatype Pair = Pair(name: Name, agent: nat)

  datatype Maps = Maps(active: seq<Pair>, passive: seq<Pair>)

  predicate Matches(pair: Pair, name: Name, agent: nat) {
    pair.agent == agent && SameName(pair.name, name)
  }

  /** Index of the first matching pair from index i on, or the length. */
  function FindPair(pairs: seq<Pair>, name: Name, agent: nat, i: nat): (index: nat)
    requires i <= |pairs|
    ensures i <= index <= |pairs|
    ensures forall k :: i <= k < index ==> !Matches(pairs[k], name, agent)
    ensures index < |pairs| ==> Matches(pairs[index], name, agent)
    decreases |pairs| - i
  {
    if i == |pairs| || Matches(pairs[i], name, agent) then i else FindPair(pairs, name, agent, i + 1)
  }

  predicate HasPair(pairs: seq<Pair>, name: Name, agent: nat) {
    FindPair(pairs, name, agent, 0) < |pairs|
  }

  predicate NameDebugged(pairs: seq<Pair>, name: Name) {
    exists i :: 0 <= i < |pairs| && SameName(pairs[i].name, name)
  }

  function Attach(maps: Maps, name: Name, agent: nat, passive: bool): (Maps, Error) {
    if HasPair(maps.active, name, agent) || HasPair(maps.passive, name, agent) then (maps, ErrAlreadyExists)
    else if passive then (maps.(passive := maps.passive + [Pair(name, agent)]), ErrNone)
    else if name != STAR && NameDebugged(maps.active, name) then (maps, ErrInUse)
    else (maps.(active := maps.active + [Pair(name, agent)]), ErrNone)
  }

  function RemovePair(pairs: seq<Pair>, index: nat): seq<Pair>
    requires index < |pairs|
  {
    pairs[..index] + pairs[index + 1..]
  }

  function Detach(maps: Maps, name: Name, agent: nat): (Maps, Error) {
    var active, passive := FindPair(maps.active, name, agent, 0), FindPair(maps.passive, name, agent, 0);
    if active < |maps.active| then (maps.(active := RemovePair(maps.active, active)), ErrNone)
    else if passive < |maps.passive| then (maps.(passive := RemovePair(maps.passive, passive)), ErrNone)
    else (maps, ErrNotFound)
  }

  /** The pairs of other agents, in their order. */
  function Without(pairs: seq<Pair>, agent: nat): seq<Pair>
    decreases |pairs|
  {
    if pairs == [] then []
    else Without(pairs[..|pairs| - 1], agent) + if pairs[|pairs| - 1].agent == agent then [] else [pairs[|pairs| - 1]]
  }

  function DetachAll(maps: Maps, agent: nat): Maps {
    Maps(Without(maps.active, agent), Without(maps.passive, agent))
  }

  /** Removing a matching pair from the back, with everything after it already filtered. */
  lemma {:induction false} WithoutConcat(left: seq<Pair>, right: seq<Pair>, agent: nat)
    ensures Without(left + right, agent) == Without(left, agent) + Without(right, agent)
    decreases |right|
  {
    if right == [] {
      assert left + right == left;
    } else {
      WithoutConcat(left, right[..|right| - 1], agent);
      assert (left + right)[..|left + right| - 1] == left + right[..|right| - 1];
    }
  }

  // ---------------------------------------------------------------- the server

  class DebugServer {
    var active: seq<Pair>
    var passive: seq<Pair>

    ghost function View(): Maps
      reads this
    {
      Maps(active, passive)
    }

    constructor ()
      ensures View() == Maps([], [])
    {
      active, passive := [], [];
    }

    method AttachProcess(name: Name, agent: nat, toPassive: bool) returns (err: Error)
      modifies this
      ensures (View(), err) == Attach(old(View()), name, agent, toPassive)
    {
      var i := 0;
      while i < |active|
        invariant 0 <= i <= |active| && View() == old(View())
        invariant FindPair(active, name, agent, i) == FindPair(active, name, agent, 0)
      {
        if Matches(active[i], name, agent) {
          return ErrAlreadyExists;
        }
        i := i + 1;
      }
      i := 0;
      while i < |passive|
        invariant 0 <= i <= |passive| && View() == old(View())
        invariant FindPair(passive, name, agent, i) == FindPair(passive, name, agent, 0)
      {
        if Matches(passive[i], name, agent) {
          return ErrAlreadyExists;
        }
        i := i + 1;
      }
      if toPassive {
        passive := passive + [Pair(name, agent)];
        return ErrNone;
      }
      i := 0;
      while i < |active|
        invariant 0 <= i <= |active| && View() == old(View())
        invariant name != STAR ==> forall k :: 0 <= k < i ==> !SameName(active[k].name, name)
      {
        if name != STAR && SameName(active[i].name, name) {
          return ErrInUse;
        }
        i := i + 1;
      }
      active := active + [Pair(name, agent)];
      err := ErrNone;
    }

    method DetachProcess(name: Name, agent: nat) returns (err: Error)
      modifies this
      ensures (View(), err) == Detach(old(View()), name, agent)
    {
      var i := 0;
      while i < |active|
        invariant 0 <= i <= |active| && View() == old(View())
        invariant FindPair(active, name, agent, i) == FindPair(active, name, agent, 0)
      {
        if Matches(active[i], name, agent) {
          active := active[..i] + active[i + 1..];
          return ErrNone;
        }
        i := i + 1;
      }
      i := 0;
      while i < |passive|
        invariant 0 <= i <= |passive| && View() == old(View())
        invariant FindPair(passive, name, agent, i) == FindPair(passive, name, agent, 0)
      {
        if Matches(passive[i], name, agent) {
          passive := passive[..i] + passive[i + 1..];
          return ErrNone;
        }
        i := i + 1;
      }
      err := ErrNotFound;
    }

    method DropAgent(pairs: seq<Pair>, agent: nat) returns (left: seq<Pair>)
      ensures left == Without(pairs, agent)
    {
      left := pairs;
      var i := |left|;
      while i > 0
        invariant 0 <= i <= |left| && i <= |pairs|
        invariant left[..i] == pairs[..i]
        invariant left[i..] == Without(pairs[i..], agent)
      {
        i := i - 1;
        ghost var rest := left[i + 1..];
        WithoutConcat([pairs[i]], pairs[i + 1..], agent);
        assert pairs[i..] == [pairs[i]] + pairs[i + 1..];
        assert left[i] == left[..i + 1][i] == pairs[i];
        if left[i].agent == agent {
          left := left[..i] + left[i + 1..];
          assert left[i..] == rest;
        } else {
          assert left[i..] == [left[i]] + rest;
        }
      }
      assert left == left[0..] && pairs == pairs[0..];
    }

    method DetachAllProcesses(agent: nat)
      modifies this
      ensures View() == DetachAll(old(View()), agent)
    {
      active := DropAgent(active, agent);
      passive := DropAgent(passive, agent);
    }

    /** The agent attached to this name, or to every process, on the active map. */
    method IsActiveDebugger(name: Name, agent: nat) returns (yes: bool)
      ensures yes <==> HasPair(active, name, agent) || HasPair(active, STAR, agent)
    {
      var i := 0;
      while i < |active|
        invariant 0 <= i <= |active|
        invariant FindPair(active, name, agent, i) == FindPair(active, name, agent, 0)
        invariant FindPair(active, STAR, agent, i) == FindPair(active, STAR, agent, 0)
      {
        if Matches(active[i], name, agent) {
          return true;
        }
        if active[i].agent == agent && SameName(active[i].name, STAR) {
          return true;
        }
        i := i + 1;
      }
      yes := false;
    }

    method IsDebugger(name: Name, agent: nat) returns (yes: bool)
      ensures yes <==> HasPair(active, name, agent) || HasPair(active, STAR, agent) || HasPair(passive, name, agent)
    {
      yes := IsActiveDebugger(name, agent);
      if yes {
        return;
      }
      var i := 0;
      while i < |passive|
        invariant 0 <= i <= |passive|
        invariant FindPair(passive, name, agent, i) == FindPair(passive, name, agent, 0)
      {
        if Matches(passive[i], name, agent) {
          return true;
        }
        i := i + 1;
      }
    }
  }
}
