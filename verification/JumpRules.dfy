/**
 The jump rules of the shared forward chain. Operations on one VM chain hold that chain's
 lock; the list, add and delete-by-handle commands of different VMs interleave freely.
 */
module JumpRules {
  import opened Wrappers

  datatype Direction = ToVm | FromVm

  datatype Jump = Jump(direction: Direction, tap: string, chain: string)

  /** A rule of the forward chain: a jump, or some other rule. */
  datatype Entry = Entry(handle: nat, jump: Option<Jump>)

  /**
   An operation in progress. An attach has listed the chain and knows which jumps it must add;
   a detach has listed the chain and knows which handles it must delete.
   */
  datatype Task =
    | Attaching(tap: string, addToVm: bool, addFromVm: bool)
    | Detaching(handles: seq<nat>)

  /** The forward chain, and the operation that holds each chain lock. */
  datatype State = State(forward: seq<Entry>, nextHandle: nat, tasks: map<string, Task>)

  /** Chain names are `vm_` and 24 hex digits: all of one length, so none is a prefix of another. */
  predicate IsVmChain(chain: string) {
    |chain| == 27 && chain[..3] == "vm_"
  }

  predicate Present(forward: seq<Entry>, j: Jump) {
    exists i :: 0 <= i < |forward| && forward[i].jump == Some(j)
  }

  /** The pattern of `removeJumpRules`: the text after "jump" starts with the chain name. */
  predicate MentionsChain(e: Entry, chain: string) {
    e.jump.Some? && chain <= e.jump.value.chain
  }

  function MatchingHandles(forward: seq<Entry>, chain: string): seq<nat> {
    if forward == [] then []
    else if MentionsChain(forward[0], chain) then [forward[0].handle] + MatchingHandles(forward[1..], chain)
    else MatchingHandles(forward[1..], chain)
  }

  function WithoutHandle(forward: seq<Entry>, handle: nat): seq<Entry> {
    if forward == [] then []
    else if forward[0].handle == handle then forward[1..]
    else [forward[0]] + WithoutHandle(forward[1..], handle)
  }

  datatype Action =
    | StartAttach(chain: string, tap: string, listFails: bool)
    | AddToVm(chain: string)
    | AddFromVm(chain: string)
    | FinishAttach(chain: string)
    | StartDetach(chain: string, listFails: bool)
    | DeleteNext(chain: string)
    | FinishDetach(chain: string)
    | Abort(chain: string)
    | InsertOther

  function Added(s: State, j: Jump): State {
    s.(forward := s.forward + [Entry(s.nextHandle, Some(j))], nextHandle := s.nextHandle + 1)
  }

  /**
   One command; `None` when it is not this command's turn. A list that fails reads as an empty chain to an
   attach, and a detach swallows it and returns as if there were nothing to delete.
   */
  function Next(s: State, a: Action): Option<State> {
    match a
    case StartAttach(chain, tap, listFails) =>
      if chain in s.tasks || !IsVmChain(chain) then None
      else
        Some(s.(tasks := s.tasks[chain := Attaching(tap,
          listFails || !Present(s.forward, Jump(ToVm, tap, chain)),
          listFails || !Present(s.forward, Jump(FromVm, tap, chain)))]))
    case AddToVm(chain) =>
      if chain !in s.tasks || !s.tasks[chain].Attaching? || !s.tasks[chain].addToVm then None
      else
        var task := s.tasks[chain];
        Some(Added(s, Jump(ToVm, task.tap, chain)).(tasks := s.tasks[chain := task.(addToVm := false)]))
    case AddFromVm(chain) =>
      if chain !in s.tasks || !s.tasks[chain].Attaching? || s.tasks[chain].addToVm || !s.tasks[chain].addFromVm then None
      else
        var task := s.tasks[chain];
        Some(Added(s, Jump(FromVm, task.tap, chain)).(tasks := s.tasks[chain := task.(addFromVm := false)]))
    case FinishAttach(chain) =>
      if chain !in s.tasks || !s.tasks[chain].Attaching? || s.tasks[chain].addToVm || s.tasks[chain].addFromVm then None
      else Some(s.(tasks := s.tasks - {chain}))
    case StartDetach(chain, listFails) =>
      if chain in s.tasks || !IsVmChain(chain) then None
      else Some(s.(tasks := s.tasks[chain := Detaching(if listFails then [] else MatchingHandles(s.forward, chain))]))
    case DeleteNext(chain) =>
      if chain !in s.tasks || !s.tasks[chain].Detaching? || s.tasks[chain].handles == [] then None
      else
        var handles := s.tasks[chain].handles;
        Some(s.(forward := WithoutHandle(s.forward, handles[0]), tasks := s.tasks[chain := Detaching(handles[1..])]))
    case FinishDetach(chain) =>
      if chain !in s.tasks || s.tasks[chain] != Detaching([]) then None
      else Some(s.(tasks := s.tasks - {chain}))
    case Abort(chain) => if chain !in s.tasks then None else Some(s.(tasks := s.tasks - {chain}))
    case InsertOther => Some(s.(forward := [Entry(s.nextHandle, None)] + s.forward, nextHandle := s.nextHandle + 1))
  }

  /** Commands that are not enabled are skipped. */
  function Run(s: State, actions: seq<Action>): State
    decreases |actions|
  {
    if actions == [] then s
    else Run(if Next(s, actions[0]).Some? then Next(s, actions[0]).value else s, actions[1..])
  }

  // ----- the invariant -----

  predicate HandlesFresh(s: State) {
    && (forall i :: 0 <= i < |s.forward| ==> s.forward[i].handle < s.nextHandle)
    && (forall i, j :: 0 <= i < j < |s.forward| ==> s.forward[i].handle != s.forward[j].handle)
  }

  /** Never more than one jump per direction, TAP and chain, but for the chains in `faulty`. */
  predicate NoDuplicateJumps(forward: seq<Entry>, faulty: set<string>) {
    forall i, j :: 0 <= i < j < |forward| && forward[i].jump.Some? && forward[i].jump.value.chain !in faulty ==>
      forward[i].jump != forward[j].jump
  }

  predicate KnownChains(forward: seq<Entry>) {
    forall i :: 0 <= i < |forward| && forward[i].jump.Some? ==> IsVmChain(forward[i].jump.value.chain)
  }

  predicate JumpsTo(e: Entry, chain: string) {
    e.jump.Some? && e.jump.value.chain == chain
  }

  /** An attach still has to add exactly what is missing. */
  predicate AttachReady(forward: seq<Entry>, chain: string, task: Task)
    requires task.Attaching?
  {
    && (task.addToVm <==> !Present(forward, Jump(ToVm, task.tap, chain)))
    && (task.addFromVm <==> !Present(forward, Jump(FromVm, task.tap, chain)))
  }

  /** A detach deletes only jumps to its chain, each once; `all` says that it deletes every one. */
  predicate DetachReady(forward: seq<Entry>, chain: string, task: Task, all: bool)
    requires task.Detaching?
  {
    && (forall i :: 0 <= i < |forward| && forward[i].handle in task.handles ==> JumpsTo(forward[i], chain))
    && (all ==> forall i :: 0 <= i < |forward| && JumpsTo(forward[i], chain) ==> forward[i].handle in task.handles)
    && (forall i, j :: 0 <= i < j < |task.handles| ==> task.handles[i] != task.handles[j])
    && (forall h :: h in task.handles ==> exists i :: 0 <= i < |forward| && forward[i].handle == h)
  }

  predicate TaskReady(forward: seq<Entry>, chain: string, task: Task, faulty: set<string>) {
    IsVmChain(chain) &&
    match task
    case Attaching(_, _, _) => chain in faulty || AttachReady(forward, chain, task)
    case Detaching(_) => DetachReady(forward, chain, task, chain !in faulty)
  }

  /** The state is sound, except for the jumps to chains of which some listing may have failed. */
  predicate Inv(s: State, faulty: set<string>) {
    && HandlesFresh(s) && NoDuplicateJumps(s.forward, faulty) && KnownChains(s.forward)
    && forall chain :: chain in s.tasks ==> TaskReady(s.forward, chain, s.tasks[chain], faulty)
  }

  // ----- deleting by handle -----

  lemma {:induction false} WithoutHandleIs(forward: seq<Entry>, at: nat)
    requires at < |forward|
    requires forall i :: 0 <= i < at ==> forward[i].handle != forward[at].handle
    ensures WithoutHandle(forward, forward[at].handle) == forward[..at] + forward[at + 1..]
  {
    if at == 0 {
      assert forward[..0] + forward[1..] == forward[1..];
    } else {
      var rest, handle := forward[1..], forward[at].handle;
      assert rest[at - 1].handle == handle && forward[0].handle != handle;
      WithoutHandleIs(rest, at - 1);
      assert WithoutHandle(forward, handle) == [forward[0]] + WithoutHandle(rest, handle);
      hide WithoutHandle;
      assert forward[..at] == [forward[0]] + rest[..at - 1];
      assert rest[at..] == forward[at + 1..];
      assert [forward[0]] + (rest[..at - 1] + rest[at..]) == ([forward[0]] + rest[..at - 1]) + rest[at..];
    }
  }

  lemma {:induction false} MatchingHandlesAre(forward: seq<Entry>, chain: string)
    requires KnownChains(forward) && IsVmChain(chain)
    requires forall i, j :: 0 <= i < j < |forward| ==> forward[i].handle != forward[j].handle
    ensures DetachReady(forward, chain, Detaching(MatchingHandles(forward, chain)), true)
  {
    if forward != [] {
      var rest := forward[1..];
      assert forall i :: 0 <= i < |rest| ==> rest[i] == forward[i + 1];
      MatchingHandlesAre(rest, chain);
      var handles := MatchingHandles(rest, chain);
      assert forall i :: 0 <= i < |rest| ==> rest[i].handle != forward[0].handle;
      assert forward[0].handle !in handles;
      assert MentionsChain(forward[0], chain) <==> JumpsTo(forward[0], chain);
      var all := MatchingHandles(forward, chain);
      forall h | h in all ensures exists i :: 0 <= i < |forward| && forward[i].handle == h {
        if h in handles {
          var i :| 0 <= i < |rest| && rest[i].handle == h;
          assert forward[i + 1].handle == h;
        } else {
          assert forward[0].handle == h;
        }
      }
      forall i | 0 <= i < |forward| ensures JumpsTo(forward[i], chain) <==> forward[i].handle in all {
        if i > 0 { assert rest[i - 1] == forward[i]; }
      }
    }
  }

  // ----- what one command does to the other VMs' operations -----

  lemma PresentAppended(forward: seq<Entry>, e: Entry, j: Jump)
    ensures Present(forward + [e], j) <==> Present(forward, j) || e.jump == Some(j)
  {
    var longer := forward + [e];
    if Present(forward, j) {
      var i :| 0 <= i < |forward| && forward[i].jump == Some(j);
      assert longer[i].jump == Some(j);
    }
    if e.jump == Some(j) { assert longer[|forward|].jump == Some(j); }
  }

  lemma AppendKeepsTask(s: State, e: Entry, chain: string, task: Task, faulty: set<string>)
    requires HandlesFresh(s) && e.handle == s.nextHandle && TaskReady(s.forward, chain, task, faulty)
    requires !JumpsTo(e, chain)
    ensures TaskReady(s.forward + [e], chain, task, faulty)
  {
    var longer := s.forward + [e];
    if task.Attaching? {
      PresentAppended(s.forward, e, Jump(ToVm, task.tap, chain));
      PresentAppended(s.forward, e, Jump(FromVm, task.tap, chain));
    } else {
      forall h | h in task.handles ensures exists i :: 0 <= i < |longer| && longer[i].handle == h {
        var i :| 0 <= i < |s.forward| && s.forward[i].handle == h;
        assert longer[i].handle == h;
      }
      assert e.handle !in task.handles;
      forall i | 0 <= i < |longer| ensures longer[i].handle in task.handles ==> JumpsTo(longer[i], chain)
        ensures chain !in faulty && JumpsTo(longer[i], chain) ==> longer[i].handle in task.handles
      {
        if i < |s.forward| { assert longer[i] == s.forward[i]; }
      }
    }
  }

  lemma PrependKeepsTask(s: State, e: Entry, chain: string, task: Task, faulty: set<string>)
    requires HandlesFresh(s) && e == Entry(s.nextHandle, None) && TaskReady(s.forward, chain, task, faulty)
    ensures TaskReady([e] + s.forward, chain, task, faulty)
  {
    var longer := [e] + s.forward;
    assert forall i :: 0 <= i < |s.forward| ==> longer[i + 1] == s.forward[i];
    if task.Attaching? {
      forall j: Jump ensures Present(longer, j) <==> Present(s.forward, j) {
        if Present(longer, j) {
          var i :| 0 <= i < |longer| && longer[i].jump == Some(j);
          assert s.forward[i - 1].jump == Some(j);
        }
      }
    } else {
      forall h | h in task.handles ensures exists i :: 0 <= i < |longer| && longer[i].handle == h {
        var i :| 0 <= i < |s.forward| && s.forward[i].handle == h;
        assert longer[i + 1].handle == h;
      }
      assert e.handle !in task.handles;
      forall i | 0 <= i < |longer| ensures longer[i].handle in task.handles ==> JumpsTo(longer[i], chain)
        ensures chain !in faulty && JumpsTo(longer[i], chain) ==> longer[i].handle in task.handles
      {
        if i > 0 { assert longer[i] == s.forward[i - 1]; }
      }
    }
  }

  lemma PresentRemoved(forward: seq<Entry>, at: nat, j: Jump)
    requires at < |forward| && forward[at].jump != Some(j)
    ensures Present(forward[..at] + forward[at + 1..], j) <==> Present(forward, j)
  {
    var shorter := forward[..at] + forward[at + 1..];
    if Present(forward, j) {
      var i :| 0 <= i < |forward| && forward[i].jump == Some(j);
      assert shorter[if i < at then i else i - 1].jump == Some(j);
    }
    if Present(shorter, j) {
      var i :| 0 <= i < |shorter| && shorter[i].jump == Some(j);
      assert forward[if i < at then i else i + 1].jump == Some(j);
    }
  }

  lemma RemoveKeepsTask(s: State, at: nat, chain: string, task: Task, faulty: set<string>)
    requires HandlesFresh(s) && at < |s.forward| && TaskReady(s.forward, chain, task, faulty)
    requires !JumpsTo(s.forward[at], chain)
    ensures TaskReady(s.forward[..at] + s.forward[at + 1..], chain, task, faulty)
  {
    var shorter := s.forward[..at] + s.forward[at + 1..];
    if task.Attaching? {
      PresentRemoved(s.forward, at, Jump(ToVm, task.tap, chain));
      PresentRemoved(s.forward, at, Jump(FromVm, task.tap, chain));
    } else {
      forall h | h in task.handles ensures exists i :: 0 <= i < |shorter| && shorter[i].handle == h {
        var i :| 0 <= i < |s.forward| && s.forward[i].handle == h;
        assert shorter[if i < at then i else i - 1].handle == h;
      }
      forall i | 0 <= i < |shorter| ensures shorter[i].handle in task.handles ==> JumpsTo(shorter[i], chain)
        ensures chain !in faulty && JumpsTo(shorter[i], chain) ==> shorter[i].handle in task.handles
      {
        assert shorter[i] == s.forward[if i < at then i else i + 1];
      }
    }
  }

  // ----- every command keeps the invariant -----

  lemma AddKeepsInv(s: State, chain: string, j: Jump, task: Task, faulty: set<string>)
    requires Inv(s, faulty) && chain in s.tasks && s.tasks[chain].Attaching? && task.Attaching?
    requires task.tap == s.tasks[chain].tap == j.tap && j.chain == chain
    requires j.direction == ToVm ==> s.tasks[chain].addToVm && task == s.tasks[chain].(addToVm := false)
    requires j.direction == FromVm ==> s.tasks[chain].addFromVm && task == s.tasks[chain].(addFromVm := false)
    ensures Inv(Added(s, j).(tasks := s.tasks[chain := task]), faulty)
  {
    var e := Entry(s.nextHandle, Some(j));
    var s' := Added(s, j).(tasks := s.tasks[chain := task]);
    PresentAppended(s.forward, e, Jump(ToVm, task.tap, chain));
    PresentAppended(s.forward, e, Jump(FromVm, task.tap, chain));
    assert TaskReady(s.forward, chain, s.tasks[chain], faulty);
    assert chain !in faulty ==> !Present(s.forward, j);
    forall other | other in s'.tasks ensures TaskReady(s'.forward, other, s'.tasks[other], faulty) {
      if other != chain { AppendKeepsTask(s, e, other, s.tasks[other], faulty); }
    }
  }

  lemma RemoveKeepsShape(s: State, at: nat, s': State, faulty: set<string>)
    requires HandlesFresh(s) && NoDuplicateJumps(s.forward, faulty) && KnownChains(s.forward) && at < |s.forward|
    requires s'.forward == s.forward[..at] + s.forward[at + 1..] && s'.nextHandle == s.nextHandle
    ensures HandlesFresh(s') && NoDuplicateJumps(s'.forward, faulty) && KnownChains(s'.forward)
  {
    assert forall i :: 0 <= i < |s'.forward| ==> s'.forward[i] == s.forward[if i < at then i else i + 1];
  }

  /** The entry that the next delete names. */
  lemma NextDeleted(s: State, chain: string, faulty: set<string>) returns (at: nat)
    requires Inv(s, faulty) && Next(s, DeleteNext(chain)).Some?
    ensures at < |s.forward| && s.forward[at].handle == s.tasks[chain].handles[0] && JumpsTo(s.forward[at], chain)
    ensures Next(s, DeleteNext(chain)).value.forward == s.forward[..at] + s.forward[at + 1..]
  {
    var task := s.tasks[chain];
    assert task.handles[0] in task.handles && TaskReady(s.forward, chain, task, faulty);
    at :| 0 <= at < |s.forward| && s.forward[at].handle == task.handles[0];
    WithoutHandleIs(s.forward, at);
  }

  lemma DeleteKeepsInv(s: State, chain: string, faulty: set<string>)
    requires Inv(s, faulty) && Next(s, DeleteNext(chain)).Some?
    ensures Inv(Next(s, DeleteNext(chain)).value, faulty)
  {
    var at := NextDeleted(s, chain, faulty);
    var s' := Next(s, DeleteNext(chain)).value;
    hide HandlesFresh, NoDuplicateJumps, KnownChains, TaskReady, WithoutHandle;
    RemoveKeepsShape(s, at, s', faulty);
    DeleteKeepsOwnTask(s, chain, at, faulty);
    forall other | other in s'.tasks ensures TaskReady(s'.forward, other, s'.tasks[other], faulty) {
      if other != chain { RemoveKeepsTask(s, at, other, s.tasks[other], faulty); }
    }
  }

  lemma DeleteKeepsOwnTask(s: State, chain: string, at: nat, faulty: set<string>)
    requires HandlesFresh(s) && at < |s.forward| && chain in s.tasks && s.tasks[chain].Detaching?
    requires TaskReady(s.forward, chain, s.tasks[chain], faulty)
    requires s.tasks[chain].handles != [] && s.forward[at].handle == s.tasks[chain].handles[0]
    ensures TaskReady(s.forward[..at] + s.forward[at + 1..], chain, Detaching(s.tasks[chain].handles[1..]), faulty)
  {
    var shorter := s.forward[..at] + s.forward[at + 1..];
    var handles := s.tasks[chain].handles;
    var rest := handles[1..];
    forall h | h in rest ensures exists i :: 0 <= i < |shorter| && shorter[i].handle == h {
      assert h in handles && h != handles[0];
      var i :| 0 <= i < |s.forward| && s.forward[i].handle == h;
      assert shorter[if i < at then i else i - 1].handle == h;
    }
    forall i | 0 <= i < |shorter|
      ensures shorter[i].handle in rest ==> JumpsTo(shorter[i], chain)
      ensures chain !in faulty && JumpsTo(shorter[i], chain) ==> shorter[i].handle in rest
    {
      assert shorter[i] == s.forward[if i < at then i else i + 1];
      assert shorter[i].handle in handles <==> shorter[i].handle == handles[0] || shorter[i].handle in rest;
    }
  }

  lemma InsertKeepsInv(s: State, faulty: set<string>)
    requires Inv(s, faulty)
    ensures Inv(Next(s, InsertOther).value, faulty)
  {
    var e := Entry(s.nextHandle, None);
    var s' := Next(s, InsertOther).value;
    assert forall i :: 0 < i < |s'.forward| ==> s'.forward[i] == s.forward[i - 1];
    forall other | other in s'.tasks ensures TaskReady(s'.forward, other, s'.tasks[other], faulty) {
      PrependKeepsTask(s, e, other, s.tasks[other], faulty);
    }
  }

  /** A listing fails only for a chain in `faulty`. */
  predicate FaultsWithin(a: Action, faulty: set<string>) {
    (a.StartAttach? || a.StartDetach?) && a.listFails ==> a.chain in faulty
  }

  lemma StepKeepsInv(s: State, a: Action, faulty: set<string>)
    requires Inv(s, faulty) && FaultsWithin(a, faulty) && Next(s, a).Some?
    ensures Inv(Next(s, a).value, faulty)
  {
    hide Present, MatchingHandles, WithoutHandle, IsVmChain;
    match a
    case AddToVm(chain) =>
      AddKeepsInv(s, chain, Jump(ToVm, s.tasks[chain].tap, chain), s.tasks[chain].(addToVm := false), faulty);
    case AddFromVm(chain) =>
      AddKeepsInv(s, chain, Jump(FromVm, s.tasks[chain].tap, chain), s.tasks[chain].(addFromVm := false), faulty);
    case StartDetach(chain, listFails) => if !listFails { MatchingHandlesAre(s.forward, chain); }
    case DeleteNext(chain) => DeleteKeepsInv(s, chain, faulty);
    case InsertOther => InsertKeepsInv(s, faulty);
    case _ =>
  }

  /** Whatever the interleaving, aborts included: never two equal jumps to a chain whose listings were read. */
  lemma {:induction false} RunKeepsInv(s: State, actions: seq<Action>, faulty: set<string>)
    requires Inv(s, faulty) && forall i :: 0 <= i < |actions| ==> FaultsWithin(actions[i], faulty)
    ensures Inv(Run(s, actions), faulty) && NoDuplicateJumps(Run(s, actions).forward, faulty)
    decreases |actions|
  {
    if actions != [] {
      if Next(s, actions[0]).Some? { StepKeepsInv(s, actions[0], faulty); }
      RunKeepsInv(if Next(s, actions[0]).Some? then Next(s, actions[0]).value else s, actions[1..], faulty);
    }
  }

  /**
   A finished attach leaves both jumps, once each; a finished detach leaves no jump to the chain. Failed
   listings of other chains do not matter.
   */
  lemma FinishedOperations(s: State, actions: seq<Action>, chain: string, faulty: set<string>)
    requires Inv(s, faulty) && forall i :: 0 <= i < |actions| ==> FaultsWithin(actions[i], faulty)
    requires chain !in faulty
    ensures var t := Run(s, actions);
            && (Next(t, FinishAttach(chain)).Some? ==>
                  && Present(t.forward, Jump(ToVm, t.tasks[chain].tap, chain))
                  && Present(t.forward, Jump(FromVm, t.tasks[chain].tap, chain)))
            && (Next(t, FinishDetach(chain)).Some? ==>
                  forall i :: 0 <= i < |t.forward| ==> !JumpsTo(t.forward[i], chain))
  {
    RunKeepsInv(s, actions, faulty);
    var t := Run(s, actions);
    if chain in t.tasks { assert TaskReady(t.forward, chain, t.tasks[chain], faulty); }
  }

  /** The VM chain a command works for. */
  function Owner(a: Action): Option<string> {
    if a.InsertOther? then None else Some(a.chain)
  }

  /** No command removes a rule that is not a jump to its own chain, and none is stuck on a vanished handle. */
  lemma OnlyOwnJumpsRemoved(s: State, a: Action, e: Entry, faulty: set<string>)
    requires Inv(s, faulty) && Next(s, a).Some? && e in s.forward
    requires Owner(a).None? || !JumpsTo(e, Owner(a).value)
    ensures e in Next(s, a).value.forward
  {
    if a.DeleteNext? {
      var at := NextDeleted(s, a.chain, faulty);
      var i :| 0 <= i < |s.forward| && s.forward[i] == e;
      assert Next(s, a).value.forward[if i < at then i else i - 1] == e;
    } else if a.InsertOther? {
      var i :| 0 <= i < |s.forward| && s.forward[i] == e;
      assert Next(s, a).value.forward[i + 1] == e;
    }
  }

  // ----- what a failed listing does -----

  function Count(forward: seq<Entry>, j: Jump): nat {
    if forward == [] then 0 else (if forward[0].jump == Some(j) then 1 else 0) + Count(forward[1..], j)
  }

  lemma {:induction false} CountConcat(a: seq<Entry>, b: seq<Entry>, j: Jump)
    ensures Count(a + b, j) == Count(a, j) + Count(b, j)
  {
    if a == [] {
      assert a + b == b;
    } else {
      assert (a + b)[1..] == a[1..] + b;
      CountConcat(a[1..], b, j);
    }
  }

  lemma {:induction false} CountPresent(forward: seq<Entry>, j: Jump)
    ensures Count(forward, j) >= 1 <==> Present(forward, j)
    ensures Count(forward, j) >= 2 <==> exists i, k :: 0 <= i < k < |forward| && forward[i].jump == Some(j) && forward[k].jump == Some(j)
  {
    if forward != [] {
      var rest := forward[1..];
      CountPresent(rest, j);
      assert forall i :: 0 <= i < |rest| ==> rest[i] == forward[i + 1];
      if Present(rest, j) {
        var i :| 0 <= i < |rest| && rest[i].jump == Some(j);
        assert forward[i + 1].jump == Some(j);
      }
      if Count(rest, j) >= 2 {
        var i, k :| 0 <= i < k < |rest| && rest[i].jump == Some(j) && rest[k].jump == Some(j);
        assert forward[i + 1].jump == Some(j) && forward[k + 1].jump == Some(j);
      }
      if i, k :| 0 <= i < k < |forward| && forward[i].jump == Some(j) && forward[k].jump == Some(j) {
        assert rest[k - 1].jump == Some(j);
        if i > 0 { assert rest[i - 1].jump == Some(j); }
      }
    }
  }

  /** No jump to the chain comes twice. */
  ghost predicate UniqueTo(forward: seq<Entry>, chain: string) {
    forall j: Jump :: j.chain == chain ==> Count(forward, j) <= 1
  }

  lemma InvUnique(s: State, faulty: set<string>, chain: string)
    requires Inv(s, faulty) && chain !in faulty
    ensures UniqueTo(s.forward, chain)
  {
    forall j: Jump | j.chain == chain ensures Count(s.forward, j) <= 1 { CountPresent(s.forward, j); }
  }

  /** Commands of other VMs leave the jumps to the chain and the operation on it alone. */
  lemma OthersStep(s: State, a: Action, chain: string, faulty: set<string>)
    requires Inv(s, faulty) && Owner(a) != Some(chain) && Next(s, a).Some?
    ensures var t := Next(s, a).value;
      && (chain in t.tasks <==> chain in s.tasks) && (chain in s.tasks ==> t.tasks[chain] == s.tasks[chain])
      && forall j: Jump :: j.chain == chain ==> Count(t.forward, j) == Count(s.forward, j)
  {
    forall j: Jump | j.chain == chain ensures Count(Next(s, a).value.forward, j) == Count(s.forward, j) {
      if a.AddToVm? || a.AddFromVm? {
        AddCounts(s, a, s.tasks[a.chain].tap, j);
      } else if a.InsertOther? {
        CountConcat([Entry(s.nextHandle, None)], s.forward, j);
        assert Count([Entry(s.nextHandle, None)], j) == 0;
      } else if a.DeleteNext? {
        DeleteCounts(s, a.chain, faulty, j);
      }
    }
  }

  lemma DeleteCounts(s: State, chain: string, faulty: set<string>, j: Jump)
    requires Inv(s, faulty) && Next(s, DeleteNext(chain)).Some? && j.chain != chain
    ensures Count(Next(s, DeleteNext(chain)).value.forward, j) == Count(s.forward, j)
  {
    var at := NextDeleted(s, chain, faulty);
    var a, e, b := s.forward[..at], s.forward[at], s.forward[at + 1..];
    assert s.forward == a + ([e] + b);
    assert Next(s, DeleteNext(chain)).value.forward == a + b;
    assert e.jump != Some(j);
    hide Inv, Next;
    CountConcat(a, [e] + b, j);
    CountConcat([e], b, j);
    CountConcat(a, b, j);
    assert Count([e], j) == 0;
  }

  /** What one add of an attach does to the counts. */
  lemma AddCounts(s: State, a: Action, tap: string, j: Jump)
    requires (a.AddToVm? || a.AddFromVm?) && Next(s, a).Some? && s.tasks[a.chain].tap == tap
    ensures Count(Next(s, a).value.forward, j)
            == Count(s.forward, j) + if j == Jump(if a.AddToVm? then ToVm else FromVm, tap, a.chain) then 1 else 0
  {
    var e := Entry(s.nextHandle, Some(Jump(if a.AddToVm? then ToVm else FromVm, tap, a.chain)));
    assert Next(s, a).value.forward == s.forward + [e];
    hide Next;
    CountConcat(s.forward, [e], j);
    assert [e][1..] == [];
  }

  predicate OthersOnly(actions: seq<Action>, chain: string, faulty: set<string>) {
    forall i :: 0 <= i < |actions| ==> Owner(actions[i]) != Some(chain) && FaultsWithin(actions[i], faulty)
  }

  lemma {:induction false} OthersRun(s: State, actions: seq<Action>, chain: string, faulty: set<string>)
    requires Inv(s, faulty) && OthersOnly(actions, chain, faulty)
    ensures var t := Run(s, actions);
      && Inv(t, faulty)
      && (chain in t.tasks <==> chain in s.tasks) && (chain in s.tasks ==> t.tasks[chain] == s.tasks[chain])
      && forall j: Jump :: j.chain == chain ==> Count(t.forward, j) == Count(s.forward, j)
    decreases |actions|
  {
    if actions != [] {
      var next := if Next(s, actions[0]).Some? then Next(s, actions[0]).value else s;
      if Next(s, actions[0]).Some? {
        StepKeepsInv(s, actions[0], faulty);
        OthersStep(s, actions[0], chain, faulty);
      }
      hide Inv, Next, Count;
      OthersRun(next, actions[1..], chain, faulty);
    }
  }

  lemma WeakerInv(s: State, faulty: set<string>, more: set<string>)
    requires Inv(s, faulty) && faulty <= more
    ensures Inv(s, more)
  {
    forall chain | chain in s.tasks ensures TaskReady(s.forward, chain, s.tasks[chain], more) {
      assert TaskReady(s.forward, chain, s.tasks[chain], faulty);
    }
  }

  /**
   An attach whose listing failed adds both jumps whatever is there: with any commands of other VMs in
   between, the jumps to its chain stay unique exactly when neither was there.
   */
  lemma FailedListingIff(
    s: State, chain: string, tap: string, faulty: set<string>, es1: seq<Action>, es2: seq<Action>, es3: seq<Action>)
    requires Inv(s, faulty) && IsVmChain(chain) && chain !in s.tasks && chain !in faulty
    requires OthersOnly(es1, chain, faulty + {chain}) && OthersOnly(es2, chain, faulty + {chain})
    requires OthersOnly(es3, chain, faulty + {chain})
    ensures Next(s, StartAttach(chain, tap, true)).Some?
    ensures var s1 := Run(Next(s, StartAttach(chain, tap, true)).value, es1);
            Next(s1, AddToVm(chain)).Some?
            && var s2 := Run(Next(s1, AddToVm(chain)).value, es2);
            Next(s2, AddFromVm(chain)).Some?
            && var s3 := Run(Next(s2, AddFromVm(chain)).value, es3);
            Next(s3, FinishAttach(chain)).Some?
            && (UniqueTo(s3.forward, chain)
                <==> !Present(s.forward, Jump(ToVm, tap, chain)) && !Present(s.forward, Jump(FromVm, tap, chain)))
  {
    var more := faulty + {chain};
    var toVm, fromVm := Jump(ToVm, tap, chain), Jump(FromVm, tap, chain);
    WeakerInv(s, faulty, more);
    InvUnique(s, faulty, chain);
    CountPresent(s.forward, toVm);
    CountPresent(s.forward, fromVm);
    hide Inv, Run, Count, Present, OthersOnly, TaskReady, Next;
    BlindStart(s, chain, tap, es1, more);
    var s1 := Run(Next(s, StartAttach(chain, tap, true)).value, es1);
    BlindAdd(s1, AddToVm(chain), tap, es2, more);
    var s2 := Run(Next(s1, AddToVm(chain)).value, es2);
    BlindAdd(s2, AddFromVm(chain), tap, es3, more);
    var s3 := Run(Next(s2, AddFromVm(chain)).value, es3);
    FinishEnabled(s3, chain, tap);
    OneMoreEach(s.forward, s3.forward, chain, toVm, fromVm);
  }

  /** The attach begins with a listing that failed. */
  lemma BlindStart(s: State, chain: string, tap: string, es: seq<Action>, faulty: set<string>)
    requires Inv(s, faulty) && IsVmChain(chain) && chain !in s.tasks && OthersOnly(es, chain, faulty) && chain in faulty
    ensures Next(s, StartAttach(chain, tap, true)).Some?
    ensures var t := Run(Next(s, StartAttach(chain, tap, true)).value, es);
      && Inv(t, faulty) && chain in t.tasks && t.tasks[chain] == Attaching(tap, true, true)
      && forall j: Jump :: j.chain == chain ==> Count(t.forward, j) == Count(s.forward, j)
  {
    hide Inv, Run, Count, OthersOnly, Present, IsVmChain;
    ThenOthers(s, StartAttach(chain, tap, true), es, chain, faulty);
  }

  lemma FinishEnabled(s: State, chain: string, tap: string)
    requires chain in s.tasks && s.tasks[chain] == Attaching(tap, false, false)
    ensures Next(s, FinishAttach(chain)).Some?
  {
  }

  /** One jump is added unseen, and then others do what they do. */
  lemma BlindAdd(s: State, a: Action, tap: string, es: seq<Action>, faulty: set<string>)
    requires Inv(s, faulty) && (a.AddToVm? || a.AddFromVm?) && OthersOnly(es, a.chain, faulty) && a.chain in faulty
    requires a.chain in s.tasks && s.tasks[a.chain] == Attaching(tap, a.AddToVm?, true)
    ensures Next(s, a).Some?
    ensures var t := Run(Next(s, a).value, es);
      && Inv(t, faulty) && a.chain in t.tasks && t.tasks[a.chain] == Attaching(tap, false, a.AddToVm?)
      && forall j: Jump :: j.chain == a.chain ==>
           Count(t.forward, j) == Count(s.forward, j) + if j == Jump(if a.AddToVm? then ToVm else FromVm, tap, a.chain) then 1 else 0
  {
    hide Inv, Run, Count, OthersOnly;
    assert Next(s, a).Some?;
    ThenOthers(s, a, es, a.chain, faulty);
    forall j: Jump | j.chain == a.chain
      ensures Count(Next(s, a).value.forward, j)
           == Count(s.forward, j) + if j == Jump(if a.AddToVm? then ToVm else FromVm, tap, a.chain) then 1 else 0
    {
      AddCounts(s, a, tap, j);
    }
  }

  lemma OneMoreEach(before: seq<Entry>, now: seq<Entry>, chain: string, a: Jump, b: Jump)
    requires a.chain == chain == b.chain && UniqueTo(before, chain)
    requires forall j: Jump :: j.chain == chain ==> Count(now, j) == Count(before, j) + if j == a || j == b then 1 else 0
    ensures UniqueTo(now, chain) <==> Count(before, a) == 0 && Count(before, b) == 0
  {
    hide Count;
  }

  /** One command, then any of other VMs. */
  lemma ThenOthers(s: State, a: Action, es: seq<Action>, chain: string, faulty: set<string>)
    requires Inv(s, faulty) && FaultsWithin(a, faulty) && Next(s, a).Some? && OthersOnly(es, chain, faulty)
    ensures var t, u := Run(Next(s, a).value, es), Next(s, a).value;
      && Inv(t, faulty)
      && (chain in t.tasks <==> chain in u.tasks) && (chain in u.tasks ==> t.tasks[chain] == u.tasks[chain])
      && forall j: Jump :: j.chain == chain ==> Count(t.forward, j) == Count(u.forward, j)
  {
    hide Next, Inv;
    StepKeepsInv(s, a, faulty);
    OthersRun(Next(s, a).value, es, chain, faulty);
  }

  /**
   A detach whose listing failed finishes without deleting anything: no jump to its chain is left exactly
   when there was none.
   */
  lemma FailedDetachIff(s: State, chain: string, faulty: set<string>, es: seq<Action>)
    requires Inv(s, faulty) && IsVmChain(chain) && chain !in s.tasks && OthersOnly(es, chain, faulty + {chain})
    ensures Next(s, StartDetach(chain, true)).Some?
    ensures var t := Run(Next(s, StartDetach(chain, true)).value, es);
            && Next(t, FinishDetach(chain)).Some?
            && (forall j: Jump :: j.chain == chain ==> Count(t.forward, j) == Count(s.forward, j))
            && (forall j: Jump :: j.chain == chain ==> (Present(t.forward, j) <==> Present(s.forward, j)))
  {
    var more := faulty + {chain};
    WeakerInv(s, faulty, more);
    StepKeepsInv(s, StartDetach(chain, true), more);
    var s0 := Next(s, StartDetach(chain, true)).value;
    OthersRun(s0, es, chain, more);
    var t := Run(s0, es);
    forall j: Jump | j.chain == chain ensures Present(t.forward, j) <==> Present(s.forward, j) {
      CountPresent(t.forward, j);
      CountPresent(s.forward, j);
    }
  }

  // ----- operations whose listings are read run through -----

  /** `vm_` and 24 digits name a VM chain. */
  lemma VmChainNames(digits: string)
    requires |digits| == 24
    ensures IsVmChain("vm_" + digits)
  {
  }

  lemma RunFirst(s: State, a: Action, es: seq<Action>)
    ensures Run(s, [a] + es) == Run(if Next(s, a).Some? then Next(s, a).value else s, es)
  {
    hide Next;
    assert ([a] + es)[1..] == es;
  }

  /** An operation does one thing at a time, in order: the jump to the VM, the jump from it, the end; each delete, the end. */
  lemma OneTurnAtATime(s: State, chain: string, tap: string, listFails: bool)
    requires chain in s.tasks
    ensures var task := s.tasks[chain];
      && (Next(s, AddToVm(chain)).Some? <==> task.Attaching? && task.addToVm)
      && (Next(s, AddFromVm(chain)).Some? <==> task.Attaching? && !task.addToVm && task.addFromVm)
      && (Next(s, FinishAttach(chain)).Some? <==> task.Attaching? && !task.addToVm && !task.addFromVm)
      && (Next(s, DeleteNext(chain)).Some? <==> task.Detaching? && task.handles != [])
      && (Next(s, FinishDetach(chain)).Some? <==> task.Detaching? && task.handles == [])
      && Next(s, StartAttach(chain, tap, listFails)).None? && Next(s, StartDetach(chain, listFails)).None?
  {
  }

  /** The turn of one add: it is enabled exactly when it is needed; then others do what they do. */
  lemma AddTurn(s: State, a: Action, task: Task, es: seq<Action>, faulty: set<string>)
    requires Inv(s, faulty) && (a.AddToVm? || a.AddFromVm?) && OthersOnly(es, a.chain, faulty)
    requires task.Attaching? && a.chain in s.tasks && s.tasks[a.chain] == task && (a.AddFromVm? ==> !task.addToVm)
    ensures var needed := if a.AddToVm? then task.addToVm else task.addFromVm;
      var own := Jump(if a.AddToVm? then ToVm else FromVm, task.tap, a.chain);
      var t := Run(s, [a] + es);
      && (Next(s, a).Some? <==> needed)
      && Inv(t, faulty) && a.chain in t.tasks
      && t.tasks[a.chain] == Attaching(task.tap, false, if a.AddToVm? then task.addFromVm else false)
      && forall j: Jump :: j.chain == a.chain ==> Count(t.forward, j) == Count(s.forward, j) + if needed && j == own then 1 else 0
  {
    hide Inv, Run, Count, OthersOnly;
    RunFirst(s, a, es);
    var needed := if a.AddToVm? then task.addToVm else task.addFromVm;
    assert Next(s, a).Some? <==> needed;
    if needed {
      ThenOthers(s, a, es, a.chain, faulty);
      forall j: Jump | j.chain == a.chain
        ensures Count(Next(s, a).value.forward, j)
             == Count(s.forward, j) + if j == Jump(if a.AddToVm? then ToVm else FromVm, task.tap, a.chain) then 1 else 0
      {
        AddCounts(s, a, task.tap, j);
      }
    } else {
      OthersRun(s, es, a.chain, faulty);
    }
  }

  /** The attach begins with a listing that was read. */
  lemma AttachTurn(s: State, chain: string, tap: string, es: seq<Action>, faulty: set<string>)
    requires Inv(s, faulty) && IsVmChain(chain) && chain !in s.tasks && OthersOnly(es, chain, faulty) && chain !in faulty
    ensures Next(s, StartAttach(chain, tap, false)).Some?
    ensures var t := Run(s, [StartAttach(chain, tap, false)] + es);
      && Inv(t, faulty) && chain in t.tasks
      && t.tasks[chain] == Attaching(tap, Count(s.forward, Jump(ToVm, tap, chain)) == 0, Count(s.forward, Jump(FromVm, tap, chain)) == 0)
      && forall j: Jump :: j.chain == chain ==> Count(t.forward, j) == Count(s.forward, j)
  {
    CountPresent(s.forward, Jump(ToVm, tap, chain));
    CountPresent(s.forward, Jump(FromVm, tap, chain));
    hide Inv, Run, Count, OthersOnly, Present, IsVmChain;
    RunFirst(s, StartAttach(chain, tap, false), es);
    ThenOthers(s, StartAttach(chain, tap, false), es, chain, faulty);
  }

  /**
   An attach whose listing was read runs through, whatever other VMs do in between: it starts, each add is
   enabled in its turn exactly when that jump was missing, and it can finish with each of the two jumps in the
   chain exactly once and every other jump to the VM's chain as it was.
   */
  lemma AttachCompletes(
    s: State, chain: string, tap: string, faulty: set<string>, es1: seq<Action>, es2: seq<Action>, es3: seq<Action>)
    requires Inv(s, faulty) && IsVmChain(chain) && chain !in s.tasks && chain !in faulty
    requires OthersOnly(es1, chain, faulty) && OthersOnly(es2, chain, faulty) && OthersOnly(es3, chain, faulty)
    ensures Next(s, StartAttach(chain, tap, false)).Some?
    ensures var toVm, fromVm := Jump(ToVm, tap, chain), Jump(FromVm, tap, chain);
      var s1 := Run(s, [StartAttach(chain, tap, false)] + es1);
      var s2 := Run(s1, [AddToVm(chain)] + es2);
      var s3 := Run(s2, [AddFromVm(chain)] + es3);
      && (Next(s1, AddToVm(chain)).Some? <==> Count(s.forward, toVm) == 0)
      && (Next(s2, AddFromVm(chain)).Some? <==> Count(s.forward, fromVm) == 0)
      && Next(s3, FinishAttach(chain)) == Some(s3.(tasks := s3.tasks - {chain}))
      && Inv(s3, faulty) && Count(s3.forward, toVm) == 1 && Count(s3.forward, fromVm) == 1
      && forall j: Jump :: j.chain == chain && j != toVm && j != fromVm ==> Count(s3.forward, j) == Count(s.forward, j)
  {
    var toVm, fromVm := Jump(ToVm, tap, chain), Jump(FromVm, tap, chain);
    InvUnique(s, faulty, chain);
    assert Count(s.forward, toVm) <= 1 && Count(s.forward, fromVm) <= 1;
    hide Inv, Run, Count, Present, OthersOnly, TaskReady, Next, UniqueTo;
    AttachTurn(s, chain, tap, es1, faulty);
    var s1 := Run(s, [StartAttach(chain, tap, false)] + es1);
    AddTurn(s1, AddToVm(chain), s1.tasks[chain], es2, faulty);
    var s2 := Run(s1, [AddToVm(chain)] + es2);
    AddTurn(s2, AddFromVm(chain), s2.tasks[chain], es3, faulty);
    FinishIs(Run(s2, [AddFromVm(chain)] + es3), chain, tap);
  }

  lemma FinishIs(s: State, chain: string, tap: string)
    requires chain in s.tasks && s.tasks[chain] == Attaching(tap, false, false)
    ensures Next(s, FinishAttach(chain)) == Some(s.(tasks := s.tasks - {chain}))
  {
  }

  /** How many entries jump to the chain. */
  function JumpsTotal(forward: seq<Entry>, chain: string): nat {
    if forward == [] then 0 else (if JumpsTo(forward[0], chain) then 1 else 0) + JumpsTotal(forward[1..], chain)
  }

  lemma {:induction false} AllMatched(forward: seq<Entry>, chain: string)
    requires KnownChains(forward) && IsVmChain(chain)
    ensures |MatchingHandles(forward, chain)| == JumpsTotal(forward, chain)
  {
    if forward != [] {
      var rest := forward[1..];
      assert forall i :: 0 <= i < |rest| ==> rest[i] == forward[i + 1];
      AllMatched(rest, chain);
      assert MentionsChain(forward[0], chain) <==> JumpsTo(forward[0], chain);
    }
  }

  /** One delete after the other, each with what other VMs do after it; `ess` holds that, turn by turn. */
  function DeleteTurns(s: State, chain: string, ess: seq<seq<Action>>): State
    decreases |ess|
  {
    if ess == [] then s else DeleteTurns(Run(s, [DeleteNext(chain)] + ess[0]), chain, ess[1..])
  }

  predicate DeletesEnabled(s: State, chain: string, ess: seq<seq<Action>>)
    decreases |ess|
  {
    ess != [] ==>
      Next(s, DeleteNext(chain)).Some? && DeletesEnabled(Run(s, [DeleteNext(chain)] + ess[0]), chain, ess[1..])
  }

  lemma DeleteTurn(s: State, chain: string, es: seq<Action>, faulty: set<string>)
    requires Inv(s, faulty) && OthersOnly(es, chain, faulty)
    requires chain in s.tasks && s.tasks[chain].Detaching? && s.tasks[chain].handles != []
    ensures Next(s, DeleteNext(chain)).Some?
    ensures var t := Run(s, [DeleteNext(chain)] + es);
      Inv(t, faulty) && chain in t.tasks && t.tasks[chain] == Detaching(s.tasks[chain].handles[1..])
  {
    hide Inv, Run, Count, OthersOnly;
    RunFirst(s, DeleteNext(chain), es);
    ThenOthers(s, DeleteNext(chain), es, chain, faulty);
  }

  lemma {:induction false} DeletesRun(s: State, chain: string, ess: seq<seq<Action>>, faulty: set<string>)
    requires Inv(s, faulty) && forall i :: 0 <= i < |ess| ==> OthersOnly(ess[i], chain, faulty)
    requires chain in s.tasks && s.tasks[chain].Detaching? && |s.tasks[chain].handles| == |ess|
    ensures DeletesEnabled(s, chain, ess)
    ensures var t := DeleteTurns(s, chain, ess); Inv(t, faulty) && chain in t.tasks && t.tasks[chain] == Detaching([])
    decreases |ess|
  {
    hide Inv, Run, Next, OthersOnly;
    if ess != [] {
      DeleteTurn(s, chain, ess[0], faulty);
      assert forall i :: 0 <= i < |ess[1..]| ==> ess[1..][i] == ess[i + 1];
      DeletesRun(Run(s, [DeleteNext(chain)] + ess[0]), chain, ess[1..], faulty);
    }
  }

  /** A detach begins with a listing that was read. */
  lemma DetachTurn(s: State, chain: string, es: seq<Action>, faulty: set<string>)
    requires Inv(s, faulty) && IsVmChain(chain) && chain !in s.tasks && OthersOnly(es, chain, faulty) && chain !in faulty
    ensures Next(s, StartDetach(chain, false)).Some?
    ensures var t := Run(s, [StartDetach(chain, false)] + es);
      && Inv(t, faulty) && chain in t.tasks && t.tasks[chain].Detaching?
      && |t.tasks[chain].handles| == JumpsTotal(s.forward, chain)
  {
    assert KnownChains(s.forward);
    AllMatched(s.forward, chain);
    hide Inv, Run, Count, OthersOnly, IsVmChain, MatchingHandles, JumpsTotal, KnownChains;
    RunFirst(s, StartDetach(chain, false), es);
    ThenOthers(s, StartDetach(chain, false), es, chain, faulty);
  }

  /**
   A detach whose listing was read runs through, whatever other VMs do in between: it starts, one delete per
   jump to its chain is enabled in its turn, and it can finish with no jump to the chain left.
   */
  lemma DetachCompletes(s: State, chain: string, faulty: set<string>, es: seq<Action>, ess: seq<seq<Action>>)
    requires Inv(s, faulty) && IsVmChain(chain) && chain !in s.tasks && chain !in faulty
    requires OthersOnly(es, chain, faulty) && forall i :: 0 <= i < |ess| ==> OthersOnly(ess[i], chain, faulty)
    requires |ess| == JumpsTotal(s.forward, chain)
    ensures Next(s, StartDetach(chain, false)).Some?
    ensures var s1 := Run(s, [StartDetach(chain, false)] + es);
      var t := DeleteTurns(s1, chain, ess);
      && DeletesEnabled(s1, chain, ess)
      && Next(t, FinishDetach(chain)) == Some(t.(tasks := t.tasks - {chain}))
      && Inv(t, faulty) && JumpsTotal(t.forward, chain) == 0
      && forall j: Jump :: j.chain == chain ==> Count(t.forward, j) == 0
  {
    hide Inv, Run, DeleteTurns, DeletesEnabled, JumpsTotal, Count, Next, OthersOnly, IsVmChain;
    DetachTurn(s, chain, es, faulty);
    var s1 := Run(s, [StartDetach(chain, false)] + es);
    DeletesRun(s1, chain, ess, faulty);
    var t := DeleteTurns(s1, chain, ess);
    NoJumpLeft(t, chain, faulty);
    DetachFinishIs(t, chain);
  }

  lemma DetachFinishIs(s: State, chain: string)
    requires chain in s.tasks && s.tasks[chain] == Detaching([])
    ensures Next(s, FinishDetach(chain)) == Some(s.(tasks := s.tasks - {chain}))
  {
  }

  lemma NoJumpLeft(s: State, chain: string, faulty: set<string>)
    requires Inv(s, faulty) && chain !in faulty && chain in s.tasks && s.tasks[chain] == Detaching([])
    ensures JumpsTotal(s.forward, chain) == 0 && forall j: Jump :: j.chain == chain ==> Count(s.forward, j) == 0
  {
    assert TaskReady(s.forward, chain, s.tasks[chain], faulty);
    NoneTotal(s.forward, chain);
    forall j: Jump | j.chain == chain ensures Count(s.forward, j) == 0 { CountPresent(s.forward, j); }
  }

  lemma {:induction false} NoneTotal(forward: seq<Entry>, chain: string)
    requires forall i :: 0 <= i < |forward| ==> !JumpsTo(forward[i], chain)
    ensures JumpsTotal(forward, chain) == 0
  {
    if forward != [] { NoneTotal(forward[1..], chain); }
  }

  /** A command that fails ends its operation wherever it stands; the jumps stay, and the chain is free for the next one. */
  lemma AbortFrees(s: State, chain: string, tap: string, faulty: set<string>)
    requires Inv(s, faulty) && chain in s.tasks
    ensures var t := Next(s, Abort(chain));
      && t == Some(s.(tasks := s.tasks - {chain})) && Inv(t.value, faulty)
      && Next(t.value, StartAttach(chain, tap, false)).Some? && Next(t.value, StartDetach(chain, false)).Some?
  {
    StepKeepsInv(s, Abort(chain), faulty);
    assert TaskReady(s.forward, chain, s.tasks[chain], faulty);
  }
}
