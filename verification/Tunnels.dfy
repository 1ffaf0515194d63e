/** The supervisor of the reverse tunnels: a registry of child processes that pushes and health
    checks drive towards one SOCKS tunnel and one bundle of forwards per worker. */
module Tunnels {
  import opened Options
  import opened TunnelCommand

  type Pid = nat
  type Key = (string, string)   // worker, label

  const BUNDLE: string := "bundle"
  const SOCKS: string := "mac-socks5"

  datatype Entry =
    | Plain(proc: Pid)
    | Bundle(proc: Pid, slots: seq<nat>)

  /** How starting a process goes: Popen raises, the process is gone two seconds later, or it
      stays. */
  datatype Start = Raises | Early | Up

  /** The outside world: the fate of each start, in order, and the processes that die during each
      of the daemon's pauses, in order. */
  datatype World = World(starts: nat -> Start, dying: nat -> set<Pid>)

  /** `live` are the running processes the daemon has started; `madeFor` remembers what for. */
  datatype Sys = Sys(tunnels: map<Key, Entry>, live: set<Pid>, madeFor: map<Pid, Key>,
                     next: Pid, starts: nat, pauses: nat)

  // ----- what each operation does

  function Pause(e: World, s: Sys): Sys {
    s.(live := s.live - e.dying(s.pauses), pauses := s.pauses + 1)
  }

  function MakeEntry(p: Pid, slots: Option<seq<nat>>): Entry {
    if slots.Some? then Bundle(p, slots.value) else Plain(p)
  }

  /** Popen, two seconds of sleep, and recording the process if it is still there. */
  function Spawn(e: World, s: Sys, key: Key, slots: Option<seq<nat>>): Sys {
    var fate := e.starts(s.starts);
    var tried := s.(starts := s.starts + 1);
    if fate.Raises? then tried
    else
      var slept := Pause(e, tried.(next := s.next + 1, madeFor := s.madeFor[s.next := key]));
      if fate.Early? then slept
      else slept.(live := slept.live + {s.next}, tunnels := slept.tunnels[key := MakeEntry(s.next, slots)])
  }

  predicate Running(s: Sys, key: Key) {
    key in s.tunnels && s.tunnels[key].proc in s.live
  }

  function SshReverse(e: World, s: Sys, worker: string, tag: string): Sys {
    if Running(s, (worker, tag)) then s else Spawn(e, s, (worker, tag), None)
  }

  /** The bundle of a worker is recorded with exactly these slots. */
  predicate Matches(s: Sys, worker: string, slots: seq<nat>) {
    var key := (worker, BUNDLE);
    key in s.tunnels && s.tunnels[key].Bundle? && Members(s.tunnels[key].slots) == Members(slots)
  }

  /** Ends a bundle whose slots changed. The daemon waits for it, so time passes. */
  function Terminate(e: World, s: Sys, key: Key): Sys
    requires key in s.tunnels
  {
    Pause(e, s.(live := s.live - {s.tunnels[key].proc}))
  }

  function PushBundled(e: World, s: Sys, worker: string, slots: seq<nat>): Sys {
    var key := (worker, BUNDLE);
    if slots == [] || (Running(s, key) && Matches(s, worker, slots)) then s
    else
      var cleared := if Running(s, key) && s.tunnels[key].Bundle? then Terminate(e, s, key) else s;
      Spawn(e, cleared, key, Some(Sorted(slots)))
  }

  /** An empty `vm` is no VM address. */
  function PushAll(e: World, s: Sys, worker: string, vm: string, slots: seq<nat>): Sys {
    var socks := SshReverse(e, s, worker, SOCKS);
    if vm != "" && slots != [] then PushBundled(e, socks, worker, slots) else socks
  }

  function Reap(s: Sys): Sys {
    s.(tunnels := map key | key in s.tunnels && s.tunnels[key].proc in s.live :: s.tunnels[key])
  }

  /** The dead bundles, in the registry's own order. */
  function Respawns(s: Sys, order: seq<Key>): seq<(string, seq<nat>)>
    decreases |order|
  {
    if order == [] then []
    else
      var key := order[0];
      (if key in s.tunnels && !Running(s, key) && s.tunnels[key].Bundle? then [(key.0, s.tunnels[key].slots)] else [])
      + Respawns(s, order[1..])
  }

  /** The keys of dead tunnels, in the registry's own order. */
  function DeadKeys(s: Sys, order: seq<Key>): seq<Key>
    decreases |order|
  {
    if order == [] then []
    else (if order[0] in s.tunnels && !Running(s, order[0]) then [order[0]] else []) + DeadKeys(s, order[1..])
  }

  lemma {:induction false} DeadKeysAre(s: Sys, order: seq<Key>)
    ensures forall k :: k in DeadKeys(s, order) <==> k in order && k in s.tunnels && !Running(s, k)
    decreases |order|
  {
    if order != [] {
      DeadKeysAre(s, order[1..]);
      assert order == [order[0]] + order[1..];
    }
  }

  /** Both lists, appended to what was found before. */
  function Scan(s: Sys, order: seq<Key>, dead: seq<Key>, respawn: seq<(string, seq<nat>)>)
    : (seq<Key>, seq<(string, seq<nat>)>)
    decreases |order|
  {
    if order == [] then (dead, respawn)
    else
      var key := order[0];
      if key !in s.tunnels || Running(s, key) then Scan(s, order[1..], dead, respawn)
      else if s.tunnels[key].Bundle? then
        Scan(s, order[1..], dead + [key], respawn + [(key.0, s.tunnels[key].slots)])
      else Scan(s, order[1..], dead + [key], respawn)
  }

  lemma {:induction false} ScanFinds(s: Sys, order: seq<Key>, dead: seq<Key>, respawn: seq<(string, seq<nat>)>)
    ensures Scan(s, order, dead, respawn).0 == dead + DeadKeys(s, order)
    ensures Scan(s, order, dead, respawn).1 == respawn + Respawns(s, order)
    decreases |order|
  {
    if order != [] {
      var key := order[0];
      var isDead := key in s.tunnels && !Running(s, key);
      var isBundle := isDead && s.tunnels[key].Bundle?;
      var d: seq<Key> := if isDead then [key] else [];
      var r: seq<(string, seq<nat>)> := if isBundle then [(key.0, s.tunnels[key].slots)] else [];
      assert dead + d == if isDead then dead + [key] else dead;
      assert respawn + r == if isBundle then respawn + [(key.0, s.tunnels[key].slots)] else respawn;
      ScanFinds(s, order[1..], dead + d, respawn + r);
      assert DeadKeys(s, order) == d + DeadKeys(s, order[1..]);
      assert Respawns(s, order) == r + Respawns(s, order[1..]);
    }
  }

  function PushBundles(e: World, s: Sys, list: seq<(string, seq<nat>)>): Sys
    decreases |list|
  {
    if list == [] then s else PushBundles(e, PushBundled(e, s, list[0].0, list[0].1), list[1..])
  }

  function Check(e: World, s: Sys, vm: string, order: seq<Key>): Sys {
    if vm == "" then Reap(s) else PushBundles(e, Reap(s), Respawns(s, order))
  }

  function PushTargets(e: World, s: Sys, targets: seq<string>, vm: string, slots: seq<nat>): Sys
    decreases |targets|
  {
    if targets == [] then s
    else PushTargets(e, if targets[0] == "" then s else PushAll(e, s, targets[0], vm, slots), targets[1..], vm, slots)
  }

  /** One round of the watchdog. `order` lists the keys of the registry when it is checked. */
  function Tick(e: World, s: Sys, targets: seq<string>, vm: string, slots: seq<nat>, order: set<Key> -> seq<Key>): Sys {
    var pushed := PushTargets(e, s, targets, vm, slots);
    Check(e, pushed, vm, order(pushed.tunnels.Keys))
  }

  /** Each of the keys is listed, once. */
  ghost predicate Lists(order: seq<Key>, keys: set<Key>) {
    && (forall k :: k in order <==> k in keys)
    && (forall i, j :: 0 <= i < j < |order| ==> order[i] != order[j])
  }

  // ----- the registry is exact

  /** The live processes are exactly the recorded ones that have not died: each is recorded under
      the key it was started for, so no key has two. */
  ghost predicate Exact(s: Sys) {
    && (forall p :: p in s.live ==> p in s.madeFor && s.madeFor[p] in s.tunnels && s.tunnels[s.madeFor[p]].proc == p)
    && (forall k :: k in s.tunnels ==> s.tunnels[k].proc in s.madeFor && s.madeFor[s.tunnels[k].proc] == k)
    && (forall p :: p in s.madeFor ==> p < s.next)
  }

  /** Bundles, and only they, are recorded under the bundle label, never with no slots. */
  ghost predicate Typed(s: Sys) {
    forall k :: k in s.tunnels ==>
      && (s.tunnels[k].Bundle? <==> k.1 == BUNDLE)
      && (s.tunnels[k].Bundle? ==> s.tunnels[k].slots != [])
  }

  ghost predicate Inv(s: Sys) {
    Exact(s) && Typed(s)
  }

  lemma NeverTwoPerKey(s: Sys, p: Pid, q: Pid)
    requires Exact(s) && p in s.live && q in s.live && s.madeFor[p] == s.madeFor[q]
    ensures p == q
  {
  }

  lemma SpawnExact(e: World, s: Sys, key: Key, slots: Option<seq<nat>>)
    requires Exact(s) && !Running(s, key)
    ensures Exact(Spawn(e, s, key, slots))
  {
    var s' := Spawn(e, s, key, slots);
    forall p | p in s'.live
      ensures p in s'.madeFor && s'.madeFor[p] in s'.tunnels && s'.tunnels[s'.madeFor[p]].proc == p
    {
      if p != s.next {
        assert p in s.live;
      }
    }
  }

  lemma SpawnInv(e: World, s: Sys, key: Key, slots: Option<seq<nat>>)
    requires Inv(s) && !Running(s, key) && (slots.Some? <==> key.1 == BUNDLE) && (slots.Some? ==> slots.value != [])
    ensures Inv(Spawn(e, s, key, slots))
  {
    SpawnExact(e, s, key, slots);
  }

  lemma SshReverseInv(e: World, s: Sys, worker: string, tag: string)
    requires Inv(s) && tag != BUNDLE
    ensures Inv(SshReverse(e, s, worker, tag))
  {
    if !Running(s, (worker, tag)) {
      SpawnInv(e, s, (worker, tag), None);
    }
  }

  lemma TerminateInv(e: World, s: Sys, key: Key)
    requires Inv(s) && key in s.tunnels
    ensures Inv(Terminate(e, s, key)) && !Running(Terminate(e, s, key), key)
  {
  }

  lemma PushBundledInv(e: World, s: Sys, worker: string, slots: seq<nat>)
    requires Inv(s)
    ensures Inv(PushBundled(e, s, worker, slots))
  {
    var key := (worker, BUNDLE);
    if slots != [] && !(Running(s, key) && Matches(s, worker, slots)) {
      SortedMembers(slots);
      var cleared := s;
      if Running(s, key) {
        TerminateInv(e, s, key);
        cleared := Terminate(e, s, key);
      }
      SpawnInv(e, cleared, key, Some(Sorted(slots)));
    }
  }

  lemma PushAllInv(e: World, s: Sys, worker: string, vm: string, slots: seq<nat>)
    requires Inv(s)
    ensures Inv(PushAll(e, s, worker, vm, slots))
  {
    SshReverseInv(e, s, worker, SOCKS);
    PushBundledInv(e, SshReverse(e, s, worker, SOCKS), worker, slots);
  }

  lemma ReapInv(s: Sys)
    requires Inv(s)
    ensures Inv(Reap(s))
  {
  }

  lemma {:induction false} PushBundlesInv(e: World, s: Sys, list: seq<(string, seq<nat>)>)
    requires Inv(s)
    ensures Inv(PushBundles(e, s, list))
    decreases |list|
  {
    if list != [] {
      PushBundledInv(e, s, list[0].0, list[0].1);
      PushBundlesInv(e, PushBundled(e, s, list[0].0, list[0].1), list[1..]);
    }
  }

  lemma CheckInv(e: World, s: Sys, vm: string, order: seq<Key>)
    requires Inv(s)
    ensures Inv(Check(e, s, vm, order))
  {
    ReapInv(s);
    PushBundlesInv(e, Reap(s), Respawns(s, order));
  }

  lemma {:induction false} PushTargetsInv(e: World, s: Sys, targets: seq<string>, vm: string, slots: seq<nat>)
    requires Inv(s)
    ensures Inv(PushTargets(e, s, targets, vm, slots))
    decreases |targets|
  {
    if targets != [] {
      var s1 := if targets[0] == "" then s else PushAll(e, s, targets[0], vm, slots);
      PushAllInv(e, s, targets[0], vm, slots);
      PushTargetsInv(e, s1, targets[1..], vm, slots);
    }
  }

  // ----- every run

  datatype Call =
    | Ssh(worker: string, tag: string)
    | Bundled(worker: string, slots: seq<nat>)
    | Watch(targets: seq<string>, vm: string, slots: seq<nat>, order: set<Key> -> seq<Key>)
    | Health(vm: string, keys: seq<Key>)
    | Die(pids: set<Pid>)

  function DoCall(e: World, s: Sys, call: Call): Sys {
    match call
    case Ssh(w, tag) => SshReverse(e, s, w, tag)
    case Bundled(w, slots) => PushBundled(e, s, w, slots)
    case Watch(targets, vm, slots, order) => Tick(e, s, targets, vm, slots, order)
    case Health(vm, order) => Check(e, s, vm, order)
    case Die(pids) => s.(live := s.live - pids)
  }

  function DoCalls(e: World, s: Sys, calls: seq<Call>): Sys
    decreases |calls|
  {
    if calls == [] then s else DoCalls(e, DoCall(e, s, calls[0]), calls[1..])
  }

  const START: Sys := Sys(map[], {}, map[], 0, 0, 0)

  /** No call starts a single tunnel under the label reserved for bundles. */
  predicate LabelsApart(calls: seq<Call>) {
    forall i :: 0 <= i < |calls| && calls[i].Ssh? ==> calls[i].tag != BUNDLE
  }

  lemma {:induction false} CallsInv(e: World, s: Sys, calls: seq<Call>)
    requires Inv(s) && LabelsApart(calls)
    ensures Inv(DoCalls(e, s, calls))
    decreases |calls|
  {
    if calls != [] {
      var call := calls[0];
      match call {
        case Ssh(w, tag) => SshReverseInv(e, s, w, tag);
        case Bundled(w, slots) => PushBundledInv(e, s, w, slots);
        case Watch(targets, vm, slots, order) =>
          var pushed := PushTargets(e, s, targets, vm, slots);
          PushTargetsInv(e, s, targets, vm, slots);
          CheckInv(e, pushed, vm, order(pushed.tunnels.Keys));
        case Health(vm, order) => CheckInv(e, s, vm, order);
        case Die(_) =>
      }
      CallsInv(e, DoCall(e, s, call), calls[1..]);
    }
  }

  /** After any run of pushes, health checks and deaths, whatever starts fail, the registry is
      exact. */
  lemma RegistryExactAfterEveryRun(e: World, calls: seq<Call>)
    requires LabelsApart(calls)
    ensures Exact(DoCalls(e, START, calls))
  {
    CallsInv(e, START, calls);
  }

  /** The label matters: a single tunnel recorded as a bundle is overwritten while it runs. */
  lemma SharedLabelLeaks(e: World, worker: string)
    requires forall i :: e.starts(i) == Up && e.dying(i) == {}
    ensures var s := DoCalls(e, START, [Ssh(worker, BUNDLE), Bundled(worker, [0])]);
            {0, 1} <= s.live && {0, 1} <= s.madeFor.Keys && s.madeFor[0] == s.madeFor[1] && !Exact(s)
  {
    var calls := [Ssh(worker, BUNDLE), Bundled(worker, [0])];
    var s1 := DoCall(e, START, calls[0]);
    assert calls[1..][1..] == [];
    var s2 := DoCall(e, s1, calls[1]);
    assert DoCalls(e, s1, calls[1..]) == s2;
    assert s1.tunnels[(worker, BUNDLE)] == Plain(0) && s1.live == {0};
    assert e.starts(1) == Up && s2.live == {0, 1};
  }

  // ----- what a health check forgets

  lemma PushBundledFresh(e: World, s: Sys, worker: string, slots: seq<nat>, k: Key, p: Pid)
    requires Inv(s) && p < s.next && !(k in s.tunnels && s.tunnels[k].proc == p)
    ensures var s' := PushBundled(e, s, worker, slots);
            s'.next >= s.next && !(k in s'.tunnels && s'.tunnels[k].proc == p)
  {
  }

  lemma {:induction false} PushBundlesFresh(e: World, s: Sys, list: seq<(string, seq<nat>)>, k: Key, p: Pid)
    requires Inv(s) && p < s.next && !(k in s.tunnels && s.tunnels[k].proc == p)
    ensures var s' := PushBundles(e, s, list); !(k in s'.tunnels && s'.tunnels[k].proc == p)
    decreases |list|
  {
    if list != [] {
      PushBundledFresh(e, s, list[0].0, list[0].1, k, p);
      PushBundledInv(e, s, list[0].0, list[0].1);
      PushBundlesFresh(e, PushBundled(e, s, list[0].0, list[0].1), list[1..], k, p);
    }
  }

  /** With or without a VM address, no entry that was dead when the check looked is still recorded
      with its process; without one, exactly the running entries are left, and nothing is started. */
  lemma CheckForgetsDead(e: World, s: Sys, vm: string, order: seq<Key>)
    requires Inv(s)
    ensures var s' := Check(e, s, vm, order);
            && (forall k :: k in s.tunnels && !Running(s, k) ==>
                  !(k in s'.tunnels && s'.tunnels[k].proc == s.tunnels[k].proc))
            && (vm == "" ==> s'.live == s.live && s'.starts == s.starts
                             && (forall k :: k in s'.tunnels <==> k in s.tunnels && Running(s, k))
                             && (forall k :: k in s'.tunnels ==> s'.tunnels[k] == s.tunnels[k]))
  {
    ReapInv(s);
    if vm != "" {
      forall k | k in s.tunnels && !Running(s, k)
        ensures var s' := Check(e, s, vm, order); !(k in s'.tunnels && s'.tunnels[k].proc == s.tunnels[k].proc)
      {
        PushBundlesFresh(e, Reap(s), Respawns(s, order), k, s.tunnels[k].proc);
      }
    }
  }
}
