/** What one round of the watchdog achieves, and when the next one has nothing to do. */
module TunnelsConverge {
  import opened Options
  import opened TunnelCommand
  import opened Tunnels

  /** From start number `from` on, all succeed. */
  ghost predicate StartsUp(e: World, from: nat) {
    forall i: nat :: i >= from ==> e.starts(i) == Up
  }

  /** Process `p` died in one of the pauses `from <= j < to`. */
  ghost predicate Died(e: World, p: Pid, from: nat, to: nat) {
    exists j :: from <= j < to && p in e.dying(j)
  }

  /** The key is recorded, and its process runs unless it died in a pause since `from`. */
  ghost predicate UpSince(e: World, s: Sys, key: Key, from: nat) {
    key in s.tunnels && (s.tunnels[key].proc in s.live || Died(e, s.tunnels[key].proc, from, s.pauses))
  }

  /** The bundle of a worker has these slots and is up since `from`. */
  ghost predicate Settled(e: World, s: Sys, worker: string, slots: seq<nat>, from: nat) {
    Matches(s, worker, slots) && UpSince(e, s, (worker, BUNDLE), from)
  }

  // ----- one start at a time

  lemma SpawnUp(e: World, s: Sys, key: Key, slots: Option<seq<nat>>)
    requires StartsUp(e, s.starts)
    ensures var s' := Spawn(e, s, key, slots);
            && s'.tunnels == s.tunnels[key := MakeEntry(s.next, slots)]
            && s'.live == s.live - e.dying(s.pauses) + {s.next}
            && s'.pauses == s.pauses + 1 && s'.starts == s.starts + 1
  {
    assert e.starts(s.starts) == Up;
  }

  lemma DiedLonger(e: World, p: Pid, from: nat, to: nat, more: nat)
    requires Died(e, p, from, to) && to <= more
    ensures Died(e, p, from, more)
  {
  }

  /** A start for one key leaves every other key up. */
  lemma SpawnKeepsUp(e: World, s: Sys, key: Key, slots: Option<seq<nat>>, other: Key, from: nat)
    requires StartsUp(e, s.starts) && UpSince(e, s, other, from) && from <= s.pauses
    ensures UpSince(e, Spawn(e, s, key, slots), other, from)
  {
    SpawnUp(e, s, key, slots);
    var s' := Spawn(e, s, key, slots);
    if other != key {
      var p := s.tunnels[other].proc;
      if p in s.live {
        if p in e.dying(s.pauses) {
          assert Died(e, p, from, s'.pauses);
        }
      } else {
        DiedLonger(e, p, from, s.pauses, s'.pauses);
      }
    }
  }

  lemma PushBundledShape(e: World, s: Sys, worker: string, slots: seq<nat>)
    requires Inv(s) && StartsUp(e, s.starts) && slots != []
    requires !(Running(s, (worker, BUNDLE)) && Matches(s, worker, slots))
    ensures var s' := PushBundled(e, s, worker, slots);
            && Running(s', (worker, BUNDLE)) && Matches(s', worker, slots)
            && Ascending(s'.tunnels[(worker, BUNDLE)].slots)
            && s'.starts == s.starts + 1 && s'.pauses > s.pauses
            && s'.tunnels.Keys == s.tunnels.Keys + {(worker, BUNDLE)}
            && (forall k :: k in s.tunnels && k != (worker, BUNDLE) ==> s'.tunnels[k] == s.tunnels[k])
  {
    SortedMembers(slots);
    SortedFacts(slots);
    var key := (worker, BUNDLE);
    var cleared := if Running(s, key) then Terminate(e, s, key) else s;
    SpawnUp(e, cleared, key, Some(Sorted(slots)));
  }

  /** Pushing one worker's bundle leaves every other key up, and its own too. */
  lemma PushBundledKeepsUp(e: World, s: Sys, worker: string, slots: seq<nat>, other: Key, from: nat)
    requires Inv(s) && StartsUp(e, s.starts) && UpSince(e, s, other, from) && from <= s.pauses
    ensures UpSince(e, PushBundled(e, s, worker, slots), other, from)
    ensures PushBundled(e, s, worker, slots).pauses >= s.pauses
  {
    var key := (worker, BUNDLE);
    if slots != [] && !(Running(s, key) && Matches(s, worker, slots)) {
      if other == key {
        PushBundledShape(e, s, worker, slots);
      } else {
        var cleared := s;
        if Running(s, key) {
          cleared := Terminate(e, s, key);
          TerminateKeepsUp(e, s, key, other, from);
        }
        SpawnKeepsUp(e, cleared, key, Some(Sorted(slots)), other, from);
      }
    }
  }

  lemma TerminateKeepsUp(e: World, s: Sys, key: Key, other: Key, from: nat)
    requires Inv(s) && key in s.tunnels && other != key && UpSince(e, s, other, from) && from <= s.pauses
    ensures UpSince(e, Terminate(e, s, key), other, from)
  {
    var s', p := Terminate(e, s, key), s.tunnels[other].proc;
    assert s.madeFor[p] == other && s.madeFor[s.tunnels[key].proc] == key;
    if p in s.live {
      if p in e.dying(s.pauses) {
        assert Died(e, p, from, s'.pauses);
      }
    } else {
      DiedLonger(e, p, from, s.pauses, s'.pauses);
    }
  }

  lemma SshReverseUp(e: World, s: Sys, worker: string)
    requires Inv(s) && StartsUp(e, s.starts)
    ensures var s' := SshReverse(e, s, worker, SOCKS);
            && Running(s', (worker, SOCKS)) && s'.pauses >= s.pauses
            && s'.tunnels.Keys == s.tunnels.Keys + {(worker, SOCKS)}
            && (forall k :: k in s.tunnels && k != (worker, SOCKS) ==> s'.tunnels[k] == s.tunnels[k])
  {
    if !Running(s, (worker, SOCKS)) {
      SpawnUp(e, s, (worker, SOCKS), None);
    }
  }

  // ----- pushing to all targets

  /** What a target looks like once it has been pushed to, whatever died since. */
  ghost predicate Pushed(s: Sys, worker: string, slots: seq<nat>) {
    (worker, SOCKS) in s.tunnels && Matches(s, worker, slots)
  }

  lemma PushAllPushed(e: World, s: Sys, worker: string, vm: string, slots: seq<nat>)
    requires Inv(s) && StartsUp(e, s.starts) && vm != "" && slots != []
    ensures Pushed(PushAll(e, s, worker, vm, slots), worker, slots)
    ensures forall w :: Pushed(s, w, slots) ==> Pushed(PushAll(e, s, worker, vm, slots), w, slots)
  {
    var s1 := SshReverse(e, s, worker, SOCKS);
    SshReverseUp(e, s, worker);
    SshReverseInv(e, s, worker, SOCKS);
    if !(Running(s1, (worker, BUNDLE)) && Matches(s1, worker, slots)) {
      PushBundledShape(e, s1, worker, slots);
    }
  }

  lemma {:induction false} PushTargetsPushed(e: World, s: Sys, targets: seq<string>, vm: string, slots: seq<nat>,
                                             w: string)
    requires Inv(s) && StartsUp(e, s.starts) && vm != "" && slots != []
    requires w != "" && (w in targets || Pushed(s, w, slots))
    ensures Pushed(PushTargets(e, s, targets, vm, slots), w, slots)
    decreases |targets|
  {
    if targets != [] {
      var s1 := if targets[0] == "" then s else PushAll(e, s, targets[0], vm, slots);
      PushAllPushed(e, s, targets[0], vm, slots);
      PushAllInv(e, s, targets[0], vm, slots);
      PushTargetsPushed(e, s1, targets[1..], vm, slots, w);
    }
  }

  // ----- reaping and respawning

  lemma {:induction false} RespawnsAreDead(s: Sys, order: seq<Key>)
    requires Inv(s)
    ensures forall r :: r in Respawns(s, order) ==>
              && r.1 != [] && (r.0, BUNDLE) in s.tunnels && !Running(s, (r.0, BUNDLE))
              && s.tunnels[(r.0, BUNDLE)] == Bundle(s.tunnels[(r.0, BUNDLE)].proc, r.1)
    decreases |order|
  {
    if order != [] {
      RespawnsAreDead(s, order[1..]);
      var key := order[0];
      if key in s.tunnels && !Running(s, key) && s.tunnels[key].Bundle? {
        assert s.tunnels[key].Bundle? <==> key.1 == BUNDLE;
        assert key == (key.0, BUNDLE);
      }
    }
  }

  lemma {:induction false} DeadAreRespawned(s: Sys, order: seq<Key>, worker: string)
    requires (worker, BUNDLE) in order && (worker, BUNDLE) in s.tunnels
    requires !Running(s, (worker, BUNDLE)) && s.tunnels[(worker, BUNDLE)].Bundle?
    ensures (worker, s.tunnels[(worker, BUNDLE)].slots) in Respawns(s, order)
    decreases |order|
  {
    if order[0] != (worker, BUNDLE) {
      DeadAreRespawned(s, order[1..], worker);
    }
  }

  /** All listed bundles end up with their slots, and whatever was up stays up. */
  lemma {:induction false} PushBundlesSettle(e: World, s: Sys, list: seq<(string, seq<nat>)>, from: nat,
                                             worker: string, slots: seq<nat>)
    requires Inv(s) && StartsUp(e, s.starts) && from <= s.pauses
    requires forall r :: r in list ==> r.1 != [] && (r.0 == worker ==> Members(r.1) == Members(slots))
    requires (exists r :: r in list && r.0 == worker) || Settled(e, s, worker, slots, from)
    ensures Settled(e, PushBundles(e, s, list), worker, slots, from)
    decreases |list|
  {
    if list != [] {
      var w, own := list[0].0, list[0].1;
      assert list[0] in list;
      var s1 := PushBundled(e, s, w, own);
      PushBundledInv(e, s, w, own);
      var noop := Running(s, (w, BUNDLE)) && Matches(s, w, own);
      if !noop {
        PushBundledShape(e, s, w, own);
      }
      if w != worker && Settled(e, s, worker, slots, from) {
        PushBundledKeepsUp(e, s, w, own, (worker, BUNDLE), from);
        assert Settled(e, s1, worker, slots, from);
      }
      PushBundlesSettle(e, s1, list[1..], from, worker, slots);
    }
  }

  lemma {:induction false} PushBundlesKeepUp(e: World, s: Sys, list: seq<(string, seq<nat>)>, from: nat)
    requires Inv(s) && StartsUp(e, s.starts) && from <= s.pauses
    requires forall k :: k in s.tunnels ==> UpSince(e, s, k, from)
    requires forall r :: r in list ==> r.1 != []
    ensures var s' := PushBundles(e, s, list);
            && (forall k :: k in s'.tunnels ==> UpSince(e, s', k, from))
            && s.tunnels.Keys <= s'.tunnels.Keys
    decreases |list|
  {
    if list != [] {
      var w, own := list[0].0, list[0].1;
      assert list[0] in list;
      var s1 := PushBundled(e, s, w, own);
      PushBundledInv(e, s, w, own);
      if !(Running(s, (w, BUNDLE)) && Matches(s, w, own)) {
        PushBundledShape(e, s, w, own);
      }
      forall k | k in s1.tunnels
        ensures UpSince(e, s1, k, from)
      {
        if k in s.tunnels {
          PushBundledKeepsUp(e, s, w, own, k, from);
        }
      }
      PushBundlesKeepUp(e, s1, list[1..], from);
    }
  }

  /** The targets have been pushed to; the health check settles them. */
  lemma CheckSettles(e: World, s: Sys, vm: string, order: seq<Key>, w: string, slots: seq<nat>)
    requires Inv(s) && StartsUp(e, s.starts) && vm != "" && slots != []
    requires Lists(order, s.tunnels.Keys) && Pushed(s, w, slots)
    ensures Settled(e, Check(e, s, vm, order), w, slots, s.pauses)
  {
    var list := Respawns(s, order);
    RespawnsAreDead(s, order);
    ReapInv(s);
    if Running(s, (w, BUNDLE)) {
      assert Settled(e, Reap(s), w, slots, s.pauses);
    } else {
      DeadAreRespawned(s, order, w);
    }
    PushBundlesSettle(e, Reap(s), list, s.pauses, w, slots);
  }

  /** One round of the watchdog whose starts all succeed leaves every target with a bundle that
      has exactly the requested slots and runs, unless it died after the health check looked at
      it: bundles that die between push and health check are respawned in the same round. */
  lemma TickConverges(e: World, s: Sys, targets: seq<string>, vm: string, slots: seq<nat>,
                      order: set<Key> -> seq<Key>, w: string)
    requires Inv(s) && StartsUp(e, s.starts) && vm != "" && slots != []
    requires forall ks :: Lists(order(ks), ks)
    requires w in targets && w != ""
    ensures Settled(e, Tick(e, s, targets, vm, slots, order), w, slots,
                    PushTargets(e, s, targets, vm, slots).pauses)
  {
    var s1 := PushTargets(e, s, targets, vm, slots);
    PushTargetsPushed(e, s, targets, vm, slots, w);
    PushTargetsInv(e, s, targets, vm, slots);
    PushTargetsStarts(e, s, targets, vm, slots);
    assert Lists(order(s1.tunnels.Keys), s1.tunnels.Keys);
    CheckSettles(e, s1, vm, order(s1.tunnels.Keys), w, slots);
  }

  /** Whatever starts failed and whatever died in a run before, one round whose starts succeed
      settles every target. */
  lemma RecoversAfterEveryRun(e: World, calls: seq<Call>, targets: seq<string>, vm: string, slots: seq<nat>,
                              order: set<Key> -> seq<Key>, w: string)
    requires LabelsApart(calls) && StartsUp(e, DoCalls(e, START, calls).starts)
    requires vm != "" && slots != [] && w in targets && w != ""
    requires forall ks :: Lists(order(ks), ks)
    ensures var s := DoCalls(e, START, calls);
            Settled(e, Tick(e, s, targets, vm, slots, order), w, slots,
                    PushTargets(e, s, targets, vm, slots).pauses)
  {
    CallsInv(e, START, calls);
    TickConverges(e, DoCalls(e, START, calls), targets, vm, slots, order, w);
  }

  // ----- when a round has nothing to do

  /** Every target has its SOCKS tunnel and its bundle running with the requested slots. */
  predicate TargetQuiet(s: Sys, worker: string, vm: string, slots: seq<nat>) {
    && Running(s, (worker, SOCKS))
    && (vm != "" && slots != [] ==> Running(s, (worker, BUNDLE)) && Matches(s, worker, slots))
  }

  ghost predicate Quiet(s: Sys, targets: seq<string>, vm: string, slots: seq<nat>) {
    && (forall w :: w in targets && w != "" ==> TargetQuiet(s, w, vm, slots))
    && (vm != "" ==> forall k :: k in s.tunnels && s.tunnels[k].Bundle? ==> Running(s, k))
  }

  lemma PushAllStarts(e: World, s: Sys, worker: string, vm: string, slots: seq<nat>)
    requires Inv(s)
    ensures var s' := PushAll(e, s, worker, vm, slots);
            && s'.starts >= s.starts
            && (s'.starts == s.starts <==> TargetQuiet(s, worker, vm, slots))
            && (s'.starts == s.starts ==> s' == s)
  {
    SshReverseInv(e, s, worker, SOCKS);
  }

  lemma {:induction false} PushTargetsStarts(e: World, s: Sys, targets: seq<string>, vm: string, slots: seq<nat>)
    requires Inv(s)
    ensures var s' := PushTargets(e, s, targets, vm, slots);
            && s'.starts >= s.starts
            && (s'.starts == s.starts <==> forall w :: w in targets && w != "" ==> TargetQuiet(s, w, vm, slots))
            && (s'.starts == s.starts ==> s' == s)
    decreases |targets|
  {
    if targets != [] {
      var s1 := if targets[0] == "" then s else PushAll(e, s, targets[0], vm, slots);
      PushAllStarts(e, s, targets[0], vm, slots);
      PushAllInv(e, s, targets[0], vm, slots);
      PushTargetsStarts(e, s1, targets[1..], vm, slots);
      assert targets == [targets[0]] + targets[1..];
    }
  }

  lemma {:induction false} PushBundlesStarts(e: World, s: Sys, list: seq<(string, seq<nat>)>)
    ensures PushBundles(e, s, list).starts >= s.starts
    decreases |list|
  {
    if list != [] {
      PushBundlesStarts(e, PushBundled(e, s, list[0].0, list[0].1), list[1..]);
    }
  }

  lemma CheckStarts(e: World, s: Sys, vm: string, order: seq<Key>)
    requires Inv(s) && Lists(order, s.tunnels.Keys)
    ensures Check(e, s, vm, order).starts >= s.starts
    ensures Check(e, s, vm, order).starts == s.starts
            <==> vm == "" || forall k :: k in s.tunnels && s.tunnels[k].Bundle? ==> Running(s, k)
  {
    var list := Respawns(s, order);
    RespawnsAreDead(s, order);
    if list != [] {
      var r := list[0];
      assert r in list;
      PushBundlesStarts(e, PushBundled(e, Reap(s), r.0, r.1), list[1..]);
    }
    if k :| k in s.tunnels && s.tunnels[k].Bundle? && !Running(s, k) {
      assert k == (k.0, BUNDLE);
      DeadAreRespawned(s, order, k.0);
    }
  }

  /** A round tries to start nothing exactly when every target's SOCKS tunnel and bundle run with
      the requested slots and (given a VM address) no recorded bundle is dead. */
  lemma TickIdleExactlyWhen(e: World, s: Sys, targets: seq<string>, vm: string, slots: seq<nat>,
                            order: set<Key> -> seq<Key>)
    requires Inv(s) && forall ks :: Lists(order(ks), ks)
    ensures Tick(e, s, targets, vm, slots, order).starts == s.starts <==> Quiet(s, targets, vm, slots)
  {
    var s1 := PushTargets(e, s, targets, vm, slots);
    PushTargetsStarts(e, s, targets, vm, slots);
    PushTargetsInv(e, s, targets, vm, slots);
    assert Lists(order(s1.tunnels.Keys), s1.tunnels.Keys);
    CheckStarts(e, s1, vm, order(s1.tunnels.Keys));
  }

  /** Everything recorded after a health check runs, unless it died since. */
  lemma CheckKeepsUp(e: World, s: Sys, vm: string, order: seq<Key>)
    requires Inv(s) && StartsUp(e, s.starts) && vm != ""
    ensures var s' := Check(e, s, vm, order);
            forall k :: k in s'.tunnels ==> UpSince(e, s', k, s.pauses)
  {
    ReapInv(s);
    RespawnsAreDead(s, order);
    PushBundlesKeepUp(e, Reap(s), Respawns(s, order), s.pauses);
  }

  /** After a round whose starts all succeed and after whose health check nothing died, the next
      round with the same request starts nothing exactly when every target's SOCKS tunnel is
      still running: a SOCKS tunnel that died before the health check was reaped, but, unlike a
      bundle, not respawned. */
  lemma NextTickIdleExactlyWhen(e: World, s: Sys, targets: seq<string>, vm: string, slots: seq<nat>,
                                order: set<Key> -> seq<Key>, later: set<Key> -> seq<Key>)
    requires Inv(s) && StartsUp(e, s.starts) && vm != "" && slots != []
    requires forall ks :: Lists(order(ks), ks) && Lists(later(ks), ks)
    requires forall j :: j >= PushTargets(e, s, targets, vm, slots).pauses ==> e.dying(j) == {}
    ensures var s' := Tick(e, s, targets, vm, slots, order);
            Tick(e, s', targets, vm, slots, later).starts == s'.starts
            <==> forall w :: w in targets && w != "" ==> Running(s', (w, SOCKS))
  {
    var s1 := PushTargets(e, s, targets, vm, slots);
    var s' := Tick(e, s, targets, vm, slots, order);
    PushTargetsInv(e, s, targets, vm, slots);
    CheckInv(e, s1, vm, order(s1.tunnels.Keys));
    TickIdleExactlyWhen(e, s', targets, vm, slots, later);
    forall w | w in targets && w != ""
      ensures Matches(s', w, slots)
    {
      TickConverges(e, s, targets, vm, slots, order, w);
    }
    PushTargetsStarts(e, s, targets, vm, slots);
    CheckKeepsUp(e, s1, vm, order(s1.tunnels.Keys));
    forall k | k in s'.tunnels
      ensures Running(s', k)
    {
      assert UpSince(e, s', k, s1.pauses);
    }
  }

  /** One SOCKS tunnel dying while the bundle is started makes the next round start it again. */
  lemma DeadSocksNotRespawned(e: World, order: set<Key> -> seq<Key>, later: set<Key> -> seq<Key>)
    requires StartsUp(e, 0) && e.dying(0) == {} && e.dying(1) == {0}
    requires forall ks :: Lists(order(ks), ks) && Lists(later(ks), ks)
    ensures var s := Tick(e, START, ["w"], "vm", [0], order);
            Tick(e, s, ["w"], "vm", [0], later).starts > s.starts
  {
    var s1 := SshReverse(e, START, "w", SOCKS);
    SpawnUp(e, START, ("w", SOCKS), None);
    var s2 := PushBundled(e, s1, "w", [0]);
    SpawnUp(e, s1, ("w", BUNDLE), Some(Sorted([0])));
    assert ["w"][1..] == [];
    assert PushTargets(e, START, ["w"], "vm", [0]) == s2;
    assert s2.live == {1} && s2.tunnels[("w", SOCKS)] == Plain(0);
    SshReverseInv(e, START, "w", SOCKS);
    PushBundledInv(e, s1, "w", [0]);
    var s := Tick(e, START, ["w"], "vm", [0], order);
    assert Lists(order(s2.tunnels.Keys), s2.tunnels.Keys);
    CheckStarts(e, s2, "vm", order(s2.tunnels.Keys));
    CheckInv(e, s2, "vm", order(s2.tunnels.Keys));
    RespawnsAreDead(s2, order(s2.tunnels.Keys));
    var list := Respawns(s2, order(s2.tunnels.Keys));
    assert forall r :: r in list ==> r.0 != "w";
    assert s == Reap(s2) && ("w", SOCKS) !in s.tunnels;
    TickIdleExactlyWhen(e, s, ["w"], "vm", [0], later);
    PushTargetsStarts(e, s, ["w"], "vm", [0]);
    var p := PushTargets(e, s, ["w"], "vm", [0]);
    PushTargetsInv(e, s, ["w"], "vm", [0]);
    assert Lists(later(p.tunnels.Keys), p.tunnels.Keys);
    CheckStarts(e, p, "vm", later(p.tunnels.Keys));
    assert "w" in ["w"] && !TargetQuiet(s, "w", "vm", [0]);
  }

  // ----- when starts fail

  /** The slots recorded for a worker's bundle. */
  function BundleSlots(s: Sys, worker: string): Option<set<nat>> {
    var key := (worker, BUNDLE);
    if key in s.tunnels && s.tunnels[key].Bundle? then Some(Members(s.tunnels[key].slots)) else None
  }

  lemma PushBundledSlots(e: World, s: Sys, worker: string, slots: seq<nat>, w: string)
    ensures var after := BundleSlots(PushBundled(e, s, worker, slots), w);
            after == BundleSlots(s, w) || (w == worker && slots != [] && after == Some(Members(slots)))
  {
    SortedMembers(slots);
  }

  lemma SshReverseSlots(e: World, s: Sys, worker: string, w: string)
    ensures BundleSlots(SshReverse(e, s, worker, SOCKS), w) == BundleSlots(s, w)
  {
  }

  lemma {:induction false} PushTargetsSlots(e: World, s: Sys, targets: seq<string>, vm: string, slots: seq<nat>,
                                            w: string)
    ensures var after := BundleSlots(PushTargets(e, s, targets, vm, slots), w);
            after == BundleSlots(s, w) || (w in targets && after == Some(Members(slots)))
    decreases |targets|
  {
    if targets != [] {
      var s1 := if targets[0] == "" then s else PushAll(e, s, targets[0], vm, slots);
      SshReverseSlots(e, s, targets[0], w);
      PushBundledSlots(e, SshReverse(e, s, targets[0], SOCKS), targets[0], slots, w);
      PushTargetsSlots(e, s1, targets[1..], vm, slots, w);
    }
  }

  lemma {:induction false} PushBundlesSlots(e: World, s: Sys, list: seq<(string, seq<nat>)>, w: string)
    ensures var after := BundleSlots(PushBundles(e, s, list), w);
            after == BundleSlots(s, w) || exists r :: r in list && r.0 == w && after == Some(Members(r.1))
    decreases |list|
  {
    if list != [] {
      assert list == [list[0]] + list[1..] && list[0] in list;
      PushBundledSlots(e, s, list[0].0, list[0].1, w);
      PushBundlesSlots(e, PushBundled(e, s, list[0].0, list[0].1), list[1..], w);
    }
  }

  lemma CheckSlots(e: World, s: Sys, vm: string, order: seq<Key>, w: string)
    requires Inv(s)
    ensures var after := BundleSlots(Check(e, s, vm, order), w);
            after.None? || after == BundleSlots(s, w)
  {
    RespawnsAreDead(s, order);
    if vm != "" {
      PushBundlesSlots(e, Reap(s), Respawns(s, order), w);
    }
  }

  /** Whatever starts fail and whatever dies, a round leaves a worker's bundle unrecorded, with the
      slots it had, or, for a target, with the requested ones. */
  lemma RoundInventsNoSlots(e: World, s: Sys, targets: seq<string>, vm: string, slots: seq<nat>,
                            order: set<Key> -> seq<Key>, w: string)
    requires Inv(s)
    ensures var after := BundleSlots(Tick(e, s, targets, vm, slots, order), w);
            after.None? || after == BundleSlots(s, w) || (w in targets && after == Some(Members(slots)))
  {
    var s1 := PushTargets(e, s, targets, vm, slots);
    PushTargetsSlots(e, s, targets, vm, slots, w);
    PushTargetsInv(e, s, targets, vm, slots);
    CheckSlots(e, s1, vm, order(s1.tunnels.Keys), w);
  }

  /** Nothing dies from now on. */
  ghost predicate Calm(e: World, s: Sys) {
    forall j: nat :: j >= s.pauses ==> e.dying(j) == {}
  }

  lemma {:induction false} NoRespawns(s: Sys, order: seq<Key>)
    requires forall k :: k in order && k in s.tunnels ==> Running(s, k)
    ensures Respawns(s, order) == []
    decreases |order|
  {
    if order != [] {
      assert order[0] in order;
      NoRespawns(s, order[1..]);
    }
  }

  lemma {:induction false} OneRespawn(s: Sys, order: seq<Key>, key: Key)
    requires key in order && key in s.tunnels && !Running(s, key) && s.tunnels[key].Bundle?
    requires forall i, j :: 0 <= i < j < |order| ==> order[i] != order[j]
    requires forall k :: k in s.tunnels && k != key ==> Running(s, k)
    ensures Respawns(s, order) == [(key.0, s.tunnels[key].slots)]
    decreases |order|
  {
    var rest := order[1..];
    assert order == [order[0]] + rest;
    if order[0] == key {
      assert key !in rest;
      NoRespawns(s, rest);
    } else {
      OneRespawn(s, rest, key);
    }
  }

  /** Starting a bundle in a calm world. */
  lemma CalmSpawn(e: World, s: Sys, key: Key, slots: seq<nat>)
    requires Calm(e, s)
    ensures var s' := Spawn(e, s, key, Some(slots));
            && Calm(e, s') && s'.starts == s.starts + 1
            && (e.starts(s.starts).Up? ==> s'.tunnels == s.tunnels[key := Bundle(s.next, slots)]
                                           && s'.live == s.live + {s.next})
            && (!e.starts(s.starts).Up? ==> s'.tunnels == s.tunnels && s'.live == s.live)
  {
  }

  /** Pushing other slots to a running bundle in a calm world ends it first. */
  lemma CalmReplace(e: World, s: Sys, w: string, slots: seq<nat>)
    requires Inv(s) && Calm(e, s) && slots != []
    requires Running(s, (w, BUNDLE)) && !Matches(s, w, slots)
    ensures var s', key, up := PushBundled(e, s, w, slots), (w, BUNDLE), e.starts(s.starts).Up?;
            && Calm(e, s') && s'.starts == s.starts + 1
            && (Running(s', key) <==> up) && (up ==> Matches(s', w, slots))
            && (!up ==> s'.tunnels == s.tunnels)
            && (forall k :: k in s'.tunnels && k != key ==> k in s.tunnels && (Running(s, k) ==> Running(s', k)))
  {
    var key := (w, BUNDLE);
    var cleared := Terminate(e, s, key);
    SortedMembers(slots);
    TerminateInv(e, s, key);
    assert e.dying(s.pauses) == {};
    CalmSpawn(e, cleared, key, Sorted(slots));
    forall k | k in s.tunnels && k != key && Running(s, k)
      ensures Running(cleared, k)
    {
      assert s.madeFor[s.tunnels[k].proc] == k && s.madeFor[s.tunnels[key].proc] == key;
    }
  }

  /** The one dead bundle is started again with the slots it was recorded with. */
  lemma CalmRespawn(e: World, s: Sys, vm: string, order: seq<Key>, w: string)
    requires Inv(s) && Calm(e, s) && vm != "" && Lists(order, s.tunnels.Keys)
    requires (w, BUNDLE) in s.tunnels && !Running(s, (w, BUNDLE))
    requires forall k :: k in s.tunnels && k != (w, BUNDLE) ==> Running(s, k)
    ensures var s', key := Check(e, s, vm, order), (w, BUNDLE);
            && s'.starts == s.starts + 1
            && if e.starts(s.starts).Up? then Running(s', key) && BundleSlots(s', w) == BundleSlots(s, w)
               else key !in s'.tunnels
  {
    var key := (w, BUNDLE);
    var slots := s.tunnels[key].slots;
    OneRespawn(s, order, key);
    SortedMembers(slots);
    CalmSpawn(e, Reap(s), key, Sorted(slots));
    var after := PushBundled(e, Reap(s), w, slots);
    assert [(w, slots)][1..] == [] && PushBundles(e, after, []) == after;
    assert PushBundles(e, Reap(s), [(w, slots)]) == after;
    assert Check(e, s, vm, order) == PushBundled(e, Reap(s), w, slots);
  }

  /** A round, in which nothing dies, over one target whose bundle runs with other slots. If the
      replacement starts, the bundle has the requested slots. If it does not, the health check of the
      same round starts the old slots again; if that fails too, the bundle is gone. */
  lemma ReplacementOutcome(e: World, s: Sys, w: string, vm: string, slots: seq<nat>, order: set<Key> -> seq<Key>)
    requires Inv(s) && Calm(e, s) && w != "" && vm != "" && slots != []
    requires forall ks :: Lists(order(ks), ks)
    requires (w, SOCKS) in s.tunnels && (w, BUNDLE) in s.tunnels && !Matches(s, w, slots)
    requires forall k :: k in s.tunnels ==> Running(s, k)
    ensures var s', key := Tick(e, s, [w], vm, slots, order), (w, BUNDLE);
            if e.starts(s.starts).Up? then
              Running(s', key) && BundleSlots(s', w) == Some(Members(slots)) && s'.starts == s.starts + 1
            else if e.starts(s.starts + 1).Up? then
              Running(s', key) && BundleSlots(s', w) == BundleSlots(s, w) && s'.starts == s.starts + 2
            else key !in s'.tunnels && s'.starts == s.starts + 2
  {
    var s1 := PushBundled(e, s, w, slots);
    assert SshReverse(e, s, w, SOCKS) == s;
    assert [w][1..] == [] && PushTargets(e, s, [w], vm, slots) == s1;
    CalmReplace(e, s, w, slots);
    PushBundledInv(e, s, w, slots);
    assert Lists(order(s1.tunnels.Keys), s1.tunnels.Keys);
    if e.starts(s.starts).Up? {
      NoRespawns(s1, order(s1.tunnels.Keys));
      assert Running(Reap(s1), (w, BUNDLE));
    } else {
      CalmRespawn(e, s1, vm, order(s1.tunnels.Keys), w);
    }
  }
}
