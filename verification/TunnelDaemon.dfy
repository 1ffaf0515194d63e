/** The daemon itself: the registry and its processes updated in place. */
module TunnelDaemon {
  import opened Options
  import opened TunnelCommand
  import opened Tunnels

  class Daemon {
    const world: World
    var tunnels: map<Key, Entry>
    var live: set<Pid>
    var next: Pid
    var starts: nat
    var pauses: nat
    ghost var madeFor: map<Pid, Key>

    ghost function Now(): Sys
      reads this
    {
      Sys(tunnels, live, madeFor, next, starts, pauses)
    }

    constructor (world: World)
      ensures this.world == world && Now() == START
    {
      this.world := world;
      tunnels, live, next, starts, pauses, madeFor := map[], {}, 0, 0, 0, map[];
    }

    method Sleep()
      modifies this
      ensures Now() == Pause(world, old(Now()))
    {
      live, pauses := live - world.dying(pauses), pauses + 1;
    }

    method Launch(key: Key, slots: Option<seq<nat>>)
      modifies this
      ensures Now() == Spawn(world, old(Now()), key, slots)
    {
      var fate, p := world.starts(starts), next;
      starts := starts + 1;
      if fate.Raises? {
        return;
      }
      next, madeFor := next + 1, madeFor[p := key];
      Sleep();
      if fate.Up? {
        live := live + {p};
        tunnels := tunnels[key := MakeEntry(p, slots)];
      }
    }

    /** _ssh_reverse */
    method OpenSshReverse(worker: string, tag: string)
      modifies this
      ensures Now() == SshReverse(world, old(Now()), worker, tag)
    {
      var key := (worker, tag);
      if key in tunnels && tunnels[key].proc in live {
        return;
      }
      Launch(key, None);
    }

    /** _push_bundled_tunnels */
    method PushBundledTunnels(worker: string, slots: seq<nat>)
      modifies this
      ensures Now() == PushBundled(world, old(Now()), worker, slots)
    {
      if slots == [] {
        return;
      }
      var key := (worker, BUNDLE);
      if key in tunnels && tunnels[key].Bundle? {
        var proc := tunnels[key].proc;
        if proc in live && Members(tunnels[key].slots) == Members(Sorted(slots)) {
          SortedMembers(slots);
          return;
        }
        SortedMembers(slots);
        if proc in live {
          live := live - {proc};
          Sleep();
        }
      }
      Launch(key, Some(Sorted(slots)));
    }

    /** _push_all_tunnels */
    method PushAllTunnels(worker: string, vm: string, slots: seq<nat>)
      modifies this
      ensures Now() == PushAll(world, old(Now()), worker, vm, slots)
    {
      OpenSshReverse(worker, SOCKS);
      if vm != "" && slots != [] {
        PushBundledTunnels(worker, slots);
      }
    }

    /** The first loop of _check_tunnels: which tunnels are dead, and which of them to respawn. */
    method FindDead(order: seq<Key>) returns (dead: seq<Key>, respawn: seq<(string, seq<nat>)>)
      requires Lists(order, tunnels.Keys)
      ensures respawn == Respawns(Now(), order)
      ensures forall k :: k in dead <==> k in tunnels && !Running(Now(), k)
    {
      ghost var s := Now();
      dead, respawn := [], [];
      for i := 0 to |order|
        invariant Scan(s, order[i..], dead, respawn) == Scan(s, order, [], [])
      {
        var key := order[i];
        ghost var rest := order[i..];
        assert key in order && rest[0] == key && rest[1..] == order[i + 1..];
        if tunnels[key].proc !in live {
          dead := dead + [key];
          if tunnels[key].Bundle? {
            respawn := respawn + [(key.0, tunnels[key].slots)];
          }
        }
      }
      assert order[|order|..] == [] && order[0..] == order;
      ScanFinds(s, order, [], []);
      DeadKeysAre(s, order);
    }

    method Forget(dead: seq<Key>)
      requires forall k :: k in dead <==> k in tunnels && !Running(Now(), k)
      modifies this`tunnels
      ensures Now() == Reap(old(Now()))
    {
      ghost var was := tunnels;
      for i := 0 to |dead|
        invariant tunnels == map k | k in was && k !in dead[..i] :: was[k]
      {
        tunnels := tunnels - {dead[i]};
      }
      assert dead[..|dead|] == dead;
      assert tunnels == Reap(old(Now())).tunnels;
    }

    /** _check_tunnels */
    method CheckTunnels(vm: string, order: seq<Key>) returns (reaped: seq<Key>)
      requires Lists(order, tunnels.Keys)
      modifies this
      ensures Now() == Check(world, old(Now()), vm, order)
      ensures forall k :: k in reaped <==> k in old(tunnels) && !Running(old(Now()), k)
    {
      ghost var s := Now();
      var respawn;
      reaped, respawn := FindDead(order);
      Forget(reaped);
      if vm != "" {
        for i := 0 to |respawn|
          invariant PushBundles(world, Now(), respawn[i..]) == Check(world, s, vm, order)
        {
          assert respawn[i..][0] == respawn[i] && respawn[i..][1..] == respawn[i + 1..];
          PushBundledTunnels(respawn[i].0, respawn[i].1);
        }
      }
    }

    /** One round of _watchdog. */
    method WatchdogRound(targets: seq<string>, vm: string, slots: seq<nat>, order: set<Key> -> seq<Key>)
      requires forall ks :: Lists(order(ks), ks)
      modifies this
      ensures Now() == Tick(world, old(Now()), targets, vm, slots, order)
    {
      ghost var s := Now();
      for i := 0 to |targets|
        invariant PushTargets(world, Now(), targets[i..], vm, slots) == PushTargets(world, s, targets, vm, slots)
      {
        assert targets[i..][0] == targets[i] && targets[i..][1..] == targets[i + 1..];
        if targets[i] != "" {
          PushAllTunnels(targets[i], vm, slots);
        }
      }
      var _ := CheckTunnels(vm, order(tunnels.Keys));
    }

    /** What main does on the way out: it ends the recorded processes. With an exact registry, no
        process is left behind. */
    method Shutdown(order: seq<Key>)
      requires Lists(order, tunnels.Keys)
      modifies this`live
      ensures forall p :: p in live <==> p in old(live) && !Recorded(p)
      ensures Exact(old(Now())) ==> live == {}
    {
      ghost var was := live;
      for i := 0 to |order|
        invariant forall p :: p in live <==> p in was && forall j :: 0 <= j < i ==> tunnels[order[j]].proc != p
      {
        live := live - {tunnels[order[i]].proc};
      }
      forall p | p in was
        ensures p in live <==> !Recorded(p)
      {
        assert forall k :: k in tunnels ==> exists j :: 0 <= j < |order| && order[j] == k;
      }
    }

    predicate Recorded(p: Pid)
      reads this
    {
      exists k :: k in tunnels && tunnels[k].proc == p
    }
  }
}
