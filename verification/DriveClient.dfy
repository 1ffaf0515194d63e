/** One node's client of the store: the loops of acquire_lock and _fs_acquire, and put, get and
    delete around them, on files and a lock server that other nodes change meanwhile. */
module DriveClient {
  import opened Options
  import opened DriveProtocol
  import AtomicStore

  const POLL: real := 1.2

  /** What the rest of the world does, indexed by the number of lock attempts made so far: how a
      server request fares, how long it takes, how much jitter a sleep adds, in what state the
      other nodes leave the locks and the value while this node sleeps, and whether a release gets
      through. */
  datatype World = World(link: nat -> Link, took: nat -> real, jitter: nat -> real,
                         lockFile: nat -> LockFile, server: nat -> ServerLock,
                         value: nat -> Option<Bytes>, tmp: nat -> Option<Bytes>, delivers: nat -> bool)
  {
    ghost predicate Timely() {
      forall i: nat :: took(i) >= 0.0 && jitter(i) >= 0.0
    }
  }

  /** The time, and what the nodes share of one key. */
  datatype Shared = Shared(now: real, lockFile: LockFile, server: ServerLock,
                           value: Option<Bytes>, tmp: Option<Bytes>)

  function Ceiling(x: real): int {
    -((-x).Floor)
  }

  /** How many attempts fit into a timeout, with one more for a fallback. */
  function Attempts(timeout: real, fallsBack: bool): nat {
    Max(0, Ceiling(timeout / POLL) + if fallsBack then 1 else 0)
  }

  class Client {
    const key: Key
    const node: Node
    const ttl: real
    const sum: Bytes -> string
    const world: World
    var now: real
    var lockFile: LockFile
    var server: ServerLock
    var value: Option<Bytes>
    var tmp: Option<Bytes>
    var tried: seq<Tier>   // the tier of every lock attempt, oldest first

    constructor (key: Key, node: Node, ttl: real, sum: Bytes -> string, world: World, start: Shared)
      ensures this.key == key && this.node == node && this.ttl == ttl && this.sum == sum && this.world == world
      ensures Here() == start && tried == []
    {
      this.key, this.node, this.ttl, this.sum, this.world := key, node, ttl, sum, world;
      now, lockFile, server, value, tmp := start.now, start.lockFile, start.server, start.value, start.tmp;
      tried := [];
    }

    function Here(): Shared
      reads this
    {
      Shared(now, lockFile, server, value, tmp)
    }

    // ----- what an attempt, and a sequence of them, comes to

    /** Attempt number `i`, made in state `s`, gets the lock: it is free or stale at that instant,
        and on the server tier the answer arrives. */
    predicate Grants(i: nat, tier: Tier, s: Shared) {
      if tier.Fs? then s.lockFile.NoLock? || Stale(s.lockFile, s.now, ttl)
      else world.link(i).Answered? && Available(s.server, s.now)
    }

    function Entered(i: nat, s: Shared): ServerLock {
      if Available(s.server, s.now) && !world.link(i).Unreachable? then Entry(node, s.now, ttl) else s.server
    }

    function Granted(i: nat, tier: Tier, s: Shared): Shared {
      if tier.Fs? then s.(lockFile := Record(node, s.now))
      else s.(server := Entered(i, s), now := s.now + world.took(i))
    }

    /** After a sleep the other nodes have left everything as the world says. */
    function Woken(i: nat, now: real): Shared {
      Shared(now + POLL + world.jitter(i), world.lockFile(i), world.server(i), world.value(i), world.tmp(i))
    }

    /** After an attempt that does not get the lock: the node sleeps, unless the server did not
        answer; a lost reply may leave an entry behind. */
    function Refused(i: nat, tier: Tier, s: Shared): Shared {
      if tier.Fs? then Woken(i, s.now)
      else if world.link(i).Answered? then Woken(i, s.now + world.took(i))
      else s.(server := Entered(i, s), now := s.now + world.took(i))
    }

    /** After a row of such attempts, the first one being number `past`. */
    function AfterRefusals(past: nat, done: seq<Tier>, s: Shared): Shared
      decreases |done|
    {
      if done == [] then s
      else Refused(past + |done| - 1, done[|done| - 1], AfterRefusals(past, done[..|done| - 1], s))
    }

    predicate AllRefused(past: nat, done: seq<Tier>, s: Shared)
      decreases |done|
    {
      done == [] ||
      var init := done[..|done| - 1];
      AllRefused(past, init, s) && !Grants(past + |init|, done[|done| - 1], AfterRefusals(past, init, s))
    }

    /** All these attempts are refused, and leave the state as it now is. */
    predicate Refuses(past: nat, done: seq<Tier>, s: Shared, after: Shared) {
      AllRefused(past, done, s) && after == AfterRefusals(past, done, s)
    }

    /** All these attempts but the last are refused; the last gets the lock, in state `found`. */
    predicate Wins(past: nat, done: seq<Tier>, s: Shared, found: Shared) {
      && done != []
      && Refuses(past, done[..|done| - 1], s, found)
      && Grants(past + |done| - 1, done[|done| - 1], found)
    }

    /** And leaves it as it now is. */
    ghost predicate Gets(past: nat, done: seq<Tier>, s: Shared, held: Shared) {
      exists found :: Wins(past, done, s, found) && held == Granted(past + |done| - 1, done[|done| - 1], found)
    }

    /** The order and the number of the attempts: the server is asked first; the node turns to the
        file after a request that was not answered, only then, and for good. */
    ghost predicate InOrder(past: nat, done: seq<Tier>, timeout: real) {
      && (timeout > 0.0 ==> done != [])
      && (done != [] ==> done[0].Redis?)
      && (forall i :: 0 <= i < |done| - 1 && done[i].Redis? ==> (done[i + 1].Fs? <==> !world.link(past + i).Answered?))
      && (forall i :: 0 <= i < |done| - 1 && done[i].Fs? ==> done[i + 1].Fs?)
      && |done| <= Attempts(timeout, Fs in done)
    }

    /** Server requests only; `missed` says whether the last one was not answered. */
    ghost predicate Asks(past: nat, done: seq<Tier>, missed: bool) {
      && (forall i :: 0 <= i < |done| ==> done[i].Redis? && (i < |done| - 1 ==> world.link(past + i).Answered?))
      && (missed ==> done != [])
      && (done != [] ==> (missed <==> !world.link(past + |done| - 1).Answered?))
    }

    lemma AsksMore(past: nat, done: seq<Tier>)
      requires Asks(past, done, false)
      ensures Asks(past, done + [Redis], !world.link(past + |done|).Answered?)
    {
      var more := done + [Redis];
      forall i | 0 <= i < |more|
        ensures more[i].Redis? && (i < |more| - 1 ==> world.link(past + i).Answered?)
      {
        assert i < |done| ==> done[i].Redis?;
      }
    }

    lemma AsksInOrder(past: nat, done: seq<Tier>, missed: bool, timeout: real)
      requires Asks(past, done, missed) && |done| <= Attempts(timeout, false) && (timeout > 0.0 ==> done != [])
      ensures InOrder(past, done, timeout)
    {
      assert Fs !in done;
    }

    /** Requests of which only the last is unanswered, and then rounds on the file. */
    lemma InOrderBoth(past: nat, asks: seq<Tier>, rounds: seq<Tier>, timeout: real)
      requires Asks(past, asks, true) && forall i :: 0 <= i < |rounds| ==> rounds[i] == Fs
      requires |asks| + |rounds| <= Attempts(timeout, rounds != [])
      ensures InOrder(past, asks + rounds, timeout)
      ensures rounds != [] ==> (asks + rounds)[|asks + rounds| - 1] == Fs
    {
      var done := asks + rounds;
      forall i | 0 <= i < |done| - 1
        ensures done[i].Redis? ==> (done[i + 1].Fs? <==> !world.link(past + i).Answered?)
        ensures done[i].Fs? ==> done[i + 1].Fs?
      {
        assert i < |asks| ==> done[i] == asks[i];
        assert i + 1 < |asks| ==> done[i + 1] == asks[i + 1];
      }
      assert rounds != [] ==> done[|asks|] == Fs;
    }

    lemma RoundsInOrder(past: nat, asks: seq<Tier>, rounds: seq<Tier>, timeout: real, start: real)
      requires Asks(past, asks, true) && forall i :: 0 <= i < |rounds| ==> rounds[i] == Fs
      requires start >= POLL * (|asks| - 1) as real && start < timeout
      requires |rounds| > 0 ==> start + POLL * (|rounds| - 1) as real < timeout
      ensures InOrder(past, asks + rounds, timeout)
      ensures rounds != [] ==> (asks + rounds)[|asks + rounds| - 1] == Fs
    {
      CountRounds(timeout, |asks|, |rounds|, start);
      InOrderBoth(past, asks, rounds, timeout);
    }

    /** A release that gets through frees the lock if it is this node's, or unreadable. */
    function Released(i: nat, tier: Tier, s: Shared): Shared {
      if !world.delivers(i) then s
      else if tier.Fs? then
        if s.lockFile.Unreadable() || (s.lockFile.Record? && s.lockFile.node == node) then s.(lockFile := NoLock) else s
      else
        if s.server.Entry? && s.server.node == node then s.(server := Free) else s
    }

    /** The call `op` under the lock: either every attempt is refused and nothing else happens, or
        the value and the answer are its atomic effect on the value found when the lock was won. */
    ghost predicate Serves(op: Op, past: nat, done: seq<Tier>, s: Shared, r: Result, after: Shared) {
      if r == LockTimeout then Refuses(past, done, s, after)
      else exists held :: Gets(past, done, s, held) && Finishes(op, past + |done|, done, held, r, after)
    }

    /** The call `op` from winning the lock in state `held` to releasing it. */
    predicate Finishes(op: Op, i: nat, done: seq<Tier>, held: Shared, r: Result, after: Shared) {
      && done != []
      && r == AtomicStore.Effect(op, held.value).1
      && after == Released(i, done[|done| - 1], Applied(op, r, held))
    }

    lemma RefusesMore(past: nat, done: seq<Tier>, tier: Tier, s: Shared, here: Shared)
      requires Refuses(past, done, s, here) && !Grants(past + |done|, tier, here)
      ensures Refuses(past, done + [tier], s, Refused(past + |done|, tier, here))
    {
      assert (done + [tier])[..|done + [tier]| - 1] == done;
    }

    lemma RefusesThenGets(past: nat, done: seq<Tier>, tier: Tier, s: Shared, here: Shared)
      requires Refuses(past, done, s, here) && Grants(past + |done|, tier, here)
      ensures Gets(past, done + [tier], s, Granted(past + |done|, tier, here))
    {
      assert (done + [tier])[..|done + [tier]| - 1] == done;
      assert Wins(past, done + [tier], s, here);
    }

    lemma {:induction false} RefusesBoth(past: nat, a: seq<Tier>, s: Shared, here: Shared, b: seq<Tier>, after: Shared)
      requires Refuses(past, a, s, here) && Refuses(past + |a|, b, here, after)
      ensures Refuses(past, a + b, s, after)
      decreases |b|
    {
      if b == [] {
        assert a + b == a;
      } else {
        var init, last := b[..|b| - 1], b[|b| - 1];
        var found := AfterRefusals(past + |a|, init, here);
        RefusesBoth(past, a, s, here, init, found);
        RefusesMore(past, a + init, last, s, found);
        assert a + init + [last] == a + b;
      }
    }

    lemma RefusesBothGets(past: nat, a: seq<Tier>, s: Shared, here: Shared, b: seq<Tier>, held: Shared)
      requires Refuses(past, a, s, here) && Gets(past + |a|, b, here, held)
      ensures Gets(past, a + b, s, held)
    {
      var found :| Wins(past + |a|, b, here, found) && held == Granted(past + |a| + |b| - 1, b[|b| - 1], found);
      var init, last := b[..|b| - 1], b[|b| - 1];
      RefusesBoth(past, a, s, here, init, found);
      RefusesThenGets(past, a + init, last, s, found);
      assert a + init + [last] == a + b;
    }

    /** A lock that is won was free or stale at that instant, and is then recorded as this node's
        own; the other tier's lock, the value and the staging file are as the others left them. */
    lemma WonWasFree(past: nat, done: seq<Tier>, s: Shared, held: Shared)
      requires Gets(past, done, s, held)
      ensures done != []
      ensures var found := AfterRefusals(past, done[..|done| - 1], s);
              && held.value == found.value && held.tmp == found.tmp
              && if done[|done| - 1].Fs?
                 then (found.lockFile.NoLock? || Stale(found.lockFile, found.now, ttl))
                      && held.lockFile == Record(node, found.now) && held.server == found.server
                 else Available(found.server, found.now)
                      && held.server == Entry(node, found.now, ttl) && held.lockFile == found.lockFile
    {
    }

    /** An attempt that is refused met a lock that another node had taken no longer ago than the ttl
        (this node's for a lock file, the holder's for the server), or got no answer. */
    lemma RefusedWasHeld(past: nat, done: seq<Tier>, s: Shared)
      requires done != [] && AllRefused(past, done, s)
      ensures var found := AfterRefusals(past, done[..|done| - 1], s);
              if done[|done| - 1].Fs? then found.lockFile.Record? && found.now - found.lockFile.acquiredAt <= ttl
              else !world.link(past + |done| - 1).Answered?
                   || (found.server.Entry? && found.now - found.server.acquiredAt <= found.server.ttl)
    {
    }

    /** A release frees nothing that is readably another node's. */
    lemma ReleaseSparesOthers(i: nat, tier: Tier, s: Shared, other: Node)
      requires other != node
      ensures !world.delivers(i) ==> Released(i, tier, s) == s
      ensures s.lockFile.Record? && s.lockFile.node == other ==> Released(i, tier, s).lockFile == s.lockFile
      ensures s.server.Entry? && s.server.node == other ==> Released(i, tier, s).server == s.server
      ensures Released(i, tier, s).value == s.value && Released(i, tier, s).tmp == s.tmp
      ensures if tier.Fs? then Released(i, tier, s).server == s.server else Released(i, tier, s).lockFile == s.lockFile
    {
    }

    /** A served call that got its release through holds nothing, and leaves no staging file if it
        wrote one. */
    lemma ServedLetsGo(op: Op, past: nat, done: seq<Tier>, s: Shared, r: Result, after: Shared)
      requires Serves(op, past, done, s, r, after) && r != LockTimeout && world.delivers(past + |done|)
      ensures if done[|done| - 1].Fs? then after.lockFile.NoLock? else after.server.Free?
      ensures r == Written(true) ==> after.tmp.None? && op.Put? && after.value == Some(op.data)
    {
      var held :| Gets(past, done, s, held) && Finishes(op, past + |done|, done, held, r, after);
      WonWasFree(past, done, s, held);
    }

    // ----- the lock

    method Sleep()
      requires tried != []
      modifies this`now, this`lockFile, this`server, this`value, this`tmp
      ensures Here() == Woken(|tried| - 1, old(now))
    {
      var i := |tried| - 1;
      now := now + POLL + world.jitter(i);
      lockFile, server, value, tmp := world.lockFile(i), world.server(i), world.value(i), world.tmp(i);
    }

    /** _redis_acquire: None when no answer came. */
    method AskServer() returns (granted: Option<bool>)
      modifies this`now, this`server, this`tried
      ensures tried == old(tried) + [Redis]
      ensures granted == if world.link(|old(tried)|).Answered? then Some(Grants(|old(tried)|, Redis, old(Here())))
                         else None
      ensures Here() == Granted(|old(tried)|, Redis, old(Here()))
    {
      var i := |tried|;
      tried := tried + [Redis];
      var free := server.Free? || now - server.acquiredAt > server.ttl;
      if free && !world.link(i).Unreachable? {
        server := Entry(node, now, ttl);
      }
      granted := if world.link(i).Answered? then Some(free) else None;
      now := now + world.took(i);
    }

    /** One round of _fs_acquire: breaks a stale lock, tries to create its own, sleeps if it did not. */
    method TryFile() returns (ok: bool)
      requires world.Timely()
      modifies this`now, this`lockFile, this`server, this`value, this`tmp, this`tried
      ensures tried == old(tried) + [Fs] && ok == Grants(|old(tried)|, Fs, old(Here()))
      ensures Here() == if ok then Granted(|old(tried)|, Fs, old(Here())) else Refused(|old(tried)|, Fs, old(Here()))
      ensures !ok ==> now >= old(now) + POLL
    {
      tried := tried + [Fs];
      lockFile := Inspected(lockFile, now, ttl);
      if lockFile.NoLock? {
        lockFile := Record(node, now);
        return true;
      }
      Sleep();
      return false;
    }

    /** _fs_acquire. `done` are its attempts. */
    method FsAcquire(deadline: real) returns (ok: bool, ghost done: seq<Tier>)
      requires world.Timely()
      modifies this`now, this`lockFile, this`server, this`value, this`tmp, this`tried
      ensures tried == old(tried) + done && forall i :: 0 <= i < |done| ==> done[i] == Fs
      ensures ok ==> Gets(|old(tried)|, done, old(Here()), Here())
      ensures !ok ==> Refuses(|old(tried)|, done, old(Here()), Here()) && now >= deadline
      ensures |done| > 0 ==> old(now) + POLL * (|done| - 1) as real < deadline
    {
      ghost var past, start := |tried|, Here();
      done := [];
      while now < deadline
        invariant tried == old(tried) + done && past == |old(tried)|
        invariant forall i :: 0 <= i < |done| ==> done[i] == Fs
        invariant Refuses(past, done, start, Here())
        invariant now >= old(now) + POLL * |done| as real
        invariant |done| > 0 ==> old(now) + POLL * (|done| - 1) as real < deadline
        decreases deadline - now
      {
        ghost var here := Here();
        ok := TryFile();
        if ok {
          RefusesThenGets(past, done, Fs, start, here);
          done := done + [Fs];
          return true, done;
        }
        RefusesMore(past, done, Fs, start, here);
        done := done + [Fs];
      }
      return false, done;
    }

    /** One round of acquire_lock on the server: sleeps if another node holds the lock. */
    method TryServer() returns (granted: Option<bool>)
      requires world.Timely()
      modifies this`now, this`lockFile, this`server, this`value, this`tmp, this`tried
      ensures tried == old(tried) + [Redis]
      ensures granted == Some(true) <==> Grants(|old(tried)|, Redis, old(Here()))
      ensures granted == None <==> !world.link(|old(tried)|).Answered?
      ensures Here() == if granted == Some(true) then Granted(|old(tried)|, Redis, old(Here()))
                        else Refused(|old(tried)|, Redis, old(Here()))
      ensures now >= old(now) + if granted == Some(false) then POLL else 0.0
    {
      granted := AskServer();
      if granted == Some(false) {
        Sleep();
      }
    }

    /** The requests made so far, none of them granted. */
    ghost predicate Asking(past: nat, done: seq<Tier>, start: Shared, timeout: real, here: Shared, missed: bool) {
      && Refuses(past, done, start, here)
      && Asks(past, done, missed)
      && here.now >= start.now + POLL * (|done| - if missed then 1 else 0) as real
      && (done != [] ==> POLL * (|done| - 1) as real < timeout)
      && (done == [] ==> here == start)
    }

    lemma AskRefused(past: nat, done: seq<Tier>, start: Shared, timeout: real, here: Shared, after: Shared)
      requires Asking(past, done, start, timeout, here, false) && here.now < start.now + timeout
      requires !Grants(past + |done|, Redis, here) && after == Refused(past + |done|, Redis, here) && world.Timely()
      ensures Asking(past, done + [Redis], start, timeout, after, !world.link(past + |done|).Answered?)
    {
      RefusesMore(past, done, Redis, start, here);
      AsksMore(past, done);
    }

    lemma AskGranted(past: nat, done: seq<Tier>, start: Shared, timeout: real, here: Shared)
      requires Asking(past, done, start, timeout, here, false) && here.now < start.now + timeout
      requires Grants(past + |done|, Redis, here)
      ensures Gets(past, done + [Redis], start, Granted(past + |done|, Redis, here))
      ensures InOrder(past, done + [Redis], timeout)
    {
      RefusesThenGets(past, done, Redis, start, here);
      AsksMore(past, done);
      CountAsks(timeout, |done| + 1);
      AsksInOrder(past, done + [Redis], false, timeout);
    }

    lemma AskGivesUp(past: nat, done: seq<Tier>, start: Shared, timeout: real, here: Shared, missed: bool)
      requires Asking(past, done, start, timeout, here, missed) && here.now >= start.now + timeout
      ensures Refuses(past, done, start, here) && InOrder(past, done, timeout)
    {
      CountAsks(timeout, |done|);
      AsksInOrder(past, done, missed, timeout);
    }

    /** The rest of acquire_lock after the requests `asks`, of which the last was not answered. */
    method FallBack(timeout: real, deadline: real, ghost past: nat, ghost asks: seq<Tier>, ghost start: Shared)
      returns (ok: bool, ghost rounds: seq<Tier>)
      requires world.Timely() && |tried| == past + |asks| && Asking(past, asks, start, timeout, Here(), true)
      requires now < deadline == start.now + timeout
      modifies this`now, this`lockFile, this`server, this`value, this`tmp, this`tried
      ensures tried == old(tried) + rounds && InOrder(past, asks + rounds, timeout)
      ensures ok ==> Gets(past, asks + rounds, start, Here()) && (asks + rounds)[|asks + rounds| - 1] == Fs
      ensures !ok ==> Refuses(past, asks + rounds, start, Here()) && now >= deadline
    {
      ghost var here := Here();
      ok, rounds := FsAcquire(deadline);
      RoundsInOrder(past, asks, rounds, timeout, here.now - start.now);
      if ok {
        RefusesBothGets(past, asks, start, here, rounds, Here());
        WonWasFree(past + |asks|, rounds, here, Here());
      } else {
        RefusesBoth(past, asks, start, here, rounds, Here());
      }
    }

    /** The first phase of acquire_lock: asks the server until it grants the lock, does not answer, or
        the deadline passes. */
    method AskUntil(timeout: real, deadline: real) returns (granted: bool, missed: bool, ghost done: seq<Tier>)
      requires world.Timely() && deadline == now + timeout
      modifies this`now, this`lockFile, this`server, this`value, this`tmp, this`tried
      ensures tried == old(tried) + done && !(granted && missed)
      ensures granted ==> Gets(|old(tried)|, done, old(Here()), Here())
                          && InOrder(|old(tried)|, done, timeout) && done[|done| - 1] == Redis
      ensures !granted ==> Asking(|old(tried)|, done, old(Here()), timeout, Here(), missed)
      ensures !granted && !missed ==> now >= deadline
    {
      ghost var past, start := |tried|, Here();
      done, granted, missed := [], false, false;
      while !missed && now < deadline
        invariant tried == old(tried) + done && past == |old(tried)|
        invariant Asking(past, done, start, timeout, Here(), missed)
        decreases !missed, deadline - now
      {
        ghost var here := Here();
        var answer := TryServer();
        if answer == Some(true) {
          AskGranted(past, done, start, timeout, here);
          done := done + [Redis];
          return true, false, done;
        }
        AskRefused(past, done, start, timeout, here, Here());
        done := done + [Redis];
        missed := answer.None?;
      }
    }

    /** acquire_lock. The answer is the tier that was acquired, or None for XIOLockTimeout; `done`
        are the attempts made. */
    method AcquireLock(timeout: real) returns (mode: Option<Tier>, ghost done: seq<Tier>)
      requires world.Timely()
      modifies this`now, this`lockFile, this`server, this`value, this`tmp, this`tried
      ensures tried == old(tried) + done && InOrder(|old(tried)|, done, timeout)
      ensures mode.Some? ==> Gets(|old(tried)|, done, old(Here()), Here()) && mode.value == done[|done| - 1]
      ensures mode.None? ==> Refuses(|old(tried)|, done, old(Here()), Here()) && now >= old(now) + timeout
    {
      ghost var past, start := |tried|, Here();
      var deadline := now + timeout;
      var granted, useFs, asks := AskUntil(timeout, deadline);
      if granted {
        return Some(Redis), asks;
      }
      if useFs && now < deadline {
        var ok, rounds := FallBack(timeout, deadline, past, asks, start);
        return if ok then Some(Fs) else None, asks + rounds;
      }
      AskGivesUp(past, asks, start, timeout, Here(), useFs);
      return None, asks;
    }

    /** release_lock: best effort on both tiers. */
    method ReleaseLock(mode: Tier)
      modifies this`lockFile, this`server
      ensures Here() == Released(|tried|, mode, old(Here()))
    {
      if world.delivers(|tried|) {
        if mode.Redis? {
          if server.Entry? && server.node == node {
            server := Free;
          }
        } else if lockFile.Unreadable() || (lockFile.Record? && lockFile.node == node) {
          lockFile := NoLock;
        }
      }
    }

    // ----- the calls

    predicate SameData(data: Bytes)
      reads this
    {
      value.Some? && sum(value.value) == sum(data)
    }

    /** The state in which a call that found `s` leaves the store, before the release. */
    function Applied(op: Op, r: Result, s: Shared): Shared {
      s.(value := AtomicStore.Effect(op, s.value).0, tmp := if r == Written(true) then None else s.tmp)
    }

    /** What put does under the lock. */
    method PutLocked(data: Bytes, skipIfSame: bool) returns (r: Result)
      requires forall x: Bytes, y: Bytes :: sum(x) == sum(y) ==> x == y
      modifies this`value, this`tmp
      ensures var op := DriveProtocol.Put(key, data, skipIfSame);
              r == AtomicStore.Effect(op, old(value)).1 && Here() == Applied(op, r, old(Here()))
    {
      if skipIfSame && SameData(data) {
        return Written(false);
      }
      tmp := Some(data);
      value, tmp := tmp, None;
      return Written(true);
    }

    /** put. The lock-free comparison answers at once; every other put runs under the lock. */
    method Put(data: Bytes, skipIfSame: bool, timeout: real) returns (r: Result, ghost done: seq<Tier>)
      requires world.Timely()
      requires forall x: Bytes, y: Bytes :: sum(x) == sum(y) ==> x == y
      modifies this`now, this`lockFile, this`server, this`value, this`tmp, this`tried
      ensures tried == old(tried) + done
      ensures if skipIfSame && old(value) == Some(data)
              then r == Written(false) && Here() == old(Here()) && done == []
              else Serves(DriveProtocol.Put(key, data, skipIfSame), |old(tried)|, done, old(Here()), r, Here())
                   && InOrder(|old(tried)|, done, timeout)
      ensures r == LockTimeout ==> now >= old(now) + timeout
    {
      if skipIfSame && SameData(data) {
        return Written(false), [];
      }
      var mode;
      mode, done := AcquireLock(timeout);
      if mode.None? {
        return LockTimeout, done;
      }
      r := PutLocked(data, skipIfSame);
      ReleaseLock(mode.value);
    }

    /** get. A get without the lock, or of nothing, asks for none. */
    method Get(lock: bool, timeout: real) returns (r: Result, ghost done: seq<Tier>)
      requires world.Timely()
      modifies this`now, this`lockFile, this`server, this`value, this`tmp, this`tried
      ensures tried == old(tried) + done
      ensures if old(value).None? || !lock
              then r == Value(old(value)) && Here() == old(Here()) && done == []
              else Serves(DriveProtocol.Get(key, lock), |old(tried)|, done, old(Here()), r, Here())
                   && InOrder(|old(tried)|, done, timeout)
      ensures r == LockTimeout ==> now >= old(now) + timeout
    {
      if value.None? || !lock {
        return Value(value), [];
      }
      var mode;
      mode, done := AcquireLock(timeout);
      if mode.None? {
        return LockTimeout, done;
      }
      r := Value(value);
      ReleaseLock(mode.value);
    }

    /** delete. Deleting nothing asks for no lock. */
    method Remove(timeout: real) returns (r: Result, ghost done: seq<Tier>)
      requires world.Timely()
      modifies this`now, this`lockFile, this`server, this`value, this`tmp, this`tried
      ensures tried == old(tried) + done
      ensures if old(value).None?
              then r == Deleted(false) && Here() == old(Here()) && done == []
              else Serves(Delete(key), |old(tried)|, done, old(Here()), r, Here())
                   && InOrder(|old(tried)|, done, timeout)
      ensures r == LockTimeout ==> now >= old(now) + timeout
    {
      if value.None? {
        return Deleted(false), [];
      }
      var mode;
      mode, done := AcquireLock(timeout);
      if mode.None? {
        return LockTimeout, done;
      }
      if value.Some? {
        value := None;
        r := Deleted(true);
      } else {
        r := Deleted(false);
      }
      ReleaseLock(mode.value);
    }
  }

  function Max(x: int, y: int): int {
    if x < y then y else x
  }

  /** Attempts that each started before the deadline and were `POLL` seconds apart. */
  lemma CountAsks(timeout: real, asked: nat)
    requires asked > 0 ==> POLL * (asked - 1) as real < timeout
    ensures asked <= Attempts(timeout, false)
  {
    if asked > 0 {
      assert (asked - 1) as real < timeout / POLL;
    }
  }

  /** With the default timeouts of put and get. */
  lemma DefaultAttempts()
    ensures Attempts(45.0, false) == 38 && Attempts(15.0, true) == 14
  {
    assert 45.0 / POLL == 37.5 && (-37.5 as real).Floor == -38;
    assert 15.0 / POLL == 12.5 && (-12.5 as real).Floor == -13;
  }

  lemma CountRounds(timeout: real, asked: nat, rounds: nat, start: real)
    requires asked > 0 && start >= POLL * (asked - 1) as real && start < timeout
    requires rounds > 0 ==> start + POLL * (rounds - 1) as real < timeout
    ensures asked + rounds <= Attempts(timeout, rounds > 0)
  {
    if rounds > 0 {
      CountAsks(timeout, asked + rounds - 1);
    } else {
      CountAsks(timeout, asked);
    }
  }
}
