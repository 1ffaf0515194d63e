/** The ssh command line that carries all forwards of one worker. */
module TunnelCommand {
  import opened Options
  import opened Decimal

  const PROXY_PORT: nat := 19056
  const PPPOE_BASE: nat := 19100
  const VM_BASE: nat := 10000

  // ----- sorting the slots

  function Insert(x: nat, s: seq<nat>): seq<nat>
    decreases |s|
  {
    if s == [] || x <= s[0] then [x] + s else [s[0]] + Insert(x, s[1..])
  }

  function Sorted(s: seq<nat>): (r: seq<nat>)
    decreases |s|
  {
    if s == [] then [] else Insert(s[0], Sorted(s[1..]))
  }

  predicate Ascending(s: seq<nat>) {
    forall i, j :: 0 <= i < j < |s| ==> s[i] <= s[j]
  }

  predicate Distinct(s: seq<nat>) {
    forall i, j :: 0 <= i < j < |s| ==> s[i] != s[j]
  }

  function Members(s: seq<nat>): set<nat> {
    set x | x in s
  }

  lemma {:induction false} InsertMembers(x: nat, s: seq<nat>)
    ensures multiset(Insert(x, s)) == multiset(s) + multiset{x}
    decreases |s|
  {
    if s != [] && x > s[0] {
      InsertMembers(x, s[1..]);
      assert s == [s[0]] + s[1..];
    }
  }

  /** `b` is a lower bound of `s`. */
  predicate From(b: nat, s: seq<nat>) {
    forall i :: 0 <= i < |s| ==> b <= s[i]
  }

  lemma {:induction false} InsertAscends(b: nat, x: nat, s: seq<nat>)
    requires Ascending(s) && From(b, s) && b <= x
    ensures Ascending(Insert(x, s)) && From(b, Insert(x, s))
    decreases |s|
  {
    if s != [] && x > s[0] {
      InsertAscends(s[0], x, s[1..]);
    }
  }

  lemma {:induction false} SortedFacts(s: seq<nat>)
    ensures Ascending(Sorted(s)) && multiset(Sorted(s)) == multiset(s)
    decreases |s|
  {
    if s != [] {
      SortedFacts(s[1..]);
      InsertAscends(0, s[0], Sorted(s[1..]));
      InsertMembers(s[0], Sorted(s[1..]));
      assert s == [s[0]] + s[1..];
    }
  }

  lemma SortedMembers(s: seq<nat>)
    ensures Members(Sorted(s)) == Members(s) && |Sorted(s)| == |s|
  {
    SortedFacts(s);
    assert |multiset(Sorted(s))| == |multiset(s)|;
    forall x
      ensures x in Sorted(s) <==> x in s
    {
      assert x in multiset(Sorted(s)) <==> x in multiset(s);
    }
  }

  lemma DistinctMultiset(s: seq<nat>)
    ensures Distinct(s) <==> forall x :: multiset(s)[x] <= 1
  {
    if Distinct(s) {
      forall x
        ensures multiset(s)[x] <= 1
      {
        CountDistinct(s, x);
      }
    } else {
      var i, j :| 0 <= i < j < |s| && s[i] == s[j];
      assert s == s[..j] + [s[j]] + s[j + 1..];
      assert s[i] == s[..j][i];
      assert multiset(s)[s[i]] >= 2;
    }
  }

  lemma {:induction false} CountDistinct(s: seq<nat>, x: nat)
    requires Distinct(s)
    ensures multiset(s)[x] <= 1
    decreases |s|
  {
    if s != [] {
      assert s == [s[0]] + s[1..];
      CountDistinct(s[1..], x);
      if s[0] == x {
        assert x !in s[1..];
      }
    }
  }

  lemma SortedDistinct(s: seq<nat>)
    ensures Distinct(Sorted(s)) <==> Distinct(s)
  {
    SortedFacts(s);
    DistinctMultiset(s);
    DistinctMultiset(Sorted(s));
  }

  // ----- printing the forwards

  function Forward(vm: string, slot: nat): string {
    Show(PPPOE_BASE + slot) + ":" + vm + ":" + Show(VM_BASE + slot)
  }

  /** The arguments that do not depend on the slots. */
  const OPTIONS: seq<string> := [
    "ssh", "-i", "~/.ssh/id_ed25519", "-N", "-o", "StrictHostKeyChecking=no", "-o", "ServerAliveInterval=30",
    "-o", "ServerAliveCountMax=3", "-o", "ExitOnForwardFailure=yes", "-o", "BatchMode=yes"]

  function Flags(vm: string, slots: seq<nat>): (r: seq<string>)
    ensures |r| == 2 * |slots|
    decreases |slots|
  {
    if slots == [] then []
    else Flags(vm, slots[..|slots| - 1]) + ["-R", Forward(vm, slots[|slots| - 1])]
  }

  function Command(worker: string, vm: string, slots: seq<nat>): seq<string> {
    OPTIONS + Flags(vm, Sorted(slots)) + ["root@" + worker]
  }

  lemma FlagsNext(vm: string, slots: seq<nat>, i: nat)
    requires i < |slots|
    ensures Flags(vm, slots[..i + 1]) == Flags(vm, slots[..i]) + ["-R", Forward(vm, slots[i])]
  {
    assert slots[..i + 1][..i] == slots[..i];
  }

  lemma Attach(a: seq<string>, b: seq<string>, c: seq<string>)
    ensures a + b + c == a + (b + c)
  {
  }

  /** _build_bundled_ssh_cmd */
  method BuildBundledSshCmd(worker: string, vm: string, slots: seq<nat>) returns (cmd: seq<string>)
    ensures cmd == Command(worker, vm, slots)
  {
    cmd := OPTIONS;
    var sorted := Sorted(slots);
    for i := 0 to |sorted|
      invariant cmd == OPTIONS + Flags(vm, sorted[..i])
    {
      FlagsNext(vm, sorted, i);
      Attach(OPTIONS, Flags(vm, sorted[..i]), ["-R", Forward(vm, sorted[i])]);
      cmd := cmd + ["-R", Forward(vm, sorted[i])];
    }
    assert sorted[..|sorted|] == sorted;
    cmd := cmd + ["root@" + worker];
  }

  // ----- reading them back, as ssh does

  datatype Rule = Rule(port: nat, host: string, hostPort: nat)

  /** The text before the first colon. */
  function Head(s: string): (r: string)
    ensures r <= s && ':' !in r && (|r| < |s| ==> s[|r|] == ':')
    decreases |s|
  {
    if s == "" || s[0] == ':' then "" else [s[0]] + Head(s[1..])
  }

  /** `port:host:hostport`. */
  function ReadRule(s: string): Option<Rule> {
    var a := Head(s);
    if |a| == |s| then None else
    var rest := s[|a| + 1..];
    var b := Head(rest);
    if |b| == |rest| then None else
    var p, q := Parse(a), Parse(rest[|b| + 1..]);
    if p.None? || q.None? then None else Some(Rule(p.value, b, q.value))
  }

  /** The rules of all `-R` arguments, in order. */
  function ReadRules(args: seq<string>): seq<Rule>
    decreases |args|
  {
    if |args| < 2 then []
    else if args[0] == "-R" && ReadRule(args[1]).Some? then [ReadRule(args[1]).value] + ReadRules(args[2..])
    else ReadRules(args[1..])
  }

  function RuleOf(vm: string, slot: nat): Rule {
    Rule(PPPOE_BASE + slot, vm, VM_BASE + slot)
  }

  function RulesOf(vm: string, slots: seq<nat>): seq<Rule> {
    seq(|slots|, i requires 0 <= i < |slots| => RuleOf(vm, slots[i]))
  }

  lemma {:induction false} HeadOf(a: string, rest: string)
    requires ':' !in a
    ensures Head(a + ":" + rest) == a
    decreases |a|
  {
    if a != "" {
      HeadOf(a[1..], rest);
      assert (a + ":" + rest)[1..] == a[1..] + ":" + rest;
    }
  }

  lemma ReadForward(vm: string, slot: nat)
    requires ':' !in vm
    ensures ReadRule(Forward(vm, slot)) == Some(RuleOf(vm, slot))
  {
    var a, q := Show(PPPOE_BASE + slot), Show(VM_BASE + slot);
    var s := Forward(vm, slot);
    assert s == a + ":" + (vm + ":" + q);
    HeadOf(a, vm + ":" + q);
    assert s[|a| + 1..] == vm + ":" + q;
    HeadOf(vm, q);
    assert (vm + ":" + q)[|vm| + 1..] == q;
    ParseShow(PPPOE_BASE + slot);
    ParseShow(VM_BASE + slot);
  }

  lemma ReadFirst(flag: string, rest: seq<string>)
    requires ReadRule(flag).Some?
    ensures ReadRules(["-R", flag] + rest) == [ReadRule(flag).value] + ReadRules(rest)
  {
    assert (["-R", flag] + rest)[2..] == rest;
  }

  lemma RulesFirst(vm: string, slots: seq<nat>)
    requires slots != []
    ensures RulesOf(vm, slots) == [RuleOf(vm, slots[0])] + RulesOf(vm, slots[1..])
  {
  }

  lemma ReadNone(last: string)
    ensures ReadRules([last]) == []
  {
  }

  lemma FlagsSplit(vm: string, slots: seq<nat>, last: string)
    requires slots != []
    ensures Flags(vm, slots) + [last] == ["-R", Forward(vm, slots[0])] + (Flags(vm, slots[1..]) + [last])
  {
    FlagsFirst(vm, slots);
  }

  lemma {:induction false} ReadFlags(vm: string, slots: seq<nat>, last: string)
    requires ':' !in vm
    ensures ReadRules(Flags(vm, slots) + [last]) == RulesOf(vm, slots)
    decreases |slots|
  {
    if slots == [] {
      ReadNone(last);
      assert Flags(vm, slots) + [last] == [last];
    } else {
      ReadFlags(vm, slots[1..], last);
      RulesFirst(vm, slots);
      FlagsSplit(vm, slots, last);
      ReadForward(vm, slots[0]);
      ReadFirst(Forward(vm, slots[0]), Flags(vm, slots[1..]) + [last]);
    }
  }

  lemma {:induction false} FlagsFirst(vm: string, slots: seq<nat>)
    requires slots != []
    ensures Flags(vm, slots) == ["-R", Forward(vm, slots[0])] + Flags(vm, slots[1..])
    decreases |slots|
  {
    if |slots| > 1 {
      FlagsFirst(vm, slots[..|slots| - 1]);
      assert slots[..|slots| - 1][1..] == slots[1..][..|slots| - 2];
    } else {
      assert slots[..0] == [] && slots[1..] == [];
    }
  }

  lemma {:induction false} SkipOthers(others: seq<string>, args: seq<string>)
    requires "-R" !in others
    ensures ReadRules(others + args) == ReadRules(args)
    decreases |others|
  {
    if others == [] {
      assert others + args == args;
    } else {
      SkipOthers(others[1..], args);
      assert (others + args)[1..] == others[1..] + args;
      if |others + args| < 2 {
        assert args == [];
      }
    }
  }

  predicate ValidPort(p: nat) {
    1 <= p <= 65535
  }

  ghost predicate DistinctPorts(rules: seq<Rule>) {
    forall i, j :: 0 <= i < j < |rules| ==> rules[i].port != rules[j].port
  }

  /** Reading the command back gives one forward per slot, in ascending order of slot, none of
      them on the SOCKS port; the ports are all different exactly when the slots are, and all
      valid exactly when no slot exceeds 46435. */
  lemma CommandReadsBack(worker: string, vm: string, slots: seq<nat>)
    requires ':' !in vm
    ensures var rules := ReadRules(Command(worker, vm, slots));
            && rules == RulesOf(vm, Sorted(slots))
            && Ascending(Sorted(slots)) && multiset(Sorted(slots)) == multiset(slots)
            && (DistinctPorts(rules) <==> Distinct(slots))
            && ((forall r :: r in rules ==> ValidPort(r.port) && ValidPort(r.hostPort))
                <==> forall x :: x in slots ==> x <= 46435)
            && (forall r :: r in rules ==> r.port != PROXY_PORT)
  {
    var sorted := Sorted(slots);
    var rest := Flags(vm, sorted) + ["root@" + worker];
    assert Command(worker, vm, slots) == OPTIONS + rest;
    SkipOthers(OPTIONS, rest);
    ReadFlags(vm, sorted, "root@" + worker);
    SortedFacts(slots);
    SortedDistinct(slots);
    SortedMembers(slots);
    RulePorts(vm, sorted);
    assert forall x :: x in sorted <==> x in Members(sorted);
    assert forall x :: x in slots <==> x in Members(slots);
  }

  lemma RulePorts(vm: string, slots: seq<nat>)
    ensures var rules := RulesOf(vm, slots);
            && (DistinctPorts(rules) <==> Distinct(slots))
            && ((forall r :: r in rules ==> ValidPort(r.port) && ValidPort(r.hostPort))
                <==> forall x :: x in slots ==> x <= 46435)
            && (forall r :: r in rules ==> r.port != PROXY_PORT)
  {
    var rules := RulesOf(vm, slots);
    assert forall i :: 0 <= i < |slots| ==> rules[i] == RuleOf(vm, slots[i]);
    if !Distinct(slots) {
      var i, j :| 0 <= i < j < |slots| && slots[i] == slots[j];
      assert rules[i].port == rules[j].port;
    }
    assert forall i :: 0 <= i < |slots| ==> slots[i] in slots;
    if forall r :: r in rules ==> ValidPort(r.port) && ValidPort(r.hostPort) {
      forall x | x in slots
        ensures x <= 46435
      {
        var i :| 0 <= i < |slots| && slots[i] == x;
        assert rules[i] in rules;
      }
    }
  }

  // ----- the other arguments

  /** The option is given. */
  predicate Given(args: seq<string>, option: string) {
    exists i :: 0 <= i < |args| - 1 && args[i] == "-o" && args[i + 1] == option
  }

  /** The program, no remote command, the options that keep a dead tunnel from lingering, and the
      worker as destination, behind the forwards and nothing else. */
  lemma CommandArguments(worker: string, vm: string, slots: seq<nat>)
    ensures var cmd := Command(worker, vm, slots);
            && |cmd| == 14 + 2 * |slots| + 1
            && cmd[0] == "ssh" && cmd[1] == "-i" && cmd[3] == "-N" && cmd[|cmd| - 1] == "root@" + worker
            && Given(cmd, "ExitOnForwardFailure=yes") && Given(cmd, "BatchMode=yes")
            && Given(cmd, "StrictHostKeyChecking=no")
            && Given(cmd, "ServerAliveInterval=30") && Given(cmd, "ServerAliveCountMax=3")
  {
    var cmd := Command(worker, vm, slots);
    SortedMembers(slots);
    assert cmd[4] == "-o" && cmd[5] == "StrictHostKeyChecking=no";
    assert cmd[6] == "-o" && cmd[7] == "ServerAliveInterval=30";
    assert cmd[8] == "-o" && cmd[9] == "ServerAliveCountMax=3";
    assert cmd[10] == "-o" && cmd[11] == "ExitOnForwardFailure=yes";
    assert cmd[12] == "-o" && cmd[13] == "BatchMode=yes";
  }

  /** In numbers: slot `n` is port 19100 + n of the worker and 10000 + n of the VM. */
  lemma RulesSpelled(worker: string, vm: string, slots: seq<nat>, i: nat)
    requires ':' !in vm && i < |Sorted(slots)|
    ensures var rules := ReadRules(Command(worker, vm, slots));
            && |rules| == |slots| == |Sorted(slots)|
            && rules[i] == Rule(19100 + Sorted(slots)[i], vm, 10000 + Sorted(slots)[i]) && rules[i].port != 19056
  {
    CommandReadsBack(worker, vm, slots);
    SortedMembers(slots);
  }
}
