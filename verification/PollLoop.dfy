/** The simpler runner: tiers of locators tried in order of priority, and a node loop that stops
    at the first failing node without recording it. */
module PollLoop {
  import opened Options

  datatype Action = Navigate | Fill | Click | Wait | OtherAction

  /** What trying one tier on the page comes to. */
  datatype Attempt = NoLocator | Absent | Refused | Works

  datatype Node = Node(intent: string, action: Action, priority: seq<int>)

  /** What a step meets: whether navigation or waiting raises, and how each tier fares. */
  datatype Step = Step(raises: bool, tiers: int -> Attempt)

  predicate Succeeds(n: Node, s: Step) {
    match n.action
    case Navigate => !s.raises
    case Wait => !s.raises
    case Fill => exists k :: 0 <= k < |n.priority| && s.tiers(n.priority[k]).Works?
    case Click => exists k :: 0 <= k < |n.priority| && s.tiers(n.priority[k]).Works?
    case OtherAction => true
  }

  /** Navigation or a wait raises, or no tier of a fill or a click works. */
  predicate Misses(n: Node, s: Step) {
    || (n.action in {Navigate, Wait} && s.raises)
    || (n.action in {Fill, Click} && forall k :: 0 <= k < |n.priority| ==> s.tiers(n.priority[k]) != Works)
  }

  /** The locator loop of fill and click: the first working tier is the one acted on, and the
      only one. */
  method TryTiers(priority: seq<int>, tiers: int -> Attempt) returns (used: Option<nat>)
    ensures used.Some? ==> used.value < |priority| && tiers(priority[used.value]).Works?
    ensures used.Some? ==> forall j :: 0 <= j < used.value ==> !tiers(priority[j]).Works?
    ensures used.None? ==> forall k :: 0 <= k < |priority| ==> !tiers(priority[k]).Works?
  {
    for i := 0 to |priority|
      invariant forall j :: 0 <= j < i ==> !tiers(priority[j]).Works?
    {
      match tiers(priority[i]) {
        case NoLocator => continue;
        case Absent => continue;
        case Refused => continue;
        case Works => return Some(i);
      }
    }
    return None;
  }

  /** The node loop: the recorded intents are the longest prefix of the graph whose steps all
      succeed, and the run is reported as successful exactly when that is the whole graph. */
  method RunNodes(nodes: seq<Node>, steps: nat -> Step) returns (results: seq<string>, allOk: bool)
    ensures |results| <= |nodes|
    ensures forall i :: 0 <= i < |results| ==> results[i] == nodes[i].intent && Succeeds(nodes[i], steps(i))
    ensures |results| < |nodes| ==> !Succeeds(nodes[|results|], steps(|results|))
    ensures allOk <==> |results| == |nodes|
    ensures forall i :: 0 <= i < |results| ==> !Misses(nodes[i], steps(i))
    ensures |results| < |nodes| ==> Misses(nodes[|results|], steps(|results|))
  {
    results, allOk := [], true;
    for i := 0 to |nodes|
      invariant |results| == i && allOk
      invariant forall j :: 0 <= j < i ==> results[j] == nodes[j].intent && Succeeds(nodes[j], steps(j))
    {
      var n, s := nodes[i], steps(i);
      var ok := false;
      if n.action.Fill? || n.action.Click? {
        var used := TryTiers(n.priority, s.tiers);
        ok := used.Some?;
      } else if n.action.OtherAction? {
        ok := true;
      } else {
        ok := !s.raises;
      }
      if !ok {
        return results, false;
      }
      results := results + [n.intent];
    }
  }
}
