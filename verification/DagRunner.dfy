/** The node loop of the DAG runner: what it records, when it stops, and what it reports. What a
    step meets on the page, in the worker's own API or in a handler is an input. */
module DagRunner {
  import opened Options

  datatype Action = Navigate | Fill | Type | Click | Wait | Script | OtherAction

  /** The intents the loop treats specially, `navigate_to_signin`, `phase0_cascade_check` and
      `phase1_uc_stealth_login`, and all others by name. */
  datatype Intent = SignIn | CascadeCheck | UcLogin | Named(name: string)

  datatype Node = Node(intent: Intent, action: Action, failOk: bool)

  /** What one step meets: an exception; whether a locator or the endpoint worked; whether a
      navigation was redirected away from the sign-in page; whether the cascade check and the UC
      login answered positively; whether a failed navigation was authenticated already; whether a
      post-action handler, where one is registered, raises. */
  datatype Step = Step(raises: bool, works: bool, redirected: bool, sessionValid: bool, loginOk: bool,
                       authConfirmed: bool, handlerRaises: bool)

  predicate Native(a: Action) {
    a.Navigate? || a.Fill? || a.Click? || a.Wait?
  }

  /** The step leaves the loop from inside, successfully. */
  predicate LeavesEarly(n: Node, s: Step, loggedIn: bool) {
    || (n.action.Navigate? && !loggedIn && !s.raises && n.intent.SignIn? && s.redirected)
    || (n.action.Script? && s.works && n.intent.CascadeCheck? && s.sessionValid)
  }

  /** The action itself succeeds, before the post-action handlers. */
  predicate Acts(n: Node, s: Step, loggedIn: bool) {
    if loggedIn && Native(n.action) then true
    else match n.action
      case Navigate => !s.raises
      case Wait => !s.raises
      case Fill => s.works
      case Type => s.works
      case Click => s.works
      case Script => s.works
      case OtherAction => true
  }

  /** A post-action handler runs only if one is registered for the intent. */
  predicate HandlerFails(n: Node, s: Step, handled: set<Intent>) {
    n.intent in handled && s.handlerRaises
  }

  predicate Succeeds(n: Node, s: Step, loggedIn: bool, handled: set<Intent>) {
    Acts(n, s, loggedIn) && (LeavesEarly(n, s, loggedIn) || !HandlerFails(n, s, handled))
  }

  predicate LogsIn(n: Node, s: Step) {
    n.action.Script? && s.works && n.intent.UcLogin? && s.loginOk
  }

  /** Whether some step before `i` logged in through UC. */
  predicate LoggedIn(nodes: seq<Node>, steps: nat -> Step, i: nat)
    requires i <= |nodes|
  {
    i > 0 && (LoggedIn(nodes, steps, i - 1) || LogsIn(nodes[i - 1], steps(i - 1)))
  }

  /** A failure that the graph does not excuse. */
  predicate Fatal(n: Node, ok: bool) {
    !ok && !n.action.Wait? && !n.failOk
  }

  /** A failed sign-in navigation of a session that is authenticated already ends the loop. */
  predicate SignedInAnyway(n: Node, s: Step, ok: bool) {
    !ok && !n.action.Wait? && n.failOk && n.intent.SignIn? && s.authConfirmed
  }

  /** What one step comes to: whether it succeeds, and which of the three ways out of the loop it
      takes, if any. */
  datatype Verdict = Verdict(ok: bool, early: bool, fatal: bool, excused: bool) {
    predicate Ends() {
      early || fatal || excused
    }
  }

  function Judge(n: Node, s: Step, loggedIn: bool, handled: set<Intent>): (v: Verdict)
    ensures v.early ==> v.ok && !v.fatal
  {
    var ok := Succeeds(n, s, loggedIn, handled);
    Verdict(ok, LeavesEarly(n, s, loggedIn), Fatal(n, ok), SignedInAnyway(n, s, ok))
  }

  /** The verdict on step `i`, with the login flag of the steps before it. */
  function JudgeAt(nodes: seq<Node>, steps: nat -> Step, handled: set<Intent>, i: nat): Verdict
    requires i < |nodes|
  {
    Judge(nodes[i], steps(i), LoggedIn(nodes, steps, i), handled)
  }

  datatype Record = Record(intent: Intent, ok: bool)
  datatype TraceNode = TraceNode(intent: Intent, action: Action, previous: Option<Intent>)

  /** The body of one iteration: navigation, locators, scripts and handlers. */
  method Perform(n: Node, s: Step, loggedIn: bool, handled: set<Intent>) returns (ok: bool, early: bool, login: bool)
    ensures early == LeavesEarly(n, s, loggedIn) && ok == Succeeds(n, s, loggedIn, handled)
    ensures login == (loggedIn || LogsIn(n, s))
  {
    ok, early, login := false, false, loggedIn;
    if loggedIn && Native(n.action) {
      ok := true;
    } else {
      match n.action {
        case Navigate =>
          ok := !s.raises;
          if ok && n.intent.SignIn? && s.redirected {
            return true, true, login;
          }
        case Wait => ok := !s.raises;
        case Fill => ok := s.works;
        case Type => ok := s.works;
        case Click => ok := s.works;
        case Script =>
          ok := s.works;
          if ok && n.intent.CascadeCheck? && s.sessionValid {
            return true, true, login;
          }
          if ok && n.intent.UcLogin? && s.loginOk {
            login := true;
          }
        case OtherAction => ok := true;
      }
    }
    if ok && n.intent in handled && s.handlerRaises {
      ok := false;
    }
  }

  /** Everything a run of the node loop leaves behind. */
  datatype Report = Report(results: seq<Record>, traceNodes: seq<TraceNode>, allOk: bool)

  /** The loop from node `i` on, given the verdicts and what was recorded before. */
  function RunFrom(nodes: seq<Node>, verdicts: seq<Verdict>, trace: bool, i: nat, r: Report): Report
    requires i <= |nodes| == |verdicts|
    decreases |nodes| - i
  {
    if i == |nodes| then r
    else
      var recorded := r.(results := r.results + [Record(nodes[i].intent, verdicts[i].ok)]);
      if verdicts[i].early then recorded
      else
        var r' := Traced(trace, nodes[i], recorded);
        if verdicts[i].fatal then r'.(allOk := false)
        else if verdicts[i].excused then r'
        else RunFrom(nodes, verdicts, trace, i + 1, r')
  }

  function Traced(trace: bool, n: Node, r: Report): Report {
    if trace then r.(traceNodes := r.traceNodes + [Linked(n, r.results)]) else r
  }

  /** The trace node of the step recorded last, linked to the record before it. */
  function Linked(n: Node, results: seq<Record>): TraceNode {
    TraceNode(n.intent, n.action, if |results| >= 2 then Some(results[|results| - 2].intent) else None)
  }

  function Verdicts(nodes: seq<Node>, steps: nat -> Step, handled: set<Intent>): seq<Verdict> {
    seq(|nodes|, i requires 0 <= i < |nodes| => JudgeAt(nodes, steps, handled, i))
  }

  function Run(nodes: seq<Node>, steps: nat -> Step, handled: set<Intent>, trace: bool): Report {
    RunFrom(nodes, Verdicts(nodes, steps, handled), trace, 0, Report([], [], true))
  }

  /** The node loop. */
  method RunNodes(nodes: seq<Node>, steps: nat -> Step, handled: set<Intent>, trace: bool) returns (r: Report)
    ensures r == Run(nodes, steps, handled, trace)
  {
    ghost var verdicts := Verdicts(nodes, steps, handled);
    var results, traceNodes, loggedIn := [], [], false;
    for i := 0 to |nodes|
      invariant loggedIn == LoggedIn(nodes, steps, i)
      invariant RunFrom(nodes, verdicts, trace, i, Report(results, traceNodes, true))
             == Run(nodes, steps, handled, trace)
    {
      var n, s := nodes[i], steps(i);
      assert verdicts[i] == Judge(n, s, loggedIn, handled);
      var ok, early, login := Perform(n, s, loggedIn, handled);
      results := results + [Record(n.intent, ok)];
      if early {
        return Report(results, traceNodes, true);
      }
      loggedIn := login;
      if trace {
        var previous := if |results| >= 2 then Some(results[|results| - 2].intent) else None;
        traceNodes := traceNodes + [TraceNode(n.intent, n.action, previous)];
      }
      if !ok && !n.action.Wait? {
        if n.failOk {
          if n.intent.SignIn? && s.authConfirmed {
            return Report(results, traceNodes, true);
          }
        } else {
          return Report(results, traceNodes, false);
        }
      }
    }
    return Report(results, traceNodes, true);
  }

  // ----- what the report says

  ghost predicate Recorded(nodes: seq<Node>, verdicts: seq<Verdict>, results: seq<Record>) {
    && |results| <= |nodes| == |verdicts|
    && forall i :: 0 <= i < |results| ==> results[i] == Record(nodes[i].intent, verdicts[i].ok)
  }

  ghost predicate NoneEnds(verdicts: seq<Verdict>, k: nat) {
    k <= |verdicts| && forall i :: 0 <= i < k ==> !verdicts[i].Ends()
  }

  ghost predicate BackLinked(nodes: seq<Node>, traceNodes: seq<TraceNode>) {
    && |traceNodes| <= |nodes|
    && forall i :: 0 <= i < |traceNodes| ==>
         && traceNodes[i].intent == nodes[i].intent && traceNodes[i].action == nodes[i].action
         && traceNodes[i].previous == if i == 0 then None else Some(nodes[i - 1].intent)
  }

  /** The loop records every step up to the first that ends it. */
  lemma {:induction false} RecordsFrom(nodes: seq<Node>, verdicts: seq<Verdict>, trace: bool, i: nat, r: Report)
    requires i <= |nodes| && |r.results| == i && r.allOk
    requires Recorded(nodes, verdicts, r.results) && NoneEnds(verdicts, i)
    ensures var z := RunFrom(nodes, verdicts, trace, i, r);
            var k := |z.results|;
            && Recorded(nodes, verdicts, z.results)
            && i <= k && NoneEnds(verdicts, if k == 0 then 0 else k - 1)
            && (k < |nodes| ==> k > 0 && verdicts[k - 1].Ends())
            && z.allOk == (k == 0 || verdicts[k - 1].early || !verdicts[k - 1].fatal)
    decreases |nodes| - i
  {
    if i < |nodes| {
      var recorded := r.(results := r.results + [Record(nodes[i].intent, verdicts[i].ok)]);
      assert Recorded(nodes, verdicts, recorded.results);
      if !verdicts[i].Ends() {
        assert NoneEnds(verdicts, i + 1);
        RecordsFrom(nodes, verdicts, trace, i + 1, Traced(trace, nodes[i], recorded));
      }
    }
  }

  /** The trace is the prefix that was recorded, each node linked to the one before it, without
      a step that left early. */
  lemma {:induction false} TraceFrom(nodes: seq<Node>, verdicts: seq<Verdict>, i: nat, r: Report)
    requires i <= |nodes| && |r.results| == i && Recorded(nodes, verdicts, r.results)
    requires |r.traceNodes| == i && BackLinked(nodes, r.traceNodes)
    ensures var z := RunFrom(nodes, verdicts, true, i, r);
            var k := |z.results|;
            && i <= k <= |nodes| && BackLinked(nodes, z.traceNodes)
            && |z.traceNodes| == if k > i && verdicts[k - 1].early then k - 1 else k
    decreases |nodes| - i
  {
    if i < |nodes| {
      var recorded := r.(results := r.results + [Record(nodes[i].intent, verdicts[i].ok)]);
      var r' := Traced(true, nodes[i], recorded);
      assert Recorded(nodes, verdicts, recorded.results);
      assert Linked(nodes[i], recorded.results).previous == if i == 0 then None else Some(nodes[i - 1].intent);
      assert BackLinked(nodes, r'.traceNodes);
      if !verdicts[i].Ends() {
        TraceFrom(nodes, verdicts, i + 1, r');
      }
    }
  }

  lemma {:induction false} NoTraceFrom(nodes: seq<Node>, verdicts: seq<Verdict>, i: nat, r: Report)
    requires i <= |nodes| == |verdicts|
    ensures RunFrom(nodes, verdicts, false, i, r).traceNodes == r.traceNodes
    decreases |nodes| - i
  {
    if i < |nodes| {
      var recorded := r.(results := r.results + [Record(nodes[i].intent, verdicts[i].ok)]);
      if !verdicts[i].Ends() {
        NoTraceFrom(nodes, verdicts, i + 1, recorded);
      }
    }
  }

  /** Fatal verdicts are those on unexcused failures, and a step that leaves early is none. */
  ghost predicate Fair(nodes: seq<Node>, verdicts: seq<Verdict>) {
    && |nodes| == |verdicts|
    && forall i :: 0 <= i < |nodes| ==>
         verdicts[i].fatal == Fatal(nodes[i], verdicts[i].ok) && (verdicts[i].early ==> !verdicts[i].fatal)
  }

  lemma VerdictsFair(nodes: seq<Node>, steps: nat -> Step, handled: set<Intent>)
    ensures Fair(nodes, Verdicts(nodes, steps, handled))
  {
    var verdicts := Verdicts(nodes, steps, handled);
    forall i | 0 <= i < |nodes|
      ensures verdicts[i].fatal == Fatal(nodes[i], verdicts[i].ok) && (verdicts[i].early ==> !verdicts[i].fatal)
    {
      assert verdicts[i] == Judge(nodes[i], steps(i), LoggedIn(nodes, steps, i), handled);
    }
  }

  /** Every recorded step succeeded, was a wait or is allowed to fail. */
  ghost predicate AllExcused(nodes: seq<Node>, results: seq<Record>) {
    |results| <= |nodes| && forall i :: 0 <= i < |results| ==> !Fatal(nodes[i], results[i].ok)
  }

  lemma BlameIsLast(nodes: seq<Node>, verdicts: seq<Verdict>, r: Report)
    requires Fair(nodes, verdicts) && Recorded(nodes, verdicts, r.results)
    requires NoneEnds(verdicts, if r.results == [] then 0 else |r.results| - 1)
    requires var k := |r.results|; r.allOk == (k == 0 || verdicts[k - 1].early || !verdicts[k - 1].fatal)
    ensures r.allOk <==> AllExcused(nodes, r.results)
    ensures !r.allOk ==> r.results != [] && Fatal(nodes[|r.results| - 1], r.results[|r.results| - 1].ok)
  {
    forall i | 0 <= i < |r.results| && (r.allOk || i < |r.results| - 1)
      ensures !Fatal(nodes[i], r.results[i].ok)
    {
      assert r.results[i].ok == verdicts[i].ok;
      if i < |r.results| - 1 {
        assert !verdicts[i].Ends();
      }
    }
  }

  /** For every graph and every outcome of the steps: the recorded intents are a prefix of the
      graph's up to the first step that ends the loop; success is reported exactly when every
      recorded step succeeded, was a wait or is allowed to fail, and otherwise the last step is
      to blame; a requested trace is the same prefix, correctly back-linked, without a last step
      that left early. */
  lemma RunReports(nodes: seq<Node>, steps: nat -> Step, handled: set<Intent>, trace: bool)
    ensures var r, verdicts := Run(nodes, steps, handled, trace), Verdicts(nodes, steps, handled);
            var k := |r.results|;
            && Recorded(nodes, verdicts, r.results)
            && NoneEnds(verdicts, if k == 0 then 0 else k - 1)
            && (k < |nodes| ==> k > 0 && verdicts[k - 1].Ends())
            && (r.allOk <==> AllExcused(nodes, r.results))
            && (!r.allOk ==> k > 0 && Fatal(nodes[k - 1], r.results[k - 1].ok))
            && (trace ==> BackLinked(nodes, r.traceNodes)
                          && |r.traceNodes| == if k > 0 && verdicts[k - 1].early then k - 1 else k)
            && (!trace ==> r.traceNodes == [])
  {
    VerdictsFair(nodes, steps, handled);
    ReportsOf(nodes, Verdicts(nodes, steps, handled), trace);
  }

  lemma ReportsOf(nodes: seq<Node>, verdicts: seq<Verdict>, trace: bool)
    requires Fair(nodes, verdicts)
    ensures var r := RunFrom(nodes, verdicts, trace, 0, Report([], [], true));
            var k := |r.results|;
            && Recorded(nodes, verdicts, r.results)
            && NoneEnds(verdicts, if k == 0 then 0 else k - 1)
            && (k < |nodes| ==> k > 0 && verdicts[k - 1].Ends())
            && (r.allOk <==> AllExcused(nodes, r.results))
            && (!r.allOk ==> k > 0 && Fatal(nodes[k - 1], r.results[k - 1].ok))
            && (trace ==> BackLinked(nodes, r.traceNodes)
                          && |r.traceNodes| == if k > 0 && verdicts[k - 1].early then k - 1 else k)
            && (!trace ==> r.traceNodes == [])
  {
    var none := Report([], [], true);
    RecordsFrom(nodes, verdicts, trace, 0, none);
    if trace {
      TraceFrom(nodes, verdicts, 0, none);
    } else {
      NoTraceFrom(nodes, verdicts, 0, none);
    }
    BlameIsLast(nodes, verdicts, RunFrom(nodes, verdicts, trace, 0, none));
  }

  // ----- what the report says of the steps themselves

  /** An endpoint or a locator is tried, or the page is sent somewhere, and that does not work. */
  predicate Misses(n: Node, s: Step) {
    || (n.action == Navigate && s.raises)
    || (n.action in {Fill, Type, Click, Script} && !s.works)
  }

  /** The UC login step of the graph works and logs in. */
  predicate HasLogin(nodes: seq<Node>, steps: nat -> Step, k: nat) {
    exists j :: 0 <= j < k && j < |nodes|
      && nodes[j].action == Script && nodes[j].intent == UcLogin && steps(j).works && steps(j).loginOk
  }

  lemma {:induction false} NoLogin(nodes: seq<Node>, steps: nat -> Step, i: nat)
    requires i <= |nodes|
    ensures LoggedIn(nodes, steps, i) <==> HasLogin(nodes, steps, i)
    decreases i
  {
    if i > 0 {
      NoLogin(nodes, steps, i - 1);
    }
  }

  /** A recorded step that misses, where no step before it has logged in or it would not be skipped
      for that, is recorded as failed; if it may not fail, it is the last one, and the run is
      reported as failed. */
  lemma MissesEndRun(nodes: seq<Node>, steps: nat -> Step, handled: set<Intent>, trace: bool, i: nat)
    requires i < |Run(nodes, steps, handled, trace).results| && i < |nodes|
    requires Misses(nodes[i], steps(i))
    requires HasLogin(nodes, steps, i) ==> nodes[i].action in {Type, Script}
    ensures var r := Run(nodes, steps, handled, trace);
            && !r.results[i].ok
            && (!nodes[i].failOk ==> !r.allOk && |r.results| == i + 1)
  {
    RunReports(nodes, steps, handled, trace);
    NoLogin(nodes, steps, i);
    assert Verdicts(nodes, steps, handled)[i]
        == Judge(nodes[i], steps(i), HasLogin(nodes, steps, i), handled);
  }

  /** A wait that raises is recorded as failed, but never ends the run. */
  lemma FailedWaitsGoOn(nodes: seq<Node>, steps: nat -> Step, handled: set<Intent>, trace: bool, i: nat)
    requires i < |Run(nodes, steps, handled, trace).results| && i < |nodes|
    requires nodes[i].action == Wait && steps(i).raises && !HasLogin(nodes, steps, i)
    ensures var r := Run(nodes, steps, handled, trace);
            !r.results[i].ok && (i + 1 < |nodes| ==> i + 1 < |r.results|)
  {
    RunReports(nodes, steps, handled, trace);
    NoLogin(nodes, steps, i);
    assert Verdicts(nodes, steps, handled)[i] == Judge(nodes[i], steps(i), false, handled);
  }

  /** A successful run in which nothing logged in missed no step that may not fail. */
  lemma AllOkMissesNothing(nodes: seq<Node>, steps: nat -> Step, handled: set<Intent>, trace: bool)
    requires Run(nodes, steps, handled, trace).allOk
    requires !HasLogin(nodes, steps, |Run(nodes, steps, handled, trace).results|)
    ensures var r := Run(nodes, steps, handled, trace);
            forall i :: 0 <= i < |r.results| && i < |nodes| && !nodes[i].failOk ==> !Misses(nodes[i], steps(i))
  {
    var r := Run(nodes, steps, handled, trace);
    forall i | 0 <= i < |r.results| && i < |nodes| && !nodes[i].failOk && Misses(nodes[i], steps(i))
      ensures false
    {
      MissesEndRun(nodes, steps, handled, trace, i);
    }
  }

  /** A recorded step that does not miss and whose handler, if it has one, does not raise is recorded
      as succeeded, and ends the run only if it finds the session signed in already. */
  lemma HitsGoOn(nodes: seq<Node>, steps: nat -> Step, handled: set<Intent>, trace: bool, i: nat)
    requires i < |Run(nodes, steps, handled, trace).results| && i < |nodes|
    requires !Misses(nodes[i], steps(i)) && (nodes[i].action == Wait ==> !steps(i).raises)
    requires !(nodes[i].intent in handled && steps(i).handlerRaises)
    ensures var r := Run(nodes, steps, handled, trace);
            && r.results[i].ok
            && (i + 1 < |nodes| && |r.results| == i + 1 ==> FindsSession(nodes, steps, i))
  {
    RunReports(nodes, steps, handled, trace);
    NoLogin(nodes, steps, i);
    assert Verdicts(nodes, steps, handled)[i]
        == Judge(nodes[i], steps(i), HasLogin(nodes, steps, i), handled);
  }

  /** The step to the sign-in page is sent on elsewhere, or the cascade check finds a valid session. */
  predicate FindsSession(nodes: seq<Node>, steps: nat -> Step, i: nat)
    requires i < |nodes|
  {
    || (nodes[i].action == Navigate && nodes[i].intent == SignIn && !steps(i).raises && steps(i).redirected
        && !HasLogin(nodes, steps, i))
    || (nodes[i].action == Script && nodes[i].intent == CascadeCheck && steps(i).works && steps(i).sessionValid)
  }

  /** A failed step to the sign-in page that may fail, in a session that is signed in already. */
  predicate SignedIn(n: Node, s: Step, ok: bool) {
    !ok && n.failOk && n.intent == SignIn && n.action != Wait && s.authConfirmed
  }

  /** The run ends at a recorded step before the last of the graph exactly when that step finds a
      session, fails and may not, or fails in a session that is signed in; it is reported as
      successful then exactly when it is not the failure. */
  lemma EndsExactlyWhen(nodes: seq<Node>, steps: nat -> Step, handled: set<Intent>, trace: bool, i: nat)
    requires i < |Run(nodes, steps, handled, trace).results| && i + 1 < |nodes|
    ensures var r := Run(nodes, steps, handled, trace);
            var ok := r.results[i].ok;
            && (|r.results| == i + 1 <==> FindsSession(nodes, steps, i)
                                          || (!ok && nodes[i].action != Wait && !nodes[i].failOk)
                                          || SignedIn(nodes[i], steps(i), ok))
            && (|r.results| == i + 1 ==> (r.allOk <==> ok || nodes[i].failOk))
            && (FindsSession(nodes, steps, i) ==> ok)
  {
    RunReports(nodes, steps, handled, trace);
    NoLogin(nodes, steps, i);
    assert Verdicts(nodes, steps, handled)[i]
        == Judge(nodes[i], steps(i), HasLogin(nodes, steps, i), handled);
  }

  // ----- what a UC login changes for the rest of the run

  lemma {:induction false} LoginStays(nodes: seq<Node>, steps: nat -> Step, j: nat, i: nat)
    requires j < i <= |nodes| && LogsIn(nodes[j], steps(j))
    ensures LoggedIn(nodes, steps, i)
    decreases i
  {
    if j < i - 1 {
      LoginStays(nodes, steps, j, i - 1);
    }
  }

  /** Once a recorded step has logged in through UC, whatever the page does, a later native step
      fails exactly when a handler is registered for its intent and raises, and none leaves the loop
      early. */
  lemma LoginCarriesOver(nodes: seq<Node>, steps: nat -> Step, handled: set<Intent>, trace: bool, j: nat, i: nat)
    requires j < i < |Run(nodes, steps, handled, trace).results|
    requires i < |nodes| && LogsIn(nodes[j], steps(j)) && nodes[i].action in {Navigate, Fill, Click, Wait}
    ensures var r := Run(nodes, steps, handled, trace);
            && (r.results[i].ok <==> !HandlerFails(nodes[i], steps(i), handled))
            && (i + 1 < |nodes| && r.results[i].ok ==> i + 1 < |r.results|)
  {
    var verdicts := Verdicts(nodes, steps, handled);
    RunReports(nodes, steps, handled, trace);
    LoginStays(nodes, steps, j, i);
    assert verdicts[i] == Judge(nodes[i], steps(i), true, handled);
  }

  /** The handlers that the module registers, for the sign-in domain; other domains have none. */
  const SHIPPED: set<Intent> := {Named("click_signin")}

  /** A step that logs in is recorded as failed exactly when a handler is registered for its intent
      and raises. With the handlers that are shipped it never is, and the loop goes on. */
  lemma LoginRecordedExactlyWhen(nodes: seq<Node>, steps: nat -> Step, handled: set<Intent>, trace: bool, j: nat)
    requires j < |Run(nodes, steps, handled, trace).results|
    requires j < |nodes| && LogsIn(nodes[j], steps(j))
    ensures var r := Run(nodes, steps, handled, trace);
            && (!r.results[j].ok <==> UcLogin in handled && steps(j).handlerRaises)
            && (handled <= SHIPPED ==> r.results[j].ok)
            && (j + 1 < |nodes| && r.results[j].ok ==> j + 1 < |r.results|)
  {
    RunReports(nodes, steps, handled, trace);
    assert Verdicts(nodes, steps, handled)[j]
        == Judge(nodes[j], steps(j), LoggedIn(nodes, steps, j), handled);
  }

  // ----- retries of one page action

  const CAP: real := 10.0

  function Doubled(base: real, i: nat): real {
    if i == 0 then base else 2.0 * Doubled(base, i - 1)
  }

  function Capped(x: real): real {
    if x < CAP then x else CAP
  }

  function Sum(xs: seq<real>): real
    decreases |xs|
  {
    if xs == [] then 0.0 else Sum(xs[..|xs| - 1]) + xs[|xs| - 1]
  }

  /** _dom_retry_backoff. It returns the first success, or raises after exactly `maxRetries` + 1
      failures; the delays are the capped doublings of `base` exactly when `base` is within the
      cap or nothing was retried, and then they add up to at most the cap per retry. */
  method RetryWithBackoff(succeeds: nat -> bool, maxRetries: nat, base: real)
    returns (ok: bool, attempts: nat, delays: seq<real>)
    ensures 1 <= attempts <= maxRetries + 1 && |delays| == attempts - 1
    ensures forall i :: 0 <= i < attempts - 1 ==> !succeeds(i)
    ensures ok == succeeds(attempts - 1)
    ensures !ok ==> attempts == maxRetries + 1
    ensures (forall i :: 0 <= i < |delays| ==> delays[i] == Capped(Doubled(base, i))) <==> base <= 10.0 || delays == []
    ensures base <= 10.0 ==> Sum(delays) <= 10.0 * maxRetries as real
  {
    var delay := base;
    delays := [];
    attempts := 0;
    while true
      invariant 0 <= attempts <= maxRetries && |delays| == attempts
      invariant forall i :: 0 <= i < attempts ==> !succeeds(i)
      invariant attempts == 0 ==> delay == base
      invariant attempts > 0 ==> delays[0] == base
      invariant base <= CAP ==> delay == Capped(Doubled(base, attempts))
      invariant base <= CAP ==> forall i :: 0 <= i < |delays| ==> delays[i] == Capped(Doubled(base, i))
      invariant base <= CAP ==> Sum(delays) <= CAP * attempts as real
      decreases maxRetries - attempts
    {
      attempts := attempts + 1;
      if succeeds(attempts - 1) {
        return true, attempts, delays;
      }
      if attempts == maxRetries + 1 {
        return false, attempts, delays;
      }
      assert (delays + [delay])[..|delays|] == delays;
      delays := delays + [delay];
      delay := Capped(2.0 * delay);
    }
  }
}
